// The group gestures on a multi-layer selection: move, rotate about the centre
// of the selection's box, and resize of that box with every layer scaled in it.
module GroupTransform {
  import opened Wrappers
  import opened Types
  import opened Geometry
  import opened Transform

  /** A layer's new position and rotation after a group rotate. */
  datatype Turned = Turned(id: string, x: real, y: real, rotation: real)

  /** A layer's new box after a group resize. */
  datatype Scaled = Scaled(id: string, x: real, y: real, width: real, height: real)

  /** The group rotate as written: each layer's centre goes through
    * `rotatePoint` about `pivot` with the (cos, sin) of `angleDiff`, its
    * rotation is increased by `angleDiff`, and its size is kept. */
  function TurnAsWritten(l: Layer, pivot: Point, r: Rot, angleDiff: real): Turned {
    var c := RotatePoint(Center(LayerBox(l)), pivot, r);
    Turned(l.id, c.x - l.width / 2.0, c.y - l.height / 2.0, l.rotation + angleDiff)
  }

  /** The group rotate as intended: each centre turns about `pivot` the way
    * `rotate(angleDiff deg)` turns the layer itself, so the selection moves as
    * one rigid piece. */
  function Turn(l: Layer, pivot: Point, r: Rot, angleDiff: real): Turned {
    var c := Add(pivot, ToWorld(r, Sub(Center(LayerBox(l)), pivot)));
    Turned(l.id, c.x - l.width / 2.0, c.y - l.height / 2.0, l.rotation + angleDiff)
  }

  function TurnAllAsWritten(layers: seq<Layer>, pivot: Point, r: Rot, angleDiff: real): (t: seq<Turned>)
    ensures |t| == |layers|
    ensures forall i :: 0 <= i < |layers| ==> t[i] == TurnAsWritten(layers[i], pivot, r, angleDiff)
  {
    if layers == [] then [] else [TurnAsWritten(layers[0], pivot, r, angleDiff)] + TurnAllAsWritten(layers[1..], pivot, r, angleDiff)
  }

  function TurnAll(layers: seq<Layer>, pivot: Point, r: Rot, angleDiff: real): (t: seq<Turned>)
    ensures |t| == |layers|
    ensures forall i :: 0 <= i < |layers| ==> t[i] == Turn(layers[i], pivot, r, angleDiff)
  {
    if layers == [] then [] else [Turn(layers[0], pivot, r, angleDiff)] + TurnAll(layers[1..], pivot, r, angleDiff)
  }

  /** A group rotate, as written or corrected, adds the same angle to every
    * layer, and for a true rotation keeps each layer's centre at its distance
    * from the pivot; a layer centred on the pivot does not move. */
  lemma TurnFacts(l: Layer, pivot: Point, r: Rot, angleDiff: real)
    ensures var t := TurnAsWritten(l, pivot, r, angleDiff);
      var c := Point(t.x + l.width / 2.0, t.y + l.height / 2.0);
      t.id == l.id && t.rotation == l.rotation + angleDiff &&
      (IsUnit(r) ==> Norm2(Sub(c, pivot)) == Norm2(Sub(Center(LayerBox(l)), pivot))) &&
      (Center(LayerBox(l)) == pivot ==> c == pivot)
    ensures var t := Turn(l, pivot, r, angleDiff);
      var c := Point(t.x + l.width / 2.0, t.y + l.height / 2.0);
      t.id == l.id && t.rotation == l.rotation + angleDiff &&
      (IsUnit(r) ==> Norm2(Sub(c, pivot)) == Norm2(Sub(Center(LayerBox(l)), pivot))) &&
      (Center(LayerBox(l)) == pivot ==> c == pivot)
  {
    TurnedCentre(l, pivot, r, angleDiff);
    var w := TurnAsWritten(l, pivot, r, angleDiff);
    assert Point(w.x + l.width / 2.0, w.y + l.height / 2.0) == RotatePoint(Center(LayerBox(l)), pivot, r);
    if IsUnit(r) {
      RotatePreservesDistance(Center(LayerBox(l)), pivot, r);
    }
    RotatePivotFixed(pivot, r);
  }

  /** The corrected turn's facts about the moved centre. */
  lemma TurnedCentre(l: Layer, pivot: Point, r: Rot, angleDiff: real)
    ensures var t := Turn(l, pivot, r, angleDiff);
      var c := Point(t.x + l.width / 2.0, t.y + l.height / 2.0);
      (IsUnit(r) ==> Norm2(Sub(c, pivot)) == Norm2(Sub(Center(LayerBox(l)), pivot))) &&
      (Center(LayerBox(l)) == pivot ==> c == pivot)
  {
    var t := Turn(l, pivot, r, angleDiff);
    var d := Sub(Center(LayerBox(l)), pivot);
    var c := Add(pivot, ToWorld(r, d));
    assert Point(t.x + l.width / 2.0, t.y + l.height / 2.0) == c;
    assert Sub(c, pivot) == ToWorld(r, d);
    if IsUnit(r) {
      ToWorldNorm(r, d);
    }
  }

  /** The (cos, sin) of a sum of angles from those of its parts. */
  function Compose(a: Rot, b: Rot): Rot {
    Rot(a.c * b.c - a.s * b.s, a.s * b.c + a.c * b.s)
  }

  /** The corrected rotate is rigid: with `rl` the (cos, sin) of the layer's
    * rotation, every point of the layer as drawn, at local offset `o` from its
    * centre, lands where turning it about the pivot takes it. */
  lemma TurnIsRigid(l: Layer, pivot: Point, r: Rot, angleDiff: real, rl: Rot, o: Point)
    ensures var t := Turn(l, pivot, r, angleDiff);
      var c := Point(t.x + l.width / 2.0, t.y + l.height / 2.0);
      var p := Add(Center(LayerBox(l)), ToWorld(rl, o));
      Add(c, ToWorld(Compose(r, rl), o)) == Add(pivot, ToWorld(r, Sub(p, pivot)))
  {
    var m := Center(LayerBox(l));
    var d := Sub(m, pivot);
    var w := ToWorld(rl, o);
    var a := ToWorld(r, d);
    var b := ToWorld(Compose(r, rl), o);
    var t := Turn(l, pivot, r, angleDiff);
    assert Point(t.x + l.width / 2.0, t.y + l.height / 2.0) == Add(pivot, a);
    assert ToWorld(r, Sub(Add(m, w), pivot)) == Add(a, b) by {
      assert Sub(Add(m, w), pivot) == Add(d, w);
      ToWorldAdd(r, d, w);
      ToWorldCompose(r, rl, o);
    }
    assert Add(Add(pivot, a), b) == Add(pivot, Add(a, b));
  }

  /** As written, `rotatePoint` turns every centre the opposite way: it is the
    * corrected rotate by the negated angle, so on a quarter turn any layer off
    * the pivot lands elsewhere than the layers' own rotation puts it. */
  lemma WrittenTurnsBackwards(l: Layer, pivot: Point, r: Rot, angleDiff: real)
    ensures TurnAsWritten(l, pivot, r, angleDiff) == Turn(l, pivot, Rot(r.c, -r.s), angleDiff)
    ensures Center(LayerBox(l)) != pivot ==>
      var w := TurnAsWritten(l, pivot, Rot(0.0, 1.0), angleDiff);
      var t := Turn(l, pivot, Rot(0.0, 1.0), angleDiff);
      w.rotation == t.rotation && (w.x != t.x || w.y != t.y)
  {
  }

  /** Over the whole selection, the written rotate is the corrected one by the
    * negated angle. */
  lemma {:induction false} WrittenTurnAllBackwards(layers: seq<Layer>, pivot: Point, r: Rot, angleDiff: real)
    ensures TurnAllAsWritten(layers, pivot, r, angleDiff) == TurnAll(layers, pivot, Rot(r.c, -r.s), angleDiff)
  {
    forall i | 0 <= i < |layers|
      ensures TurnAllAsWritten(layers, pivot, r, angleDiff)[i] == TurnAll(layers, pivot, Rot(r.c, -r.s), angleDiff)[i]
    {
      WrittenTurnsBackwards(layers[i], pivot, r, angleDiff);
    }
  }

  /** The minimum side of a resized group box. */
  const MinGroupSide: real := 20.0

  /** The group box is never rotated, so the pointer delta is taken in an
    * unrotated frame: cos 0 = 1, sin 0 = 0. */
  const Unrotated: Rot := Rot(1.0, 0.0)

  lemma UnrotatedIsIdentity(d: Point)
    ensures ToLocal(Unrotated, d) == d && ToWorld(Unrotated, d) == d
  {
  }

  /** The new group box: the handle rules (with the same `r` quirk as a single
    * layer), both sides clamped to at least 20, recentred. */
  function GroupBox(h: Handle, box: Box, delta: Point): (b: Box)
    ensures b.width >= MinGroupSide && b.height >= MinGroupSide
  {
    var s := HandleSize(h, box.width, box.height, ToLocal(Unrotated, delta));
    Recentred(h, box, Unrotated, Max(MinGroupSide, s.x), Max(MinGroupSide, s.y))
  }

  /** The box's left edge stays where it was (its x never changes); a top
    * handle keeps the bottom edge, a bottom handle the top edge, and a side
    * handle the vertical centre. */
  lemma GroupBoxEdges(h: Handle, box: Box, delta: Point)
    ensures var b := GroupBox(h, box, delta);
      b.x == box.x &&
      (IsTop(h) ==> b.y + b.height == box.y + box.height) &&
      (IsBottom(h) ==> b.y == box.y) &&
      (!IsTop(h) && !IsBottom(h) ==> b.y + b.height / 2.0 == box.y + box.height / 2.0)
  {
    var b := GroupBox(h, box, delta);
    RecentredKeepsAnchor(h, box, Unrotated, b.width, b.height);
    UnrotatedIsIdentity(Anchor(h, b.width, b.height));
    UnrotatedIsIdentity(Anchor(h, box.width, box.height));
    HandleLetters(h);
  }

  /** One layer scaled inside the group box: its size multiplied by the box's
    * scale factors, its centre kept at the same scaled offset from the box
    * centre. */
  function ScaleInBox(l: Layer, box: Box, newBox: Box): Scaled
    requires box.width > 0.0 && box.height > 0.0
  {
    var sx := newBox.width / box.width;
    var sy := newBox.height / box.height;
    var rel := Sub(Center(LayerBox(l)), Center(box));
    var nc := Add(Center(newBox), Point(rel.x * sx, rel.y * sy));
    Scaled(l.id, nc.x - l.width * sx / 2.0, nc.y - l.height * sy / 2.0, l.width * sx, l.height * sy)
  }

  function ScaleAll(layers: seq<Layer>, box: Box, newBox: Box): (t: seq<Scaled>)
    requires box.width > 0.0 && box.height > 0.0
    ensures |t| == |layers|
    ensures forall i :: 0 <= i < |layers| ==> t[i] == ScaleInBox(layers[i], box, newBox)
  {
    if layers == [] then [] else [ScaleInBox(layers[0], box, newBox)] + ScaleAll(layers[1..], box, newBox)
  }

  function ScaledCenter(s: Scaled): Point { Center(Box(s.x, s.y, s.width, s.height)) }

  /** The formation scales rigidly: the offset between any two layers' centres
    * is scaled by the box's factors, as is each layer's size. */
  lemma ScaleRigid(a: Layer, b: Layer, box: Box, newBox: Box)
    requires box.width > 0.0 && box.height > 0.0
    ensures var sx := newBox.width / box.width;
      var sy := newBox.height / box.height;
      var sa := ScaleInBox(a, box, newBox);
      var sb := ScaleInBox(b, box, newBox);
      var d := Sub(Center(LayerBox(a)), Center(LayerBox(b)));
      Sub(ScaledCenter(sa), ScaledCenter(sb)) == Point(d.x * sx, d.y * sy) &&
      sa.width == a.width * sx && sa.height == a.height * sy
  {
    var sx := newBox.width / box.width;
    var sy := newBox.height / box.height;
    var ra := Sub(Center(LayerBox(a)), Center(box));
    var rb := Sub(Center(LayerBox(b)), Center(box));
    assert ScaledCenter(ScaleInBox(a, box, newBox)) == Add(Center(newBox), Point(ra.x * sx, ra.y * sy));
    assert ScaledCenter(ScaleInBox(b, box, newBox)) == Add(Center(newBox), Point(rb.x * sx, rb.y * sy));
    assert ra.x * sx - rb.x * sx == (ra.x - rb.x) * sx;
    assert ra.y * sy - rb.y * sy == (ra.y - rb.y) * sy;
  }

  /** A layer filling the whole box fills the whole new box. */
  lemma ScaleFillsBox(l: Layer, box: Box, newBox: Box)
    requires box.width > 0.0 && box.height > 0.0
    requires LayerBox(l) == box
    ensures var s := ScaleInBox(l, box, newBox);
      Box(s.x, s.y, s.width, s.height) == newBox
  {
    assert box.width * (newBox.width / box.width) == newBox.width;
    assert box.height * (newBox.height / box.height) == newBox.height;
  }

  /** The gesture record of the selection box. */
  class GroupInteraction {
    var gesture: Option<Gesture>
    var start: Point
    var box: Box
    var initialLayers: seq<Layer>
    var moveAxis: Option<Orientation>

    constructor ()
      ensures gesture == None && moveAxis == None
    {
      gesture := None;
      start := Point(0.0, 0.0);
      box := Box(0.0, 0.0, 0.0, 0.0);
      initialLayers := [];
      moveAxis := None;
    }

    /** Mouse-down on the selection box or one of its handles: ignored while
      * space is held; otherwise the gesture, the pointer, the box (with
      * rotation 0) and a copy of the selected layers are captured. */
    method MouseDown(b: Box, selected: seq<Layer>, g: Gesture, pointer: Point, spacePressed: bool)
      modifies this
      ensures spacePressed ==> unchanged(this)
      ensures !spacePressed ==>
        gesture == Some(g) && start == pointer && box == b && initialLayers == selected && moveAxis == None
    {
      if spacePressed {
        return;
      }
      gesture := Some(g);
      start := pointer;
      box := b;
      initialLayers := selected;
      moveAxis := None;
    }

    /** A group move: every captured layer shifted by the same locked delta;
      * sizes and rotations are not touched. */
    method MoveTo(pointer: Point, shift: bool, zoom: real) returns (placements: seq<Placement>)
      requires gesture == Some(Move) && zoom != 0.0
      modifies this`moveAxis
      ensures var d := Delta(start, pointer, zoom);
        moveAxis == LockedAxis(old(moveAxis), shift, d) &&
        placements == Shifted(initialLayers, LockDelta(moveAxis, d))
    {
      var d := Delta(start, pointer, zoom);
      moveAxis := LockedAxis(moveAxis, shift, d);
      placements := Shifted(initialLayers, LockDelta(moveAxis, d));
    }

    /** A group rotate to the pointer angle `angle` (degrees, an input), as
      * written: every layer's rotation grows by `angle + 90` and its centre goes
      * through `rotatePoint` about the box centre, which turns it the other
      * way; `r` is the cosine and sine of that angle. */
    method RotateTo(angle: real, r: Rot) returns (turned: seq<Turned>, angleDiff: real)
      requires gesture == Some(Rotate)
      ensures angleDiff == angle + 90.0
      ensures turned == TurnAllAsWritten(initialLayers, Center(box), r, angleDiff)
      ensures turned == TurnAll(initialLayers, Center(box), Rot(r.c, -r.s), angleDiff)
    {
      angleDiff := angle + 90.0 - 0.0;
      turned := TurnAllAsWritten(initialLayers, Center(box), r, angleDiff);
      WrittenTurnAllBackwards(initialLayers, Center(box), r, angleDiff);
    }

    /** The corrected group rotate: every centre turns about the box centre in
      * the same direction as the layers' own rotation. */
    method RotateToCorrected(angle: real, r: Rot) returns (turned: seq<Turned>, angleDiff: real)
      requires gesture == Some(Rotate)
      ensures angleDiff == angle + 90.0
      ensures turned == TurnAll(initialLayers, Center(box), r, angleDiff)
    {
      angleDiff := angle + 90.0 - 0.0;
      turned := TurnAll(initialLayers, Center(box), r, angleDiff);
    }

    /** A group resize: the new box from the handle rules, every captured layer
      * scaled within it. */
    method ResizeTo(pointer: Point, zoom: real) returns (scaled: seq<Scaled>)
      requires gesture.Some? && gesture.value.Resize? && zoom != 0.0
      requires box.width > 0.0 && box.height > 0.0
      ensures scaled == ScaleAll(initialLayers, box, GroupBox(gesture.value.handle, box, Delta(start, pointer, zoom)))
    {
      var newBox := GroupBox(gesture.value.handle, box, Delta(start, pointer, zoom));
      scaled := ScaleAll(initialLayers, box, newBox);
    }

    /** Mouse-up ends the interaction, once. */
    method MouseUp() returns (e: Ending)
      ensures e == InteractionEnd
    {
      e := InteractionEnd;
    }
  }
}
