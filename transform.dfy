// The single-layer gesture engine: move with axis lock and guide snapping,
// eight-handle resize in the layer's own frame, text resize that scales the
// font sizes, the auto-fit of text boxes and the span rebuild after editing.
module Transform {
  import opened Wrappers
  import opened Types
  import opened Geometry
  import TextSpans

  // ---------------------------------------------------------------- handles

  datatype Handle = TL | T | TR | L | R | BL | B | BR

  function HandleId(h: Handle): string {
    match h
    case TL => "tl" case T => "t" case TR => "tr" case L => "l"
    case R => "r" case BL => "bl" case B => "b" case BR => "br"
  }

  /** The interaction type string a handle starts: `resize-tl`, `resize-t`, ... */
  function ResizeType(h: Handle): string { "resize-" + HandleId(h) }

  /** `type.includes(c)` */
  predicate Includes(s: string, c: char) { c in s }

  predicate IsLeft(h: Handle) { h == TL || h == L || h == BL }
  predicate IsTop(h: Handle) { h == TL || h == T || h == TR }
  predicate IsBottom(h: Handle) { h == BL || h == B || h == BR }

  /** The letter tests on the whole type string: `r` is in "resize" itself, so it
    * holds for every handle; `l`, `t` and `b` only come from the handle id. */
  lemma HandleLetters(h: Handle)
    ensures Includes(ResizeType(h), 'r')
    ensures Includes(ResizeType(h), 'l') <==> IsLeft(h)
    ensures Includes(ResizeType(h), 't') <==> IsTop(h)
    ensures Includes(ResizeType(h), 'b') <==> IsBottom(h)
  {
    var s := ResizeType(h);
    assert s[0] == 'r';
    assert forall i :: 0 <= i < 7 ==> s[i] in "resize-";
    assert 'l' !in "resize-" && 't' !in "resize-" && 'b' !in "resize-";
    assert forall c :: c in s <==> c in "resize-" || c in HandleId(h);
  }

  /** The handle rules on a box size, with `d` the pointer delta in the box's
    * own frame: `r` adds `d.x` to the width, `l` subtracts it, `b` adds `d.y`
    * to the height and `t` subtracts it. */
  function HandleSize(h: Handle, width: real, height: real, d: Point): Point {
    var t := ResizeType(h);
    var w1 := if Includes(t, 'r') then width + d.x else width;
    var w2 := if Includes(t, 'l') then w1 - d.x else w1;
    var h1 := if Includes(t, 'b') then height + d.y else height;
    var h2 := if Includes(t, 't') then h1 - d.y else h1;
    Point(w2, h2)
  }

  /** What the rules amount to: left handles leave the width alone, every other
    * handle (top and bottom ones included) widens by `d.x`. */
  lemma HandleSizeEffect(h: Handle, width: real, height: real, d: Point)
    ensures HandleSize(h, width, height, d).x == if IsLeft(h) then width else width + d.x
    ensures HandleSize(h, width, height, d).y ==
      if IsBottom(h) then height + d.y else if IsTop(h) then height - d.y else height
  {
    HandleLetters(h);
  }

  /** `cxChange`/`cyChange`: how far the centre moves in the box's frame. The
    * `r` rule, tested last, decides the horizontal shift for every handle. */
  function CentreShift(h: Handle, widthChange: real, heightChange: real): Point {
    var t := ResizeType(h);
    var cx1 := if Includes(t, 'l') then -widthChange / 2.0 else 0.0;
    var cx := if Includes(t, 'r') then widthChange / 2.0 else cx1;
    var cy1 := if Includes(t, 't') then -heightChange / 2.0 else 0.0;
    var cy := if Includes(t, 'b') then heightChange / 2.0 else cy1;
    Point(cx, cy)
  }

  /** The box of the new size whose centre moved by the rotated centre shift. */
  function Recentred(h: Handle, init: Box, r: Rot, width: real, height: real): (b: Box)
    ensures b.width == width && b.height == height
  {
    var shift := CentreShift(h, width - init.width, height - init.height);
    BoxAround(Add(Center(init), ToWorld(r, shift)), width, height)
  }

  /** The point a handle keeps in place, as an offset from the centre in the box's
    * frame: the middle of the left edge, or its top end for bottom handles and
    * its bottom end for top handles. */
  function Anchor(h: Handle, width: real, height: real): Point {
    Point(-width / 2.0, if IsTop(h) then height / 2.0 else if IsBottom(h) then -height / 2.0 else 0.0)
  }

  /** Whatever the new size, the recentred box keeps its anchor point fixed in
    * world space: the left edge never moves, and neither does the bottom edge
    * for top handles or the top edge for bottom handles. */
  lemma RecentredKeepsAnchor(h: Handle, init: Box, r: Rot, width: real, height: real)
    ensures Add(Center(Recentred(h, init, r, width, height)), ToWorld(r, Anchor(h, width, height)))
         == Add(Center(init), ToWorld(r, Anchor(h, init.width, init.height)))
  {
    HandleLetters(h);
    var shift := CentreShift(h, width - init.width, height - init.height);
    assert Add(shift, Anchor(h, width, height)) == Anchor(h, init.width, init.height);
    ToWorldAdd(r, shift, Anchor(h, width, height));
  }

  // ---------------------------------------------------------------- resize of non-text layers

  /** The minimum side of a resized layer. */
  const MinSide: real := 10.0

  /** The new size of a non-text layer: the handle rules, both sides clamped to
    * at least 10, and with shift one side re-derived from the initial ratio. */
  function ResizedSize(h: Handle, init: Box, d: Point, shift: bool): Point
    requires shift ==> init.height > 0.0
  {
    var s := HandleSize(h, init.width, init.height, d);
    var w := Max(MinSide, s.x);
    var hh := Max(MinSide, s.y);
    if shift then
      var ratio := init.width / init.height;
      if w / hh > ratio then Point(hh * ratio, hh)
      else
        assert ratio > 0.0 by { DivPositive(w, hh); }
        Point(w, w / ratio)
    else Point(w, hh)
  }

  lemma DivPositive(a: real, b: real)
    requires a > 0.0 && b > 0.0
    ensures a / b > 0.0
  {
    assert (a / b) * b == a;
  }

  /** The non-text resize: the size from the handle rules and the box recentred. */
  function ResizedBox(h: Handle, init: Box, r: Rot, delta: Point, shift: bool): (b: Box)
    requires shift ==> init.height > 0.0
  {
    var size := ResizedSize(h, init, ToLocal(r, delta), shift);
    Recentred(h, init, r, size.x, size.y)
  }

  /** Without shift both sides are at least 10; left handles keep the width of a
    * box that was at least 10 wide (the quirk of the `r` test); every other
    * handle widens by the pointer's motion along the box's own x axis. */
  lemma ResizedBoxSize(h: Handle, init: Box, r: Rot, delta: Point)
    ensures var b := ResizedBox(h, init, r, delta, false);
      b.width >= MinSide && b.height >= MinSide &&
      b.width == Max(MinSide, if IsLeft(h) then init.width else init.width + ToLocal(r, delta).x) &&
      b.height == Max(MinSide, HandleSize(h, init.width, init.height, ToLocal(r, delta)).y)
  {
    HandleSizeEffect(h, init.width, init.height, ToLocal(r, delta));
  }

  /** The shift rule on already clamped sides: whichever side it re-derives, the
    * result has the ratio `ratio`. */
  lemma ShiftKeepsRatio(w: real, hh: real, iw: real, ih: real)
    requires w > 0.0 && hh > 0.0 && ih > 0.0
    ensures var ratio := iw / ih;
      if w / hh > ratio then (hh * ratio) * ih == hh * iw
      else ratio > 0.0 && w * ih == (w / ratio) * iw
  {
    var ratio := iw / ih;
    assert ratio * ih == iw;
    if w / hh > ratio {
      assert (hh * ratio) * ih == hh * (ratio * ih);
    } else {
      DivPositive(w, hh);
      var q := w / ratio;
      assert q * ratio == w;
      assert q * iw == q * (ratio * ih) == (q * ratio) * ih;
    }
  }

  /** With shift the result keeps the initial width-to-height ratio. */
  lemma ResizedSizeRatio(h: Handle, init: Box, d: Point)
    requires init.height > 0.0
    ensures var size := ResizedSize(h, init, d, true);
      size.x * init.height == size.y * init.width
  {
    var s := HandleSize(h, init.width, init.height, d);
    var w, hh := Max(MinSide, s.x), Max(MinSide, s.y);
    var ratio := init.width / init.height;
    ShiftKeepsRatio(w, hh, init.width, init.height);
    var size := ResizedSize(h, init, d, true);
    if w / hh > ratio {
      assert size == Point(hh * ratio, hh);
    } else {
      assert size == Point(w, w / ratio);
    }
  }

  /** The non-text resize keeps the handle's anchor point fixed. */
  lemma ResizedBoxAnchor(h: Handle, init: Box, r: Rot, delta: Point, shift: bool)
    requires shift ==> init.height > 0.0
    ensures var b := ResizedBox(h, init, r, delta, shift);
      Add(Center(b), ToWorld(r, Anchor(h, b.width, b.height)))
        == Add(Center(init), ToWorld(r, Anchor(h, init.width, init.height)))
  {
    var size := ResizedSize(h, init, ToLocal(r, delta), shift);
    RecentredKeepsAnchor(h, init, r, size.x, size.y);
  }

  // ---------------------------------------------------------------- resize of text layers

  /** The width the handle rules give a text box, before scaling: clamped to at
    * least 10 and, with a usable ratio, the height re-derived from it. Only the
    * width is used afterwards. */
  function TextHandleWidth(h: Handle, init: Box, d: Point): real {
    var t := ResizeType(h);
    var s := HandleSize(h, init.width, init.height, d);
    var w := Max(MinSide, s.x);
    var hh := Max(MinSide, s.y);
    if init.height != 0.0 && init.width / init.height > 0.0 then
      var ratio := init.width / init.height;
      if Includes(t, 'l') || Includes(t, 'r') then w
      else if Includes(t, 't') || Includes(t, 'b') then hh * ratio
      else if w / hh > ratio then hh * ratio
      else w
    else w
  }

  /** `scale = newWidth / initialWidth`, or 1 for a box without width. */
  function TextScale(h: Handle, init: Box, d: Point): real {
    if init.width > 0.0 then TextHandleWidth(h, init, d) / init.width else 1.0
  }

  /** The scale is always positive, so the text resize always applies; the
    * horizontal-dominant branch is the one taken for every handle. */
  lemma TextScalePositive(h: Handle, init: Box, d: Point)
    ensures TextScale(h, init, d) > 0.0
    ensures TextHandleWidth(h, init, d) >= MinSide
  {
    HandleLetters(h);
    if init.width > 0.0 {
      DivPositive(TextHandleWidth(h, init, d), init.width);
    }
  }

  /** A span font size after scaling: a set, non-zero size is multiplied and
    * floored at 1; an absent (or zero) size becomes absent. */
  function ScaleSpan(sp: TextSpan, scale: real): (r: TextSpan)
    ensures r.text == sp.text
    ensures r.style == sp.style.(fontSize := r.style.fontSize)
    ensures r.style.fontSize.Some? <==> sp.style.fontSize.Some? && sp.style.fontSize.value != 0.0
    ensures r.style.fontSize.Some? ==> r.style.fontSize.value >= 1.0
  {
    var size := sp.style.fontSize;
    TextSpan(sp.text, sp.style.(fontSize := if size.Some? && size.value != 0.0 then Some(Max(1.0, size.value * scale)) else None))
  }

  function ScaleSpans(spans: seq<TextSpan>, scale: real): (r: seq<TextSpan>)
    ensures |r| == |spans|
    ensures forall i :: 0 <= i < |spans| ==> r[i] == ScaleSpan(spans[i], scale)
  {
    if spans == [] then [] else [ScaleSpan(spans[0], scale)] + ScaleSpans(spans[1..], scale)
  }

  lemma {:induction false} ScaleSpansText(spans: seq<TextSpan>, scale: real)
    ensures TextSpans.PlainText(ScaleSpans(spans, scale)) == TextSpans.PlainText(spans)
  {
    if spans != [] {
      ScaleSpansText(spans[1..], scale);
      assert ScaleSpans(spans, scale)[1..] == ScaleSpans(spans[1..], scale);
    }
  }

  /** The outcome of a text resize: the base font size, the spans and the box. */
  datatype TextResize = TextResize(fontSize: real, spans: seq<TextSpan>, box: Box)

  /** Everything a text resize sets, for a given scale: the base size and every
    * set span size are scaled (floored at 1), and the box is the initial one
    * scaled and recentred. */
  function ScaledText(h: Handle, init: Box, text: TextProps, r: Rot, scale: real): TextResize {
    TextResize(Max(1.0, text.fontSize * scale), ScaleSpans(text.spans, scale),
               Recentred(h, init, r, init.width * scale, init.height * scale))
  }

  /** The text resize, from the captured layer state; when the scale is not
    * positive nothing is updated. */
  function TextResized(h: Handle, init: Box, text: TextProps, r: Rot, delta: Point): Option<TextResize> {
    var scale := TextScale(h, init, ToLocal(r, delta));
    if scale > 0.0 then Some(ScaledText(h, init, text, r, scale)) else None
  }

  /** A text resize always applies, with the scale that turns the initial width
    * into the width the handle rules give. */
  lemma TextResizedApplies(h: Handle, init: Box, text: TextProps, r: Rot, delta: Point)
    ensures TextResized(h, init, text, r, delta) == Some(ScaledText(h, init, text, r, TextScale(h, init, ToLocal(r, delta))))
    ensures init.width > 0.0 ==> init.width * TextScale(h, init, ToLocal(r, delta)) == TextHandleWidth(h, init, ToLocal(r, delta))
    ensures init.width <= 0.0 ==> TextScale(h, init, ToLocal(r, delta)) == 1.0
  {
    TextScaleWidth(h, init, ToLocal(r, delta));
  }

  /** The scale turns the initial width into the width the handle rules give. */
  lemma TextScaleWidth(h: Handle, init: Box, d: Point)
    ensures TextScale(h, init, d) > 0.0
    ensures init.width > 0.0 ==> init.width * TextScale(h, init, d) == TextHandleWidth(h, init, d)
    ensures init.width <= 0.0 ==> TextScale(h, init, d) == 1.0
  {
    TextScalePositive(h, init, d);
    if init.width > 0.0 {
      var w := TextHandleWidth(h, init, d);
      assert init.width * (w / init.width) == w;
    }
  }

  lemma ScaledRatio(iw: real, ih: real, scale: real)
    ensures (iw * scale) * ih == (ih * scale) * iw
  {
  }

  /** Width and height are the initial ones times one scale, so the height
    * follows the width through the initial ratio, and the base size stays at
    * least 1. */
  lemma ScaledTextSize(h: Handle, init: Box, text: TextProps, r: Rot, scale: real)
    ensures var res := ScaledText(h, init, text, r, scale);
      res.box.width == init.width * scale && res.box.height == init.height * scale &&
      res.box.width * init.height == res.box.height * init.width &&
      res.fontSize >= 1.0
  {
    ScaledRatio(init.width, init.height, scale);
  }

  /** The text is unchanged. */
  lemma ScaledTextText(h: Handle, init: Box, text: TextProps, r: Rot, scale: real)
    ensures TextSpans.PlainText(ScaledText(h, init, text, r, scale).spans) == TextSpans.PlainText(text.spans)
  {
    ScaleSpansText(text.spans, scale);
  }

  /** The anchor point stays fixed. */
  lemma ScaledTextAnchor(h: Handle, init: Box, text: TextProps, r: Rot, scale: real)
    ensures var b := ScaledText(h, init, text, r, scale).box;
      Add(Center(b), ToWorld(r, Anchor(h, b.width, b.height)))
        == Add(Center(init), ToWorld(r, Anchor(h, init.width, init.height)))
  {
    var w := init.width * scale;
    var hh := init.height * scale;
    var b := Recentred(h, init, r, w, hh);
    assert ScaledText(h, init, text, r, scale).box == b;
    RecentredKeepsAnchor(h, init, r, w, hh);
  }

  // ---------------------------------------------------------------- move, axis lock and snapping

  /** The axis a move is locked to after an event: released shift clears the
    * lock; held shift keeps an existing lock or picks horizontal exactly when
    * the horizontal motion is larger (ties go to vertical). */
  function LockedAxis(current: Option<Orientation>, shift: bool, d: Point): Option<Orientation> {
    if !shift then None
    else if current.Some? then current
    else if Abs(d.x) > Abs(d.y) then Some(Horizontal) else Some(Vertical)
  }

  /** The locked axis's delta is zeroed. */
  function LockDelta(axis: Option<Orientation>, d: Point): Point {
    match axis
    case None => d
    case Some(Horizontal) => Point(d.x, 0.0)
    case Some(Vertical) => Point(0.0, d.y)
  }

  /** The pointer delta since mouse-down, in artboard units. */
  function Delta(start: Point, pointer: Point, zoom: real): Point
    requires zoom != 0.0
  {
    Point((pointer.x - start.x) / zoom, (pointer.y - start.y) / zoom)
  }

  /** The snap tolerance, in screen pixels. */
  const SnapTolerance: real := 5.0

  /** The first point strictly within `threshold` of `position`. */
  function FirstWithin(points: seq<real>, position: real, threshold: real): Option<real> {
    if points == [] then None
    else if Abs(points[0] - position) < threshold then Some(points[0])
    else FirstWithin(points[1..], position, threshold)
  }

  /** No point matches, or the result is a point that does, at an index before
    * which none does. */
  lemma {:induction false} FirstWithinMeaning(points: seq<real>, position: real, threshold: real)
    ensures var m := FirstWithin(points, position, threshold);
      (m.None? <==> forall i :: 0 <= i < |points| ==> Abs(points[i] - position) >= threshold) &&
      (m.Some? ==> exists i :: 0 <= i < |points| && points[i] == m.value && Abs(m.value - position) < threshold &&
                             forall j :: 0 <= j < i ==> Abs(points[j] - position) >= threshold)
  {
    if points != [] && Abs(points[0] - position) >= threshold {
      FirstWithinMeaning(points[1..], position, threshold);
      assert forall i :: 1 <= i < |points| ==> points[i] == points[1..][i - 1];
      var m := FirstWithin(points, position, threshold);
      if m.Some? {
        var k :| 0 <= k < |points| - 1 && points[1..][k] == m.value && Abs(m.value - position) < threshold &&
                 forall j :: 0 <= j < k ==> Abs(points[1..][j] - position) >= threshold;
        assert points[k + 1] == m.value;
        assert forall j :: 0 <= j < k + 1 ==> Abs(points[j] - position) >= threshold;
      }
    }
  }

  /** The running state of the snap loop: the target position and the guide
    * positions matched so far, per orientation. */
  datatype Snaps = Snaps(target: Point, v: seq<real>, h: seq<real>)

  /** A vertical guide moves the target's x, a horizontal one its y. */
  function Along(p: Point, o: Orientation): real {
    if o == Vertical then p.x else p.y
  }

  function Reported(s: Snaps, o: Orientation): seq<real> {
    if o == Vertical then s.v else s.h
  }

  /** One guide of the snap loop: the first of the snap points within the
    * threshold moves the target so that this point lies on the guide. */
  function SnapStep(s: Snaps, g: Guide, xs: seq<real>, ys: seq<real>, threshold: real): Snaps {
    if g.orientation == Vertical then
      match FirstWithin(xs, g.position, threshold)
      case None => s
      case Some(p) => Snaps(Point(g.position - (p - s.target.x), s.target.y), s.v + [g.position], s.h)
    else
      match FirstWithin(ys, g.position, threshold)
      case None => s
      case Some(p) => Snaps(Point(s.target.x, g.position - (p - s.target.y)), s.v, s.h + [g.position])
  }

  function SnapFold(guides: seq<Guide>, xs: seq<real>, ys: seq<real>, threshold: real, s: Snaps): Snaps
    decreases |guides|
  {
    if guides == [] then s else SnapFold(guides[1..], xs, ys, threshold, SnapStep(s, guides[0], xs, ys, threshold))
  }

  /** The snap points of an axis, computed once from the unsnapped target. */
  function SnapPoints(p: Point, width: real, height: real, o: Orientation): seq<real> {
    if o == Vertical then [p.x, p.x + width / 2.0, p.x + width] else [p.y, p.y + height / 2.0, p.y + height]
  }

  function Snapped(guides: seq<Guide>, target: Point, width: real, height: real, threshold: real): Snaps {
    SnapFold(guides, SnapPoints(target, width, height, Vertical), SnapPoints(target, width, height, Horizontal),
             threshold, Snaps(target, [], []))
  }

  /** The positions of the guides of one orientation that some snap point is within the threshold of. */
  function Matching(guides: seq<Guide>, o: Orientation, points: seq<real>, threshold: real): seq<real> {
    if guides == [] then []
    else
      (if guides[0].orientation == o && FirstWithin(points, guides[0].position, threshold).Some?
       then [guides[0].position] else []) + Matching(guides[1..], o, points, threshold)
  }

  /** One step reports the guide's position exactly when one of its axis's
    * points matches it. */
  lemma SnapStepReports(s: Snaps, g: Guide, o: Orientation, xs: seq<real>, ys: seq<real>, threshold: real)
    ensures Reported(SnapStep(s, g, xs, ys, threshold), o) == Reported(s, o) +
      (if g.orientation == o && FirstWithin(if o == Vertical then xs else ys, g.position, threshold).Some?
       then [g.position] else [])
  {
  }

  /** Every matching guide's position is reported, in list order. */
  lemma {:induction false} SnapReports(guides: seq<Guide>, o: Orientation, xs: seq<real>, ys: seq<real>, threshold: real, s: Snaps)
    ensures Reported(SnapFold(guides, xs, ys, threshold, s), o) ==
      Reported(s, o) + Matching(guides, o, if o == Vertical then xs else ys, threshold)
    decreases |guides|
  {
    if guides != [] {
      var points := if o == Vertical then xs else ys;
      var next := SnapStep(s, guides[0], xs, ys, threshold);
      SnapStepReports(s, guides[0], o, xs, ys, threshold);
      SnapReports(guides[1..], o, xs, ys, threshold, next);
      var first := if guides[0].orientation == o && FirstWithin(points, guides[0].position, threshold).Some?
        then [guides[0].position] else [];
      assert Matching(guides, o, points, threshold) == first + Matching(guides[1..], o, points, threshold);
      assert (Reported(s, o) + first) + Matching(guides[1..], o, points, threshold)
          == Reported(s, o) + (first + Matching(guides[1..], o, points, threshold));
    }
  }

  /** Guides that match nothing along an axis leave that coordinate alone. */
  lemma {:induction false} SnapNoMatch(guides: seq<Guide>, o: Orientation, xs: seq<real>, ys: seq<real>, threshold: real, s: Snaps)
    requires Matching(guides, o, if o == Vertical then xs else ys, threshold) == []
    ensures Along(SnapFold(guides, xs, ys, threshold, s).target, o) == Along(s.target, o)
    decreases |guides|
  {
    if guides != [] {
      SnapNoMatch(guides[1..], o, xs, ys, threshold, SnapStep(s, guides[0], xs, ys, threshold));
    }
  }

  /** With exactly one matching guide along an axis, the snap point it matched,
    * moved along with the layer, lies exactly on it. */
  lemma {:induction false} SnapSingle(guides: seq<Guide>, o: Orientation, xs: seq<real>, ys: seq<real>, threshold: real, s: Snaps, position: real)
    requires Matching(guides, o, if o == Vertical then xs else ys, threshold) == [position]
    ensures var p := FirstWithin(if o == Vertical then xs else ys, position, threshold);
      p.Some? && p.value + (Along(SnapFold(guides, xs, ys, threshold, s).target, o) - Along(s.target, o)) == position
    decreases |guides|
  {
    var points := if o == Vertical then xs else ys;
    var g := guides[0];
    var next := SnapStep(s, g, xs, ys, threshold);
    var first := if g.orientation == o && FirstWithin(points, g.position, threshold).Some? then [g.position] else [];
    assert Matching(guides, o, points, threshold) == first + Matching(guides[1..], o, points, threshold);
    if g.orientation == o && FirstWithin(points, g.position, threshold).Some? {
      assert ([g.position] + Matching(guides[1..], o, points, threshold))[0] == g.position;
      assert g.position == position;
      assert Matching(guides[1..], o, points, threshold) == [];
      SnapNoMatch(guides[1..], o, xs, ys, threshold, next);
    } else {
      assert Along(next.target, o) == Along(s.target, o);
      SnapSingle(guides[1..], o, xs, ys, threshold, next, position);
    }
  }

  /** The inner snap loop: the first point within the threshold, or none. */
  method FirstPointWithin(points: seq<real>, position: real, threshold: real) returns (m: Option<real>)
    ensures m == FirstWithin(points, position, threshold)
  {
    var i := 0;
    while i < |points|
      invariant 0 <= i <= |points|
      invariant FirstWithin(points, position, threshold) == FirstWithin(points[i..], position, threshold)
    {
      if Abs(points[i] - position) < threshold {
        return Some(points[i]);
      }
      assert points[i..][1..] == points[i + 1..];
      i := i + 1;
    }
    return None;
  }

  /** The snap loop over the guides, in list order. */
  method SnapToGuides(guides: seq<Guide>, target: Point, width: real, height: real, threshold: real) returns (s: Snaps)
    ensures s == Snapped(guides, target, width, height, threshold)
  {
    var xs := SnapPoints(target, width, height, Vertical);
    var ys := SnapPoints(target, width, height, Horizontal);
    s := Snaps(target, [], []);
    var i := 0;
    while i < |guides|
      invariant 0 <= i <= |guides|
      invariant SnapFold(guides[i..], xs, ys, threshold, s) == Snapped(guides, target, width, height, threshold)
    {
      var g := guides[i];
      var m := FirstPointWithin(if g.orientation == Vertical then xs else ys, g.position, threshold);
      if m.Some? {
        if g.orientation == Vertical {
          s := Snaps(Point(g.position - (m.value - s.target.x), s.target.y), s.v + [g.position], s.h);
        } else {
          s := Snaps(Point(s.target.x, g.position - (m.value - s.target.y)), s.v, s.h + [g.position]);
        }
      }
      assert guides[i..][1..] == guides[i + 1..];
      i := i + 1;
    }
  }

  /** A new position for one layer. */
  datatype Placement = Placement(id: string, x: real, y: real)

  function Shifted(layers: seq<Layer>, d: Point): (r: seq<Placement>)
    ensures |r| == |layers|
    ensures forall i :: 0 <= i < |layers| ==> r[i] == Placement(layers[i].id, layers[i].x + d.x, layers[i].y + d.y)
  {
    if layers == [] then [] else [Placement(layers[0].id, layers[0].x + d.x, layers[0].y + d.y)] + Shifted(layers[1..], d)
  }

  // ---------------------------------------------------------------- auto-fit

  /** Field-by-field geometry updates; None leaves the field as it is. */
  datatype Updates = Updates(x: Option<real>, y: Option<real>, width: Option<real>, height: Option<real>)

  function Apply(b: Box, u: Updates): Box {
    Box(u.x.GetOr(b.x), u.y.GetOr(b.y), u.width.GetOr(b.width), u.height.GetOr(b.height))
  }

  const PaddingV: real := 2.0
  const PaddingH: real := 4.0

  /** The auto-fit updates of a text box whose content measures
    * `scrollWidth` by `scrollHeight`: the height is always refitted, the width
    * only when the box was not resized by hand and is not being edited; a side
    * changes only when it is off by more than 1. */
  function FitUpdates(b: Box, align: Option<Align>, scrollWidth: real, scrollHeight: real, widthLocked: bool): Updates {
    var newHeight := scrollHeight + PaddingV;
    var newWidth := scrollWidth + PaddingH;
    var hd := b.height - newHeight;
    var wd := b.width - newWidth;
    var fitH := Abs(hd) > 1.0;
    var fitW := !widthLocked && Abs(wd) > 1.0;
    Updates(
      if fitW then (if align == Some(AlignLeft) then None else if align == Some(AlignRight) then Some(b.x + wd) else Some(b.x + wd / 2.0)) else None,
      if fitH then Some(b.y + hd / 2.0) else None,
      if fitW then Some(newWidth) else None,
      if fitH then Some(newHeight) else None)
  }

  /** The refit keeps the vertical centre, and keeps the left edge, the right
    * edge or the horizontal centre according to the alignment (centre being
    * the default); sides within 1 of the measure are left alone. */
  lemma FitRecentres(b: Box, align: Option<Align>, scrollWidth: real, scrollHeight: real, widthLocked: bool)
    ensures var f := Apply(b, FitUpdates(b, align, scrollWidth, scrollHeight, widthLocked));
      (Abs(b.height - (scrollHeight + PaddingV)) > 1.0 ==> f.height == scrollHeight + PaddingV) &&
      (Abs(b.height - (scrollHeight + PaddingV)) <= 1.0 ==> f.height == b.height && f.y == b.y) &&
      f.y + f.height / 2.0 == b.y + b.height / 2.0 &&
      (!widthLocked && Abs(b.width - (scrollWidth + PaddingH)) > 1.0 ==> f.width == scrollWidth + PaddingH) &&
      (widthLocked || Abs(b.width - (scrollWidth + PaddingH)) <= 1.0 ==> f.width == b.width && f.x == b.x) &&
      (align == Some(AlignLeft) ==> f.x == b.x) &&
      (align == Some(AlignRight) ==> f.x + f.width == b.x + b.width) &&
      (align != Some(AlignLeft) && align != Some(AlignRight) ==> f.x + f.width / 2.0 == b.x + b.width / 2.0)
  {
  }

  // ---------------------------------------------------------------- text editing

  /** The merge loop local to the text editor: like `mergeSpans`, but it joins
    * equal styles even when the pending span is empty. */
  function LocalMergeRun(cur: TextSpan, rest: seq<TextSpan>): seq<TextSpan>
    decreases |rest|
  {
    if rest == [] then (if cur.text != "" then [cur] else [])
    else if cur.style == rest[0].style then LocalMergeRun(TextSpan(cur.text + rest[0].text, cur.style), rest[1..])
    else (if cur.text != "" then [cur] else []) + LocalMergeRun(rest[0], rest[1..])
  }

  function LocalMerged(spans: seq<TextSpan>): seq<TextSpan> {
    if spans == [] then [] else LocalMergeRun(spans[0], spans[1..])
  }

  lemma {:induction false} LocalMergeRunAgrees(cur: TextSpan, rest: seq<TextSpan>)
    requires cur.text != "" && TextSpans.NoEmptySpans(rest)
    ensures LocalMergeRun(cur, rest) == TextSpans.MergeRun(cur, rest)
    decreases |rest|
  {
    if rest != [] {
      if cur.style == rest[0].style {
        LocalMergeRunAgrees(TextSpan(cur.text + rest[0].text, cur.style), rest[1..]);
      } else {
        LocalMergeRunAgrees(rest[0], rest[1..]);
      }
    }
  }

  /** On span lists without empty texts (the only ones it is given) the local
    * merge is the shared `mergeSpans`. */
  lemma LocalMergedAgrees(spans: seq<TextSpan>)
    requires TextSpans.NoEmptySpans(spans)
    ensures LocalMerged(spans) == TextSpans.Merged(spans)
  {
    if spans != [] {
      LocalMergeRunAgrees(spans[0], spans[1..]);
    }
  }

  /** The spans committed after an edit: the non-empty spans read back from the
    * editor, merged, or a single empty span when nothing is left. */
  function EditedSpans(read: seq<TextSpan>): (r: seq<TextSpan>)
    ensures r != []
    ensures TextSpans.Chars(r) == TextSpans.Chars(read)
    ensures r == [TextSpan("", NoStyle)] || (TextSpans.NoEmptySpans(r) && TextSpans.Canonical(r))
    ensures r == TextSpans.Tidied(read)
  {
    var merged := LocalMerged(TextSpans.NonEmpty(read));
    LocalMergedAgrees(TextSpans.NonEmpty(read));
    TextSpans.MergedChars(TextSpans.NonEmpty(read));
    TextSpans.MergedCanonical(TextSpans.NonEmpty(read));
    TextSpans.NonEmptyChars(read);
    if merged != [] then merged
    else
      TextSpans.CharsSingle(TextSpan("", NoStyle));
      [TextSpan("", NoStyle)]
  }

  // ---------------------------------------------------------------- the gesture state

  datatype Gesture = Move | Resize(handle: Handle) | Rotate

  /** What a mouse-up reports: a finished gesture, or an alt-drag duplicate
    * that puts the source back at its initial position. */
  datatype Ending =
    | InteractionEnd
    | Duplicate(id: string, x: real, y: real, initialX: real, initialY: real)

  /** The gesture record kept across mouse events, and the flag that keeps
    * auto-fit from undoing a manual resize. */
  class Interaction {
    var gesture: Option<Gesture>
    var start: Point
    var initial: Box
    var initialLayers: seq<Layer>
    var isGroup: bool
    var moveAxis: Option<Orientation>
    var isDuplicating: bool
    var justResized: bool

    constructor ()
      ensures gesture == None && moveAxis == None && !justResized && !isDuplicating
    {
      gesture := None;
      start := Point(0.0, 0.0);
      initial := Box(0.0, 0.0, 0.0, 0.0);
      initialLayers := [];
      isGroup := false;
      moveAxis := None;
      isDuplicating := false;
      justResized := false;
    }

    /** Mouse-down on the layer or one of its handles. A locked layer, a layer
      * being edited or a held space bar ignores it. Otherwise the gesture, the
      * pointer and the layer's geometry are captured, along with a copy of the
      * selected layers for a group move or a text layer. */
    method MouseDown(layer: Layer, selected: seq<Layer>, g: Gesture, pointer: Point,
                     editing: bool, spacePressed: bool, altKey: bool)
      modifies this
      ensures layer.locked || editing || spacePressed ==> unchanged(this)
      ensures !(layer.locked || editing || spacePressed) ==>
        justResized == (g.Resize? || old(justResized)) &&
        gesture == Some(g) && start == pointer &&
        initial == Box(layer.x, layer.y, layer.width, layer.height) &&
        isGroup == (|selected| > 1 && g == Move) &&
        initialLayers == (if isGroup || layer.IsText() then selected else []) &&
        moveAxis == None && isDuplicating == (g == Move && altKey)
    {
      if layer.locked || editing || spacePressed {
        return;
      }
      if g.Resize? {
        justResized := true;
      }
      gesture := Some(g);
      start := pointer;
      initial := Box(layer.x, layer.y, layer.width, layer.height);
      isGroup := |selected| > 1 && g == Move;
      initialLayers := if isGroup || layer.IsText() then selected else [];
      moveAxis := None;
      isDuplicating := g == Move && altKey;
    }

    /** A mouse move during a move gesture. The target is the captured position
      * plus the locked pointer delta, then snapped; a group move shifts every
      * captured layer by the same final delta. Only the axis lock is updated. */
    method MoveTo(pointer: Point, shift: bool, zoom: real, layerId: string, guides: seq<Guide>, snapToGuides: bool)
      returns (placements: seq<Placement>, snaps: Snaps)
      requires gesture == Some(Move) && zoom != 0.0
      modifies this`moveAxis
      ensures var d := Delta(start, pointer, zoom);
        var target := Add(Point(initial.x, initial.y), LockDelta(moveAxis, d));
        moveAxis == LockedAxis(old(moveAxis), shift, d) &&
        snaps == (if snapToGuides && |guides| > 0
                  then Snapped(guides, target, initial.width, initial.height, SnapTolerance / zoom)
                  else Snaps(target, [], [])) &&
        placements == if isGroup then Shifted(initialLayers, Sub(snaps.target, Point(initial.x, initial.y)))
                      else [Placement(layerId, snaps.target.x, snaps.target.y)]
    {
      var d := Delta(start, pointer, zoom);
      moveAxis := LockedAxis(moveAxis, shift, d);
      var locked := LockDelta(moveAxis, d);
      var target := Point(initial.x + locked.x, initial.y + locked.y);
      if snapToGuides && |guides| > 0 {
        snaps := SnapToGuides(guides, target, initial.width, initial.height, SnapTolerance / zoom);
      } else {
        snaps := Snaps(target, [], []);
      }
      var finalDelta := Sub(snaps.target, Point(initial.x, initial.y));
      if isGroup {
        placements := Shifted(initialLayers, finalDelta);
      } else {
        placements := [Placement(layerId, initial.x + finalDelta.x, initial.y + finalDelta.y)];
      }
    }

    /** A mouse move during a resize of a non-text layer; `r` is the cosine and
      * sine of the layer's rotation. */
    method ResizeTo(pointer: Point, zoom: real, r: Rot, shift: bool) returns (b: Box)
      requires gesture.Some? && gesture.value.Resize? && zoom != 0.0
      requires shift ==> initial.height > 0.0
      ensures b == ResizedBox(gesture.value.handle, initial, r, Delta(start, pointer, zoom), shift)
    {
      b := ResizedBox(gesture.value.handle, initial, r, Delta(start, pointer, zoom), shift);
    }

    /** A mouse move during a resize of a text layer. The layer's state is read
      * from the copy captured at mouse-down; when it is not there the handler
      * fails and nothing is updated. */
    method ResizeTextTo(pointer: Point, zoom: real, r: Rot, layerId: string) returns (u: Option<TextResize>)
      requires gesture.Some? && gesture.value.Resize? && zoom != 0.0
      ensures var found := FindLayer(initialLayers, layerId);
        u == if found.Some? && found.value.content.Text?
             then TextResized(gesture.value.handle, initial, found.value.content.text, r, Delta(start, pointer, zoom))
             else None
    {
      var found := FindLayer(initialLayers, layerId);
      if found.Some? && found.value.content.Text? {
        u := TextResized(gesture.value.handle, initial, found.value.content.text, r, Delta(start, pointer, zoom));
      } else {
        u := None;
      }
    }

    /** Mouse-up: an alt-drag move reports a duplicate, anything else the end
      * of the interaction; the gesture is cleared either way. */
    method MouseUp(layer: Layer) returns (e: Ending)
      modifies this`gesture
      ensures gesture == None
      ensures isDuplicating ==> e == Duplicate(layer.id, layer.x, layer.y, initial.x, initial.y)
      ensures !isDuplicating ==> e == InteractionEnd
    {
      if isDuplicating {
        e := Duplicate(layer.id, layer.x, layer.y, initial.x, initial.y);
      } else {
        e := InteractionEnd;
      }
      gesture := None;
    }

    /** A text edit puts the layer back into auto-fitting and commits the spans
      * read back from the editor with the version bumped. */
    method TextChanged(text: TextProps, read: seq<TextSpan>) returns (spans: seq<TextSpan>, version: int)
      modifies this`justResized
      ensures !justResized
      ensures spans == EditedSpans(read)
      ensures version == text.spansVersion.GetOr(0) + 1
    {
      justResized := false;
      spans := EditedSpans(read);
      version := text.spansVersion.GetOr(0) + 1;
    }

    /** The auto-fit pass: nothing while a gesture is active; otherwise the fit
      * updates, with the width held while the box was resized by hand or is
      * being edited. */
    method AutoFit(b: Box, align: Option<Align>, scrollWidth: real, scrollHeight: real, editing: bool) returns (u: Updates)
      ensures gesture.Some? ==> u == Updates(None, None, None, None)
      ensures gesture.None? ==> u == FitUpdates(b, align, scrollWidth, scrollHeight, justResized || editing)
    {
      if gesture.Some? {
        u := Updates(None, None, None, None);
      } else {
        u := FitUpdates(b, align, scrollWidth, scrollHeight, justResized || editing);
      }
    }
  }
}
