// What the artboard derives from its layers and guides: the rendering order,
// the selected layers and their common box, each layer's selection status,
// and the guide edits made by dragging or deleting a guide line.
module ArtboardView {
  import opened Wrappers
  import opened Types
  import opened Geometry
  import opened Sorting

  // ---------------------------------------------------------------- ordering

  /** The z-order key, and the comparator `(a, b) => a.zIndex - b.zIndex`. */
  function ZKey(l: Layer): real { l.zIndex as real }
  function ZOrder(a: Layer, b: Layer): real { (a.zIndex - b.zIndex) as real }

  lemma ZOrderComparesBy()
    ensures ComparesBy(ZOrder, ZKey)
  {
  }

  /** The visible layers (`visible` defaults to true), in their order. */
  function Visible(layers: seq<Layer>): (r: seq<Layer>)
    ensures |r| <= |layers|
    ensures forall l :: l in r <==> l in layers && l.IsVisible()
  {
    if layers == [] then []
    else (if layers[0].IsVisible() then [layers[0]] else []) + Visible(layers[1..])
  }

  /** `filter` keeps the list order and every repeat: it distributes over
    * concatenation, and a list of visible layers comes back whole. */
  lemma VisibleKeepsOrder(a: seq<Layer>, b: seq<Layer>)
    ensures Visible(a + b) == Visible(a) + Visible(b)
    ensures (forall i :: 0 <= i < |a| ==> a[i].IsVisible()) ==> Visible(a) == a
  {
    VisibleAppend(a, b);
    if forall i :: 0 <= i < |a| ==> a[i].IsVisible() {
      VisibleAll(a);
    }
  }

  lemma {:induction false} VisibleAppend(a: seq<Layer>, b: seq<Layer>)
    ensures Visible(a + b) == Visible(a) + Visible(b)
  {
    if a == [] {
      assert a + b == b;
    } else {
      assert (a + b)[0] == a[0] && (a + b)[1..] == a[1..] + b;
      VisibleAppend(a[1..], b);
      var h := if a[0].IsVisible() then [a[0]] else [];
      assert Visible(a + b) == h + Visible(a[1..] + b);
      assert h + (Visible(a[1..]) + Visible(b)) == (h + Visible(a[1..])) + Visible(b);
    }
  }

  lemma {:induction false} VisibleAll(a: seq<Layer>)
    requires forall i :: 0 <= i < |a| ==> a[i].IsVisible()
    ensures Visible(a) == a
  {
    if a != [] {
      assert forall i :: 0 <= i < |a[1..]| ==> a[1..][i].IsVisible() by {
        forall i | 0 <= i < |a[1..]| ensures a[1..][i].IsVisible() { assert a[1..][i] == a[i + 1]; }
      }
      VisibleAll(a[1..]);
      assert [a[0]] + a[1..] == a;
    }
  }

  /** The layers the artboard renders, bottom first. */
  function RenderOrder(layers: seq<Layer>): seq<Layer> {
    SortWith(Visible(layers), ZOrder)
  }

  /** The rendered layers are exactly the visible ones, ascending by z-index;
    * layers sharing a z-index keep their order in the artboard's list. */
  lemma RenderOrderFacts(layers: seq<Layer>, k: real)
    ensures var r := RenderOrder(layers);
      SortedBy(r, ZKey) &&
      multiset(r) == multiset(Visible(layers)) &&
      (forall l :: l in r <==> l in layers && l.IsVisible()) &&
      WithKey(r, ZKey, k) == WithKey(Visible(layers), ZKey, k)
  {
    ZOrderComparesBy();
    SortWithSorted(Visible(layers), ZOrder, ZKey);
    SortWithStable(Visible(layers), ZOrder, ZKey, k);
    var r := RenderOrder(layers);
    forall l
      ensures l in r <==> l in Visible(layers)
    {
      assert l in r <==> l in multiset(r);
    }
  }

  // ------------------------------------------------------------ bounding box

  /** A layer's four corners, turned about its centre by its rotation; `trig`
    * gives the (cos, sin) of an angle in degrees. */
  function CornersOf(l: Layer, trig: real -> Rot): seq<Point> {
    Corners(Center(LayerBox(l)), l.width, l.height, trig(l.rotation))
  }

  /** `layers.flatMap(corners)`. */
  function AllCorners(layers: seq<Layer>, trig: real -> Rot): (ps: seq<Point>)
    ensures |ps| == 4 * |layers|
    ensures forall i, k :: 0 <= i < |layers| && 0 <= k < 4 ==> ps[4 * i + k] == CornersOf(layers[i], trig)[k]
  {
    if layers == [] then []
    else
      var rest := AllCorners(layers[1..], trig);
      assert forall i, k :: 1 <= i < |layers| && 0 <= k < 4 ==> rest[4 * (i - 1) + k] == CornersOf(layers[i], trig)[k];
      CornersOf(layers[0], trig) + rest
  }

  function Xs(ps: seq<Point>): (r: seq<real>)
    ensures |r| == |ps| && forall j :: 0 <= j < |ps| ==> r[j] == ps[j].x
  {
    seq(|ps|, j requires 0 <= j < |ps| => ps[j].x)
  }

  function Ys(ps: seq<Point>): (r: seq<real>)
    ensures |r| == |ps| && forall j :: 0 <= j < |ps| ==> r[j] == ps[j].y
  {
    seq(|ps|, j requires 0 <= j < |ps| => ps[j].y)
  }

  /** `Math.min(...xs)` of a non-empty list: its least element. */
  function MinOf(xs: seq<real>): (m: real)
    requires |xs| > 0
    ensures m in xs && forall j :: 0 <= j < |xs| ==> m <= xs[j]
  {
    if |xs| == 1 then xs[0] else Min(xs[0], MinOf(xs[1..]))
  }

  /** `Math.max(...xs)` of a non-empty list: its greatest element. */
  function MaxOf(xs: seq<real>): (m: real)
    requires |xs| > 0
    ensures m in xs && forall j :: 0 <= j < |xs| ==> xs[j] <= m
  {
    if |xs| == 1 then xs[0] else Max(xs[0], MaxOf(xs[1..]))
  }

  /** `getBoundingBoxOfLayers`: the axis-aligned box of all rotated corners, the
    * zero box for no layers. */
  function BoundingBoxOfLayers(layers: seq<Layer>, trig: real -> Rot): (b: Box)
    ensures layers == [] ==> b == Box(0.0, 0.0, 0.0, 0.0)
    ensures b.width >= 0.0 && b.height >= 0.0
  {
    if layers == [] then Box(0.0, 0.0, 0.0, 0.0)
    else
      var ps := AllCorners(layers, trig);
      var minX, maxX := MinOf(Xs(ps)), MaxOf(Xs(ps));
      var minY, maxY := MinOf(Ys(ps)), MaxOf(Ys(ps));
      assert minX <= Xs(ps)[0] <= maxX && minY <= Ys(ps)[0] <= maxY;
      Box(minX, minY, maxX - minX, maxY - minY)
  }

  predicate Inside(p: Point, b: Box) {
    b.x <= p.x <= b.x + b.width && b.y <= p.y <= b.y + b.height
  }

  /** Every corner of every layer lies in the box, and each of the box's four
    * edges touches some corner, so no smaller box contains them all. */
  lemma BoundingBoxTight(layers: seq<Layer>, trig: real -> Rot)
    requires layers != []
    ensures var b := BoundingBoxOfLayers(layers, trig);
      var ps := AllCorners(layers, trig);
      (forall j :: 0 <= j < |ps| ==> Inside(ps[j], b)) &&
      (exists j :: 0 <= j < |ps| && ps[j].x == b.x) &&
      (exists j :: 0 <= j < |ps| && ps[j].x == b.x + b.width) &&
      (exists j :: 0 <= j < |ps| && ps[j].y == b.y) &&
      (exists j :: 0 <= j < |ps| && ps[j].y == b.y + b.height)
  {
    BoundingBoxParts(layers, trig);
    PointsBoxTight(AllCorners(layers, trig), BoundingBoxOfLayers(layers, trig));
  }

  /** The box spanned by the extreme coordinates of some points holds them all
    * and touches one of them on each edge. */
  lemma PointsBoxTight(ps: seq<Point>, b: Box)
    requires ps != []
    requires b == Box(MinOf(Xs(ps)), MinOf(Ys(ps)), MaxOf(Xs(ps)) - MinOf(Xs(ps)), MaxOf(Ys(ps)) - MinOf(Ys(ps)))
    ensures forall j :: 0 <= j < |ps| ==> Inside(ps[j], b)
    ensures exists j :: 0 <= j < |ps| && ps[j].x == b.x
    ensures exists j :: 0 <= j < |ps| && ps[j].x == b.x + b.width
    ensures exists j :: 0 <= j < |ps| && ps[j].y == b.y
    ensures exists j :: 0 <= j < |ps| && ps[j].y == b.y + b.height
  {
    var xs, ys := Xs(ps), Ys(ps);
    var j0 :| 0 <= j0 < |xs| && xs[j0] == MinOf(xs);
    var j1 :| 0 <= j1 < |xs| && xs[j1] == MaxOf(xs);
    var j2 :| 0 <= j2 < |ys| && ys[j2] == MinOf(ys);
    var j3 :| 0 <= j3 < |ys| && ys[j3] == MaxOf(ys);
    assert ps[j0].x == b.x && ps[j1].x == b.x + b.width;
    assert ps[j2].y == b.y && ps[j3].y == b.y + b.height;
    forall j | 0 <= j < |ps|
      ensures Inside(ps[j], b)
    {
      assert xs[j] == ps[j].x && ys[j] == ps[j].y;
    }
  }

  /** Every corner of one layer of the list lies in the box. */
  lemma BoundingBoxContainsLayer(layers: seq<Layer>, trig: real -> Rot, i: nat, k: nat)
    requires i < |layers| && k < 4
    ensures Inside(CornersOf(layers[i], trig)[k], BoundingBoxOfLayers(layers, trig))
  {
    BoundingBoxTight(layers, trig);
    assert AllCorners(layers, trig)[4 * i + k] == CornersOf(layers[i], trig)[k];
  }

  function Lefts(layers: seq<Layer>): (r: seq<real>)
    ensures |r| == |layers| && forall i :: 0 <= i < |layers| ==> r[i] == layers[i].x
  {
    seq(|layers|, i requires 0 <= i < |layers| => layers[i].x)
  }

  function Rights(layers: seq<Layer>): (r: seq<real>)
    ensures |r| == |layers| && forall i :: 0 <= i < |layers| ==> r[i] == layers[i].x + layers[i].width
  {
    seq(|layers|, i requires 0 <= i < |layers| => layers[i].x + layers[i].width)
  }

  function Tops(layers: seq<Layer>): (r: seq<real>)
    ensures |r| == |layers| && forall i :: 0 <= i < |layers| ==> r[i] == layers[i].y
  {
    seq(|layers|, i requires 0 <= i < |layers| => layers[i].y)
  }

  function Bottoms(layers: seq<Layer>): (r: seq<real>)
    ensures |r| == |layers| && forall i :: 0 <= i < |layers| ==> r[i] == layers[i].y + layers[i].height
  {
    seq(|layers|, i requires 0 <= i < |layers| => layers[i].y + layers[i].height)
  }

  ghost predicate Unrotated(layers: seq<Layer>, trig: real -> Rot) {
    trig(0.0) == Rot(1.0, 0.0) &&
    forall i :: 0 <= i < |layers| ==>
      layers[i].rotation == 0.0 && layers[i].width >= 0.0 && layers[i].height >= 0.0
  }

  /** An unrotated layer's corners are its top-left, top-right, bottom-right and
    * bottom-left. */
  lemma UnrotatedCorners(l: Layer, trig: real -> Rot)
    requires trig(0.0) == Rot(1.0, 0.0) && l.rotation == 0.0
    ensures CornersOf(l, trig) == [Point(l.x, l.y), Point(l.x + l.width, l.y),
      Point(l.x + l.width, l.y + l.height), Point(l.x, l.y + l.height)]
  {
  }

  /** Corner `j` of the flattened list is corner `j % 4` of layer `j / 4`. */
  lemma CornerIndex(layers: seq<Layer>, trig: real -> Rot, j: nat)
    requires j < 4 * |layers|
    ensures j / 4 < |layers| && AllCorners(layers, trig)[j] == CornersOf(layers[j / 4], trig)[j % 4]
  {
    assert j == 4 * (j / 4) + j % 4;
  }

  /** With no rotation (and sizes not negative) the box is the smallest left and
    * top edge and the largest right and bottom edge of the layers. */
  lemma BoundingBoxUnrotated(layers: seq<Layer>, trig: real -> Rot)
    requires layers != [] && Unrotated(layers, trig)
    ensures var b := BoundingBoxOfLayers(layers, trig);
      b.x == MinOf(Lefts(layers)) && b.y == MinOf(Tops(layers)) &&
      b.x + b.width == MaxOf(Rights(layers)) && b.y + b.height == MaxOf(Bottoms(layers))
  {
    UnrotatedLeftRight(layers, trig);
    UnrotatedTopBottom(layers, trig);
  }

  /** An unrotated corner of a layer lies on or inside the layer's own box. */
  lemma UnrotatedCornerInLayer(l: Layer, trig: real -> Rot, k: nat)
    requires trig(0.0) == Rot(1.0, 0.0) && l.rotation == 0.0 && l.width >= 0.0 && l.height >= 0.0
    requires k < 4
    ensures var p := CornersOf(l, trig)[k];
      l.x <= p.x <= l.x + l.width && l.y <= p.y <= l.y + l.height
  {
    UnrotatedCorners(l, trig);
  }

  /** An unrotated corner lies between the leftmost left edge and the
    * rightmost right edge, and between the top and bottom extremes. */
  lemma UnrotatedCornerRange(layers: seq<Layer>, trig: real -> Rot, j: nat)
    requires Unrotated(layers, trig) && j < 4 * |layers|
    ensures var p := AllCorners(layers, trig)[j];
      MinOf(Lefts(layers)) <= p.x <= MaxOf(Rights(layers)) &&
      MinOf(Tops(layers)) <= p.y <= MaxOf(Bottoms(layers))
  {
    CornerIndex(layers, trig, j);
    var i := j / 4;
    var l := layers[i];
    UnrotatedCornerInLayer(l, trig, j % 4);
    var p := AllCorners(layers, trig)[j];
    assert l.x <= p.x <= l.x + l.width && l.y <= p.y <= l.y + l.height;
    assert MinOf(Lefts(layers)) <= Lefts(layers)[i] == l.x;
    assert MaxOf(Rights(layers)) >= Rights(layers)[i] == l.x + l.width;
    assert MinOf(Tops(layers)) <= Tops(layers)[i] == l.y;
    assert MaxOf(Bottoms(layers)) >= Bottoms(layers)[i] == l.y + l.height;
  }

  lemma BoundingBoxParts(layers: seq<Layer>, trig: real -> Rot)
    requires layers != []
    ensures var ps := AllCorners(layers, trig);
      BoundingBoxOfLayers(layers, trig) ==
        Box(MinOf(Xs(ps)), MinOf(Ys(ps)), MaxOf(Xs(ps)) - MinOf(Xs(ps)), MaxOf(Ys(ps)) - MinOf(Ys(ps)))
  {
  }

  /** Layer `i`'s first corner is its top-left, its second its top-right, its
    * third its bottom-right. */
  lemma UnrotatedEdgeCorners(layers: seq<Layer>, trig: real -> Rot, i: nat)
    requires Unrotated(layers, trig) && i < |layers|
    ensures var ps := AllCorners(layers, trig);
      ps[4 * i].x == layers[i].x && ps[4 * i + 1].x == layers[i].x + layers[i].width &&
      ps[4 * i].y == layers[i].y && ps[4 * i + 2].y == layers[i].y + layers[i].height
  {
    var ps := AllCorners(layers, trig);
    var c := CornersOf(layers[i], trig);
    assert ps[4 * i] == c[0] && ps[4 * i + 1] == c[1] && ps[4 * i + 2] == c[2];
    assert layers[i].rotation == 0.0;
    UnrotatedCorners(layers[i], trig);
  }

  lemma UnrotatedLeftRight(layers: seq<Layer>, trig: real -> Rot)
    requires layers != [] && Unrotated(layers, trig)
    ensures var b := BoundingBoxOfLayers(layers, trig);
      b.x == MinOf(Lefts(layers)) && b.x + b.width == MaxOf(Rights(layers))
  {
    BoundingBoxParts(layers, trig);
    UnrotatedLeft(layers, trig);
    UnrotatedRight(layers, trig);
  }

  lemma UnrotatedLeft(layers: seq<Layer>, trig: real -> Rot)
    requires layers != [] && Unrotated(layers, trig)
    ensures MinOf(Xs(AllCorners(layers, trig))) == MinOf(Lefts(layers))
  {
    var xs := Xs(AllCorners(layers, trig));
    var j0 :| 0 <= j0 < |xs| && xs[j0] == MinOf(xs);
    UnrotatedCornerRange(layers, trig, j0);
    var i0 :| 0 <= i0 < |layers| && Lefts(layers)[i0] == MinOf(Lefts(layers));
    UnrotatedEdgeCorners(layers, trig, i0);
    assert MinOf(xs) <= xs[4 * i0];
  }

  lemma UnrotatedRight(layers: seq<Layer>, trig: real -> Rot)
    requires layers != [] && Unrotated(layers, trig)
    ensures MaxOf(Xs(AllCorners(layers, trig))) == MaxOf(Rights(layers))
  {
    var xs := Xs(AllCorners(layers, trig));
    var j1 :| 0 <= j1 < |xs| && xs[j1] == MaxOf(xs);
    UnrotatedCornerRange(layers, trig, j1);
    var i1 :| 0 <= i1 < |layers| && Rights(layers)[i1] == MaxOf(Rights(layers));
    UnrotatedEdgeCorners(layers, trig, i1);
    assert xs[4 * i1 + 1] <= MaxOf(xs);
  }

  lemma UnrotatedTopBottom(layers: seq<Layer>, trig: real -> Rot)
    requires layers != [] && Unrotated(layers, trig)
    ensures var b := BoundingBoxOfLayers(layers, trig);
      b.y == MinOf(Tops(layers)) && b.y + b.height == MaxOf(Bottoms(layers))
  {
    BoundingBoxParts(layers, trig);
    UnrotatedTop(layers, trig);
    UnrotatedBottom(layers, trig);
  }

  lemma UnrotatedTop(layers: seq<Layer>, trig: real -> Rot)
    requires layers != [] && Unrotated(layers, trig)
    ensures MinOf(Ys(AllCorners(layers, trig))) == MinOf(Tops(layers))
  {
    var ys := Ys(AllCorners(layers, trig));
    var j0 :| 0 <= j0 < |ys| && ys[j0] == MinOf(ys);
    UnrotatedCornerRange(layers, trig, j0);
    var i0 :| 0 <= i0 < |layers| && Tops(layers)[i0] == MinOf(Tops(layers));
    UnrotatedEdgeCorners(layers, trig, i0);
    assert MinOf(ys) <= ys[4 * i0];
  }

  lemma UnrotatedBottom(layers: seq<Layer>, trig: real -> Rot)
    requires layers != [] && Unrotated(layers, trig)
    ensures MaxOf(Ys(AllCorners(layers, trig))) == MaxOf(Bottoms(layers))
  {
    var ys := Ys(AllCorners(layers, trig));
    var j1 :| 0 <= j1 < |ys| && ys[j1] == MaxOf(ys);
    UnrotatedCornerRange(layers, trig, j1);
    var i1 :| 0 <= i1 < |layers| && Bottoms(layers)[i1] == MaxOf(Bottoms(layers));
    UnrotatedEdgeCorners(layers, trig, i1);
    assert ys[4 * i1 + 2] <= MaxOf(ys);
  }

  /** The selection box, drawn only when more than one id is selected: the box
    * of the rendered layers whose ids are selected. */
  function SelectionBoundingBox(layers: seq<Layer>, ids: seq<string>, trig: real -> Rot): (r: Option<Box>)
    ensures r.Some? <==> |ids| > 1
  {
    if |ids| > 1 then Some(BoundingBoxOfLayers(SelectedLayers(RenderOrder(layers), ids), trig)) else None
  }

  /** Every corner of every visible selected layer lies in the selection box. */
  lemma SelectionBoxContains(layers: seq<Layer>, ids: seq<string>, trig: real -> Rot, l: Layer, k: nat)
    requires |ids| > 1 && k < 4
    requires l in layers && l.IsVisible() && l.id in ids
    ensures Inside(CornersOf(l, trig)[k], SelectionBoundingBox(layers, ids, trig).value)
  {
    RenderOrderFacts(layers, 0.0);
    var sel := SelectedLayers(RenderOrder(layers), ids);
    assert l in sel;
    var i :| 0 <= i < |sel| && sel[i] == l;
    BoundingBoxContainsLayer(sel, trig, i, k);
  }

  // -------------------------------------------------------- selection status

  datatype Status = Key | Selected | NotSelected

  /** `'key'` for the key object, else `'selected'` for a selected id, else
    * `'none'`. */
  function SelectionStatus(l: Layer, keyId: Option<string>, ids: seq<string>): (s: Status)
    ensures s == Key <==> keyId == Some(l.id)
    ensures s == Selected <==> keyId != Some(l.id) && l.id in ids
  {
    if keyId == Some(l.id) then Key else if l.id in ids then Selected else NotSelected
  }

  // ------------------------------------------------------------------ guides

  /** `artboard.guides?.map(...)`: the guide with the given id moved to `position`. */
  function UpdateGuide(guides: Option<seq<Guide>>, id: string, position: real): (r: Option<seq<Guide>>)
    ensures r.Some? <==> guides.Some?
    ensures guides.Some? ==> (
      |r.value| == |guides.value| &&
      forall i :: 0 <= i < |guides.value| ==>
        r.value[i] == (if guides.value[i].id == id then guides.value[i].(position := position) else guides.value[i]))
  {
    match guides
    case None => None
    case Some(gs) => Some(seq(|gs|, i requires 0 <= i < |gs| => if gs[i].id == id then gs[i].(position := position) else gs[i]))
  }

  /** `artboard.guides?.filter(g => g.id !== id)`. */
  function DeleteGuide(guides: Option<seq<Guide>>, id: string): (r: Option<seq<Guide>>)
    ensures r.Some? <==> guides.Some?
    ensures guides.Some? ==> (
      |r.value| <= |guides.value| &&
      forall g :: g in r.value <==> g in guides.value && g.id != id)
  {
    match guides
    case None => None
    case Some(gs) => Some(Without(gs, id))
  }

  function Without(gs: seq<Guide>, id: string): (r: seq<Guide>)
    ensures |r| <= |gs|
    ensures forall g :: g in r <==> g in gs && g.id != id
  {
    if gs == [] then [] else (if gs[0].id != id then [gs[0]] else []) + Without(gs[1..], id)
  }

  /** The filter keeps the surviving guides in their order: it distributes over
    * concatenation, and a guide list without that id is kept as it is. */
  lemma WithoutKeepsOrder(gs: seq<Guide>, hs: seq<Guide>, id: string)
    ensures Without(gs + hs, id) == Without(gs, id) + Without(hs, id)
    ensures (forall i :: 0 <= i < |gs| ==> gs[i].id != id) ==> Without(gs, id) == gs
  {
    WithoutAppend(gs, hs, id);
    if forall i :: 0 <= i < |gs| ==> gs[i].id != id {
      WithoutNone(gs, id);
    }
  }

  lemma {:induction false} WithoutAppend(gs: seq<Guide>, hs: seq<Guide>, id: string)
    ensures Without(gs + hs, id) == Without(gs, id) + Without(hs, id)
  {
    if gs == [] {
      assert gs + hs == hs;
    } else {
      assert (gs + hs)[0] == gs[0] && (gs + hs)[1..] == gs[1..] + hs;
      WithoutAppend(gs[1..], hs, id);
      assert Without(gs + hs, id) == (if gs[0].id != id then [gs[0]] else []) + Without(gs[1..] + hs, id);
    }
  }

  lemma {:induction false} WithoutNone(gs: seq<Guide>, id: string)
    requires forall i :: 0 <= i < |gs| ==> gs[i].id != id
    ensures Without(gs, id) == gs
  {
    if gs != [] {
      assert forall i :: 0 <= i < |gs[1..]| ==> gs[1..][i] == gs[i + 1];
      WithoutNone(gs[1..], id);
      assert gs == [gs[0]] + gs[1..];
    }
  }


  /** Moving a guide and then deleting it is the same as deleting it. */
  lemma {:induction false} WithoutAfterMove(gs: seq<Guide>, id: string, position: real)
    ensures Without(UpdateGuide(Some(gs), id, position).value, id) == Without(gs, id)
  {
    if gs != [] {
      var moved := UpdateGuide(Some(gs), id, position).value;
      assert moved[1..] == UpdateGuide(Some(gs[1..]), id, position).value;
      WithoutAfterMove(gs[1..], id, position);
    }
  }

  /** Deleting twice is deleting once. */
  lemma {:induction false} WithoutIdempotent(gs: seq<Guide>, id: string)
    ensures Without(Without(gs, id), id) == Without(gs, id)
  {
    if gs != [] {
      WithoutIdempotent(gs[1..], id);
      if gs[0].id != id {
        assert Without(gs, id) == [gs[0]] + Without(gs[1..], id);
        assert Without(gs, id)[1..] == Without(gs[1..], id);
      } else {
        assert Without(gs, id) == Without(gs[1..], id);
      }
    }
  }

  /** Moves of two different guides commute, and a second move of one guide
    * overrides the first. */
  lemma MovesCommute(guides: Option<seq<Guide>>, a: string, pa: real, b: string, pb: real)
    ensures a != b ==> UpdateGuide(UpdateGuide(guides, a, pa), b, pb) == UpdateGuide(UpdateGuide(guides, b, pb), a, pa)
    ensures UpdateGuide(UpdateGuide(guides, a, pa), a, pb) == UpdateGuide(guides, a, pb)
  {
    if guides.Some? {
      var gs := guides.value;
      if a != b {
        var l := UpdateGuide(UpdateGuide(guides, a, pa), b, pb).value;
        var r := UpdateGuide(UpdateGuide(guides, b, pb), a, pa).value;
        assert |l| == |r|;
        forall i | 0 <= i < |l|
          ensures l[i] == r[i]
        {
        }
        assert l == r;
      }
      var l := UpdateGuide(UpdateGuide(guides, a, pa), a, pb).value;
      var r := UpdateGuide(guides, a, pb).value;
      assert |l| == |r|;
      forall i | 0 <= i < |l|
        ensures l[i] == r[i]
      {
      }
      assert l == r;
    }
  }

  /** A guide-line drag: nothing while guides are locked; otherwise the guide's
    * position at mouse-down plus the pointer's travel along the axis across the
    * guide, over the zoom. */
  function DragPosition(g: Guide, locked: bool, startMouse: Point, mouse: Point, zoom: real): (r: Option<real>)
    requires zoom != 0.0
    ensures r.None? <==> locked
    ensures r.Some? ==> (
      (r.value - g.position) * zoom ==
      (if g.orientation == Horizontal then mouse.y - startMouse.y else mouse.x - startMouse.x))
  {
    if locked then None
    else
      var delta := if g.orientation == Horizontal then mouse.y - startMouse.y else mouse.x - startMouse.x;
      Some(g.position + delta / zoom)
  }

  /** Returning the pointer to where the drag began puts the guide back, and
    * the travel at right angles to the axis does not move it. */
  lemma DragReturns(g: Guide, startMouse: Point, mouse: Point, zoom: real)
    requires zoom != 0.0
    ensures DragPosition(g, false, startMouse, startMouse, zoom) == Some(g.position)
    ensures g.orientation == Horizontal ==>
      DragPosition(g, false, startMouse, mouse, zoom) == DragPosition(g, false, startMouse, Point(startMouse.x, mouse.y), zoom)
    ensures g.orientation == Vertical ==>
      DragPosition(g, false, startMouse, mouse, zoom) == DragPosition(g, false, startMouse, Point(mouse.x, startMouse.y), zoom)
  {
  }
}
