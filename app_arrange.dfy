// Align and distribute: the document commands that line the selected layers up
// against a target box, or spread them evenly between the two outermost ones,
// and the batch layer update both of them commit.
module AppArrange {
  import opened Wrappers
  import opened Types
  import opened Geometry
  import opened Sorting
  import opened ArtboardView

  // --------------------------------------------------------------- updates

  /** A partial layer update `{id, updates: {x?, y?}}`. */
  datatype Update = Update(id: string, x: Option<real>, y: Option<real>)

  /** `{...l, ...updates}`: the fields the update sets, the rest kept. */
  function Patched(l: Layer, u: Update): Layer {
    l.(x := u.x.GetOr(l.x), y := u.y.GetOr(l.y))
  }

  /** `new Map(updates.map(u => [u.id, u.updates])).get(id)`: the update for
    * `id` that comes last, later ones overriding earlier ones. */
  function UpdateFor(updates: seq<Update>, id: string): (r: Option<Update>)
    ensures r.Some? ==> r.value.id == id && exists j :: (0 <= j < |updates| && updates[j] == r.value &&
      forall k :: j < k < |updates| ==> updates[k].id != id)
    ensures r.None? <==> forall j :: 0 <= j < |updates| ==> updates[j].id != id
  {
    if updates == [] then None
    else if updates[|updates| - 1].id == id then Some(updates[|updates| - 1])
    else
      var r := UpdateFor(updates[..|updates| - 1], id);
      assert forall j :: 0 <= j < |updates| - 1 ==> updates[..|updates| - 1][j] == updates[j];
      r
  }

  /** `updateLayersAndCommit`: every layer with an update gets it. */
  function ApplyUpdates(layers: seq<Layer>, updates: seq<Update>): (r: seq<Layer>)
    ensures |r| == |layers|
  {
    if layers == [] then []
    else
      var u := UpdateFor(updates, layers[0].id);
      [if u.Some? then Patched(layers[0], u.value) else layers[0]] + ApplyUpdates(layers[1..], updates)
  }

  /** Each layer is patched by the update `UpdateFor` finds for its id, or kept
    * when there is none; so only `x` and `y` ever change. */
  lemma {:induction false} ApplyUpdatesAt(layers: seq<Layer>, updates: seq<Update>, i: nat)
    requires i < |layers|
    ensures var u := UpdateFor(updates, layers[i].id);
      ApplyUpdates(layers, updates)[i] == (if u.Some? then Patched(layers[i], u.value) else layers[i])
    ensures ApplyUpdates(layers, updates)[i].(x := layers[i].x, y := layers[i].y) == layers[i]
  {
    if i > 0 {
      ApplyUpdatesAt(layers[1..], updates, i - 1);
      assert layers[i] == layers[1..][i - 1];
    }
  }

  /** No updates, no change: `updateLayersAndCommit` returns early. */
  lemma {:induction false} ApplyNoUpdates(layers: seq<Layer>)
    ensures ApplyUpdates(layers, []) == layers
  {
    if layers != [] {
      ApplyNoUpdates(layers[1..]);
    }
  }

  // ----------------------------------------------------------------- align

  datatype AlignKind = LeftEdges | HCenters | RightEdges | TopEdges | VCenters | BottomEdges

  /** The `alignTo` setting: the selection's box or the artboard. */
  datatype AlignTarget = ToSelection | ToArtboard

  /** `selectedLayers.find(l => l.id === keyObjectLayerId)`. */
  function KeyObject(selected: seq<Layer>, keyId: Option<string>): (r: Option<Layer>)
    ensures r.Some? ==> keyId == Some(r.value.id) && r.value in selected
    ensures r.None? ==> keyId.None? || !HasId(selected, keyId.value)
  {
    if keyId.None? then None else FindLayer(selected, keyId.value)
  }

  /** The unrotated extent of a non-empty selection: the least left and top,
    * the greatest right and bottom. */
  function SelectionExtent(selected: seq<Layer>): Box
    requires selected != []
  {
    var minX, minY := MinOf(Lefts(selected)), MinOf(Tops(selected));
    var maxX, maxY := MaxOf(Rights(selected)), MaxOf(Bottoms(selected));
    Box(minX, minY, maxX - minX, maxY - minY)
  }

  /** The box aligned to: the key object's box; else the artboard when one
    * layer is selected or `alignTo` is the artboard; else the selection's
    * extent. */
  function TargetBounds(selected: seq<Layer>, keyId: Option<string>, alignTo: AlignTarget,
                        artboardWidth: real, artboardHeight: real): Box
    requires selected != []
  {
    var key := KeyObject(selected, keyId);
    if key.Some? then LayerBox(key.value)
    else if |selected| == 1 || alignTo == ToArtboard then Box(0.0, 0.0, artboardWidth, artboardHeight)
    else SelectionExtent(selected)
  }

  /** The selection's extent holds every selected layer's box, and each of its
    * four edges is some selected layer's edge. */
  lemma SelectionExtentTight(selected: seq<Layer>)
    requires selected != []
    ensures var t := SelectionExtent(selected);
      (forall i :: 0 <= i < |selected| ==>
         t.x <= selected[i].x && selected[i].x + selected[i].width <= t.x + t.width &&
         t.y <= selected[i].y && selected[i].y + selected[i].height <= t.y + t.height) &&
      (exists i :: 0 <= i < |selected| && selected[i].x == t.x) &&
      (exists i :: 0 <= i < |selected| && selected[i].x + selected[i].width == t.x + t.width) &&
      (exists i :: 0 <= i < |selected| && selected[i].y == t.y) &&
      (exists i :: 0 <= i < |selected| && selected[i].y + selected[i].height == t.y + t.height)
  {
    var t := SelectionExtent(selected);
    var ls, rs, ts, bs := Lefts(selected), Rights(selected), Tops(selected), Bottoms(selected);
    assert t.x == MinOf(ls) && t.x + t.width == MaxOf(rs) && t.y == MinOf(ts) && t.y + t.height == MaxOf(bs);
    var a :| 0 <= a < |ls| && ls[a] == t.x;
    var b :| 0 <= b < |rs| && rs[b] == t.x + t.width;
    var c :| 0 <= c < |ts| && ts[c] == t.y;
    var d :| 0 <= d < |bs| && bs[d] == t.y + t.height;
  }

  /** Which box each case picks: the key object's, the artboard's, or the
    * selection's extent, named by the conditions the program tests. */
  lemma TargetBoundsCases(selected: seq<Layer>, keyId: Option<string>, alignTo: AlignTarget,
                          artboardWidth: real, artboardHeight: real)
    requires selected != []
    ensures var t := TargetBounds(selected, keyId, alignTo, artboardWidth, artboardHeight);
      (forall l :: l in selected && keyId == Some(l.id) && FindLayer(selected, l.id) == Some(l) ==> t == LayerBox(l)) &&
      ((keyId.None? || !HasId(selected, keyId.value)) ==>
         if |selected| == 1 || alignTo == ToArtboard then t == Box(0.0, 0.0, artboardWidth, artboardHeight)
         else t == SelectionExtent(selected))
  {
  }

  /** The update one case of the `switch` builds for a layer. */
  function AlignedUpdate(kind: AlignKind, l: Layer, t: Box): Update {
    match kind
    case LeftEdges => Update(l.id, Some(t.x), None)
    case HCenters => Update(l.id, Some(t.x + t.width / 2.0 - l.width / 2.0), None)
    case RightEdges => Update(l.id, Some(t.x + t.width - l.width), None)
    case TopEdges => Update(l.id, None, Some(t.y))
    case VCenters => Update(l.id, None, Some(t.y + t.height / 2.0 - l.height / 2.0))
    case BottomEdges => Update(l.id, None, Some(t.y + t.height - l.height))
  }

  /** What "aligned" means for each kind: the named edge or centre line of the
    * layer lies on that of the target. */
  predicate IsAligned(kind: AlignKind, l: Layer, t: Box) {
    match kind
    case LeftEdges => l.x == t.x
    case HCenters => l.x + l.width / 2.0 == t.x + t.width / 2.0
    case RightEdges => l.x + l.width == t.x + t.width
    case TopEdges => l.y == t.y
    case VCenters => l.y + l.height / 2.0 == t.y + t.height / 2.0
    case BottomEdges => l.y + l.height == t.y + t.height
  }

  predicate IsHorizontal(kind: AlignKind) {
    kind == LeftEdges || kind == HCenters || kind == RightEdges
  }

  /** An aligned layer meets the target on the named line, and moves along one
    * axis only. */
  lemma AlignedUpdateAligns(kind: AlignKind, l: Layer, t: Box)
    ensures var m := Patched(l, AlignedUpdate(kind, l, t));
      IsAligned(kind, m, t) &&
      m.width == l.width && m.height == l.height &&
      (IsHorizontal(kind) ==> m.y == l.y) && (!IsHorizontal(kind) ==> m.x == l.x)
  {
  }

  /** One update per selected layer in list order, the key object skipped. */
  function AlignUpdates(selected: seq<Layer>, key: Option<Layer>, kind: AlignKind, t: Box): (r: seq<Update>)
    ensures |r| <= |selected|
    ensures forall u :: u in r <==>
      exists l :: l in selected && !(key.Some? && l.id == key.value.id) && u == AlignedUpdate(kind, l, t)
  {
    if selected == [] then []
    else
      var l := selected[0];
      var rest := AlignUpdates(selected[1..], key, kind, t);
      assert forall m :: m in selected <==> m == l || m in selected[1..];
      (if key.Some? && l.id == key.value.id then [] else [AlignedUpdate(kind, l, t)]) + rest
  }

  /** `handleAlign`: nothing without a selected layer. */
  function Align(layers: seq<Layer>, ids: seq<string>, keyId: Option<string>, alignTo: AlignTarget,
                 artboardWidth: real, artboardHeight: real, kind: AlignKind): seq<Update>
  {
    var selected := SelectedLayers(layers, ids);
    if selected == [] then []
    else AlignUpdates(selected, KeyObject(selected, keyId), kind,
                      TargetBounds(selected, keyId, alignTo, artboardWidth, artboardHeight))
  }

  /** A non-key selected layer gets its own aligned update; any other layer
    * gets none, when the ids are unique. */
  lemma AlignUpdateForLayer(layers: seq<Layer>, ids: seq<string>, key: Option<Layer>, kind: AlignKind, t: Box, l: Layer)
    requires UniqueIds(layers) && l in layers
    ensures var u := UpdateFor(AlignUpdates(SelectedLayers(layers, ids), key, kind, t), l.id);
      if l.id in ids && !(key.Some? && l.id == key.value.id) then u == Some(AlignedUpdate(kind, l, t)) else u.None?
  {
    var selected := SelectedLayers(layers, ids);
    var updates := AlignUpdates(selected, key, kind, t);
    var u := UpdateFor(updates, l.id);
    if l.id in ids && !(key.Some? && l.id == key.value.id) {
      assert l in selected;
      var v := AlignedUpdate(kind, l, t);
      assert v in updates;
    }
    if u.Some? {
      assert u.value in updates;
      var m :| m in selected && !(key.Some? && m.id == key.value.id) && u.value == AlignedUpdate(kind, m, t);
      assert m.id == l.id;
      UniqueMember(layers, m, l);
    }
  }

  /** In a list with unique ids, two members with the same id are the same. */
  lemma UniqueMember(layers: seq<Layer>, a: Layer, b: Layer)
    requires UniqueIds(layers) && a in layers && b in layers && a.id == b.id
    ensures a == b
  {
  }

  /** With unique ids, aligning moves every selected layer except the key
    * object onto the target line, along one axis, and leaves every other layer
    * (the key object and the unselected ones) as it was. */
  lemma AlignMovesSelection(layers: seq<Layer>, ids: seq<string>, keyId: Option<string>, alignTo: AlignTarget,
                            artboardWidth: real, artboardHeight: real, kind: AlignKind)
    requires UniqueIds(layers)
    ensures var selected := SelectedLayers(layers, ids);
      var r := ApplyUpdates(layers, Align(layers, ids, keyId, alignTo, artboardWidth, artboardHeight, kind));
      |r| == |layers| &&
      forall i :: 0 <= i < |layers| ==>
        if layers[i].id in ids && keyId != Some(layers[i].id) then
          IsAligned(kind, r[i], TargetBounds(selected, keyId, alignTo, artboardWidth, artboardHeight)) &&
          r[i].width == layers[i].width && r[i].height == layers[i].height &&
          (IsHorizontal(kind) ==> r[i].y == layers[i].y) && (!IsHorizontal(kind) ==> r[i].x == layers[i].x)
        else r[i] == layers[i]
  {
    var selected := SelectedLayers(layers, ids);
    var updates := Align(layers, ids, keyId, alignTo, artboardWidth, artboardHeight, kind);
    var r := ApplyUpdates(layers, updates);
    forall i | 0 <= i < |layers|
      ensures if layers[i].id in ids && keyId != Some(layers[i].id) then
          selected != [] &&
          IsAligned(kind, r[i], TargetBounds(selected, keyId, alignTo, artboardWidth, artboardHeight)) &&
          r[i].width == layers[i].width && r[i].height == layers[i].height &&
          (IsHorizontal(kind) ==> r[i].y == layers[i].y) && (!IsHorizontal(kind) ==> r[i].x == layers[i].x)
        else r[i] == layers[i]
    {
      AlignLayer(layers, ids, keyId, alignTo, artboardWidth, artboardHeight, kind, i);
    }
  }

  lemma AlignLayer(layers: seq<Layer>, ids: seq<string>, keyId: Option<string>, alignTo: AlignTarget,
                   artboardWidth: real, artboardHeight: real, kind: AlignKind, i: nat)
    requires UniqueIds(layers) && i < |layers|
    ensures var selected := SelectedLayers(layers, ids);
      var r := ApplyUpdates(layers, Align(layers, ids, keyId, alignTo, artboardWidth, artboardHeight, kind));
      if layers[i].id in ids && keyId != Some(layers[i].id) then
        selected != [] &&
        IsAligned(kind, r[i], TargetBounds(selected, keyId, alignTo, artboardWidth, artboardHeight)) &&
        r[i].width == layers[i].width && r[i].height == layers[i].height &&
        (IsHorizontal(kind) ==> r[i].y == layers[i].y) && (!IsHorizontal(kind) ==> r[i].x == layers[i].x)
      else r[i] == layers[i]
  {
    var l := layers[i];
    var selected := SelectedLayers(layers, ids);
    var updates := Align(layers, ids, keyId, alignTo, artboardWidth, artboardHeight, kind);
    ApplyUpdatesAt(layers, updates, i);
    if selected == [] {
      assert !(l.id in ids) by {
        assert l in layers;
      }
      assert UpdateFor(updates, l.id).None?;
    } else {
      var key := KeyObject(selected, keyId);
      var t := TargetBounds(selected, keyId, alignTo, artboardWidth, artboardHeight);
      assert updates == AlignUpdates(selected, key, kind, t);
      AlignUpdateForLayer(layers, ids, key, kind, t, l);
      var keyed := key.Some? && l.id == key.value.id;
      assert keyed <==> keyId == Some(l.id) && l.id in ids by {
        if keyId == Some(l.id) && l.id in ids {
          assert l in selected;
          var p :| 0 <= p < |selected| && selected[p] == l;
          assert HasId(selected, l.id);
        }
        if keyed {
          assert key.value in selected;
        }
      }
      if !keyed && l.id in ids {
        AlignedUpdateAligns(kind, l, t);
      }
    }
  }

  // ------------------------------------------------------------ distribute

  datatype DistributeKind = VDistTop | VDistCenter | VDistBottom | HDistLeft | HDistCenter | HDistRight

  predicate IsVertical(kind: DistributeKind) {
    kind == VDistTop || kind == VDistCenter || kind == VDistBottom
  }

  /** The line a kind spreads evenly: a top, centre or bottom, a left, centre or
    * right edge. */
  function Edge(kind: DistributeKind, l: Layer): real {
    match kind
    case VDistTop => l.y
    case VDistCenter => l.y + l.height / 2.0
    case VDistBottom => l.y + l.height
    case HDistLeft => l.x
    case HDistCenter => l.x + l.width / 2.0
    case HDistRight => l.x + l.width
  }

  /** How far that line lies from the layer's `x` or `y`. */
  function Offset(kind: DistributeKind, l: Layer): real {
    match kind
    case VDistTop => 0.0
    case VDistCenter => l.height / 2.0
    case VDistBottom => l.height
    case HDistLeft => 0.0
    case HDistCenter => l.width / 2.0
    case HDistRight => l.width
  }

  /** The comparator `(a, b) => edge(a) - edge(b)`. */
  function EdgeOrder(kind: DistributeKind): (Layer, Layer) -> real {
    (a: Layer, b: Layer) => Edge(kind, a) - Edge(kind, b)
  }

  function EdgeKey(kind: DistributeKind): Layer -> real {
    (l: Layer) => Edge(kind, l)
  }

  lemma EdgeOrderComparesBy(kind: DistributeKind)
    ensures ComparesBy(EdgeOrder(kind), EdgeKey(kind))
  {
  }

  /** The comparators as the program writes them: for `h-dist-right` the
    * second operand is `b.y + b.width`, not `b.x + b.width`. */
  function WrittenOrder(kind: DistributeKind): (Layer, Layer) -> real {
    if kind == HDistRight then (a: Layer, b: Layer) => (a.x + a.width) - (b.y + b.width)
    else EdgeOrder(kind)
  }

  /** `first + i * step` with `step = (last - first) / (n - 1)`. */
  function EvenEdge(first: real, last: real, n: nat, i: nat): real
    requires n >= 2
  {
    first + (i as real) * ((last - first) / ((n - 1) as real))
  }

  /** The update moving a layer's line to `e`. */
  function PlacedAt(kind: DistributeKind, l: Layer, e: real): Update {
    if IsVertical(kind) then Update(l.id, None, Some(e - Offset(kind, l)))
    else Update(l.id, Some(e - Offset(kind, l)), None)
  }

  lemma PlacedAtEdge(kind: DistributeKind, l: Layer, e: real)
    ensures var m := Patched(l, PlacedAt(kind, l, e));
      Edge(kind, m) == e && m.width == l.width && m.height == l.height &&
      (IsVertical(kind) ==> m.x == l.x) && (!IsVertical(kind) ==> m.y == l.y)
  {
  }

  /** The updates for an order: the inner layers placed at even steps between
    * the first's line and the last's; the first and last are not moved. */
  function Spread(sorted: seq<Layer>, kind: DistributeKind): (r: seq<Update>)
    requires |sorted| >= 3
    ensures |r| == |sorted| - 2
  {
    var n := |sorted|;
    var first, last := Edge(kind, sorted[0]), Edge(kind, sorted[n - 1]);
    seq(n - 2, j requires 0 <= j < n - 2 => PlacedAt(kind, sorted[j + 1], EvenEdge(first, last, n, j + 1)))
  }

  /** The `for (let i = 1; i < sorted.length - 1; i++)` loop pushing updates. */
  method SpreadLoop(sorted: seq<Layer>, kind: DistributeKind) returns (updates: seq<Update>)
    requires |sorted| >= 3
    ensures updates == Spread(sorted, kind)
  {
    var n := |sorted|;
    var first, last := Edge(kind, sorted[0]), Edge(kind, sorted[n - 1]);
    updates := [];
    for i := 1 to n - 1
      invariant |updates| == i - 1
      invariant forall j :: 0 <= j < i - 1 ==>
        updates[j] == PlacedAt(kind, sorted[j + 1], EvenEdge(first, last, n, j + 1))
    {
      updates := updates + [PlacedAt(kind, sorted[i], EvenEdge(first, last, n, i))];
    }
  }

  /** `handleDistribute` with each kind's comparator ordering by the line it
    * spreads; nothing for fewer than three selected layers. */
  method Distribute(layers: seq<Layer>, ids: seq<string>, kind: DistributeKind) returns (updates: seq<Update>)
    ensures var selected := SelectedLayers(layers, ids);
      updates == if |selected| < 3 then [] else Spread(SortWith(selected, EdgeOrder(kind)), kind)
  {
    var selected := SelectedLayers(layers, ids);
    updates := [];
    if |selected| < 3 {
      return;
    }
    var sorted := SortWith(selected, EdgeOrder(kind));
    updates := SpreadLoop(sorted, kind);
  }

  /** `handleDistribute` as written, with the `h-dist-right` comparator. */
  method DistributeAsWritten(layers: seq<Layer>, ids: seq<string>, kind: DistributeKind) returns (updates: seq<Update>)
    ensures var selected := SelectedLayers(layers, ids);
      updates == if |selected| < 3 then [] else Spread(SortWith(selected, WrittenOrder(kind)), kind)
  {
    var selected := SelectedLayers(layers, ids);
    updates := [];
    if |selected| < 3 {
      return;
    }
    var sorted := SortWith(selected, WrittenOrder(kind));
    updates := SpreadLoop(sorted, kind);
  }

  /** Each update of `Spread(sorted, kind)` is for the layer at its place and
    * moves that layer's line to its even step, which lies between the ends. */
  ghost predicate PlacesEvenly(sorted: seq<Layer>, kind: DistributeKind)
    requires |sorted| >= 3
  {
    var n := |sorted|;
    var first, last := Edge(kind, sorted[0]), Edge(kind, sorted[n - 1]);
    var updates := Spread(sorted, kind);
    forall j :: 0 <= j < |updates| ==>
      updates[j].id == sorted[j + 1].id &&
      Edge(kind, Patched(sorted[j + 1], updates[j])) == EvenEdge(first, last, n, j + 1) &&
      first <= EvenEdge(first, last, n, j + 1) <= last
  }

  /** The `n` even steps start at `first`, end at `last` and are equally spaced. */
  ghost predicate EvenlySpaced(first: real, last: real, n: nat)
    requires n >= 2
  {
    (forall j :: 1 <= j < n ==> EvenEdge(first, last, n, j) - EvenEdge(first, last, n, j - 1) == (last - first) / ((n - 1) as real)) &&
    EvenEdge(first, last, n, 0) == first && EvenEdge(first, last, n, n - 1) == last
  }

  /** Distributing by a line: the first and last of the order are the layers
    * with the least and greatest line, they are not moved, and the inner layers
    * move only along the axis, their lines at equal steps between the two. */
  lemma SpreadEven(selected: seq<Layer>, kind: DistributeKind)
    requires |selected| >= 3
    ensures var sorted := SortWith(selected, EdgeOrder(kind));
      var first, last := Edge(kind, sorted[0]), Edge(kind, sorted[|sorted| - 1]);
      multiset(sorted) == multiset(selected) &&
      (forall l :: l in selected ==> first <= Edge(kind, l) <= last) &&
      PlacesEvenly(sorted, kind) && EvenlySpaced(first, last, |sorted|)
  {
    var sorted := SortWith(selected, EdgeOrder(kind));
    SortedEnds(selected, kind);
    assert sorted[0] in multiset(selected);
    SpreadPlaces(sorted, kind);
    EvenSteps(Edge(kind, sorted[0]), Edge(kind, sorted[|sorted| - 1]), |sorted|);
  }

  lemma SpreadPlaces(sorted: seq<Layer>, kind: DistributeKind)
    requires |sorted| >= 3 && Edge(kind, sorted[0]) <= Edge(kind, sorted[|sorted| - 1])
    ensures PlacesEvenly(sorted, kind)
  {
    var n := |sorted|;
    var first, last := Edge(kind, sorted[0]), Edge(kind, sorted[n - 1]);
    var updates := Spread(sorted, kind);
    forall j | 0 <= j < |updates|
      ensures updates[j].id == sorted[j + 1].id &&
        Edge(kind, Patched(sorted[j + 1], updates[j])) == EvenEdge(first, last, n, j + 1) &&
        first <= EvenEdge(first, last, n, j + 1) <= last
    {
      assert updates[j] == PlacedAt(kind, sorted[j + 1], EvenEdge(first, last, n, j + 1));
      PlacedAtEdge(kind, sorted[j + 1], EvenEdge(first, last, n, j + 1));
      EvenEdgeAt(first, last, n, j + 1);
    }
    assert PlacesEvenly(sorted, kind);
  }

  lemma EvenSteps(first: real, last: real, n: nat)
    requires n >= 2 && first <= last
    ensures EvenlySpaced(first, last, n)
  {
    forall j | 1 <= j < n
      ensures EvenEdge(first, last, n, j) - EvenEdge(first, last, n, j - 1) == (last - first) / ((n - 1) as real)
    {
      EvenEdgeAt(first, last, n, j);
    }
    EvenEdgeAt(first, last, n, n - 1);
  }

  /** Sorted by the line, the first layer has the least line of the selection
    * and the last the greatest. */
  lemma SortedEnds(selected: seq<Layer>, kind: DistributeKind)
    requires |selected| >= 1
    ensures var sorted := SortWith(selected, EdgeOrder(kind));
      forall l :: l in selected ==> Edge(kind, sorted[0]) <= Edge(kind, l) <= Edge(kind, sorted[|sorted| - 1])
  {
    var sorted := SortWith(selected, EdgeOrder(kind));
    var n := |sorted|;
    EdgeOrderComparesBy(kind);
    SortWithSorted(selected, EdgeOrder(kind), EdgeKey(kind));
    forall l | l in selected
      ensures Edge(kind, sorted[0]) <= Edge(kind, l) <= Edge(kind, sorted[n - 1])
    {
      assert l in multiset(sorted);
      var p :| 0 <= p < n && sorted[p] == l;
      assert EdgeKey(kind)(sorted[0]) <= EdgeKey(kind)(sorted[p]) <= EdgeKey(kind)(sorted[n - 1]);
    }
  }

  /** The `i`-th even step lies between the ends, one step past the one
    * before; the last step reaches `last`. */
  lemma EvenEdgeAt(first: real, last: real, n: nat, i: nat)
    requires n >= 2 && first <= last && i < n
    ensures first <= EvenEdge(first, last, n, i) <= last
    ensures i >= 1 ==> EvenEdge(first, last, n, i) - EvenEdge(first, last, n, i - 1) == (last - first) / ((n - 1) as real)
    ensures EvenEdge(first, last, n, 0) == first && EvenEdge(first, last, n, n - 1) == last
  {
    var step := (last - first) / ((n - 1) as real);
    assert step >= 0.0;
    assert ((n - 1) as real) * step == last - first;
    StepBound(step, i, n - 1);
    if i >= 1 {
      assert (i as real) * step == ((i - 1) as real) * step + step;
    }
  }

  lemma StepBound(step: real, i: nat, m: nat)
    requires step >= 0.0 && i <= m
    ensures 0.0 <= (i as real) * step <= (m as real) * step
  {
  }

  // ---------------------------------------------------- the h-dist-right order

  /** The written `h-dist-right` comparator is no `key(a) - key(b)`: it does not
    * even compare a layer equal to itself unless its `x` and `y` agree. */
  lemma WrittenRightIsNoKeyOrder(key: Layer -> real)
    ensures !ComparesBy(WrittenOrder(HDistRight), key)
  {
    var a := Sample("a", 0.0, 1.0, 10.0);
    assert WrittenOrder(HDistRight)(a, a) == -1.0;
  }

  /** A layer with the given id, position and width (height 10, an image). */
  function Sample(id: string, x: real, y: real, width: real): Layer {
    Layer(id, None, None, x, y, width, 10.0, 0.0, 0, false, None, Image(""))
  }

  /** Three layers side by side at `x = 0` with right edges 10, 50 and 30; the
    * second sits higher up. */
  function Row(): seq<Layer> {
    [Sample("a", 0.0, 0.0, 10.0), Sample("b", 0.0, -100.0, 50.0), Sample("c", 0.0, 0.0, 30.0)]
  }

  /** The written comparator leaves the row in list order ... */
  lemma WrittenRightOrder()
    ensures SortWith(Row(), WrittenOrder(HDistRight)) == Row()
  {
    var a, b, c := Row()[0], Row()[1], Row()[2];
    var w := WrittenOrder(HDistRight);
    assert Row()[..2] == [a, b] && [a, b][..1] == [a];
    assert SortWith([a], w) == [a];
    assert w(b, a) == 40.0;
    assert SortWith([a, b], w) == [a, b];
    assert w(c, a) == 20.0 && w(c, b) == 80.0;
    assert Insert(c, [b], w) == [b, c];
  }

  /** ... while ordering by right edge puts the widest last. */
  lemma RightEdgeOrder()
    ensures SortWith(Row(), EdgeOrder(HDistRight)) == [Row()[0], Row()[2], Row()[1]]
  {
    var a, b, c := Row()[0], Row()[1], Row()[2];
    var e := EdgeOrder(HDistRight);
    assert Row()[..2] == [a, b] && [a, b][..1] == [a];
    assert SortWith([a], e) == [a];
    assert e(b, a) == 40.0;
    assert SortWith([a, b], e) == [a, b];
    assert e(c, a) == 20.0 && e(c, b) == -20.0;
    assert Insert(c, [b], e) == [c, b];
  }

  /** Spread over the row as written: the second layer is placed at right
    * edge 20, one step from 10 towards 30. */
  lemma SpreadRow()
    ensures Spread(Row(), HDistRight) == [Update("b", Some(-30.0), None)]
  {
    var s := Spread(Row(), HDistRight);
    assert EvenEdge(10.0, 30.0, 3, 1) == 20.0;
    assert s[0] == PlacedAt(HDistRight, Row()[1], 20.0);
  }

  /** Spread over the row ordered by right edge: the third layer is placed at
    * right edge 30, where it already is. */
  lemma SpreadByRightEdge()
    ensures Spread([Row()[0], Row()[2], Row()[1]], HDistRight) == [Update("c", Some(0.0), None)]
  {
    var s := Spread([Row()[0], Row()[2], Row()[1]], HDistRight);
    assert EvenEdge(10.0, 50.0, 3, 1) == 30.0;
    assert s[0] == PlacedAt(HDistRight, Row()[2], 30.0);
  }

  /** So as written, the layer with the greatest right edge is taken for an
    * inner one and moved in to right edge 20, while the one at 30 stays as the
    * last; ordered by right edge, only the middle layer is placed, exactly
    * where it is. */
  lemma WrittenRightMovesOutermost()
    ensures var b := Row()[1];
      (forall l :: l in Row() ==> Edge(HDistRight, l) <= Edge(HDistRight, b)) &&
      Spread(SortWith(Row(), WrittenOrder(HDistRight)), HDistRight) == [Update("b", Some(-30.0), None)] &&
      Edge(HDistRight, Patched(b, Update("b", Some(-30.0), None))) == 20.0 &&
      Spread(SortWith(Row(), EdgeOrder(HDistRight)), HDistRight) == [Update("c", Some(0.0), None)]
  {
    WrittenRightOrder();
    RightEdgeOrder();
    SpreadRow();
    SpreadByRightEdge();
    RowEdges();
  }

  /** The second layer of the row has the greatest right edge. */
  lemma RowEdges()
    ensures forall l :: l in Row() ==> Edge(HDistRight, l) <= Edge(HDistRight, Row()[1])
    ensures Edge(HDistRight, Patched(Row()[1], Update("b", Some(-30.0), None))) == 20.0
  {
    var r := Row();
    assert forall l :: l in r ==> l == r[0] || l == r[1] || l == r[2];
  }
}
