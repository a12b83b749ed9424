// The earlier single-file editor (src/App.tsx): deleting an artboard, adding
// and deleting layers of the active artboard, and moving a layer one step up
// or down the z order by swapping z-indices in a copy of the layer array.
module LegacyApp {
  import opened Wrappers
  import opened Sorting

  datatype LayerKind = TextKind | ImageKind

  /** The layer fields this editor sets; its own type module is not part of
    * this model. */
  datatype LegacyContent =
    | TextContent(text: string, fontFamily: string, fontSize: real, color: string, fontWeight: int)
    | ImageContent(src: string)

  datatype LegacyLayer = LegacyLayer(id: string, x: real, y: real, rotation: real, zIndex: int,
                                     width: real, height: real, content: LegacyContent)

  datatype LegacyArtboard = LegacyArtboard(id: string, name: string, width: real, height: real,
                                           backgroundColor: string, layers: seq<LegacyLayer>)

  /** The editor's state: the artboards, the active artboard's id and the
    * selected layer's id (null is None). */
  datatype State = State(artboards: seq<LegacyArtboard>, activeArtboardId: Option<string>,
                         selectedLayerId: Option<string>)

  /** `artboards.find(a => a.id === activeArtboardId)` */
  function FindArtboard(artboards: seq<LegacyArtboard>, id: Option<string>): (r: Option<LegacyArtboard>)
    ensures r.Some? ==> r.value in artboards && id == Some(r.value.id)
    ensures r.None? ==> forall a :: a in artboards ==> id != Some(a.id)
  {
    if artboards == [] then None
    else if id == Some(artboards[0].id) then Some(artboards[0])
    else
      assert forall a :: a in artboards <==> a == artboards[0] || a in artboards[1..];
      FindArtboard(artboards[1..], id)
  }

  /** `updateArtboard(id, { layers })`: every artboard with that id gets the
    * layers; the others stay as they were. */
  function SetLayers(artboards: seq<LegacyArtboard>, id: string, layers: seq<LegacyLayer>): (r: seq<LegacyArtboard>)
    ensures |r| == |artboards|
    ensures forall k :: 0 <= k < |artboards| ==>
      r[k] == if artboards[k].id == id then artboards[k].(layers := layers) else artboards[k]
  {
    if artboards == [] then []
    else
      [if artboards[0].id == id then artboards[0].(layers := layers) else artboards[0]]
        + SetLayers(artboards[1..], id, layers)
  }

  // ------------------------------------------------------------- artboards

  /** `artboards.filter(a => a.id !== id)` */
  function Without(artboards: seq<LegacyArtboard>, id: string): (r: seq<LegacyArtboard>)
    ensures |r| <= |artboards|
    ensures forall a :: a in r <==> a in artboards && a.id != id
  {
    if artboards == [] then []
    else
      assert forall a :: a in artboards <==> a == artboards[0] || a in artboards[1..];
      (if artboards[0].id != id then [artboards[0]] else []) + Without(artboards[1..], id)
  }

  /** The filter keeps the other artboards in their order: it distributes over
    * concatenation and keeps or drops each one. */
  lemma {:induction false} WithoutKeepsOrder(a: seq<LegacyArtboard>, b: seq<LegacyArtboard>, id: string)
    ensures Without(a + b, id) == Without(a, id) + Without(b, id)
  {
    if a == [] {
      assert a + b == b;
    } else {
      assert (a + b)[0] == a[0] && (a + b)[1..] == a[1..] + b;
      WithoutKeepsOrder(a[1..], b, id);
      var h := if a[0].id != id then [a[0]] else [];
      assert Without(a + b, id) == h + Without(a[1..] + b, id);
      assert h + (Without(a[1..], id) + Without(b, id)) == (h + Without(a[1..], id)) + Without(b, id);
    }
  }

  /** `handleDeleteArtboard`: the artboard goes; when it was the active one,
    * the first remaining artboard becomes active if there were more than one,
    * and none otherwise. None stands for the TypeError of reading the first
    * remaining artboard when none remains although there were several. */
  function DeleteArtboard(st: State, id: string): (r: Option<State>)
    ensures r.None? <==> st.activeArtboardId == Some(id) && |st.artboards| > 1 && Without(st.artboards, id) == []
    ensures r.Some? ==> r.value.artboards == Without(st.artboards, id) && r.value.selectedLayerId == st.selectedLayerId
    ensures r.Some? && st.activeArtboardId != Some(id) ==> r.value.activeArtboardId == st.activeArtboardId
    ensures r.Some? && st.activeArtboardId == Some(id) ==>
      r.value.activeArtboardId ==
        if |st.artboards| > 1 then Some(Without(st.artboards, id)[0].id) else None
  {
    var remaining := Without(st.artboards, id);
    if st.activeArtboardId != Some(id) then Some(st.(artboards := remaining))
    else if |st.artboards| > 1 then
      if remaining == [] then None
      else Some(st.(artboards := remaining, activeArtboardId := Some(remaining[0].id)))
    else Some(st.(artboards := remaining, activeArtboardId := None))
  }

  /** Artboard ids are unique. */
  ghost predicate UniqueArtboards(artboards: seq<LegacyArtboard>) {
    forall i, j :: 0 <= i < j < |artboards| ==> artboards[i].id != artboards[j].id
  }

  lemma {:induction false} WithoutUnique(artboards: seq<LegacyArtboard>, id: string)
    requires UniqueArtboards(artboards)
    ensures |Without(artboards, id)| >= |artboards| - 1
  {
    if artboards != [] {
      var rest := artboards[1..];
      assert UniqueArtboards(rest) by {
        forall i, j | 0 <= i < j < |rest| ensures rest[i].id != rest[j].id {
          assert rest[i] == artboards[i + 1] && rest[j] == artboards[j + 1];
        }
      }
      WithoutUnique(rest, id);
      if artboards[0].id == id {
        WithoutNone(rest, id);
      }
    }
  }

  lemma {:induction false} WithoutNone(artboards: seq<LegacyArtboard>, id: string)
    requires forall a :: a in artboards ==> a.id != id
    ensures Without(artboards, id) == artboards
  {
    if artboards != [] {
      assert artboards[0] in artboards;
      assert forall a :: a in artboards[1..] ==> a in artboards;
      WithoutNone(artboards[1..], id);
    }
  }

  /** With unique ids, deleting an artboard never fails, and a deleted active
    * artboard hands over to another artboard that is still there. */
  lemma DeleteArtboardSafe(st: State, id: string)
    requires UniqueArtboards(st.artboards)
    ensures DeleteArtboard(st, id).Some?
    ensures var r := DeleteArtboard(st, id).value;
      st.activeArtboardId == Some(id) && r.activeArtboardId.Some? ==>
        r.activeArtboardId != Some(id) && FindArtboard(r.artboards, r.activeArtboardId).Some?
  {
    WithoutUnique(st.artboards, id);
    var r := DeleteArtboard(st, id).value;
    if st.activeArtboardId == Some(id) && r.activeArtboardId.Some? {
      var first := r.artboards[0];
      assert first in r.artboards;
    }
  }

  // ---------------------------------------------------------------- layers

  /** `Math.max(0, ...layers.map(l => l.zIndex))` */
  function TopZ(layers: seq<LegacyLayer>): (m: int)
    ensures m >= 0
    ensures forall l :: l in layers ==> l.zIndex <= m
    ensures m == 0 || exists l :: l in layers && l.zIndex == m
  {
    if layers == [] then 0
    else
      var m := TopZ(layers[1..]);
      assert forall l :: l in layers <==> l == layers[0] || l in layers[1..];
      if layers[0].zIndex > m then layers[0].zIndex else m
  }

  /** The text of a new text layer ("New text"). */
  const NewText: string := "Văn bản mới"

  /** The layer `addLayer` creates; `newId` stands for
    * `${type.toLowerCase()}-${Date.now()}`. */
  function NewLayer(kind: LayerKind, newId: string, z: int): LegacyLayer {
    match kind
    case TextKind =>
      LegacyLayer(newId, 50.0, 50.0, 0.0, z, 300.0, 60.0, TextContent(NewText, "Inter", 48.0, "#ffffff", 700))
    case ImageKind =>
      LegacyLayer(newId, 50.0, 50.0, 0.0, z, 400.0, 300.0, ImageContent("https://picsum.photos/400/300"))
  }

  /** The layers of `a` with the new layer on top, at the end of the list. */
  function Added(layers: seq<LegacyLayer>, kind: LayerKind, newId: string): seq<LegacyLayer> {
    layers + [NewLayer(kind, newId, TopZ(layers) + 1)]
  }

  /** `addLayer`: with an active artboard, the new layer goes on top of all
    * its layers, at the end of the list, and becomes the selected layer. */
  function AddLayer(st: State, kind: LayerKind, newId: string): (r: State)
    ensures FindArtboard(st.artboards, st.activeArtboardId).None? ==> r == st
    ensures var a := FindArtboard(st.artboards, st.activeArtboardId);
      a.Some? ==>
        var z := TopZ(a.value.layers) + 1;
        z >= 1 && (forall l :: l in a.value.layers ==> l.zIndex < z)
    ensures var a := FindArtboard(st.artboards, st.activeArtboardId);
      a.Some? ==>
        r.artboards == SetLayers(st.artboards, a.value.id, Added(a.value.layers, kind, newId)) &&
        r.activeArtboardId == st.activeArtboardId && r.selectedLayerId == Some(newId)
  {
    var a := FindArtboard(st.artboards, st.activeArtboardId);
    if a.None? then st
    else
      st.(artboards := SetLayers(st.artboards, a.value.id, Added(a.value.layers, kind, newId)),
          selectedLayerId := Some(newId))
  }

  /** `layers.filter(l => l.id !== id)` */
  function DropLayer(layers: seq<LegacyLayer>, id: string): (r: seq<LegacyLayer>)
    ensures |r| <= |layers|
    ensures forall l :: l in r <==> l in layers && l.id != id
  {
    if layers == [] then []
    else
      assert forall l :: l in layers <==> l == layers[0] || l in layers[1..];
      (if layers[0].id != id then [layers[0]] else []) + DropLayer(layers[1..], id)
  }

  /** The filter keeps the other layers in their order: it distributes over
    * concatenation and keeps or drops each one. */
  lemma {:induction false} DropLayerKeepsOrder(a: seq<LegacyLayer>, b: seq<LegacyLayer>, id: string)
    ensures DropLayer(a + b, id) == DropLayer(a, id) + DropLayer(b, id)
  {
    if a == [] {
      assert a + b == b;
    } else {
      assert (a + b)[0] == a[0] && (a + b)[1..] == a[1..] + b;
      DropLayerKeepsOrder(a[1..], b, id);
      var h := if a[0].id != id then [a[0]] else [];
      assert DropLayer(a + b, id) == h + DropLayer(a[1..] + b, id);
      assert h + (DropLayer(a[1..], id) + DropLayer(b, id)) == (h + DropLayer(a[1..], id)) + DropLayer(b, id);
    }
  }

  /** `deleteLayer`: with an active artboard, only the layers with that id
    * go, and the selection is cleared when it was that layer. */
  function DeleteLayer(st: State, id: string): (r: State)
    ensures FindArtboard(st.artboards, st.activeArtboardId).None? ==> r == st
    ensures var a := FindArtboard(st.artboards, st.activeArtboardId);
      a.Some? ==>
        r.artboards == SetLayers(st.artboards, a.value.id, DropLayer(a.value.layers, id)) &&
        r.activeArtboardId == st.activeArtboardId &&
        r.selectedLayerId == if st.selectedLayerId == Some(id) then None else st.selectedLayerId
  {
    var a := FindArtboard(st.artboards, st.activeArtboardId);
    if a.None? then st
    else
      st.(artboards := SetLayers(st.artboards, a.value.id, DropLayer(a.value.layers, id)),
          selectedLayerId := if st.selectedLayerId == Some(id) then None else st.selectedLayerId)
  }

  // --------------------------------------------------------------- z order

  datatype Direction = Up | Down

  function ZKey(l: LegacyLayer): real { l.zIndex as real }

  /** `(a, b) => a.zIndex - b.zIndex` */
  function ByZIndex(a: LegacyLayer, b: LegacyLayer): real { (a.zIndex - b.zIndex) as real }

  /** `[...layers].sort((a, b) => a.zIndex - b.zIndex)` */
  function InZOrder(layers: seq<LegacyLayer>): seq<LegacyLayer> {
    SortWith(layers, ByZIndex)
  }

  /** `layers.findIndex(l => l.id === id)` */
  function FindIndex(layers: seq<LegacyLayer>, id: string): (p: int)
    ensures -1 <= p < |layers|
    ensures p >= 0 ==> layers[p].id == id && forall q :: 0 <= q < p ==> layers[q].id != id
    ensures p == -1 ==> forall q :: 0 <= q < |layers| ==> layers[q].id != id
  {
    if layers == [] then -1
    else if layers[0].id == id then 0
    else
      var p := FindIndex(layers[1..], id);
      if p == -1 then -1 else p + 1
  }

  /** The layers at `i` and `j` trade z-indices; nothing else changes. */
  function SwapZ(s: seq<LegacyLayer>, i: int, j: int): (r: seq<LegacyLayer>)
    requires 0 <= i < |s| && 0 <= j < |s| && i != j
    ensures |r| == |s|
    ensures r[i] == s[i].(zIndex := s[j].zIndex) && r[j] == s[j].(zIndex := s[i].zIndex)
    ensures forall k :: 0 <= k < |s| && k != i && k != j ==> r[k] == s[k]
  {
    s[i := s[i].(zIndex := s[j].zIndex)][j := s[j].(zIndex := s[i].zIndex)]
  }

  /** What `handleLayerZIndexChange` saves as the layer list: the list in z
    * order, with the layer and its neighbour above (`Up`) or below (`Down`)
    * trading z-indices when there is such a neighbour. None stands for the
    * TypeError of moving up a layer that is not in the list. */
  function Reordered(layers: seq<LegacyLayer>, id: string, dir: Direction): Option<seq<LegacyLayer>> {
    SwapWithNeighbour(InZOrder(layers), id, dir)
  }

  /** The swap itself, on the layers already in z order. */
  function SwapWithNeighbour(sorted: seq<LegacyLayer>, id: string, dir: Direction): Option<seq<LegacyLayer>> {
    var i := FindIndex(sorted, id);
    if dir == Up && i < |sorted| - 1 then
      if i < 0 then None else Some(SwapZ(sorted, i, i + 1))
    else if dir == Down && i > 0 then Some(SwapZ(sorted, i, i - 1))
    else Some(sorted)
  }

  /** `handleLayerZIndexChange`'s reordering: the layers sorted by z-index, then
    * the swap on an array of them. */
  method ReorderLayers(layers: seq<LegacyLayer>, id: string, dir: Direction) returns (r: Option<seq<LegacyLayer>>)
    ensures r == Reordered(layers, id, dir)
  {
    var sorted := InZOrder(layers);
    r := SwapNeighbourInArray(sorted, id, dir);
  }

  /** The swap, on an array of the layers in z order. */
  method SwapNeighbourInArray(sorted: seq<LegacyLayer>, id: string, dir: Direction) returns (r: Option<seq<LegacyLayer>>)
    ensures r == SwapWithNeighbour(sorted, id, dir)
  {
    var a := new LegacyLayer[|sorted|](k requires 0 <= k < |sorted| => sorted[k]);
    assert a[..] == sorted;
    var currentIndex := FindIndex(a[..], id);
    if dir == Up && currentIndex < a.Length - 1 {
      if currentIndex < 0 {
        return None;
      }
      SwapInPlace(a, currentIndex, currentIndex + 1, sorted);
    } else if dir == Down && currentIndex > 0 {
      SwapInPlace(a, currentIndex, currentIndex - 1, sorted);
    }
    r := Some(a[..]);
  }

  /** The two layers at `i` and `j` of `a`, which holds `s`, trade z-indices in the array. */
  method SwapInPlace(a: array<LegacyLayer>, i: int, j: int, ghost s: seq<LegacyLayer>)
    requires 0 <= i < a.Length && 0 <= j < a.Length && i != j && a[..] == s
    modifies a
    ensures a[..] == SwapZ(s, i, j)
  {
    var li, lj := a[i], a[j];
    a[i] := li.(zIndex := lj.zIndex);
    assert a[..] == s[i := li.(zIndex := lj.zIndex)];
    a[j] := lj.(zIndex := li.zIndex);
    assert a[..] == s[i := li.(zIndex := lj.zIndex)][j := lj.(zIndex := li.zIndex)];
  }

  /** `handleLayerZIndexChange`: the active artboard's layers replaced by the
    * reordered list; nothing changes without an active artboard. */
  function LayerZIndexChange(st: State, id: string, dir: Direction): (r: Option<State>)
    ensures FindArtboard(st.artboards, st.activeArtboardId).None? ==> r == Some(st)
    ensures var a := FindArtboard(st.artboards, st.activeArtboardId);
      a.Some? ==>
        var moved := Reordered(a.value.layers, id, dir);
        (r.None? <==> moved.None?) &&
        (r.Some? ==> r.value == st.(artboards := SetLayers(st.artboards, a.value.id, moved.value)))
  {
    var a := FindArtboard(st.artboards, st.activeArtboardId);
    if a.None? then Some(st)
    else
      var moved := Reordered(a.value.layers, id, dir);
      if moved.None? then None else Some(st.(artboards := SetLayers(st.artboards, a.value.id, moved.value)))
  }

  /** The z-indices of a list of layers. */
  function Zs(s: seq<LegacyLayer>): (r: seq<int>)
    ensures |r| == |s| && forall k :: 0 <= k < |s| ==> r[k] == s[k].zIndex
  {
    seq(|s|, k requires 0 <= k < |s| => s[k].zIndex)
  }

  lemma ZsAppend(s: seq<LegacyLayer>, t: seq<LegacyLayer>)
    ensures Zs(s + t) == Zs(s) + Zs(t)
  {
  }

  /** Lists that are permutations of each other have the same z-indices. */
  lemma {:induction false} ZsPermutation(s: seq<LegacyLayer>, t: seq<LegacyLayer>)
    requires multiset(s) == multiset(t)
    ensures multiset(Zs(s)) == multiset(Zs(t))
    decreases |s|
  {
    if s == [] {
      assert |t| == |multiset(t)| == 0;
    } else {
      var x := s[0];
      assert x in multiset(t);
      var k :| 0 <= k < |t| && t[k] == x;
      var before, after := t[..k], t[k + 1..];
      assert t == before + [x] + after;
      var rest := before + after;
      assert s == [x] + s[1..];
      assert multiset(t) == multiset(before) + multiset{x} + multiset(after);
      assert multiset(s) == multiset{x} + multiset(s[1..]);
      assert multiset(rest) == multiset(before) + multiset(after);
      assert multiset(rest) == multiset(t) - multiset{x};
      assert multiset(s[1..]) == multiset(s) - multiset{x};
      ZsPermutation(s[1..], rest);
      ZsAppend(before + [x], after);
      ZsAppend(before, [x]);
      ZsAppend(before, after);
      ZsAppend([x], s[1..]);
    }
  }

  /** Trading two z-indices keeps the multiset of z-indices. */
  lemma SwapKeepsZs(s: seq<LegacyLayer>, i: int, j: int)
    requires 0 <= i < |s| && 0 <= j < |s| && i != j
    ensures multiset(Zs(SwapZ(s, i, j))) == multiset(Zs(s))
  {
    var zs := Zs(s);
    assert Zs(SwapZ(s, i, j)) == zs[i := zs[j]][j := zs[i]];
  }

  /** The z order of the result: the multiset of z-indices is that of the
    * input, and every layer but the two that trade is an input layer. */
  lemma ReorderedKeepsZs(layers: seq<LegacyLayer>, id: string, dir: Direction)
    requires Reordered(layers, id, dir).Some?
    ensures var r := Reordered(layers, id, dir).value;
      |r| == |layers| && multiset(Zs(r)) == multiset(Zs(layers))
  {
    var sorted := InZOrder(layers);
    ZsPermutation(sorted, layers);
    var i := FindIndex(sorted, id);
    if dir == Up && i < |sorted| - 1 && i >= 0 {
      SwapKeepsZs(sorted, i, i + 1);
    } else if dir == Down && i > 0 {
      SwapKeepsZs(sorted, i, i - 1);
    }
  }

  /** At most two layers change, each only in its z-index, and each takes the
    * other's. */
  lemma ReorderedChangesTwo(layers: seq<LegacyLayer>, id: string, dir: Direction)
    requires Reordered(layers, id, dir).Some?
    ensures var sorted, r := InZOrder(layers), Reordered(layers, id, dir).value;
      |r| == |sorted| &&
      (r == sorted ||
       exists i, j :: 0 <= i < |sorted| && 0 <= j < |sorted| && i != j &&
         (forall k :: 0 <= k < |sorted| && k != i && k != j ==> r[k] == sorted[k]) &&
         r[i] == sorted[i].(zIndex := sorted[j].zIndex) && r[j] == sorted[j].(zIndex := sorted[i].zIndex))
  {
    var sorted := InZOrder(layers);
    var i := FindIndex(sorted, id);
    if dir == Up && i < |sorted| - 1 && i >= 0 {
      var r := SwapZ(sorted, i, i + 1);
      assert forall k :: 0 <= k < |sorted| && k != i && k != i + 1 ==> r[k] == sorted[k];
    } else if dir == Down && i > 0 {
      var r := SwapZ(sorted, i, i - 1);
      assert forall k :: 0 <= k < |sorted| && k != i && k != i - 1 ==> r[k] == sorted[k];
    }
  }

  lemma ZOrderSorted(layers: seq<LegacyLayer>)
    ensures SortedBy(InZOrder(layers), ZKey)
  {
    assert ComparesBy(ByZIndex, ZKey);
    SortWithSorted(layers, ByZIndex, ZKey);
  }

  /** `Up` trades with the next higher layer: the layer takes the least
    * z-index at or above its own among the others, and no other layer lies
    * strictly between the two. `Down` is the same below. */
  lemma MovesToNeighbour(layers: seq<LegacyLayer>, id: string, dir: Direction)
    requires var sorted := InZOrder(layers); var i := FindIndex(sorted, id);
      i >= 0 && (if dir == Up then i < |sorted| - 1 else i > 0)
    ensures var sorted := InZOrder(layers); var i := FindIndex(sorted, id);
      var j := if dir == Up then i + 1 else i - 1;
      var r := Reordered(layers, id, dir);
      r.Some? && r.value[i].id == id && r.value[i].zIndex == sorted[j].zIndex &&
      (dir == Up ==> sorted[i].zIndex <= sorted[j].zIndex) &&
      (dir == Down ==> sorted[j].zIndex <= sorted[i].zIndex) &&
      forall k :: 0 <= k < |sorted| && k != i && k != j ==>
        !(Min(sorted[i].zIndex, sorted[j].zIndex) < sorted[k].zIndex < Max(sorted[i].zIndex, sorted[j].zIndex))
  {
    ZOrderSorted(layers);
  }

  function Min(a: int, b: int): int { if a <= b then a else b }
  function Max(a: int, b: int): int { if a >= b then a else b }

  /** At the top, `Up` only puts the list in z order; so does `Down` at the
    * bottom and for a layer that is not there. */
  lemma EndsKeepZ(layers: seq<LegacyLayer>, id: string, dir: Direction)
    requires var sorted := InZOrder(layers); var i := FindIndex(sorted, id);
      (dir == Up && i == |sorted| - 1) || (dir == Down && i <= 0)
    ensures Reordered(layers, id, dir) == Some(InZOrder(layers))
  {
  }

  /** Moving up a layer that is not there fails, unless the list is empty. */
  lemma UpMissingFails(layers: seq<LegacyLayer>, id: string)
    requires forall l :: l in layers ==> l.id != id
    ensures Reordered(layers, id, Up).None? <==> layers != []
  {
    var sorted := InZOrder(layers);
    assert forall q :: 0 <= q < |sorted| ==> sorted[q] in multiset(layers);
  }
}
