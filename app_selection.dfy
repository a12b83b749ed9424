// Layer selection in the editor (click, ctrl/shift toggle and shift range
// select from the layer panel) and the zoom control that keeps the centre
// of the view in place.
module AppSelection {
  import opened Wrappers
  import opened Types
  import opened Sorting
  import opened AppLayers

  // -------------------------------------------------------------- selection

  /** The selection state: the selected ids in selection order, the key
    * object, and the layer last clicked in the panel. */
  datatype Selection = Selection(ids: seq<string>, key: Option<string>, lastClicked: Option<string>)

  /** Where the click came from. */
  datatype Source = Panel | Canvas

  /** A set id is truthy: present and not empty. */
  predicate Truthy(id: Option<string>) { id.Some? && id.value != "" }

  /** `[...new Set(s)]`: the first occurrence of each element, in order. */
  function Distinct(s: seq<string>): (r: seq<string>)
    ensures forall x :: x in r <==> x in s
    ensures forall i, j :: 0 <= i < j < |r| ==> r[i] != r[j]
    ensures |r| <= |s|
  {
    if s == [] then []
    else
      var init := Distinct(s[..|s| - 1]);
      assert forall x :: x in s <==> x in s[..|s| - 1] || x == s[|s| - 1];
      if s[|s| - 1] in init then init else init + [s[|s| - 1]]
  }

  /** A list without repeats keeps its order under `Distinct`, and so do the
    * first elements of a longer list. */
  lemma {:induction false} DistinctPrefix(s: seq<string>, t: seq<string>)
    requires forall i, j :: 0 <= i < j < |s| ==> s[i] != s[j]
    ensures |s| <= |Distinct(s + t)| && Distinct(s + t)[..|s|] == s
  {
    if t == [] {
      assert s + t == s;
      DistinctNoRepeats(s);
    } else {
      var init := t[..|t| - 1];
      assert (s + t)[..|s + t| - 1] == s + init;
      DistinctPrefix(s, init);
    }
  }

  lemma {:induction false} DistinctNoRepeats(s: seq<string>)
    requires forall i, j :: 0 <= i < j < |s| ==> s[i] != s[j]
    ensures Distinct(s) == s
  {
    if s != [] {
      var init := s[..|s| - 1];
      DistinctNoRepeats(init);
      assert s[|s| - 1] !in init;
      assert s == init + [s[|s| - 1]];
    }
  }

  /** `prev.includes(id) ? prev.filter(x => x !== id) : [...prev, id]` */
  function Toggled(ids: seq<string>, id: string): (r: seq<string>)
    ensures id in r <==> id !in ids
    ensures forall x :: x != id ==> (x in r <==> x in ids)
  {
    if id in ids then Without(ids, id) else ids + [id]
  }

  /** `ids.filter(x => x !== id)` */
  function Without(ids: seq<string>, id: string): (r: seq<string>)
    ensures forall x :: x in r <==> x in ids && x != id
    ensures id !in ids ==> r == ids
  {
    if ids == [] then []
    else (if ids[0] == id then [] else [ids[0]]) + Without(ids[1..], id)
  }

  /** Toggling an id in and out again gives the old selection back. */
  lemma ToggleTwice(ids: seq<string>, id: string)
    requires id !in ids
    ensures Toggled(Toggled(ids, id), id) == ids
  {
    WithoutLast(ids, id);
  }

  lemma {:induction false} WithoutLast(ids: seq<string>, id: string)
    requires id !in ids
    ensures Without(ids + [id], id) == ids
  {
    if ids != [] {
      assert (ids + [id])[1..] == ids[1..] + [id];
      WithoutLast(ids[1..], id);
    } else {
      assert Without([id], id) == [] + Without([], id);
    }
  }

  /** The ids of the layers panel rows from `a` to `b`, the panel listing
    * layers from the top of the z-order down. */
  function RangeIds(layers: seq<Layer>, a: string, b: string): seq<string> {
    var sorted := SortWith(layers, ZDesc);
    var i, j := IndexOfId(sorted, a), IndexOfId(sorted, b);
    if i == -1 || j == -1 then []
    else
      Rows(sorted, i, j)
  }

  /** The ids of the rows from `i` to `j` of the panel, either way round. */
  function Rows(sorted: seq<Layer>, i: nat, j: nat): (r: seq<string>)
    requires i < |sorted| && j < |sorted|
    ensures |r| == IMax(i, j) + 1 - IMin(i, j)
    ensures forall p :: IMin(i, j) <= p <= IMax(i, j) ==> r[p - IMin(i, j)] == sorted[p].id
  {
    var lo, hi := IMin(i, j), IMax(i, j);
    seq(hi + 1 - lo, k requires 0 <= k < hi + 1 - lo => sorted[lo + k].id)
  }

  /** `handleLayerSelection` on the active artboard's layers (None when there
    * is no active artboard). */
  function LayerSelection(layers: Option<seq<Layer>>, s: Selection, layerId: string,
                          isCtrl: bool, isShift: bool, source: Source): Selection
  {
    if layers.None? then s
    else
      var isToggle := isCtrl || (source == Canvas && isShift);
      var isRangeSelect := source == Panel && isShift && Truthy(s.lastClicked) && layerId != s.lastClicked.value;
      var picked :=
        if isRangeSelect then
          var range := RangeIds(layers.value, s.lastClicked.value, layerId);
          if range == [] then s else s.(ids := Distinct(s.ids + range))
        else if isToggle then
          var ids := Toggled(s.ids, layerId);
          var key := if (Truthy(s.key) && s.key.value !in ids) || |ids| <= 1 then None else s.key;
          Selection(ids, key, s.lastClicked)
        else if |s.ids| > 1 && layerId in s.ids then s.(key := Some(layerId))
        else s.(ids := [layerId], key := None);
      picked.(lastClicked := if source == Panel then Some(layerId) else None)
  }

  /** A plain click selects the layer: it becomes the key object of a larger
    * selection it is part of, and otherwise the only selected layer. */
  lemma ClickSelects(layers: seq<Layer>, s: Selection, layerId: string, source: Source)
    ensures var r := LayerSelection(Some(layers), s, layerId, false, false, source);
      layerId in r.ids &&
      (|s.ids| > 1 && layerId in s.ids ==> r.ids == s.ids && r.key == Some(layerId)) &&
      (!(|s.ids| > 1 && layerId in s.ids) ==> r.ids == [layerId] && r.key.None?) &&
      r.lastClicked == (if source == Panel then Some(layerId) else None)
  {
  }

  /** Ctrl-click (or shift-click on the canvas) flips whether the layer is
    * selected and keeps every other layer's state; a key object survives
    * only while it is still selected among at least two layers. */
  lemma ToggleFlips(layers: seq<Layer>, s: Selection, layerId: string, isShift: bool, source: Source)
    requires !(source == Panel && isShift && Truthy(s.lastClicked) && layerId != s.lastClicked.value)
    ensures var r := LayerSelection(Some(layers), s, layerId, true, isShift, source);
      (layerId in r.ids <==> layerId !in s.ids) &&
      (forall x :: x != layerId ==> (x in r.ids <==> x in s.ids)) &&
      (r.key.Some? ==> r.key == s.key && |r.ids| > 1 && (r.key.value == "" || r.key.value in r.ids))
  {
  }

  /** A shift-click in the panel adds every layer whose z lies between the
    * two clicked layers' to the selection, keeping what was selected, in
    * order, and never listing an id twice. */
  lemma RangeSelectAdds(layers: seq<Layer>, s: Selection, layerId: string, isCtrl: bool, a: Layer, b: Layer)
    requires Truthy(s.lastClicked) && layerId != s.lastClicked.value
    requires UniqueIds(layers) && a in layers && b in layers && a.id == s.lastClicked.value && b.id == layerId
    requires forall i, j :: 0 <= i < j < |s.ids| ==> s.ids[i] != s.ids[j]
    ensures var r := LayerSelection(Some(layers), s, layerId, isCtrl, true, Panel);
      |s.ids| <= |r.ids| && r.ids[..|s.ids|] == s.ids &&
      (forall i, j :: 0 <= i < j < |r.ids| ==> r.ids[i] != r.ids[j]) &&
      layerId in r.ids && a.id in r.ids &&
      (forall l :: l in layers && IMin(a.zIndex, b.zIndex) < l.zIndex < IMax(a.zIndex, b.zIndex) ==> l.id in r.ids) &&
      r.key == s.key && r.lastClicked == Some(layerId)
  {
    var range := RangeIds(layers, a.id, b.id);
    RangeCovers(layers, a, b);
    DistinctPrefix(s.ids, range);
  }

  /** The range of panel rows between two layers holds both and every layer
    * whose z lies strictly between theirs. */
  lemma RangeCovers(layers: seq<Layer>, a: Layer, b: Layer)
    requires UniqueIds(layers) && a in layers && b in layers
    ensures var range := RangeIds(layers, a.id, b.id);
      a.id in range && b.id in range &&
      (forall l :: l in layers && IMin(a.zIndex, b.zIndex) < l.zIndex < IMax(a.zIndex, b.zIndex) ==> l.id in range)
  {
    var sorted := SortWith(layers, ZDesc);
    PanelOrder(layers);
    var i := Locate(layers, sorted, a);
    var j := Locate(layers, sorted, b);
    var lo := IMin(i, j);
    var range := RangeIds(layers, a.id, b.id);
    assert range == Rows(sorted, i, j);
    assert range[i - lo] == a.id && range[j - lo] == b.id;
    forall l | l in layers && IMin(a.zIndex, b.zIndex) < l.zIndex < IMax(a.zIndex, b.zIndex)
      ensures l.id in range
    {
      var p := Locate(layers, sorted, l);
      Between(sorted, i, j, p);
      assert range[p - lo] == l.id;
    }
  }

  /** The panel order lists layers from the highest z down, each id once. */
  lemma PanelOrder(layers: seq<Layer>)
    requires UniqueIds(layers)
    ensures SortedBy(SortWith(layers, ZDesc), NegZKey) && UniqueIds(SortWith(layers, ZDesc))
  {
    assert ComparesBy(ZDesc, NegZKey);
    SortWithSorted(layers, ZDesc, NegZKey);
    UniqueIdsPermutation(layers, SortWith(layers, ZDesc));
  }

  /** A layer of a list with unique ids sits in a sorted copy at the position
    * of its id. */
  lemma Locate(layers: seq<Layer>, sorted: seq<Layer>, a: Layer) returns (p: int)
    requires multiset(sorted) == multiset(layers) && UniqueIds(sorted) && a in layers
    ensures 0 <= p < |sorted| && sorted[p] == a && IndexOfId(sorted, a.id) == p
  {
    assert a in multiset(sorted);
    p :| 0 <= p < |sorted| && sorted[p] == a;
    UniquePosition(sorted, p);
  }

  /** In a list sorted from the highest z down, a position whose z lies
    * strictly between those at `i` and `j` lies between them. */
  lemma Between(sorted: seq<Layer>, i: int, j: int, p: int)
    requires SortedBy(sorted, NegZKey) && 0 <= i < |sorted| && 0 <= j < |sorted| && 0 <= p < |sorted|
    requires IMin(sorted[i].zIndex, sorted[j].zIndex) < sorted[p].zIndex < IMax(sorted[i].zIndex, sorted[j].zIndex)
    ensures IMin(i, j) < p < IMax(i, j)
  {
    if p <= i {
      assert p < i ==> NegZKey(sorted[p]) <= NegZKey(sorted[i]);
    }
    if p <= j {
      assert p < j ==> NegZKey(sorted[p]) <= NegZKey(sorted[j]);
    }
    if p >= i {
      assert p > i ==> NegZKey(sorted[i]) <= NegZKey(sorted[p]);
    }
    if p >= j {
      assert p > j ==> NegZKey(sorted[j]) <= NegZKey(sorted[p]);
    }
  }

  // ------------------------------------------------------------------- zoom

  const MinZoom: real := 0.1
  const MaxZoom: real := 5.0

  /** `Math.max(0.1, Math.min(5, z))` */
  function ClampZoom(z: real): (r: real)
    ensures MinZoom <= r <= MaxZoom
    ensures MinZoom <= z <= MaxZoom ==> r == z
    ensures z < MinZoom ==> r == MinZoom
    ensures z > MaxZoom ==> r == MaxZoom
  {
    Max(MinZoom, Min(MaxZoom, z))
  }

  /** The view: zoom factor and pan offset. */
  datatype View = View(zoom: real, panX: real, panY: real)

  /** `handleZoomChange`: the new zoom, clamped, and the pan that keeps the
    * world point under the centre of the editor container where it was.
    * `container` is the container's measured size, None when it is not
    * mounted. */
  function ZoomChange(v: View, container: Option<(real, real)>, newZoomLevel: real): View
    requires v.zoom != 0.0
  {
    if container.None? then v
    else
      var newZoom := ClampZoom(newZoomLevel);
      var centerX, centerY := container.value.0 / 2.0, container.value.1 / 2.0;
      var worldX, worldY := (centerX - v.panX) / v.zoom, (centerY - v.panY) / v.zoom;
      View(newZoom, centerX - worldX * newZoom, centerY - worldY * newZoom)
  }

  /** The world point at the centre of the container is the same before and
    * after, and the zoom stays within bounds. */
  lemma ZoomKeepsCentre(v: View, width: real, height: real, newZoomLevel: real)
    requires v.zoom != 0.0
    ensures var r := ZoomChange(v, Some((width, height)), newZoomLevel);
      MinZoom <= r.zoom <= MaxZoom &&
      (width / 2.0 - r.panX) / r.zoom == (width / 2.0 - v.panX) / v.zoom &&
      (height / 2.0 - r.panY) / r.zoom == (height / 2.0 - v.panY) / v.zoom
  {
    var r := ZoomChange(v, Some((width, height)), newZoomLevel);
    var wx := (width / 2.0 - v.panX) / v.zoom;
    var wy := (height / 2.0 - v.panY) / v.zoom;
    assert width / 2.0 - r.panX == wx * r.zoom;
    assert height / 2.0 - r.panY == wy * r.zoom;
  }
}
