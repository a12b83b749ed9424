// The layer-list operations of the editor: the `dataId` numbering of copies,
// duplicating one layer or the whole selection with the z-order renumbered,
// and reordering a layer by dragging it in the layer panel.
module AppLayers {
  import opened Wrappers
  import opened Types
  import opened Strings
  import opened Sorting
  import opened ArtboardView

  // ------------------------------------------------------------- data ids

  /** Where the trailing run of digits of `s` starts (`|s|` when there is none). */
  function DigitRunStart(s: string): (k: nat)
    ensures k <= |s| && AllDigits(s[k..])
    ensures k == 0 || !IsDigit(s[k - 1])
  {
    if s != [] && IsDigit(s[|s| - 1]) then
      var init := s[..|s| - 1];
      var k := DigitRunStart(init);
      assert s[k..] == init[k..] + [s[|s| - 1]];
      assert k > 0 ==> s[k - 1] == init[k - 1];
      k
    else
      |s|
  }

  /** The run is the longest all-digit suffix, as the lazy `(.*?)` makes it. */
  lemma DigitRunLongest(s: string, j: nat)
    requires j < DigitRunStart(s)
    ensures !AllDigits(s[j..])
  {
    var k := DigitRunStart(s);
    assert s[j..][k - 1 - j] == s[k - 1];
  }

  /** The name and first counter of a copy's `dataId`: `/^(.*?)(\d+)$/` splits a
    * base ending in digits into the shortest prefix and the digits, whose value
    * plus one is the counter; any other base is the name, with counter 1. */
  datatype Base = Base(name: string, counter: nat)

  /** The regex matches when the base ends in a digit and no line terminator,
    * which `.` cannot match, comes before the trailing digit run. */
  function SplitBase(baseId: string): (b: Base)
    ensures b.counter >= 1
    ensures b.name <= baseId
  {
    var k := DigitRunStart(baseId);
    if k < |baseId| && forall i | 0 <= i < k :: !IsLineTerminator(baseId[i]) then
      Base(baseId[..k], ParseDigits(baseId[k..]) + 1)
    else Base(baseId, 1)
  }

  /** The digits after a name that does not end in one are the whole run. */
  lemma {:induction false} DigitRunOfNumbered(name: string, d: string)
    requires name == [] || !IsDigit(name[|name| - 1])
    requires AllDigits(d)
    ensures DigitRunStart(name + d) == |name|
    decreases |d|
  {
    var s := name + d;
    if d == [] {
      assert s == name;
    } else {
      var d' := d[..|d| - 1];
      assert s[..|s| - 1] == name + d';
      assert s[|s| - 1] == d[|d| - 1];
      DigitRunOfNumbered(name, d');
    }
  }

  /** A base that is a one-line name (not ending in a digit) followed by a number
    * splits back into that name and the next number: `card3` continues at `card4`. */
  lemma SplitNumbered(name: string, n: nat)
    requires name == [] || !IsDigit(name[|name| - 1])
    requires forall i | 0 <= i < |name| :: !IsLineTerminator(name[i])
    ensures SplitBase(Numbered(name, n)) == Base(name, n + 1)
  {
    SplitDigits(name, NatToString(n));
    ParseNatToString(n);
  }

  /** A one-line name not ending in a digit, followed by digits, splits into the name
    * and the digits' value plus one. */
  lemma SplitDigits(name: string, d: string)
    requires name == [] || !IsDigit(name[|name| - 1])
    requires forall i | 0 <= i < |name| :: !IsLineTerminator(name[i])
    requires d != [] && AllDigits(d)
    ensures SplitBase(name + d) == Base(name, ParseDigits(d) + 1)
  {
    var s := name + d;
    DigitRunOfNumbered(name, d);
    OneLinePrefix(name, d);
    SplitMatched(s, |name|);
    assert s[..|name|] == name && s[|name|..] == d;
  }

  lemma OneLinePrefix(name: string, d: string)
    requires forall i | 0 <= i < |name| :: !IsLineTerminator(name[i])
    ensures forall i | 0 <= i < |name| :: !IsLineTerminator((name + d)[i])
  {
  }

  lemma SplitMatched(s: string, k: nat)
    requires DigitRunStart(s) == k < |s|
    requires forall i | 0 <= i < k :: !IsLineTerminator(s[i])
    ensures SplitBase(s) == Base(s[..k], ParseDigits(s[k..]) + 1)
  {
  }

  /** With a line terminator in the name the regex finds no match, so the whole
    * base is the name and the counter is 1: `a\nb3` continues at `a\nb31`. */
  lemma SplitAcrossLineBreak(name: string, n: nat, p: nat)
    requires name == [] || !IsDigit(name[|name| - 1])
    requires p < |name| && IsLineTerminator(name[p])
    ensures SplitBase(Numbered(name, n)) == Base(Numbered(name, n), 1)
  {
    var s := Numbered(name, n);
    DigitRunOfNumbered(name, NatToString(n));
    assert s[p] == name[p];
  }

  /** A base not ending in a digit is the name, and the counter starts at 1. */
  lemma SplitPlain(baseId: string)
    requires baseId == [] || !IsDigit(baseId[|baseId| - 1])
    ensures SplitBase(baseId) == Base(baseId, 1)
  {
  }

  /** `l.dataId` is truthy. */
  predicate HasDataId(l: Layer) { l.dataId.Some? && l.dataId.value != "" }

  /** `new Set(allLayers.map(l => l.dataId).filter(Boolean))`. */
  function DataIds(layers: seq<Layer>): set<string> {
    set l | l in layers && HasDataId(l) :: l.dataId.value
  }

  lemma DataIdsAppend(a: seq<Layer>, b: seq<Layer>)
    ensures DataIds(a + b) == DataIds(a) + DataIds(b)
  {
    forall d | d in DataIds(a + b)
      ensures d in DataIds(a) + DataIds(b)
    {
      var l :| l in a + b && HasDataId(l) && l.dataId.value == d;
      assert l in a || l in b;
    }
    forall d | d in DataIds(a) + DataIds(b)
      ensures d in DataIds(a + b)
    {
      if d in DataIds(a) {
        var l :| l in a && HasDataId(l) && l.dataId.value == d;
        assert l in a + b;
      } else {
        var l :| l in b && HasDataId(l) && l.dataId.value == d;
        assert l in a + b;
      }
    }
  }

  /** `newId` is `name + n` for the least `n` from the base's counter on that
    * no layer uses as its `dataId`. */
  ghost predicate IsFreshDataId(baseId: string, layers: seq<Layer>, newId: string) {
    var b := SplitBase(baseId);
    IsFirstFree(b.name, b.counter, DataIds(layers), newId)
  }

  /** `newId` is `name + n` for the least `n >= start` not in `taken`. */
  ghost predicate IsFirstFree(name: string, start: nat, taken: set<string>, newId: string) {
    newId !in taken &&
    exists n: nat :: start <= n && newId == Numbered(name, n) &&
      forall j: nat :: start <= j < n ==> Numbered(name, j) in taken
  }

  /** `generateNewDataId`: counts up from the base's counter until the id is free. */
  method GenerateNewDataId(baseId: string, allLayers: seq<Layer>) returns (newId: string)
    ensures IsFreshDataId(baseId, allLayers, newId)
    ensures newId != ""
  {
    var existing := DataIds(allLayers);
    var b := SplitBase(baseId);
    newId := FirstFree(b.name, b.counter, existing);
  }

  /** The `while (existingDataIds.has(newId))` loop. */
  method FirstFree(name: string, start: nat, existing: set<string>) returns (newId: string)
    ensures IsFirstFree(name, start, existing, newId)
    ensures newId != ""
  {
    var counter := start;
    newId := Numbered(name, counter);
    while newId in existing
      invariant start <= counter && newId == Numbered(name, counter)
      invariant NumberedRange(name, start, counter) <= existing
      decreases |existing - NumberedRange(name, start, counter)|
    {
      NumberedRangeStep(name, start, counter, existing);
      counter := counter + 1;
      newId := Numbered(name, counter);
    }
    forall j: nat | start <= j < counter
      ensures Numbered(name, j) in existing
    {
      NumberedRangeMembers(name, start, counter, j);
    }
    assert |NatToString(counter)| >= 1;
  }

  // ------------------------------------------------------------- positions

  /** `findIndex(l => l.id === id)`: the first position holding `id`, or -1. */
  function IndexOfId(s: seq<Layer>, id: string): (r: int)
    ensures -1 <= r < |s|
    ensures r >= 0 ==> s[r].id == id && forall j :: 0 <= j < r ==> s[j].id != id
    ensures r == -1 ==> forall j :: 0 <= j < |s| ==> s[j].id != id
  {
    if s == [] then -1
    else if s[0].id == id then 0
    else
      var r := IndexOfId(s[1..], id);
      if r == -1 then -1 else r + 1
  }

  /** The position a `Map` filled by `order.forEach((l, i) => map.set(l.id, i))`
    * holds for `id`: the last one, or -1. */
  function LastIndexOfId(s: seq<Layer>, id: string): (r: int)
    ensures -1 <= r < |s|
    ensures r >= 0 ==> s[r].id == id && forall j :: r < j < |s| ==> s[j].id != id
    ensures r == -1 ==> forall j :: 0 <= j < |s| ==> s[j].id != id
  {
    if s == [] then -1
    else if s[|s| - 1].id == id then |s| - 1
    else LastIndexOfId(s[..|s| - 1], id)
  }

  lemma UniquePosition(s: seq<Layer>, p: int)
    requires UniqueIds(s) && 0 <= p < |s|
    ensures IndexOfId(s, s[p].id) == p && LastIndexOfId(s, s[p].id) == p
  {
  }

  lemma IndexOfIdIs(s: seq<Layer>, id: string, p: int)
    requires 0 <= p < |s| && s[p].id == id
    requires forall j :: 0 <= j < p ==> s[j].id != id
    ensures IndexOfId(s, id) == p
  {
  }

  lemma {:induction false} UniqueCount(s: seq<Layer>, v: Layer)
    requires UniqueIds(s)
    ensures multiset(s)[v] <= 1
  {
    if s != [] {
      var init := s[..|s| - 1];
      assert s == init + [s[|s| - 1]];
      UniqueCount(init, v);
      if s[|s| - 1] == v {
        assert v !in init;
      }
    }
  }

  /** Reordering layers keeps their ids unique. */
  lemma UniqueIdsPermutation(a: seq<Layer>, b: seq<Layer>)
    requires multiset(a) == multiset(b) && UniqueIds(a)
    ensures UniqueIds(b)
  {
    forall i, j | 0 <= i < j < |b|
      ensures b[i].id != b[j].id
    {
      if b[i] == b[j] {
        assert b == b[..j] + b[j..];
        assert b[i] in b[..j] && b[j] in b[j..];
        assert multiset(b)[b[i]] == multiset(b[..j])[b[i]] + multiset(b[j..])[b[i]];
        UniqueCount(a, b[i]);
      } else {
        assert b[i] in multiset(a) && b[j] in multiset(a);
        var p :| 0 <= p < |a| && a[p] == b[i];
        var q :| 0 <= q < |a| && a[q] == b[j];
      }
    }
  }

  /** Each layer given its position in `order` as its z-index, as
    * `layers.map(l => ({...l, zIndex: map.get(l.id) ?? l.zIndex}))` does. */
  function Renumber(l: Layer, order: seq<Layer>): Layer {
    var p := LastIndexOfId(order, l.id);
    l.(zIndex := if p >= 0 then p else l.zIndex)
  }

  function Renumbered(layers: seq<Layer>, order: seq<Layer>): (r: seq<Layer>)
    ensures |r| == |layers|
    ensures forall i :: 0 <= i < |layers| ==> r[i] == Renumber(layers[i], order)
  {
    if layers == [] then [] else [Renumber(layers[0], order)] + Renumbered(layers[1..], order)
  }

  /** Renumbering by an order holding exactly the layers gives every layer its
    * position in that order: the z-indices are `0..n-1`, one per layer. */
  lemma RenumberedPositions(layers: seq<Layer>, order: seq<Layer>)
    requires multiset(order) == multiset(layers) && UniqueIds(layers)
    ensures UniqueIds(order) && |order| == |layers|
    ensures var r := Renumbered(layers, order);
      (forall i :: 0 <= i < |r| ==>
         r[i].(zIndex := layers[i].zIndex) == layers[i] &&
         0 <= r[i].zIndex < |r| && order[r[i].zIndex] == layers[i]) &&
      (forall i, j :: 0 <= i < j < |r| ==> r[i].zIndex != r[j].zIndex)
  {
    UniqueIdsPermutation(layers, order);
    assert |multiset(order)| == |order| && |multiset(layers)| == |layers|;
    var r := Renumbered(layers, order);
    forall i | 0 <= i < |r|
      ensures 0 <= r[i].zIndex < |r| && order[r[i].zIndex] == layers[i]
    {
      assert layers[i] in multiset(order);
      var p :| 0 <= p < |order| && order[p] == layers[i];
      UniquePosition(order, p);
    }
  }

  /** A layer of an order with unique ids is renumbered to its position. */
  lemma RenumberAt(order: seq<Layer>, p: int)
    requires UniqueIds(order) && 0 <= p < |order|
    ensures Renumber(order[p], order) == order[p].(zIndex := p)
  {
    UniquePosition(order, p);
  }

  /** The position in the spliced order of a layer at position `p` of `sorted`. */
  function Spliced(p: int, k: int, n: int): int { if p < k then p else p + n }

  /** Splicing `copies` in at position `k` of the z-order and renumbering gives
    * every layer its position in the new order: the z-indices are distinct and
    * within `0..n-1`, the copies take `k, k+1, ...`, and the original layers
    * keep their relative order. */
  lemma SpliceRenumber(layers: seq<Layer>, copies: seq<Layer>, sorted: seq<Layer>, k: int, order: seq<Layer>)
    requires UniqueIds(layers + copies) && 0 <= k <= |layers|
    requires multiset(sorted) == multiset(layers) && |sorted| == |layers| && SortedBy(sorted, ZKey)
    requires order == sorted[..k] + copies + sorted[k..]
    ensures var all := layers + copies;
      var out := Renumbered(all, order);
      UniqueIds(order) && |out| == |all| &&
      (forall i :: 0 <= i < |out| ==>
         out[i].(zIndex := all[i].zIndex) == all[i] && 0 <= out[i].zIndex < |out|) &&
      (forall i, j :: 0 <= i < j < |out| ==> out[i].zIndex != out[j].zIndex) &&
      (forall i :: |layers| <= i < |out| ==> out[i].zIndex == k + (i - |layers|)) &&
      (forall i, j :: 0 <= i < |layers| && 0 <= j < |layers| && layers[i].zIndex < layers[j].zIndex ==>
         out[i].zIndex < out[j].zIndex)
  {
    var all := layers + copies;
    assert |multiset(sorted)| == |sorted|;
    SpliceMultiset(layers, copies, sorted, k, order);
    RenumberedPositions(all, order);
    SplicedCopiesRenumbered(layers, copies, sorted, k, order);
    SplicedLayersKeepOrder(layers, copies, sorted, k, order);
  }

  /** The copies are renumbered to `k, k+1, ...`. */
  lemma SplicedCopiesRenumbered(layers: seq<Layer>, copies: seq<Layer>, sorted: seq<Layer>, k: int, order: seq<Layer>)
    requires 0 <= k <= |sorted| && UniqueIds(order)
    requires order == sorted[..k] + copies + sorted[k..]
    ensures var all := layers + copies;
      var out := Renumbered(all, order);
      forall i :: |layers| <= i < |out| ==> out[i].zIndex == k + (i - |layers|)
  {
    var all := layers + copies;
    var out := Renumbered(all, order);
    forall i | |layers| <= i < |out|
      ensures out[i].zIndex == k + (i - |layers|)
    {
      var c := i - |layers|;
      assert all[i] == copies[c];
      SplicedCopyAt(sorted, copies, k, c);
      RenumberAt(order, k + c);
    }
  }

  /** The original layers keep their relative z-order. */
  lemma SplicedLayersKeepOrder(layers: seq<Layer>, copies: seq<Layer>, sorted: seq<Layer>, k: int, order: seq<Layer>)
    requires multiset(sorted) == multiset(layers) && |sorted| == |layers| && 0 <= k <= |sorted|
    requires SortedBy(sorted, ZKey)
    requires order == sorted[..k] + copies + sorted[k..] && UniqueIds(order)
    ensures var out := Renumbered(layers + copies, order);
      forall i, j :: 0 <= i < |layers| && 0 <= j < |layers| && layers[i].zIndex < layers[j].zIndex ==>
        out[i].zIndex < out[j].zIndex
  {
    var out := Renumbered(layers + copies, order);
    forall i, j | 0 <= i < |layers| && 0 <= j < |layers| && layers[i].zIndex < layers[j].zIndex
      ensures out[i].zIndex < out[j].zIndex
    {
      var pi := SpliceMonotone(layers, copies, sorted, k, order, i);
      var pj := SpliceMonotone(layers, copies, sorted, k, order, j);
      SortedPositions(sorted, pi, pj);
      assert out[i] == Renumber(layers[i], order) && out[j] == Renumber(layers[j], order);
    }
  }

  /** In a list sorted by z-index, a lower z-index comes first. */
  lemma SortedPositions(sorted: seq<Layer>, p: int, q: int)
    requires SortedBy(sorted, ZKey) && 0 <= p < |sorted| && 0 <= q < |sorted|
    requires sorted[p].zIndex < sorted[q].zIndex
    ensures p < q
  {
    assert ZKey(sorted[p]) < ZKey(sorted[q]);
  }

  /** The copy `c` sits at position `k + c` of the spliced order. */
  lemma SplicedCopyAt(sorted: seq<Layer>, copies: seq<Layer>, k: int, c: int)
    requires 0 <= k <= |sorted| && 0 <= c < |copies|
    ensures (sorted[..k] + copies + sorted[k..])[k + c] == copies[c]
  {
    assert |sorted[..k]| == k;
    assert (sorted[..k] + copies)[k + c] == copies[c];
  }

  lemma SpliceMultiset(layers: seq<Layer>, copies: seq<Layer>, sorted: seq<Layer>, k: int, order: seq<Layer>)
    requires multiset(sorted) == multiset(layers) && 0 <= k <= |sorted|
    requires order == sorted[..k] + copies + sorted[k..]
    ensures multiset(order) == multiset(layers + copies)
  {
    assert sorted == sorted[..k] + sorted[k..];
  }

  /** Where layer `i` sits in `sorted`, and that it is renumbered to the
    * corresponding place of the spliced order. */
  lemma SpliceMonotone(layers: seq<Layer>, copies: seq<Layer>, sorted: seq<Layer>, k: int, order: seq<Layer>, i: int)
    returns (p: int)
    requires multiset(sorted) == multiset(layers) && 0 <= k <= |sorted|
    requires order == sorted[..k] + copies + sorted[k..] && UniqueIds(order)
    requires 0 <= i < |layers|
    ensures 0 <= p < |sorted| && sorted[p] == layers[i]
    ensures Renumber(layers[i], order).zIndex == Spliced(p, k, |copies|)
  {
    assert layers[i] in multiset(sorted);
    p :| 0 <= p < |sorted| && sorted[p] == layers[i];
    var q := Spliced(p, k, |copies|);
    assert order[q] == layers[i];
    RenumberAt(order, q);
  }

  // ------------------------------------------------------------ duplication

  /** `layerIds.map(id => layers.find(l => l.id === id)).filter(Boolean)`. */
  function Sources(layers: seq<Layer>, ids: seq<string>): (r: seq<Layer>)
    ensures |r| <= |ids|
    ensures forall l :: l in r ==> l in layers && l.id in ids
    ensures r == [] <==> forall i :: 0 <= i < |ids| ==> !HasId(layers, ids[i])
  {
    if ids == [] then []
    else
      var f := FindLayer(layers, ids[0]);
      (if f.Some? then [f.value] else []) + Sources(layers, ids[1..])
  }

  /** `sources.sort((a, b) => b.zIndex - a.zIndex)[0]`. */
  function ZDesc(a: Layer, b: Layer): real { (b.zIndex - a.zIndex) as real }
  function NegZKey(l: Layer): real { -(l.zIndex as real) }

  function TopMost(sources: seq<Layer>): Layer
    requires sources != []
  {
    SortWith(sources, ZDesc)[0]
  }

  /** The topmost source is a source with the highest z-index. */
  lemma TopMostFacts(sources: seq<Layer>)
    requires sources != []
    ensures TopMost(sources) in sources
    ensures forall l :: l in sources ==> l.zIndex <= TopMost(sources).zIndex
  {
    var sorted := SortWith(sources, ZDesc);
    assert ComparesBy(ZDesc, NegZKey);
    SortWithSorted(sources, ZDesc, NegZKey);
    assert sorted[0] in multiset(sources);
    forall l | l in sources
      ensures l.zIndex <= TopMost(sources).zIndex
    {
      assert l in multiset(sorted);
      var p :| 0 <= p < |sorted| && sorted[p] == l;
      assert NegZKey(sorted[0]) <= NegZKey(sorted[p]);
    }
  }

  /** A copy: same content and style, a new id, unlocked, moved to (x, y). */
  function Moved(l: Layer, id: string, x: real, y: real, dataId: Option<string>): Layer {
    l.(id := id, locked := false, x := x, y := y, dataId := dataId)
  }

  /** `copies` are the batch copies of `sources`: each with its new id, unlocked,
    * offset by (10, 10); a truthy `dataId` is renumbered fresh against the
    * artboard's layers and the copies made before it, any other is kept. */
  ghost predicate AreCopies(layers: seq<Layer>, sources: seq<Layer>, newIds: seq<string>, copies: seq<Layer>) {
    |copies| == |sources| == |newIds| &&
    forall i :: 0 <= i < |sources| ==>
      copies[i] == Moved(sources[i], newIds[i], sources[i].x + 10.0, sources[i].y + 10.0, copies[i].dataId) &&
      if HasDataId(sources[i]) then
        HasDataId(copies[i]) && IsFreshDataId(sources[i].dataId.value, layers + copies[..i], copies[i].dataId.value)
      else
        copies[i].dataId == sources[i].dataId
  }

  /** No two copies share a `dataId`, and none takes one the artboard uses. */
  lemma CopiesDataIdsFresh(layers: seq<Layer>, sources: seq<Layer>, newIds: seq<string>, copies: seq<Layer>, i: int, j: int)
    requires AreCopies(layers, sources, newIds, copies)
    requires 0 <= j < |copies| && HasDataId(copies[j])
    requires 0 <= i < |copies| && i != j && HasDataId(copies[i])
    ensures copies[j].dataId.value !in DataIds(layers)
    ensures copies[i].dataId != copies[j].dataId
  {
    DataIdsAppend(layers, copies[..j]);
    if i < j {
      assert copies[i] in copies[..j];
    } else {
      DataIdsAppend(layers, copies[..i]);
      assert copies[j] in copies[..i];
    }
  }

  /** The `sourceLayers.map(...)` pass, with the growing `dataId` check list. */
  method DuplicateCopies(layers: seq<Layer>, sources: seq<Layer>, newIds: seq<string>) returns (copies: seq<Layer>)
    requires |newIds| == |sources|
    ensures AreCopies(layers, sources, newIds, copies)
  {
    var check := layers;
    copies := [];
    var i := 0;
    while i < |sources|
      invariant 0 <= i <= |sources| && |copies| == i
      invariant DataIds(check) == DataIds(layers + copies)
      invariant AreCopies(layers, sources[..i], newIds[..i], copies)
    {
      var src := sources[i];
      var copy := Moved(src, newIds[i], src.x + 10.0, src.y + 10.0, src.dataId);
      if HasDataId(src) {
        var d := GenerateNewDataId(src.dataId.value, check);
        FreshDataIdSameIds(src.dataId.value, check, layers + copies, d);
        copy := copy.(dataId := Some(d));
        DataIdsAppend(check, [copy]);
        check := check + [copy];
      }
      DataIdsAppend(layers + copies, [copy]);
      CopiesStep(layers, sources, newIds, copies, copy);
      assert layers + copies + [copy] == layers + (copies + [copy]);
      copies := copies + [copy];
      i := i + 1;
    }
    assert sources[..i] == sources && newIds[..i] == newIds;
  }

  /** Freshness depends only on the set of `dataId`s in use. */
  lemma FreshDataIdSameIds(baseId: string, a: seq<Layer>, b: seq<Layer>, newId: string)
    requires DataIds(a) == DataIds(b) && IsFreshDataId(baseId, a, newId)
    ensures IsFreshDataId(baseId, b, newId)
  {
  }

  lemma CopiesStep(layers: seq<Layer>, sources: seq<Layer>, newIds: seq<string>, copies: seq<Layer>, copy: Layer)
    requires |copies| < |sources| == |newIds|
    requires AreCopies(layers, sources[..|copies|], newIds[..|copies|], copies)
    requires var i := |copies|;
      copy == Moved(sources[i], newIds[i], sources[i].x + 10.0, sources[i].y + 10.0, copy.dataId) &&
      if HasDataId(sources[i]) then
        HasDataId(copy) && IsFreshDataId(sources[i].dataId.value, layers + copies, copy.dataId.value)
      else
        copy.dataId == sources[i].dataId
    ensures var i := |copies| + 1;
      AreCopies(layers, sources[..i], newIds[..i], copies + [copy])
  {
    var i := |copies|;
    var cs := copies + [copy];
    assert cs[..i] == copies;
    forall j | 0 <= j < i
      ensures cs[..j] == copies[..j]
    {
    }
    assert sources[..i + 1][..i] == sources[..i];
    assert newIds[..i + 1][..i] == newIds[..i];
  }

  /** The batch z-order: the copies spliced in right above the topmost source. */
  function BatchOrder(layers: seq<Layer>, sources: seq<Layer>, copies: seq<Layer>): seq<Layer>
    requires sources != []
  {
    var sorted := SortWith(layers, ZOrder);
    var k := IndexOfId(sorted, TopMost(sources).id) + 1;
    sorted[..k] + copies + sorted[k..]
  }

  /** What a duplication leaves: the new layer list, the selection (the copies'
    * ids) and the key object (cleared). */
  datatype Duplicated = Duplicated(layers: seq<Layer>, selection: seq<string>, keyObject: Option<string>)

  /** `handleDuplicateSelectedLayers`; nothing happens when no selected id is a
    * layer of the artboard. */
  method DuplicateSelectedLayers(layers: seq<Layer>, ids: seq<string>, newIds: seq<string>)
    returns (copies: seq<Layer>, r: Option<Duplicated>)
    requires |newIds| == |Sources(layers, ids)|
    ensures r.None? <==> Sources(layers, ids) == []
    ensures r.Some? ==>
      var sources := Sources(layers, ids);
      AreCopies(layers, sources, newIds, copies) &&
      r.value == Duplicated(Renumbered(layers + copies, BatchOrder(layers, sources, copies)), newIds, None)
  {
    var sources := Sources(layers, ids);
    copies := [];
    if ids == [] || sources == [] {
      return copies, None;
    }
    copies := DuplicateCopies(layers, sources, newIds);
    var all := layers + copies;
    var order := BatchOrder(layers, sources, copies);
    r := Some(Duplicated(Renumbered(all, order), newIds, None));
  }

  /** With unique ids, a batch duplication puts the copies, in selection order,
    * directly above the topmost selected layer and renumbers every layer to its
    * place in the new order, `0..n-1`; the originals keep their relative order
    * and everything but the z-index is as built. */
  lemma BatchOrderFacts(layers: seq<Layer>, sources: seq<Layer>, copies: seq<Layer>)
    requires sources != [] && forall l :: l in sources ==> l in layers
    requires UniqueIds(layers + copies)
    ensures var all := layers + copies;
      var out := Renumbered(all, BatchOrder(layers, sources, copies));
      var t := IndexOfId(layers, TopMost(sources).id);
      |out| == |all| && 0 <= t < |layers| &&
      (forall l :: l in sources ==> l.zIndex <= layers[t].zIndex) &&
      (forall i :: 0 <= i < |out| ==>
         out[i].(zIndex := all[i].zIndex) == all[i] && 0 <= out[i].zIndex < |out|) &&
      (forall i, j :: 0 <= i < j < |out| ==> out[i].zIndex != out[j].zIndex) &&
      (forall i :: |layers| <= i < |out| ==> out[i].zIndex == out[t].zIndex + 1 + (i - |layers|)) &&
      (forall i, j :: 0 <= i < |layers| && 0 <= j < |layers| && layers[i].zIndex < layers[j].zIndex ==>
         out[i].zIndex < out[j].zIndex)
  {
    var top := TopMost(sources);
    TopMostFacts(sources);
    var sorted := SortWith(layers, ZOrder);
    SortedByZ(layers);
    var t := IndexOfId(layers, top.id);
    TopInLayers(layers, copies, sources);
    var v := IndexOfId(sorted, top.id);
    InSortedFound(layers, sorted, top);
    var order := BatchOrder(layers, sources, copies);
    assert order == sorted[..v + 1] + copies + sorted[v + 1..];
    BatchFromSplice(layers, copies, sorted, v, t, order);
  }

  /** The z-order sort keeps the layers and orders them by z-index. */
  lemma SortedByZ(layers: seq<Layer>)
    ensures var sorted := SortWith(layers, ZOrder);
      multiset(sorted) == multiset(layers) && |sorted| == |layers| && SortedBy(sorted, ZKey)
  {
    ZOrderComparesBy();
    SortWithSorted(layers, ZOrder, ZKey);
  }

  /** The topmost source is found, by id, at its own place in the layers. */
  lemma TopInLayers(layers: seq<Layer>, copies: seq<Layer>, sources: seq<Layer>)
    requires sources != [] && forall l :: l in sources ==> l in layers
    requires UniqueIds(layers + copies)
    ensures var t := IndexOfId(layers, TopMost(sources).id);
      0 <= t < |layers| && layers[t] == TopMost(sources)
  {
    var top := TopMost(sources);
    TopMostFacts(sources);
    UniqueIdsPrefix(layers, copies);
    var p :| 0 <= p < |layers| && layers[p] == top;
    UniquePosition(layers, p);
  }

  /** A layer of the list is found, by id, in its sorted copy. */
  lemma InSortedFound(layers: seq<Layer>, sorted: seq<Layer>, l: Layer)
    requires multiset(sorted) == multiset(layers) && l in layers
    ensures 0 <= IndexOfId(sorted, l.id)
  {
    assert l in multiset(sorted);
  }

  /** Splicing the copies in after the layer at `v` of the sorted list renumbers
    * every layer to its place and puts the copies right above the layer at `t`. */
  lemma BatchFromSplice(layers: seq<Layer>, copies: seq<Layer>, sorted: seq<Layer>, v: int, t: int,
                         order: seq<Layer>)
    requires UniqueIds(layers + copies)
    requires multiset(sorted) == multiset(layers) && |sorted| == |layers| && SortedBy(sorted, ZKey)
    requires 0 <= v < |sorted| && 0 <= t < |layers| && sorted[v].id == layers[t].id
    requires order == sorted[..v + 1] + copies + sorted[v + 1..]
    ensures var all := layers + copies;
      var out := Renumbered(all, order);
      |out| == |all| &&
      (forall i :: 0 <= i < |out| ==>
         out[i].(zIndex := all[i].zIndex) == all[i] && 0 <= out[i].zIndex < |out|) &&
      (forall i, j :: 0 <= i < j < |out| ==> out[i].zIndex != out[j].zIndex) &&
      (forall i :: |layers| <= i < |out| ==> out[i].zIndex == out[t].zIndex + 1 + (i - |layers|)) &&
      (forall i, j :: 0 <= i < |layers| && 0 <= j < |layers| && layers[i].zIndex < layers[j].zIndex ==>
         out[i].zIndex < out[j].zIndex)
  {
    SpliceRenumber(layers, copies, sorted, v + 1, order);
    assert order[v] == sorted[v];
    SplicedTopPosition(layers, copies, order, t, v);
  }

  /** The layer at `t`, found at `v` in an order with unique ids, is renumbered to `v`. */
  lemma SplicedTopPosition(layers: seq<Layer>, copies: seq<Layer>, order: seq<Layer>, t: int, v: int)
    requires UniqueIds(order) && 0 <= t < |layers| && 0 <= v < |order|
    requires order[v].id == layers[t].id
    ensures Renumbered(layers + copies, order)[t].zIndex == v
  {
    assert (layers + copies)[t] == layers[t];
    UniquePosition(order, v);
  }

  lemma UniqueIdsPrefix(a: seq<Layer>, b: seq<Layer>)
    requires UniqueIds(a + b)
    ensures UniqueIds(a)
  {
    forall i, j | 0 <= i < j < |a|
      ensures a[i].id != a[j].id
    {
      assert a[i] == (a + b)[i] && a[j] == (a + b)[j];
    }
  }

  /** The alt-drag overrides of a duplicate-on-drop: where the source started
    * (`__initialX`, `__initialY`) and where the copy was dropped. */
  datatype AltDrag = AltDrag(initialX: real, initialY: real, x: real, y: real)

  /** The artboard's layers with the source put back at its start position
    * after an alt-drag, otherwise unchanged. */
  function Restored(layers: seq<Layer>, s: int, alt: Option<AltDrag>): (r: seq<Layer>)
    requires 0 <= s < |layers|
    ensures |r| == |layers| && forall i :: 0 <= i < |r| ==> r[i].id == layers[i].id
  {
    if alt.Some? then layers[s := layers[s].(x := alt.value.initialX, y := alt.value.initialY)] else layers
  }

  /** The single-layer z-order: the copy spliced in right above the source. */
  function SingleOrder(layers: seq<Layer>, layerId: string, copy: Layer): seq<Layer> {
    var sorted := SortWith(layers, ZOrder);
    var v := IndexOfId(sorted, layerId);
    sorted[..v + 1] + [copy] + sorted[v + 1..]
  }

  /** A single duplication's result: the copy as built and the new layer list. */
  datatype Duplicate = Duplicate(copy: Layer, layers: seq<Layer>)

  /** What `handleDuplicateLayer` changes: the layer list, and afterwards the
    * selection (the copy alone) and the key object (cleared); `interactionEnded`
    * says whether the gesture flag was reset, which an alt-drag does. */
  datatype Duplication = Duplication(change: Duplicate, selection: seq<string>, keyObject: Option<string>,
                                     interactionEnded: bool)

  /** `handleDuplicateLayer` on a deep copy of the artboard's layers: the source
    * restored after an alt-drag, the copy placed at the drop point (or offset by
    * (10, 10)), given a fresh `dataId` when the source has one, pushed, and
    * every layer's z-index rewritten in a `forEach`; then the copy becomes the
    * only selected layer and the key object is cleared. Nothing happens when no
    * layer has `layerId`. */
  method DuplicateLayer(layers: seq<Layer>, layerId: string, newId: string, alt: Option<AltDrag>)
    returns (r: Option<Duplication>)
    ensures r.None? <==> IndexOfId(layers, layerId) == -1
    ensures r.Some? ==>
      var s := IndexOfId(layers, layerId);
      var src := layers[s];
      var target := Restored(layers, s, alt);
      var copy := r.value.change.copy;
      copy == Moved(src, newId, if alt.Some? then alt.value.x else src.x + 10.0,
                    if alt.Some? then alt.value.y else src.y + 10.0, copy.dataId) &&
      (if HasDataId(src) then HasDataId(copy) && IsFreshDataId(src.dataId.value, target, copy.dataId.value)
       else copy.dataId == src.dataId) &&
      r.value.change.layers == Renumbered(target + [copy], SingleOrder(target, layerId, copy)) &&
      r.value.selection == [newId] && r.value.keyObject == None &&
      r.value.interactionEnded == alt.Some?
  {
    var s := IndexOfId(layers, layerId);
    if s == -1 {
      return None;
    }
    var d := DuplicateAt(layers, s, layerId, newId, alt);
    r := Some(Duplication(d, [newId], None, alt.Some?));
  }

  /** The duplication of the layer at `s`, the first with `layerId`. */
  method DuplicateAt(layers: seq<Layer>, s: int, layerId: string, newId: string, alt: Option<AltDrag>)
    returns (d: Duplicate)
    requires 0 <= s < |layers| && layers[s].id == layerId
    ensures var src := layers[s];
      var target := Restored(layers, s, alt);
      d.copy == Moved(src, newId, if alt.Some? then alt.value.x else src.x + 10.0,
                      if alt.Some? then alt.value.y else src.y + 10.0, d.copy.dataId) &&
      (if HasDataId(src) then HasDataId(d.copy) && IsFreshDataId(src.dataId.value, target, d.copy.dataId.value)
       else d.copy.dataId == src.dataId) &&
      d.layers == Renumbered(target + [d.copy], SingleOrder(target, layerId, d.copy))
  {
    var target := layers;
    var src := target[s];
    if alt.Some? {
      target := target[s := target[s].(x := alt.value.initialX, y := alt.value.initialY)];
    }
    assert target == Restored(layers, s, alt);
    var copy := SingleCopy(src, target, newId, alt);
    var order := SingleOrder(target, layerId, copy);
    var renumbered := RenumberEach(target + [copy], order);
    d := Duplicate(copy, renumbered);
  }

  /** The copy of `src`: a new id, unlocked, at the drop point or offset by
    * (10, 10), and a `dataId` renumbered fresh against `layers` when `src` has
    * one. */
  method SingleCopy(src: Layer, layers: seq<Layer>, newId: string, alt: Option<AltDrag>) returns (copy: Layer)
    ensures copy == Moved(src, newId, if alt.Some? then alt.value.x else src.x + 10.0,
                          if alt.Some? then alt.value.y else src.y + 10.0, copy.dataId)
    ensures if HasDataId(src) then HasDataId(copy) && IsFreshDataId(src.dataId.value, layers, copy.dataId.value)
            else copy.dataId == src.dataId
  {
    var x, y := src.x + 10.0, src.y + 10.0;
    if alt.Some? {
      x, y := alt.value.x, alt.value.y;
    }
    var dataId := src.dataId;
    if HasDataId(src) {
      var d := GenerateNewDataId(src.dataId.value, layers);
      dataId := Some(d);
    }
    copy := Moved(src, newId, x, y, dataId);
  }

  /** `layers.forEach(l => { l.zIndex = map.get(l.id) ?? l.zIndex; })`. */
  method RenumberEach(layers: seq<Layer>, order: seq<Layer>) returns (out: seq<Layer>)
    ensures out == Renumbered(layers, order)
  {
    out := layers;
    var i := 0;
    while i < |out|
      invariant 0 <= i <= |out| && |out| == |layers|
      invariant forall j :: 0 <= j < i ==> out[j] == Renumber(layers[j], order)
      invariant forall j :: i <= j < |out| ==> out[j] == layers[j]
    {
      out := out[i := Renumber(out[i], order)];
      i := i + 1;
    }
  }

  /** With unique ids and a new id for the copy, the copy lands directly above
    * its source in the z-order, every layer is renumbered to its place in the
    * new order (`0..n-1`), and the other layers keep their relative order. */
  lemma SingleOrderFacts(layers: seq<Layer>, s: int, alt: Option<AltDrag>, copy: Layer)
    requires 0 <= s < |layers| && UniqueIds(layers + [copy])
    ensures var target := Restored(layers, s, alt);
      var all := target + [copy];
      var out := Renumbered(all, SingleOrder(target, layers[s].id, copy));
      |out| == |all| &&
      out[|layers|].zIndex == out[s].zIndex + 1 &&
      (forall i :: 0 <= i < |out| ==>
         out[i].(zIndex := all[i].zIndex) == all[i] && 0 <= out[i].zIndex < |out|) &&
      (forall i, j :: 0 <= i < j < |out| ==> out[i].zIndex != out[j].zIndex) &&
      (forall i, j :: 0 <= i < |layers| && 0 <= j < |layers| && layers[i].zIndex < layers[j].zIndex ==>
         out[i].zIndex < out[j].zIndex)
  {
    var target := Restored(layers, s, alt);
    RestoredKeepsZ(layers, s, alt);
    SameIdsUnique(layers + [copy], target + [copy]);
    SpliceAbove(target, s, copy);
    var out := Renumbered(target + [copy], SingleOrder(target, layers[s].id, copy));
    forall i, j | 0 <= i < |layers| && 0 <= j < |layers| && layers[i].zIndex < layers[j].zIndex
      ensures out[i].zIndex < out[j].zIndex
    {
      assert target[i].zIndex < target[j].zIndex;
    }
  }

  /** Putting the source back moves it only: every layer keeps its z-index. */
  lemma RestoredKeepsZ(layers: seq<Layer>, s: int, alt: Option<AltDrag>)
    requires 0 <= s < |layers|
    ensures var r := Restored(layers, s, alt);
      forall i :: 0 <= i < |r| ==> r[i].zIndex == layers[i].zIndex
  {
  }

  lemma SameIdsUnique(a: seq<Layer>, b: seq<Layer>)
    requires UniqueIds(a) && |a| == |b|
    requires forall i :: 0 <= i < |a| ==> a[i].id == b[i].id
    ensures UniqueIds(b)
  {
  }

  lemma SpliceAbove(target: seq<Layer>, s: int, copy: Layer)
    requires 0 <= s < |target| && UniqueIds(target + [copy])
    ensures var all := target + [copy];
      var out := Renumbered(all, SingleOrder(target, target[s].id, copy));
      |out| == |all| &&
      out[|target|].zIndex == out[s].zIndex + 1 &&
      (forall i :: 0 <= i < |out| ==>
         out[i].(zIndex := all[i].zIndex) == all[i] && 0 <= out[i].zIndex < |out|) &&
      (forall i, j :: 0 <= i < j < |out| ==> out[i].zIndex != out[j].zIndex) &&
      (forall i, j :: 0 <= i < |target| && 0 <= j < |target| && target[i].zIndex < target[j].zIndex ==>
         out[i].zIndex < out[j].zIndex)
  {
    var id := target[s].id;
    var sorted := SortWith(target, ZOrder);
    assert target[s] in multiset(sorted);
    var v := IndexOfId(sorted, id);
    var k := v + 1;
    var order := sorted[..k] + [copy] + sorted[k..];
    assert order == SingleOrder(target, id, copy);
    ZOrderComparesBy();
    SortWithSorted(target, ZOrder, ZKey);
    SpliceRenumber(target, [copy], sorted, k, order);
    var all := target + [copy];
    var out := Renumbered(all, order);
    assert order[v] == sorted[v] && order[v].id == all[s].id;
    assert out[s] == Renumber(all[s], order);
    UniquePosition(order, v);
  }

  // ---------------------------------------------------------------- reorder

  /** `sortedLayers.filter(l => l.id !== id)`. */
  function WithoutId(s: seq<Layer>, id: string): (r: seq<Layer>)
    ensures |r| <= |s|
    ensures forall l :: l in r <==> l in s && l.id != id
  {
    if s == [] then [] else (if s[0].id == id then [] else [s[0]]) + WithoutId(s[1..], id)
  }

  /** The reordered z-order: the dragged layer taken out and put back before or
    * after the target; `None` when either layer is missing. */
  function ReorderedOrder(layers: seq<Layer>, dragged: string, target: string, before: bool): Option<seq<Layer>> {
    var sorted := SortWith(layers, ZOrder);
    var d := IndexOfId(sorted, dragged);
    if d == -1 then None
    else
      var remaining := WithoutId(sorted, dragged);
      var t := IndexOfId(remaining, target);
      if t == -1 then None
      else
        var n := if before then t else t + 1;
        Some(remaining[..n] + [sorted[d]] + remaining[n..])
  }

  /** Every layer given its first position in `order`, as
    * `remainingLayers.findIndex(l => l.id === originalLayer.id)` does. */
  function Positioned(layers: seq<Layer>, order: seq<Layer>): (r: seq<Layer>)
    ensures |r| == |layers|
    ensures forall i :: 0 <= i < |layers| ==> r[i] == layers[i].(zIndex := IndexOfId(order, layers[i].id))
  {
    if layers == [] then [] else [layers[0].(zIndex := IndexOfId(order, layers[0].id))] + Positioned(layers[1..], order)
  }

  /** `handleReorderLayer`. */
  function ReorderLayer(layers: seq<Layer>, dragged: string, target: string, before: bool): seq<Layer> {
    var order := ReorderedOrder(layers, dragged, target, before);
    if order.None? then layers else Positioned(layers, order.value)
  }

  /** A reorder is a no-op exactly when the dragged layer is missing, or the
    * target is missing or is the dragged layer itself. */
  lemma ReorderNoOp(layers: seq<Layer>, dragged: string, target: string, before: bool)
    ensures ReorderedOrder(layers, dragged, target, before).None? <==>
      !HasId(layers, dragged) || !HasId(layers, target) || dragged == target
  {
    var sorted := SortWith(layers, ZOrder);
    SortedIds(layers, sorted);
    var remaining := WithoutId(sorted, dragged);
    if HasId(layers, dragged) && HasId(layers, target) && dragged != target {
      var p :| 0 <= p < |sorted| && sorted[p].id == target;
      assert sorted[p] in remaining;
    }
  }

  lemma SortedIds(layers: seq<Layer>, sorted: seq<Layer>)
    requires multiset(sorted) == multiset(layers)
    ensures forall id :: HasId(sorted, id) <==> HasId(layers, id)
  {
    forall id
      ensures HasId(sorted, id) <==> HasId(layers, id)
    {
      if HasId(sorted, id) {
        var p :| 0 <= p < |sorted| && sorted[p].id == id;
        assert sorted[p] in multiset(layers);
      }
      if HasId(layers, id) {
        var p :| 0 <= p < |layers| && layers[p].id == id;
        assert layers[p] in multiset(sorted);
      }
    }
  }

  /** After a reorder every layer with the dragged id sits directly below
    * (`before`) or above (`after`) every layer with the target id, every
    * z-index is a position `0..n-1`, and nothing but the z-index changes. */
  lemma ReorderAdjacent(layers: seq<Layer>, dragged: string, target: string, before: bool)
    requires ReorderedOrder(layers, dragged, target, before).Some?
    ensures var r := ReorderLayer(layers, dragged, target, before);
      |r| == |layers| &&
      (forall i :: 0 <= i < |r| ==> r[i].(zIndex := layers[i].zIndex) == layers[i] && 0 <= r[i].zIndex < |r|) &&
      (forall i, j :: 0 <= i < |r| && 0 <= j < |r| && layers[i].id == dragged && layers[j].id == target ==>
         r[j].zIndex == r[i].zIndex + (if before then 1 else -1))
  {
    var sorted := SortWith(layers, ZOrder);
    var d := IndexOfId(sorted, dragged);
    var remaining := WithoutId(sorted, dragged);
    var t := IndexOfId(remaining, target);
    var n := if before then t else t + 1;
    var order := remaining[..n] + [sorted[d]] + remaining[n..];
    assert ReorderedOrder(layers, dragged, target, before) == Some(order);
    assert ReorderLayer(layers, dragged, target, before) == Positioned(layers, order);
    AdjacentFromOrder(layers, sorted, dragged, target, before, d, remaining, t, order);
  }

  /** The facts of ReorderAdjacent, stated on the spliced z-order. */
  lemma AdjacentFromOrder(layers: seq<Layer>, sorted: seq<Layer>, dragged: string, target: string,
                          before: bool, d: int, remaining: seq<Layer>, t: int, order: seq<Layer>)
    requires |sorted| == |layers| && multiset(sorted) == multiset(layers)
    requires 0 <= d < |sorted| && sorted[d].id == dragged
    requires remaining == WithoutId(sorted, dragged)
    requires 0 <= t < |remaining| && t == IndexOfId(remaining, target)
    requires var n := if before then t else t + 1;
      order == remaining[..n] + [sorted[d]] + remaining[n..]
    ensures var r := Positioned(layers, order);
      |r| == |layers| &&
      (forall i :: 0 <= i < |r| ==> r[i].(zIndex := layers[i].zIndex) == layers[i] && 0 <= r[i].zIndex < |r|) &&
      (forall i, j :: 0 <= i < |r| && 0 <= j < |r| && layers[i].id == dragged && layers[j].id == target ==>
         r[j].zIndex == r[i].zIndex + (if before then 1 else -1))
  {
    var n := if before then t else t + 1;
    var r := Positioned(layers, order);
    ReorderIndices(sorted, dragged, target, before, d, remaining, t, order);
    forall i | 0 <= i < |r|
      ensures r[i].(zIndex := layers[i].zIndex) == layers[i] && 0 <= r[i].zIndex < |r|
    {
      assert r[i] == layers[i].(zIndex := IndexOfId(order, layers[i].id));
      assert layers[i] in multiset(sorted);
      ReorderRange(sorted, dragged, d, remaining, n, order, layers[i]);
    }
  }

  /** With unique ids the reorder gives every layer its own position in the new
    * z-order: the z-indices are distinct, and the layers other than the dragged
    * one keep their relative order. */
  lemma ReorderKeepsOthersOrder(layers: seq<Layer>, dragged: string, target: string, before: bool)
    requires UniqueIds(layers)
    requires ReorderedOrder(layers, dragged, target, before).Some?
    ensures var r := ReorderLayer(layers, dragged, target, before);
      |r| == |layers| &&
      (forall i, j :: 0 <= i < j < |r| ==> r[i].zIndex != r[j].zIndex) &&
      (forall i, j :: (0 <= i < |r| && 0 <= j < |r| && layers[i].id != dragged && layers[j].id != dragged &&
                       layers[i].zIndex < layers[j].zIndex) ==> r[i].zIndex < r[j].zIndex)
  {
    var sorted := SortWith(layers, ZOrder);
    var d := IndexOfId(sorted, dragged);
    var remaining := WithoutId(sorted, dragged);
    var t := IndexOfId(remaining, target);
    var n := if before then t else t + 1;
    var order := remaining[..n] + [sorted[d]] + remaining[n..];
    assert ReorderedOrder(layers, dragged, target, before) == Some(order);
    assert ReorderLayer(layers, dragged, target, before) == Positioned(layers, order);
    ReorderFromOrder(layers, sorted, d, remaining, n, order);
  }

  /** The facts of ReorderKeepsOthersOrder, stated on the spliced z-order. */
  lemma ReorderFromOrder(layers: seq<Layer>, sorted: seq<Layer>, d: int, remaining: seq<Layer>, n: int,
                         order: seq<Layer>)
    requires UniqueIds(layers) && sorted == SortWith(layers, ZOrder)
    requires 0 <= d < |sorted| && remaining == WithoutId(sorted, sorted[d].id) && 0 <= n <= |remaining|
    requires order == remaining[..n] + [sorted[d]] + remaining[n..]
    ensures var r := Positioned(layers, order);
      (forall i, j :: 0 <= i < j < |r| ==> r[i].zIndex != r[j].zIndex) &&
      (forall i, j :: (0 <= i < |r| && 0 <= j < |r| && layers[i].id != sorted[d].id &&
                       layers[j].id != sorted[d].id &&
                       layers[i].zIndex < layers[j].zIndex) ==> r[i].zIndex < r[j].zIndex)
  {
    SplicedPermutation(layers, sorted, d, remaining, n, order);
    PositionedDistinct(layers, order);
    ZOrderComparesBy();
    SortWithSorted(layers, ZOrder, ZKey);
    PositionedKeepsOrder(layers, sorted, sorted[d].id, remaining, n, sorted[d], order);
  }

  /** The dragged layer taken out of the z-order and put back elsewhere gives
    * an order with exactly the layers, and so with unique ids. */
  lemma SplicedPermutation(layers: seq<Layer>, sorted: seq<Layer>, d: int, remaining: seq<Layer>, n: int,
                           order: seq<Layer>)
    requires UniqueIds(layers) && multiset(sorted) == multiset(layers)
    requires 0 <= d < |sorted| && remaining == WithoutId(sorted, sorted[d].id) && 0 <= n <= |remaining|
    requires order == remaining[..n] + [sorted[d]] + remaining[n..]
    ensures multiset(order) == multiset(layers) && UniqueIds(order)
  {
    UniqueIdsPermutation(layers, sorted);
    WithoutIdMultiset(sorted, d);
    SpliceOneMultiset(remaining, n, sorted[d], order);
    UniqueIdsPermutation(layers, order);
  }

  lemma SpliceOneMultiset(remaining: seq<Layer>, n: int, x: Layer, order: seq<Layer>)
    requires 0 <= n <= |remaining| && order == remaining[..n] + [x] + remaining[n..]
    ensures multiset(order) == multiset(remaining) + multiset{x}
  {
    assert remaining == remaining[..n] + remaining[n..];
  }

  /** Positions in an order holding exactly the layers are distinct. */
  lemma PositionedDistinct(layers: seq<Layer>, order: seq<Layer>)
    requires multiset(order) == multiset(layers) && UniqueIds(order) && UniqueIds(layers)
    ensures var r := Positioned(layers, order);
      forall i, j :: 0 <= i < j < |r| ==> r[i].zIndex != r[j].zIndex
  {
    var r := Positioned(layers, order);
    forall i, j | 0 <= i < j < |r|
      ensures r[i].zIndex != r[j].zIndex
    {
      var p := PositionIn(order, layers, i);
      var q := PositionIn(order, layers, j);
    }
  }

  /** Layers other than the dragged one keep their z-order. */
  lemma PositionedKeepsOrder(layers: seq<Layer>, sorted: seq<Layer>, dragged: string, remaining: seq<Layer>,
                             n: int, x: Layer, order: seq<Layer>)
    requires multiset(sorted) == multiset(layers) && SortedBy(sorted, ZKey)
    requires remaining == WithoutId(sorted, dragged) && 0 <= n <= |remaining|
    requires order == remaining[..n] + [x] + remaining[n..] && UniqueIds(order)
    ensures var r := Positioned(layers, order);
      forall i, j :: (0 <= i < |r| && 0 <= j < |r| && layers[i].id != dragged && layers[j].id != dragged &&
                      layers[i].zIndex < layers[j].zIndex) ==> r[i].zIndex < r[j].zIndex
  {
    var r := Positioned(layers, order);
    forall i, j | 0 <= i < |r| && 0 <= j < |r| && layers[i].id != dragged && layers[j].id != dragged &&
        layers[i].zIndex < layers[j].zIndex
      ensures r[i].zIndex < r[j].zIndex
    {
      ReorderPairInOrder(layers, sorted, dragged, remaining, n, x, order, i, j);
    }
  }

  /** Two layers other than the dragged one, lower and higher in z, keep that
    * order in the reordered z-order. */
  lemma ReorderPairInOrder(layers: seq<Layer>, sorted: seq<Layer>, dragged: string, remaining: seq<Layer>,
                           n: int, x: Layer, order: seq<Layer>, i: int, j: int)
    requires multiset(sorted) == multiset(layers) && SortedBy(sorted, ZKey)
    requires remaining == WithoutId(sorted, dragged) && 0 <= n <= |remaining|
    requires order == remaining[..n] + [x] + remaining[n..] && UniqueIds(order)
    requires 0 <= i < |layers| && 0 <= j < |layers| && layers[i].id != dragged && layers[j].id != dragged
    requires layers[i].zIndex < layers[j].zIndex
    ensures IndexOfId(order, layers[i].id) < IndexOfId(order, layers[j].id)
  {
    var a, b := SortedPair(sorted, layers, i, j);
    var a', b' := WithoutIdKeepsBefore(sorted, dragged, a, b);
    var pa := SplicedAt(remaining, n, x, order, a');
    var pb := SplicedAt(remaining, n, x, order, b');
    UniquePosition(order, pa);
    UniquePosition(order, pb);
  }

  /** In a z-sorted order a layer of lower z comes first. */
  lemma SortedPair(sorted: seq<Layer>, layers: seq<Layer>, i: int, j: int) returns (a: int, b: int)
    requires multiset(sorted) == multiset(layers) && SortedBy(sorted, ZKey)
    requires 0 <= i < |layers| && 0 <= j < |layers| && layers[i].zIndex < layers[j].zIndex
    ensures 0 <= a < b < |sorted| && sorted[a] == layers[i] && sorted[b] == layers[j]
  {
    assert layers[i] in multiset(sorted) && layers[j] in multiset(sorted);
    a :| 0 <= a < |sorted| && sorted[a] == layers[i];
    b :| 0 <= b < |sorted| && sorted[b] == layers[j];
  }

  /** Where position `q` of `remaining` lands once `x` is spliced in at `n`. */
  lemma SplicedAt(remaining: seq<Layer>, n: int, x: Layer, order: seq<Layer>, q: int) returns (p: int)
    requires 0 <= n <= |remaining| && order == remaining[..n] + [x] + remaining[n..]
    requires 0 <= q < |remaining|
    ensures p == Spliced(q, n, 1) && 0 <= p < |order| && order[p] == remaining[q]
  {
    p := Spliced(q, n, 1);
  }

  /** Where layer `i` of `layers` sits in an order with exactly those layers. */
  lemma PositionIn(order: seq<Layer>, layers: seq<Layer>, i: int) returns (p: int)
    requires multiset(order) == multiset(layers) && UniqueIds(order) && UniqueIds(layers)
    requires 0 <= i < |layers|
    ensures 0 <= p < |order| && order[p] == layers[i] && IndexOfId(order, layers[i].id) == p
  {
    assert layers[i] in multiset(order);
    p :| 0 <= p < |order| && order[p] == layers[i];
    UniquePosition(order, p);
  }

  /** With unique ids, filtering out one layer's id removes exactly that layer. */
  lemma {:induction false} WithoutIdMultiset(s: seq<Layer>, d: int)
    requires UniqueIds(s) && 0 <= d < |s|
    ensures multiset(WithoutId(s, s[d].id)) + multiset{s[d]} == multiset(s)
  {
    var id := s[d].id;
    assert s == [s[0]] + s[1..];
    if d == 0 {
      forall i | 0 <= i < |s| - 1
        ensures s[1..][i].id != id
      {
        assert s[1..][i] == s[i + 1];
      }
      WithoutIdAbsent(s[1..], id);
    } else {
      assert s[0].id != id;
      assert s[1..][d - 1] == s[d];
      WithoutIdMultiset(s[1..], d - 1);
    }
  }

  lemma {:induction false} WithoutIdAbsent(s: seq<Layer>, id: string)
    requires forall i :: 0 <= i < |s| ==> s[i].id != id
    ensures WithoutId(s, id) == s
  {
    if s != [] {
      WithoutIdAbsent(s[1..], id);
    }
  }

  /** Filtering out an id keeps two other layers in their order. */
  lemma {:induction false} WithoutIdKeepsBefore(s: seq<Layer>, id: string, p: int, q: int) returns (p': int, q': int)
    requires 0 <= p < q < |s| && s[p].id != id && s[q].id != id
    ensures var w := WithoutId(s, id); 0 <= p' < q' < |w| && w[p'] == s[p] && w[q'] == s[q]
  {
    var w := WithoutId(s, id);
    var t := s[1..];
    var rest := WithoutId(t, id);
    assert t[q - 1] == s[q];
    if p == 0 {
      p', q' := WithoutIdKeepsHead(s, id, q);
    } else {
      assert t[p - 1] == s[p];
      var a, b := WithoutIdKeepsBefore(t, id, p - 1, q - 1);
      p', q' := WithoutIdShift(s, id, a, b);
    }
  }

  /** Positions in the filtered tail, moved up one when the head is kept. */
  lemma WithoutIdShift(s: seq<Layer>, id: string, a: int, b: int) returns (p': int, q': int)
    requires s != []
    requires var rest := WithoutId(s[1..], id); 0 <= a < b < |rest|
    ensures 0 <= p' < q' < |WithoutId(s, id)|
    ensures WithoutId(s, id)[p'] == WithoutId(s[1..], id)[a] && WithoutId(s, id)[q'] == WithoutId(s[1..], id)[b]
  {
    var rest := WithoutId(s[1..], id);
    var head := if s[0].id == id then [] else [s[0]];
    WithoutIdCons(s, id, head, rest);
    p', q' := a + |head|, b + |head|;
    ShiftedPair(head, rest, a, b);
  }

  /** The filter, one step unfolded. */
  lemma WithoutIdCons(s: seq<Layer>, id: string, head: seq<Layer>, rest: seq<Layer>)
    requires s != [] && head == (if s[0].id == id then [] else [s[0]]) && rest == WithoutId(s[1..], id)
    ensures WithoutId(s, id) == head + rest
  {
  }

  lemma ShiftedPair(head: seq<Layer>, rest: seq<Layer>, a: int, b: int)
    requires 0 <= a < b < |rest|
    ensures (head + rest)[a + |head|] == rest[a] && (head + rest)[b + |head|] == rest[b]
  {
  }

  lemma WithoutIdKeepsHead(s: seq<Layer>, id: string, q: int) returns (p': int, q': int)
    requires 0 < q < |s| && s[0].id != id && s[q].id != id
    ensures var w := WithoutId(s, id); 0 <= p' < q' < |w| && w[p'] == s[0] && w[q'] == s[q]
  {
    var t := s[1..];
    assert t[q - 1] == s[q];
    var k := WithoutIdFind(t, id, q - 1);
    assert WithoutId(s, id) == [s[0]] + WithoutId(t, id);
    p', q' := 0, k + 1;
  }

  /** A layer without the id is still found after the filter. */
  lemma WithoutIdFind(s: seq<Layer>, id: string, q: int) returns (k: int)
    requires 0 <= q < |s| && s[q].id != id
    ensures 0 <= k < |WithoutId(s, id)| && WithoutId(s, id)[k] == s[q]
  {
    assert s[q] in s;
    var w := WithoutId(s, id);
    assert s[q] in w;
    k :| 0 <= k < |w| && w[k] == s[q];
  }

  lemma ReorderIndices(sorted: seq<Layer>, dragged: string, target: string, before: bool, d: int,
                       remaining: seq<Layer>, t: int, order: seq<Layer>)
    requires 0 <= d < |sorted| && sorted[d].id == dragged
    requires remaining == WithoutId(sorted, dragged)
    requires 0 <= t < |remaining| && t == IndexOfId(remaining, target)
    requires var n := if before then t else t + 1;
      order == remaining[..n] + [sorted[d]] + remaining[n..]
    ensures IndexOfId(order, dragged) == if before then t else t + 1
    ensures IndexOfId(order, target) == if before then t + 1 else t
  {
    var n := if before then t else t + 1;
    forall j | 0 <= j < |remaining|
      ensures remaining[j].id != dragged
    {
      assert remaining[j] in remaining;
    }
    SplicedIndex(remaining, n, sorted[d], order);
    ShiftedIndex(remaining, n, sorted[d], order, target);
  }

  /** In `remaining` with `x` spliced in at `n`, `x` is first found at `n`... */
  lemma SplicedIndex(remaining: seq<Layer>, n: int, x: Layer, order: seq<Layer>)
    requires 0 <= n <= |remaining| && order == remaining[..n] + [x] + remaining[n..]
    requires forall j :: 0 <= j < |remaining| ==> remaining[j].id != x.id
    ensures IndexOfId(order, x.id) == n
  {
    forall j | 0 <= j < n
      ensures order[j].id != x.id
    {
      assert order[j] == remaining[j];
    }
    IndexOfIdIs(order, x.id, n);
  }

  /** ... and any other id where it was, moved up one when at or after `n`. */
  lemma ShiftedIndex(remaining: seq<Layer>, n: int, x: Layer, order: seq<Layer>, id: string)
    requires 0 <= n <= |remaining| && order == remaining[..n] + [x] + remaining[n..]
    requires x.id != id && IndexOfId(remaining, id) >= 0
    ensures var t := IndexOfId(remaining, id);
      IndexOfId(order, id) == if t < n then t else t + 1
  {
    var t := IndexOfId(remaining, id);
    var p := if t < n then t else t + 1;
    assert order[p] == remaining[t];
    forall j | 0 <= j < p
      ensures order[j].id != id
    {
      if j < n {
        assert order[j] == remaining[j];
      } else if j > n {
        assert order[j] == remaining[j - 1];
      }
    }
    IndexOfIdIs(order, id, p);
  }

  lemma ReorderRange(sorted: seq<Layer>, dragged: string, d: int, remaining: seq<Layer>, n: int,
                     order: seq<Layer>, l: Layer)
    requires 0 <= d < |sorted| && sorted[d].id == dragged
    requires remaining == WithoutId(sorted, dragged) && 0 <= n <= |remaining|
    requires order == remaining[..n] + [sorted[d]] + remaining[n..]
    requires l in sorted
    ensures 0 <= IndexOfId(order, l.id) < |sorted|
  {
    RemainingSize(sorted, dragged, d);
    if l.id != dragged {
      assert l in remaining;
      IndexInSpliced(remaining, n, sorted[d], order, l);
    } else {
      IndexInSpliced(remaining, n, sorted[d], order, sorted[d]);
    }
  }

  /** A layer of `remaining`, or the one put back, has an index in the spliced list. */
  lemma IndexInSpliced(remaining: seq<Layer>, n: int, x: Layer, order: seq<Layer>, l: Layer)
    requires 0 <= n <= |remaining| && order == remaining[..n] + [x] + remaining[n..]
    requires l in remaining || l == x
    ensures 0 <= IndexOfId(order, l.id) < |remaining| + 1
  {
    var p := n;
    if l != x {
      var q :| 0 <= q < |remaining| && remaining[q] == l;
      p := if q < n then q else q + 1;
    }
    assert order[p] == l;
  }

  lemma {:induction false} RemainingSize(sorted: seq<Layer>, dragged: string, d: int)
    requires 0 <= d < |sorted| && sorted[d].id == dragged
    ensures |WithoutId(sorted, dragged)| < |sorted|
  {
    if d > 0 {
      RemainingSize(sorted[1..], dragged, d - 1);
    }
  }
}
