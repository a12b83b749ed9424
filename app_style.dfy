// The text-style commands of the document hook: apply a style patch to the
// selected characters (or the whole text), toggle one style, and split the
// selected characters off into a new text layer.
module AppStyle {
  import opened Wrappers
  import opened Types
  import opened Geometry
  import opened TextSpans

  /** `T | 'mixed'` */
  datatype Prop<T> = Is(value: T) | MixedProp

  /** The styles of the selected characters that the editor panel shows; None is undefined. */
  datatype SelectionStyleInfo = SelectionStyleInfo(
    fontFamily: Option<Prop<string>>,
    fontSize: Option<Prop<real>>,
    color: Option<Prop<string>>,
    fontWeight: Option<Prop<real>>,
    underline: Option<Toggle>,
    strikethrough: Option<Toggle>,
    textScript: Option<Prop<Script>>,
    textTransform: Option<Prop<CaseTransform>>)

  /** The editor's record of the text selection inside a text layer. */
  datatype SelectionState = SelectionState(layerId: string, styles: SelectionStyleInfo,
                                           hasSelection: bool, range: Option<Range>)

  /** A property state as the selection reports it: the value, `'mixed'`, or undefined. */
  function Reported(p: PropState): Option<Prop<PropValue>> {
    match p
    case Value(v) => Some(Is(v))
    case MixedValue => Some(MixedProp)
    case NoValue => None
  }

  function AsString(p: Option<Prop<PropValue>>): Option<Prop<string>> {
    match p
    case Some(Is(Str(s))) => Some(Is(s))
    case Some(Is(Num(_))) => None
    case Some(MixedProp) => Some(MixedProp)
    case None => None
  }

  function AsNumber(p: Option<Prop<PropValue>>): Option<Prop<real>> {
    match p
    case Some(Is(Num(n))) => Some(Is(n))
    case Some(Is(Str(_))) => None
    case Some(MixedProp) => Some(MixedProp)
    case None => None
  }

  /** The styles that the text layer reports for the characters in `range`: the four property
    * states, the two flags, and the script and case as `'superscript'`/`'normal'` and
    * `'uppercase'`/`'none'`, or `'mixed'`. */
  function SelectionStyles(t: TextProps, range: Range): SelectionStyleInfo
  {
    var script := StyleStateForRange(t.spans, range, ScriptKey);
    var transform := StyleStateForRange(t.spans, range, TransformKey);
    SelectionStyleInfo(
      AsString(Reported(PropertyStateForRange(t, range, FontFamilyKey))),
      AsNumber(Reported(PropertyStateForRange(t, range, FontSizeKey))),
      AsString(Reported(PropertyStateForRange(t, range, ColorKey))),
      AsNumber(Reported(PropertyStateForRange(t, range, FontWeightKey))),
      Some(StyleStateForRange(t.spans, range, UnderlineKey)),
      Some(StyleStateForRange(t.spans, range, StrikethroughKey)),
      Some(if script == Mixed then MixedProp else if script == Flag(true) then Is(Superscript) else Is(Normal)),
      Some(if transform == Mixed then MixedProp else if transform == Flag(true) then Is(Uppercase) else Is(NoTransform)))
  }

  /** The selected layer when exactly one is selected. */
  function SingleSelected(layers: seq<Layer>, ids: seq<string>): (r: Option<Layer>)
    ensures r.Some? ==> r.value in layers && r.value.id in ids
  {
    var s := SelectedLayers(layers, ids);
    if |s| == 1 then
      assert s[0] in s;
      Some(s[0])
    else None
  }

  /** The range a style command works on: the selection's range when there is a
    * selection, else the whole text `[0, total length)`. */
  function StyleRange(sel: Option<SelectionState>, spans: seq<TextSpan>): Option<Range> {
    if sel.Some? && sel.value.hasSelection then sel.value.range else Some(Range(0, |PlainText(spans)|))
  }

  /** One text layer restyled over `range`, its spans tidied, its version bumped. */
  function Restyle(t: TextProps, range: Range, updates: StylePatch): (r: TextProps)
    ensures Chars(r.spans) == RestyleChars(Chars(t.spans), 0, range.start, range.end, updates)
    ensures r.spans == [TextSpan("", NoStyle)] || (NoEmptySpans(r.spans) && Canonical(r.spans))
    ensures r.spansVersion == Some(t.spansVersion.GetOr(0) + 1)
    ensures r == t.(spans := r.spans, spansVersion := r.spansVersion)
  {
    RestyledChars(t.spans, range, updates);
    t.(spans := Tidied(Restyled(t.spans, range, updates)), spansVersion := Some(t.spansVersion.GetOr(0) + 1))
  }

  function RestyleLayer(l: Layer, sel: Option<SelectionState>, updates: StylePatch): Layer
    requires l.IsText()
  {
    var range := StyleRange(sel, l.content.text.spans);
    if range.None? then l else l.(content := Text(Restyle(l.content.text, range.value, updates)))
  }

  /** `handleApplyStyleToSelection`: the one selected text layer restyled, every
    * other layer as it was; nothing changes unless exactly one layer, a text
    * layer, is selected. */
  function ApplyStyleToSelection(layers: seq<Layer>, ids: seq<string>, sel: Option<SelectionState>, updates: StylePatch): (r: seq<Layer>)
    ensures |r| == |layers|
    ensures var s := SingleSelected(layers, ids);
      forall i :: 0 <= i < |layers| ==>
        if s.Some? && s.value.IsText() && layers[i].id == s.value.id && layers[i].IsText()
        then r[i] == RestyleLayer(layers[i], sel, updates)
        else r[i] == layers[i]
  {
    var s := SingleSelected(layers, ids);
    if s.None? || !s.value.IsText() then layers
    else
      seq(|layers|, i requires 0 <= i < |layers| =>
        if layers[i].id == s.value.id && layers[i].IsText() then RestyleLayer(layers[i], sel, updates) else layers[i])
  }

  /** What the restyle does to the characters of a layer: over the command's
    * range every character's style is patched, all other characters and every
    * field of the layer other than its spans and version are kept. */
  lemma RestyleLayerMeaning(l: Layer, sel: Option<SelectionState>, updates: StylePatch)
    requires l.IsText()
    ensures var r := RestyleLayer(l, sel, updates);
      var range := StyleRange(sel, l.content.text.spans);
      r.IsText() &&
      (range.None? ==> r == l) &&
      (range.Some? ==>
        Chars(r.content.text.spans) == RestyleChars(Chars(l.content.text.spans), 0, range.value.start, range.value.end, updates) &&
        PlainText(r.content.text.spans) == PlainText(l.content.text.spans) &&
        r.content.text.spansVersion == Some(l.content.text.spansVersion.GetOr(0) + 1) &&
        r == l.(content := Text(l.content.text.(spans := r.content.text.spans, spansVersion := r.content.text.spansVersion))))
  {
    var range := StyleRange(sel, l.content.text.spans);
    if range.Some? {
      var t := l.content.text;
      var r := Restyle(t, range.value, updates);
      RestyledText(t.spans, range.value, updates);
      TextIsCharsText(r.spans);
      TextIsCharsText(Restyled(t.spans, range.value, updates));
    }
  }

  // ------------------------------------------------------------------ toggle

  /** `getStyleStateForRange(...) === true`, and the flag the toggle applies. */
  function ToggleOn(spans: seq<TextSpan>, range: Range, key: StyleKey): bool {
    StyleStateForRange(spans, range, key) != Flag(true)
  }

  /** The range `handleToggleStyle` reads the state over: the selection's range
    * only when the selection belongs to this layer. */
  function ToggleRange(l: Layer, sel: Option<SelectionState>): Range
    requires l.IsText()
    requires sel.Some? && sel.value.hasSelection && sel.value.layerId == l.id ==> sel.value.range.Some?
  {
    if sel.Some? && sel.value.hasSelection && sel.value.layerId == l.id then sel.value.range.value
    else Range(0, |PlainText(l.content.text.spans)|)
  }

  /** `handleToggleStyle`: turn the style off when it is uniformly on over the
    * range, on otherwise, through the apply command. */
  function ToggleStyle(layers: seq<Layer>, ids: seq<string>, sel: Option<SelectionState>, key: StyleKey): (r: seq<Layer>)
    requires var s := SingleSelected(layers, ids);
      s.Some? && s.value.IsText() && sel.Some? && sel.value.hasSelection && sel.value.layerId == s.value.id ==>
        sel.value.range.Some?
    ensures |r| == |layers|
    ensures var s := SingleSelected(layers, ids);
      s.None? || !s.value.IsText() ==> r == layers
  {
    var s := SingleSelected(layers, ids);
    if s.None? || !s.value.IsText() then layers
    else
      var on := ToggleOn(s.value.content.text.spans, ToggleRange(s.value, sel), key);
      ApplyStyleToSelection(layers, ids, sel, TogglePatch(key, on))
  }

  /** A toggle over a range that holds characters leaves the style uniformly
    * off there when it was uniformly on, and uniformly on otherwise. */
  lemma ToggleFlips(t: TextProps, range: Range, key: StyleKey)
    requires Window(Chars(t.spans), range) != []
    ensures var on := ToggleOn(t.spans, range, key);
      var after := Restyle(t, range, TogglePatch(key, on));
      StyleStateForRange(after.spans, range, key) == Flag(on) &&
      (StyleStateForRange(t.spans, range, key) == Flag(true) <==> !on)
  {
    var on := ToggleOn(t.spans, range, key);
    var p := TogglePatch(key, on);
    var after := Restyle(t, range, p);
    ToggleSetsState(t.spans, range, key, on);
    StyleStateChars(after.spans, range, key);
    StyleStateChars(Restyled(t.spans, range, p), range, key);
    RestyledChars(t.spans, range, p);
  }

  /** Two toggles over a range where the style is on leave it on again. */
  lemma ToggleTwice(t: TextProps, range: Range, key: StyleKey)
    requires Window(Chars(t.spans), range) != []
    requires StyleStateForRange(t.spans, range, key) == Flag(true)
    ensures var once := Restyle(t, range, TogglePatch(key, ToggleOn(t.spans, range, key)));
      var twice := Restyle(once, range, TogglePatch(key, ToggleOn(once.spans, range, key)));
      StyleStateForRange(once.spans, range, key) == Flag(false) &&
      StyleStateForRange(twice.spans, range, key) == Flag(true)
  {
    ToggleFlips(t, range, key);
    var once := Restyle(t, range, TogglePatch(key, ToggleOn(t.spans, range, key)));
    RestyledChars(t.spans, range, TogglePatch(key, false));
    WindowRestyled(Chars(t.spans), range, TogglePatch(key, false));
    assert |Window(Chars(once.spans), range)| == |Window(Chars(t.spans), range)|;
    ToggleFlips(once, range, key);
  }

  // ------------------------------------------------------------------- split

  /** `Math.max(0, ...layers.map(l => l.zIndex))`. */
  function MaxZ(layers: seq<Layer>): (m: int)
    ensures m >= 0 && forall i :: 0 <= i < |layers| ==> layers[i].zIndex <= m
    ensures m == 0 || exists i :: 0 <= i < |layers| && layers[i].zIndex == m
  {
    if layers == [] then 0
    else
      var rest := MaxZ(layers[1..]);
      assert rest != 0 ==> exists i :: 1 <= i < |layers| && layers[i].zIndex == rest by {
        if rest != 0 {
          var j :| 0 <= j < |layers[1..]| && layers[1..][j].zIndex == rest;
          assert layers[j + 1].zIndex == rest;
        }
      }
      IMax(layers[0].zIndex, rest)
  }

  /** Where the split-off text lands: the caret offset of the range start
    * (`rel`, measured in the layer), turned with the layer about its centre. */
  function SplitPosition(l: Layer, rel: Point, r: Rot): Point {
    var c := Center(LayerBox(l));
    Add(c, ToWorld(r, Sub(Point(l.x + rel.x, l.y + rel.y), c)))
  }

  /** What a split leaves: the layers, the selected ids, the key object and the
    * text selection state. */
  datatype Split = Split(layers: seq<Layer>, selection: seq<string>, keyObject: Option<string>,
                         selectionState: Option<SelectionState>)

  /** `handleSplitTextLayer`. The caret offset `rel` is measured in the DOM,
    * `trig` is the (cos, sin) of the layer's rotation, and `newId` is the
    * time-based id of the new layer. None stands for the early returns, which
    * change nothing; otherwise the new layer becomes the only selected layer
    * and the key object and the text selection are cleared. */
  function SplitTextLayer(layers: seq<Layer>, sel: Option<SelectionState>, rel: Point, trig: Rot, newId: string): Option<Split> {
    if sel.None? || !sel.value.hasSelection || sel.value.range.None? then None
    else
      var range := sel.value.range.value;
      var source := FindLayer(layers, sel.value.layerId);
      if source.None? || !source.value.IsText() then None
      else
        var t := source.value.content.text;
        var newSpans := Merged(SpansInRange(t.spans, range));
        if newSpans == [] then None
        else
          var rest := Tidied(SpansOutsideRange(t.spans, range));
          var pos := SplitPosition(source.value, rel, trig);
          var newLayer := source.value.(
            id := newId, dataId := Some(""),
            content := Text(t.(spans := newSpans, spansVersion := Some(1))),
            x := pos.x, y := pos.y, height := 50.0,
            zIndex := MaxZ(layers) + 1, locked := false);
          Some(Split(Cut(layers, source.value.id, rest) + [newLayer], [newId], None, None))
  }

  /** The layers with the source's id given the remaining spans. The source's
    * map tests the id alone; the `IsText` test here only differs from it when
    * a non-text layer shares the source's id, which unique ids rule out. */
  function Cut(layers: seq<Layer>, id: string, rest: seq<TextSpan>): (r: seq<Layer>)
    ensures |r| == |layers|
    ensures forall i :: 0 <= i < |layers| ==>
      r[i] == if layers[i].id == id && layers[i].IsText()
        then layers[i].(content := Text(layers[i].content.text.(spans := rest,
          spansVersion := Some(layers[i].content.text.spansVersion.GetOr(0) + 1))))
        else layers[i]
  {
    seq(|layers|, i requires 0 <= i < |layers| =>
      if layers[i].id == id && layers[i].IsText()
      then layers[i].(content := Text(layers[i].content.text.(spans := rest,
        spansVersion := Some(layers[i].content.text.spansVersion.GetOr(0) + 1))))
      else layers[i])
  }

  /** A split changes nothing unless the range holds characters of the layer.
    * When it does, it appends one layer above all others, holding exactly the
    * range's styled characters, and the source keeps exactly the others: put
    * back at the range start they re-form the original text. The new layer is
    * then the only selected layer, with no key object and no text selection. */
  lemma SplitFacts(layers: seq<Layer>, sel: Option<SelectionState>, rel: Point, trig: Rot, newId: string)
    requires sel.Some? && sel.value.hasSelection && sel.value.range.Some?
    requires var s := FindLayer(layers, sel.value.layerId); s.Some? && s.value.IsText()
    ensures var range := sel.value.range.value;
      var source := FindLayer(layers, sel.value.layerId).value;
      var cs := Chars(source.content.text.spans);
      var split := SplitTextLayer(layers, sel, rel, trig, newId);
      (Window(cs, range) == [] ==> split.None?) &&
      (Window(cs, range) != [] ==>
        split.Some? &&
        split.value.selection == [newId] && split.value.keyObject.None? && split.value.selectionState.None? &&
        var r := split.value.layers;
        |r| == |layers| + 1 &&
        var n := r[|layers|];
        r[..|layers|] == Cut(layers, source.id, Tidied(SpansOutsideRange(source.content.text.spans, range))) &&
        n.IsText() && n.id == newId && n.locked == false && n.rotation == source.rotation &&
        n.width == source.width && n.height == 50.0 &&
        (forall i :: 0 <= i < |layers| ==> layers[i].zIndex < n.zIndex) &&
        Chars(n.content.text.spans) == Window(cs, range) &&
        n.content.text.spansVersion == Some(1) &&
        (0 <= range.start ==>
          var out := Chars(Tidied(SpansOutsideRange(source.content.text.spans, range)));
          var k := Clamp(range.start, |cs|);
          k <= |out| && cs == out[..k] + Window(cs, range) + out[k..]))
  {
    var range := sel.value.range.value;
    var source := FindLayer(layers, sel.value.layerId).value;
    var spans := source.content.text.spans;
    var cs := Chars(spans);
    SpansInRangeChars(spans, range);
    MergedChars(SpansInRange(spans, range));
    MergedCanonical(SpansInRange(spans, range));
    NoEmptyCharsEmpty(Merged(SpansInRange(spans, range)));
    if Window(cs, range) != [] {
      assert range.start < range.end;
      SpansOutsideRangeChars(spans, range);
      if 0 <= range.start {
        RemoveAndExtractPartition(spans, range);
      }
    }
  }
}
