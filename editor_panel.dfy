// The editor panel's derived display state (components/EditorPanel.tsx): the
// style values it shows, the font-size list, the state of the style toggles,
// the text colour, the stroke list edits and the panel it opens by default.
module EditorPanel {
  import opened Wrappers
  import opened Types
  import opened Sorting
  import opened TextSpans
  import opened AppStyle

  /** `selectedLayer?.type === LayerType.Text ? selectedLayer : undefined` */
  function TextOf(selected: Option<Layer>): Option<TextProps> {
    if selected.Some? && selected.value.content.Text? then Some(selected.value.content.text) else None
  }

  // ------------------------------------------------------------ current style

  const NoStyles := SelectionStyleInfo(None, None, None, None, None, None, None, None)

  /** The selection's styles count only when it has a range and belongs to the
    * selected layer. */
  predicate SelectionApplies(sel: Option<SelectionState>, selected: Option<Layer>) {
    sel.Some? && sel.value.hasSelection && selected.Some? && sel.value.layerId == selected.value.id
  }

  /** What the panel shows with no selection: the text layer's own family,
    * weight, size and colour, and no toggle state. */
  function LayerStyle(t: Option<TextProps>): SelectionStyleInfo {
    if t.None? then NoStyles
    else
      SelectionStyleInfo(Some(Is(t.value.fontFamily)), Some(Is(t.value.fontSize)), Some(Is(t.value.color)),
                         Some(Is(t.value.fontWeight as real)), None, None, None, None)
  }

  /** `a ?? b` */
  function OrElse<T>(a: Option<T>, b: Option<T>): Option<T> {
    if a.Some? then a else b
  }

  /** `currentStyle`: each of family, weight, size and colour is the
    * selection's value when the selection applies and reports one, the text
    * layer's otherwise; the four toggles come from the selection alone. */
  function CurrentStyle(sel: Option<SelectionState>, selected: Option<Layer>): (r: SelectionStyleInfo)
    ensures !SelectionApplies(sel, selected) ==> r == LayerStyle(TextOf(selected))
    ensures SelectionApplies(sel, selected) ==>
      var st, own := sel.value.styles, LayerStyle(TextOf(selected));
      (st.fontFamily.Some? ==> r.fontFamily == st.fontFamily) &&
      (st.fontFamily.None? ==> r.fontFamily == own.fontFamily) &&
      (st.fontSize.Some? ==> r.fontSize == st.fontSize) &&
      (st.fontSize.None? ==> r.fontSize == own.fontSize) &&
      (st.color.Some? ==> r.color == st.color) &&
      (st.color.None? ==> r.color == own.color) &&
      (st.fontWeight.Some? ==> r.fontWeight == st.fontWeight) &&
      (st.fontWeight.None? ==> r.fontWeight == own.fontWeight) &&
      r.underline == st.underline && r.strikethrough == st.strikethrough &&
      r.textScript == st.textScript && r.textTransform == st.textTransform
  {
    var s := if SelectionApplies(sel, selected) then sel.value.styles else NoStyles;
    var own := LayerStyle(TextOf(selected));
    SelectionStyleInfo(OrElse(s.fontFamily, own.fontFamily), OrElse(s.fontSize, own.fontSize),
                       OrElse(s.color, own.color), OrElse(s.fontWeight, own.fontWeight),
                       s.underline, s.strikethrough, s.textScript, s.textTransform)
  }

  /** Over selected characters that share one size, the panel shows that size,
    * whatever the layer's own size. */
  lemma CurrentSizeOfSelection(sel: Option<SelectionState>, selected: Option<Layer>, range: Range)
    requires SelectionApplies(sel, selected) && selected.value.content.Text?
    requires sel.value.styles == SelectionStyles(selected.value.content.text, range)
    requires var t := selected.value.content.text; var w := Window(Chars(t.spans), range);
      w != [] && forall k | 0 <= k < |w| :: PropOf(w[k].1, t, FontSizeKey) == PropOf(w[0].1, t, FontSizeKey)
    ensures var t := selected.value.content.text; var w := Window(Chars(t.spans), range);
      CurrentStyle(sel, selected).fontSize == Some(Is(w[0].1.fontSize.GetOr(t.fontSize)))
  {
    PropertyStateChars(selected.value.content.text, range, FontSizeKey);
  }

  // --------------------------------------------------------------- font sizes

  /** `FONT_SIZES` */
  const FontSizes: seq<real> := [8.0, 9.0, 10.0, 11.0, 12.0, 14.0, 16.0, 18.0, 20.0, 24.0, 28.0, 32.0,
                                 36.0, 40.0, 48.0, 56.0, 64.0, 72.0, 80.0, 96.0, 100.0, 120.0, 144.0,
                                 160.0, 192.0, 220.0, 256.0, 300.0, 350.0, 400.0, 450.0, 500.0]

  lemma {:induction false} StepsSorted(s: seq<real>)
    requires forall i :: 0 <= i < |s| - 1 ==> s[i] < s[i + 1]
    ensures SortedBy(s, (x: real) => x)
  {
    if |s| > 1 {
      var rest := s[1..];
      StepsSorted(rest);
      forall i, j | 0 <= i < j < |s| ensures s[i] <= s[j] {
        if i == 0 {
          assert s[1] == rest[0] && s[j] == rest[j - 1];
        } else {
          assert s[i] == rest[i - 1] && s[j] == rest[j - 1];
        }
      }
    }
  }

  /** `finalFontSizes`: a numeric, non-zero current size that is not in the
    * list is pushed and the list sorted ascending; otherwise the list is the
    * stock one. Either way it is in ascending order. */
  method FinalFontSizes(currentFontSize: Option<Prop<real>>) returns (sizes: seq<real>)
    ensures SortedBy(sizes, (x: real) => x)
    ensures (currentFontSize.Some? && currentFontSize.value.Is? && currentFontSize.value.value != 0.0 &&
             currentFontSize.value.value !in FontSizes) ==>
      multiset(sizes) == multiset(FontSizes) + multiset{currentFontSize.value.value}
    ensures !(currentFontSize.Some? && currentFontSize.value.Is? && currentFontSize.value.value != 0.0 &&
              currentFontSize.value.value !in FontSizes) ==>
      sizes == FontSizes
  {
    StepsSorted(FontSizes);
    sizes := FontSizes;
    if currentFontSize.Some? && currentFontSize.value.Is? && currentFontSize.value.value != 0.0 &&
       currentFontSize.value.value !in sizes {
      sizes := sizes + [currentFontSize.value.value];
      var ascending := (a: real, b: real) => a - b;
      assert ComparesBy(ascending, (x: real) => x);
      SortWithSorted(sizes, ascending, (x: real) => x);
      sizes := SortWith(sizes, ascending);
    }
  }

  /** Every size the panel offers is a stock size or the current one, and the
    * current numeric size is always among them. */
  lemma FontSizesOffered(currentFontSize: real, sizes: seq<real>)
    requires currentFontSize != 0.0
    requires currentFontSize !in FontSizes ==>
      multiset(sizes) == multiset(FontSizes) + multiset{currentFontSize}
    requires currentFontSize in FontSizes ==> sizes == FontSizes
    ensures currentFontSize in sizes
    ensures forall x :: x in sizes <==> x in FontSizes || x == currentFontSize
  {
    if currentFontSize !in FontSizes {
      PushedMembers(FontSizes, currentFontSize, sizes);
    }
  }

  lemma PushedMembers(stock: seq<real>, x: real, sizes: seq<real>)
    requires multiset(sizes) == multiset(stock) + multiset{x}
    ensures forall y :: y in sizes <==> y in stock || y == x
  {
    forall y ensures y in sizes <==> y in stock || y == x {
      assert y in sizes <==> y in multiset(sizes);
      assert y in stock <==> y in multiset(stock);
    }
  }

  // -------------------------------------------------------------- style toggles

  /** `state === true || state === 'mixed'`, as written: the script and case
    * are reported as `'superscript'` and `'uppercase'`, which are neither, so
    * only a mixed report counts for them. */
  predicate WrittenActive(styles: SelectionStyleInfo, key: StyleKey) {
    match key
    case UnderlineKey => styles.underline == Some(Flag(true)) || styles.underline == Some(Mixed)
    case StrikethroughKey => styles.strikethrough == Some(Flag(true)) || styles.strikethrough == Some(Mixed)
    case ScriptKey => styles.textScript == Some(MixedProp)
    case TransformKey => styles.textTransform == Some(MixedProp)
  }

  /** The corrected test: a style is active when it is on or mixed in the
    * selection, reading `'superscript'` and `'uppercase'` as on. */
  predicate ReportedActive(styles: SelectionStyleInfo, key: StyleKey) {
    match key
    case UnderlineKey => styles.underline == Some(Flag(true)) || styles.underline == Some(Mixed)
    case StrikethroughKey => styles.strikethrough == Some(Flag(true)) || styles.strikethrough == Some(Mixed)
    case ScriptKey => styles.textScript == Some(Is(Superscript)) || styles.textScript == Some(MixedProp)
    case TransformKey => styles.textTransform == Some(Is(Uppercase)) || styles.textTransform == Some(MixedProp)
  }

  /** Some span of the text has the style. */
  predicate SomeSpanHas(t: TextProps, key: StyleKey) {
    exists i :: 0 <= i < |t.spans| && IsOn(t.spans[i].style, key)
  }

  /** `getStyleActiveState(key)` as written. */
  predicate StyleActiveAsWritten(sel: Option<SelectionState>, selected: Option<Layer>, key: StyleKey) {
    if sel.Some? && sel.value.hasSelection then WrittenActive(sel.value.styles, key)
    else TextOf(selected).Some? && SomeSpanHas(TextOf(selected).value, key)
  }

  /** `getStyleActiveState(key)` with the corrected test. */
  predicate StyleActive(sel: Option<SelectionState>, selected: Option<Layer>, key: StyleKey) {
    if sel.Some? && sel.value.hasSelection then ReportedActive(sel.value.styles, key)
    else TextOf(selected).Some? && SomeSpanHas(TextOf(selected).value, key)
  }

  /** With the selection the text layer reports, a style shows as active
    * exactly when some selected character has it. */
  lemma SelectedStyleActive(sel: Option<SelectionState>, selected: Option<Layer>, t: TextProps, range: Range,
                            key: StyleKey)
    requires sel.Some? && sel.value.hasSelection && sel.value.styles == SelectionStyles(t, range)
    ensures var w := Window(Chars(t.spans), range);
      StyleActive(sel, selected, key) <==> exists k | 0 <= k < |w| :: IsOn(w[k].1, key)
  {
    StyleStateChars(t.spans, range, key);
    ReportedToggle(t, range, key);
    ToggleActive(Window(Chars(t.spans), range), key);
  }

  /** The report reads as active exactly when the style's state is on or mixed. */
  lemma ReportedToggle(t: TextProps, range: Range, key: StyleKey)
    ensures var state := StyleStateForRange(t.spans, range, key);
      ReportedActive(SelectionStyles(t, range), key) <==> state == Flag(true) || state == Mixed
  {
  }

  /** A style is on or mixed over some characters exactly when one has it. */
  lemma ToggleActive(w: seq<StyledChar>, key: StyleKey)
    ensures var state := CharsToggle(w, key);
      state == Flag(true) || state == Mixed <==> exists k | 0 <= k < |w| :: IsOn(w[k].1, key)
  {
    if w != [] && forall k | 0 <= k < |w| :: IsOn(w[k].1, key) {
      assert IsOn(w[0].1, key);
    }
  }

  /** Without a selection, a style shows as active exactly when some span of
    * the selected text layer has it; the written and corrected tests agree. */
  lemma UnselectedStyleActive(sel: Option<SelectionState>, selected: Option<Layer>, key: StyleKey)
    requires !(sel.Some? && sel.value.hasSelection)
    ensures StyleActiveAsWritten(sel, selected, key) == StyleActive(sel, selected, key)
    ensures StyleActive(sel, selected, key) <==>
      selected.Some? && selected.value.content.Text? && SomeSpanHas(selected.value.content.text, key)
  {
  }

  /** The written test agrees with the corrected one on underline and
    * strikethrough. */
  lemma WrittenFlagsAgree(sel: Option<SelectionState>, selected: Option<Layer>, key: StyleKey)
    requires key == UnderlineKey || key == StrikethroughKey
    ensures StyleActiveAsWritten(sel, selected, key) == StyleActive(sel, selected, key)
  {
  }

  /** As written, a selection whose characters are all superscript (or all
    * upper case) shows the script (or case) toggle as inactive. */
  lemma WrittenMissesUniformStyle(sel: Option<SelectionState>, selected: Option<Layer>, t: TextProps, range: Range,
                                  key: StyleKey)
    requires key == ScriptKey || key == TransformKey
    requires sel.Some? && sel.value.hasSelection && sel.value.styles == SelectionStyles(t, range)
    requires var w := Window(Chars(t.spans), range);
      w != [] && forall k | 0 <= k < |w| :: IsOn(w[k].1, key)
    ensures !StyleActiveAsWritten(sel, selected, key)
    ensures StyleActive(sel, selected, key)
  {
    StyleStateChars(t.spans, range, key);
    SelectedStyleActive(sel, selected, t, range, key);
  }

  // --------------------------------------------------------------- text colour

  /** The colour picker's value and whether it shows "mixed". */
  datatype ColorShown = ColorShown(color: string, mixed: bool)

  /** `span.color || layer.color` */
  function SpanColor(sp: TextSpan, t: TextProps): string {
    if sp.style.color.Some? && sp.style.color.value != "" then sp.style.color.value else t.color
  }

  /** The colour shown with no selection: the colour every non-empty span
    * shares, and mixed (showing the layer colour) when they differ. */
  function SpansColor(t: TextProps): ColorShown {
    var withText := NonEmpty(t.spans);
    if withText == [] then ColorShown(t.color, false)
    else
      var first := SpanColor(withText[0], t);
      if forall i | 0 <= i < |withText| :: SpanColor(withText[i], t) == first then ColorShown(first, false)
      else ColorShown(t.color, true)
  }

  /** The selection belongs to the text layer `id` and has a range. */
  predicate SelectionOn(sel: Option<SelectionState>, id: string) {
    sel.Some? && sel.value.hasSelection && sel.value.layerId == id
  }

  /** The colour display as written: `'mixed'` is a string, so the
    * `typeof selectionColor === 'string'` test takes it as a colour. */
  function ColorDisplayAsWritten(sel: Option<SelectionState>, id: string, t: TextProps): ColorShown {
    if SelectionOn(sel, id) then
      match sel.value.styles.color
      case Some(Is(c)) => ColorShown(c, false)
      case Some(MixedProp) => ColorShown("mixed", false)
      case None => ColorShown(t.color, true)
    else SpansColor(t)
  }

  /** The colour display with `'mixed'` tested before the string test. */
  function ColorDisplay(sel: Option<SelectionState>, id: string, t: TextProps): ColorShown {
    if SelectionOn(sel, id) then
      match sel.value.styles.color
      case Some(Is(c)) => ColorShown(c, false)
      case Some(MixedProp) => ColorShown(t.color, true)
      case None => ColorShown(t.color, true)
    else SpansColor(t)
  }

  lemma {:induction false} NonEmptyMembers(spans: seq<TextSpan>)
    ensures forall sp :: sp in NonEmpty(spans) <==> sp in spans && sp.text != ""
  {
    if spans != [] {
      NonEmptyMembers(spans[1..]);
      assert forall sp :: sp in spans <==> sp == spans[0] || sp in spans[1..];
    }
  }

  /** With no selection, the colour is mixed exactly when two non-empty spans
    * differ in colour; otherwise it is the colour of every non-empty span (the
    * layer colour when there is none). */
  lemma SpansColorMeaning(t: TextProps)
    ensures var r := SpansColor(t);
      (r.mixed <==> exists a, b :: a in t.spans && b in t.spans && a.text != "" && b.text != "" &&
                                   SpanColor(a, t) != SpanColor(b, t)) &&
      (!r.mixed ==> forall a :: a in t.spans && a.text != "" ==> SpanColor(a, t) == r.color) &&
      ((forall a :: a in t.spans ==> a.text == "") ==> r == ColorShown(t.color, false))
  {
    var withText := NonEmpty(t.spans);
    NonEmptyMembers(t.spans);
    assert forall a :: a in withText <==> exists i :: 0 <= i < |withText| && withText[i] == a;
    if withText != [] {
      assert withText[0] in withText;
      var first := SpanColor(withText[0], t);
      if !(forall i | 0 <= i < |withText| :: SpanColor(withText[i], t) == first) {
        var i :| 0 <= i < |withText| && SpanColor(withText[i], t) != first;
        assert withText[i] in withText;
      }
    }
  }

  /** With the selection the text layer reports over selected characters, the
    * corrected display is mixed exactly when those characters differ in
    * colour, and otherwise shows their common colour. */
  lemma SelectedColorShown(sel: Option<SelectionState>, id: string, t: TextProps, range: Range)
    requires SelectionOn(sel, id) && sel.value.styles == SelectionStyles(t, range)
    requires Window(Chars(t.spans), range) != []
    ensures var w := Window(Chars(t.spans), range);
      var r := ColorDisplay(sel, id, t);
      (r.mixed <==> exists k | 0 <= k < |w| :: PropOf(w[k].1, t, ColorKey) != PropOf(w[0].1, t, ColorKey)) &&
      (!r.mixed ==> r.color == w[0].1.color.GetOr(t.color))
  {
    PropertyStateChars(t, range, ColorKey);
  }

  /** As written, a selection whose characters differ in colour shows the word
    * "mixed" as the colour and does not show it as mixed. */
  lemma WrittenShowsMixedAsColor(sel: Option<SelectionState>, id: string, t: TextProps, range: Range)
    requires SelectionOn(sel, id) && sel.value.styles == SelectionStyles(t, range)
    requires var w := Window(Chars(t.spans), range);
      exists k | 0 <= k < |w| :: PropOf(w[k].1, t, ColorKey) != PropOf(w[0].1, t, ColorKey)
    ensures ColorDisplayAsWritten(sel, id, t) == ColorShown("mixed", false)
    ensures ColorDisplay(sel, id, t) == ColorShown(t.color, true)
  {
    PropertyStateChars(t, range, ColorKey);
  }

  // -------------------------------------------------------------------- strokes

  /** Text and shape layers carry strokes. */
  predicate Stroked(l: Layer) { l.content.Text? || l.content.Shape? }

  function StrokesOf(l: Layer): Option<seq<Stroke>> {
    match l.content
    case Text(t) => t.strokes
    case Shape(s) => s.strokes
    case _ => None
  }

  /** `handleAddStroke`: the strokes it sends, if any: a white stroke 5 wide
    * in front of the layer's strokes. `newId` stands for `stroke-${Date.now()}`. */
  function AddStroke(selected: Option<Layer>, newId: string): (r: Option<seq<Stroke>>)
    ensures r.Some? <==> selected.Some? && Stroked(selected.value)
    ensures r.Some? ==>
      var before := StrokesOf(selected.value).GetOr([]);
      |r.value| == |before| + 1 && r.value[0] == Stroke(newId, "#FFFFFF", 5.0) && r.value[1..] == before
  {
    if selected.Some? && Stroked(selected.value) then
      Some([Stroke(newId, "#FFFFFF", 5.0)] + StrokesOf(selected.value).GetOr([]))
    else None
  }

  /** `Partial<StrokeStyle>`: the fields an update sets. */
  datatype StrokePatch = StrokePatch(id: Option<string>, color: Option<string>, width: Option<real>)

  /** `{ ...s, ...updates }` */
  function Patched(s: Stroke, u: StrokePatch): Stroke {
    Stroke(u.id.GetOr(s.id), u.color.GetOr(s.color), u.width.GetOr(s.width))
  }

  /** `strokes.map(s => s.id === id ? { ...s, ...updates } : s)` */
  function UpdateWhere(strokes: seq<Stroke>, id: string, u: StrokePatch): (r: seq<Stroke>)
    ensures |r| == |strokes|
    ensures forall i :: 0 <= i < |strokes| ==>
      r[i] == if strokes[i].id == id then Patched(strokes[i], u) else strokes[i]
  {
    if strokes == [] then []
    else [if strokes[0].id == id then Patched(strokes[0], u) else strokes[0]] + UpdateWhere(strokes[1..], id, u)
  }

  /** `strokes.filter(s => s.id !== id)` */
  function DeleteWhere(strokes: seq<Stroke>, id: string): (r: seq<Stroke>)
    ensures |r| <= |strokes|
    ensures forall s :: s in r <==> s in strokes && s.id != id
  {
    if strokes == [] then []
    else (if strokes[0].id != id then [strokes[0]] else []) + DeleteWhere(strokes[1..], id)
  }

  /** The filter keeps the surviving strokes in their order and with their
    * repeats: it distributes over concatenation and keeps or drops each one. */
  lemma {:induction false} DeleteKeepsOrder(a: seq<Stroke>, b: seq<Stroke>, id: string)
    ensures DeleteWhere(a + b, id) == DeleteWhere(a, id) + DeleteWhere(b, id)
  {
    if a == [] {
      assert a + b == b;
    } else {
      assert (a + b)[0] == a[0] && (a + b)[1..] == a[1..] + b;
      DeleteKeepsOrder(a[1..], b, id);
      var h := if a[0].id != id then [a[0]] else [];
      assert DeleteWhere(a + b, id) == h + DeleteWhere(a[1..] + b, id);
      assert h + (DeleteWhere(a[1..], id) + DeleteWhere(b, id)) == (h + DeleteWhere(a[1..], id)) + DeleteWhere(b, id);
    }
  }

  /** `handleUpdateStroke`: nothing unless a text or shape layer with strokes
    * is selected. */
  function UpdateStroke(selected: Option<Layer>, id: string, u: StrokePatch): (r: Option<seq<Stroke>>)
    ensures r.Some? <==> selected.Some? && Stroked(selected.value) && StrokesOf(selected.value).Some?
    ensures r.Some? ==>
      var before := StrokesOf(selected.value).value;
      |r.value| == |before| &&
      forall i :: 0 <= i < |before| ==> r.value[i] == if before[i].id == id then Patched(before[i], u) else before[i]
  {
    if selected.Some? && Stroked(selected.value) && StrokesOf(selected.value).Some? then
      Some(UpdateWhere(StrokesOf(selected.value).value, id, u))
    else None
  }

  /** `handleDeleteStroke`: nothing unless a text or shape layer with strokes
    * is selected. */
  function DeleteStroke(selected: Option<Layer>, id: string): (r: Option<seq<Stroke>>)
    ensures r.Some? <==> selected.Some? && Stroked(selected.value) && StrokesOf(selected.value).Some?
    ensures r.Some? ==>
      var before := StrokesOf(selected.value).value;
      |r.value| <= |before| && forall s :: s in r.value <==> s in before && s.id != id
  {
    if selected.Some? && Stroked(selected.value) && StrokesOf(selected.value).Some? then
      Some(DeleteWhere(StrokesOf(selected.value).value, id))
    else None
  }

  /** Deleting the stroke just added, under an id no stroke had, gives back the
    * strokes the layer had. */
  lemma {:induction false} DeleteUndoesAdd(before: seq<Stroke>, newId: string)
    requires forall s :: s in before ==> s.id != newId
    ensures DeleteWhere([Stroke(newId, "#FFFFFF", 5.0)] + before, newId) == before
  {
    var added := [Stroke(newId, "#FFFFFF", 5.0)] + before;
    assert added[1..] == before;
    DeleteAbsent(before, newId);
  }

  /** Deleting an id no stroke has changes nothing. */
  lemma {:induction false} DeleteAbsent(strokes: seq<Stroke>, id: string)
    requires forall s :: s in strokes ==> s.id != id
    ensures DeleteWhere(strokes, id) == strokes
  {
    if strokes != [] {
      assert strokes[0] in strokes;
      assert forall s :: s in strokes[1..] ==> s in strokes;
      DeleteAbsent(strokes[1..], id);
    }
  }

  /** Deleting twice is deleting once. */
  lemma {:induction false} DeleteIdempotent(strokes: seq<Stroke>, id: string)
    ensures DeleteWhere(DeleteWhere(strokes, id), id) == DeleteWhere(strokes, id)
  {
    DeleteAbsent(DeleteWhere(strokes, id), id);
  }

  /** Two updates of one stroke that keep its id are one update with the later
    * fields winning. */
  lemma UpdatesCompose(strokes: seq<Stroke>, id: string, u1: StrokePatch, u2: StrokePatch)
    requires u1.id.None?
    ensures UpdateWhere(UpdateWhere(strokes, id, u1), id, u2) ==
      UpdateWhere(strokes, id, StrokePatch(u2.id, OrElse(u2.color, u1.color), OrElse(u2.width, u1.width)))
  {
    var once := UpdateWhere(strokes, id, u1);
    var twice := UpdateWhere(once, id, u2);
    var merged := UpdateWhere(strokes, id, StrokePatch(u2.id, OrElse(u2.color, u1.color), OrElse(u2.width, u1.width)));
    assert forall i :: 0 <= i < |strokes| ==> twice[i] == merged[i];
  }

  /** An update that sets nothing, or names an id no stroke has, changes
    * nothing. */
  lemma UpdateNoOp(strokes: seq<Stroke>, id: string, u: StrokePatch)
    requires u == StrokePatch(None, None, None) || forall s :: s in strokes ==> s.id != id
    ensures UpdateWhere(strokes, id, u) == strokes
  {
    var r := UpdateWhere(strokes, id, u);
    forall i | 0 <= i < |strokes| ensures r[i] == strokes[i] {
      assert strokes[i] in strokes;
    }
  }

  // --------------------------------------------------------------- open panel

  datatype PanelKey =
    | ArtboardPanel | PropertiesPanel | TextStylesPanel | ShapeStylesPanel
    | EffectsPanel | TypographyPanel | StrokesPanel | GuidesPanel

  /** `panelsConfig.filter(p => p.condition).map(p => p.key)`, in the panels'
    * order. */
  function AvailablePanels(activeArtboard: bool, selected: Option<Layer>, selectedCount: nat): seq<PanelKey> {
    var text := selected.Some? && selected.value.content.Text?;
    var shape := selected.Some? && selected.value.content.Shape?;
    (if activeArtboard && selectedCount == 0 then [ArtboardPanel] else []) +
    (if selected.Some? then [PropertiesPanel] else []) +
    (if text then [TextStylesPanel] else []) +
    (if shape then [ShapeStylesPanel] else []) +
    (if selected.Some? then [EffectsPanel] else []) +
    (if text then [TypographyPanel] else []) +
    (if text || shape then [StrokesPanel] else []) +
    (if activeArtboard then [GuidesPanel] else [])
  }

  /** The panel the effect leaves open: the open one while it is still
    * available; else the artboard panel when nothing is selected, typography
    * for a text layer, properties for any other layer, and none otherwise. */
  function DefaultPanel(open: Option<PanelKey>, activeArtboard: bool, selected: Option<Layer>,
                        selectedCount: nat): (r: Option<PanelKey>)
    ensures var available := AvailablePanels(activeArtboard, selected, selectedCount);
      r.Some? ==> r.value in available
    ensures var available := AvailablePanels(activeArtboard, selected, selectedCount);
      open.Some? && open.value in available ==> r == open
    ensures r.None? <==>
      !(open.Some? && open.value in AvailablePanels(activeArtboard, selected, selectedCount)) &&
      !(selectedCount == 0 && activeArtboard) && selected.None?
  {
    var available := AvailablePanels(activeArtboard, selected, selectedCount);
    if open.Some? && open.value in available then open
    else if selectedCount == 0 && activeArtboard then Some(ArtboardPanel)
    else if selected.Some? then
      if selected.value.content.Text? then Some(TypographyPanel) else Some(PropertiesPanel)
    else None
  }

  /** The effect settles at once: running it again on its choice keeps it. */
  lemma DefaultPanelSettles(open: Option<PanelKey>, activeArtboard: bool, selected: Option<Layer>, selectedCount: nat)
    ensures var r := DefaultPanel(open, activeArtboard, selected, selectedCount);
      DefaultPanel(r, activeArtboard, selected, selectedCount) == r
  {
  }

  /** With a panel that is no longer available, a single text layer opens
    * typography and any other single layer opens properties. */
  lemma DefaultPanelForLayer(open: Option<PanelKey>, activeArtboard: bool, l: Layer)
    requires !(open.Some? && open.value in AvailablePanels(activeArtboard, Some(l), 1))
    ensures DefaultPanel(open, activeArtboard, Some(l), 1) ==
      if l.content.Text? then Some(TypographyPanel) else Some(PropertiesPanel)
  {
  }
}
