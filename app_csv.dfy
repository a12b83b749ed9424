// Generating artboards from CSV rows: each row fills a copy of a template
// artboard, its cells showing, hiding or refilling the layers whose `dataId`
// names a column, and each `<dataId>_split_<n>` column adding a copy of that
// text layer below the original.
module AppCsv {
  import opened Wrappers
  import opened Types
  import opened Strings
  import opened TextSpans
  import opened TextLayout
  import AppLayers
  import CsvEditor

  /** A parsed CSV row, from column name to cell text. */
  type Row = map<string, string>

  // ------------------------------------------------------------ cell values

  /** What a cell does to its layer. */
  datatype CellRule = Show | Hide | Fill(value: string)

  /** The trimmed cell: `TRUE` in any case shows the layer, `FALSE` in any
    * case or nothing hides it, anything else shows it with that content. */
  function Classify(cell: string): (r: CellRule)
    ensures r.Fill? ==> r.value == Trim(cell) && r.value != ""
  {
    var value := Trim(cell);
    var upper := ToUpper(value);
    if upper == "TRUE" then Show
    else if upper == "FALSE" || value == "" then Hide
    else Fill(value)
  }

  /** Surrounding white space never changes what a cell does. */
  lemma ClassifyIgnoresPadding(cell: string)
    ensures Classify(Trim(cell)) == Classify(cell)
  {
    TrimIdempotent(cell);
  }

  /** Nor does letter case change whether it shows or hides its layer. */
  lemma ClassifyIgnoresCase(cell: string)
    ensures Classify(ToUpper(cell)).Show? == Classify(cell).Show?
    ensures Classify(ToUpper(cell)).Hide? == Classify(cell).Hide?
  {
    var v := Trim(cell);
    TrimUpper(cell);
    ToUpperIdempotent(v);
    assert |ToUpper(v)| == |v|;
    ClassifyByUpper(ToUpper(cell), cell);
  }

  /** Two cells that trim to the same upper-case text, and are blank together,
    * show or hide alike. */
  lemma ClassifyByUpper(a: string, b: string)
    requires ToUpper(Trim(a)) == ToUpper(Trim(b))
    requires (Trim(a) == "") == (Trim(b) == "")
    ensures Classify(a).Show? == Classify(b).Show?
    ensures Classify(a).Hide? == Classify(b).Hide?
  {
    ClassifyByCases(a);
    ClassifyByCases(b);
  }

  /** Which rule a cell gets, read off its trimmed upper-case text. */
  lemma ClassifyByCases(cell: string)
    ensures var u := ToUpper(Trim(cell));
      && (Classify(cell).Show? <==> u == "TRUE")
      && (Classify(cell).Hide? <==> u != "TRUE" && (u == "FALSE" || Trim(cell) == ""))
  {
    var value := Trim(cell);
    var upper := ToUpper(value);
    assert Classify(cell) == if upper == "TRUE" then Show else if upper == "FALSE" || value == "" then Hide else Fill(value);
  }

  /** Upper-casing maps white space to white space and nothing else to it. */
  lemma UpperKeepsWhiteSpace(c: char)
    ensures IsWhiteSpace(UpperChar(c)) == IsWhiteSpace(c)
  {
  }

  lemma {:induction false} TrimStartUpper(s: string)
    ensures TrimStart(ToUpper(s)) == ToUpper(TrimStart(s))
  {
    if s != [] {
      UpperKeepsWhiteSpace(s[0]);
      assert ToUpper(s)[1..] == ToUpper(s[1..]);
      if IsWhiteSpace(s[0]) {
        TrimStartUpper(s[1..]);
      }
    }
  }

  lemma {:induction false} TrimEndUpper(s: string)
    ensures TrimEnd(ToUpper(s)) == ToUpper(TrimEnd(s))
  {
    if s != [] {
      UpperKeepsWhiteSpace(s[|s| - 1]);
      assert ToUpper(s)[..|s| - 1] == ToUpper(s[..|s| - 1]);
      if IsWhiteSpace(s[|s| - 1]) {
        TrimEndUpper(s[..|s| - 1]);
      }
    }
  }

  /** Trimming and upper-casing commute. */
  lemma TrimUpper(s: string)
    ensures Trim(ToUpper(s)) == ToUpper(Trim(s))
  {
    TrimStartUpper(s);
    TrimEndUpper(TrimStart(s));
  }

  // ------------------------------------------------------------ text styles

  /** `textStyles.find(s => s.id === id)`. */
  function FindStyle(styles: seq<TextStyle>, id: string): (r: Option<TextStyle>)
    ensures r.Some? ==> r.value in styles && r.value.id == id
    ensures r.None? <==> forall i :: 0 <= i < |styles| ==> styles[i].id != id
  {
    if styles == [] then None
    else if styles[0].id == id then Some(styles[0])
    else
      var r := FindStyle(styles[1..], id);
      assert forall i :: 1 <= i < |styles| ==> styles[i] == styles[1..][i - 1];
      r
  }

  /** `{...textLayer, ...styleProps}`: every property of the style but its id
    * and name. */
  function WithStyle(t: TextProps, s: TextStyle): TextProps {
    t.(fontFamily := s.fontFamily, fontWeight := s.fontWeight, fontSize := s.fontSize,
       textAlign := s.textAlign, color := s.color, strokes := s.strokes,
       underline := s.underline, strikethrough := s.strikethrough,
       textScript := s.textScript, textTransform := s.textTransform)
  }

  /** `styleMappings[column]` is a non-empty style id. */
  predicate Mapped(mappings: map<string, string>, column: string) {
    column in mappings && mappings[column] != ""
  }

  /** New text for a text layer: with a mapped style that exists, the style's
    * properties and one unstyled span; with a mapped style that does not exist,
    * nothing; without a mapping, one span in the first span's style. */
  function Refilled(t: TextProps, value: string, mappings: map<string, string>, column: string,
                    styles: seq<TextStyle>): TextProps
  {
    if Mapped(mappings, column) then
      var st := FindStyle(styles, mappings[column]);
      if st.Some? then WithStyle(t, st.value).(spans := [TextSpan(value, NoStyle)]) else t
    else t.(spans := [TextSpan(value, if t.spans != [] then t.spans[0].style else NoStyle)])
  }

  /** Unless the mapped style is missing, the layer's text becomes the value,
    * one span long; the style's properties replace the layer's when it is
    * found, and without a mapping the first span's style is kept and nothing
    * else changes. */
  lemma RefilledText(t: TextProps, value: string, mappings: map<string, string>, column: string,
                     styles: seq<TextStyle>)
    ensures var r := Refilled(t, value, mappings, column, styles);
      var st := if Mapped(mappings, column) then FindStyle(styles, mappings[column]) else None;
      (Mapped(mappings, column) && st.None? ==> r == t) &&
      (!(Mapped(mappings, column) && st.None?) ==> PlainText(r.spans) == value && |r.spans| == 1) &&
      (st.Some? ==>
         r.fontFamily == st.value.fontFamily && r.fontSize == st.value.fontSize &&
         r.fontWeight == st.value.fontWeight && r.color == st.value.color && r.textAlign == st.value.textAlign &&
         r.spans[0].style == NoStyle) &&
      (!Mapped(mappings, column) ==>
         r.(spans := t.spans) == t && (t.spans != [] ==> r.spans[0].style == t.spans[0].style))
  {
    var r := Refilled(t, value, mappings, column, styles);
    if !(Mapped(mappings, column) && FindStyle(styles, mappings[column]).None?) {
      assert PlainText(r.spans) == r.spans[0].text + PlainText([]);
    }
  }

  /** `(spansVersion || 0) + 1` */
  function NextVersion(v: Option<int>): int {
    (if v.Some? && v.value != 0 then v.value else 0) + 1
  }

  // ------------------------------------------------------------- first pass

  /** How far the re-measured box moves along x to keep its anchor: the right
    * edge for right alignment, the left edge for left, else the centre. */
  function AnchorShift(align: Option<Align>, widthDifference: real): real {
    if align == Some(AlignRight) then widthDifference
    else if align == Some(AlignLeft) then 0.0
    else widthDifference / 2.0
  }

  /** The refilled text layer, re-measured and re-centred on its old box. */
  function FillText(l: Layer, value: string, column: string, mappings: map<string, string>,
                    styles: seq<TextStyle>, canvasAvailable: bool, measure: (Font, string) -> real): (r: Layer)
    requires l.IsText()
    ensures r.IsText()
  {
    var t := Refilled(l.content.text, value, mappings, column, styles);
    var filled := l.(visible := Some(true), content := Text(t.(spansVersion := Some(NextVersion(t.spansVersion)))));
    var size := TextSize(filled, canvasAvailable, measure);
    filled.(width := size.width, height := size.height,
            y := l.y + (l.height - size.height) / 2.0,
            x := l.x + AnchorShift(t.textAlign, l.width - size.width))
  }

  /** One layer under one row: untouched unless its `dataId` names a column. */
  function ApplyRow(l: Layer, row: Row, mappings: map<string, string>, styles: seq<TextStyle>,
                    canvasAvailable: bool, measure: (Font, string) -> real): Layer
  {
    if l.dataId.Some? && l.dataId.value != "" && l.dataId.value in row then
      var column := l.dataId.value;
      match Classify(row[column])
      case Show => l.(visible := Some(true))
      case Hide => l.(visible := Some(false))
      case Fill(value) =>
        if l.IsText() then FillText(l, value, column, mappings, styles, canvasAvailable, measure)
        else if l.content.Image? then l.(visible := Some(true), content := Image(value))
        else l.(visible := Some(true))
    else l
  }

  /** A layer whose `dataId` names no column is left as it is; otherwise it is
    * shown unless its cell is `FALSE` or blank, it keeps its identity, z-order,
    * rotation and lock, an image takes the cell as its source, and a text
    * layer re-measured to a new box keeps the box's vertical centre and its
    * anchor: the right edge for right-aligned text, the left edge for
    * left-aligned, else the horizontal centre. */
  lemma ApplyRowFacts(l: Layer, row: Row, mappings: map<string, string>, styles: seq<TextStyle>,
                      canvasAvailable: bool, measure: (Font, string) -> real)
    ensures var r := ApplyRow(l, row, mappings, styles, canvasAvailable, measure);
      var named := l.dataId.Some? && l.dataId.value != "" && l.dataId.value in row;
      (!named ==> r == l) &&
      (named ==>
        var rule := Classify(row[l.dataId.value]);
        r.id == l.id && r.dataId == l.dataId && r.zIndex == l.zIndex && r.rotation == l.rotation &&
        r.locked == l.locked && r.content.Text? == l.content.Text? && r.content.Image? == l.content.Image? &&
        r.visible == Some(!rule.Hide?) &&
        (!(rule.Fill? && l.IsText()) ==> r.x == l.x && r.y == l.y && r.width == l.width && r.height == l.height) &&
        (rule.Fill? && l.content.Image? ==> r.content.src == rule.value) &&
        (rule.Fill? && l.IsText() ==>
          var align := r.content.text.textAlign;
          r.y + r.height / 2.0 == l.y + l.height / 2.0 &&
          (align == Some(AlignRight) ==> r.x + r.width == l.x + l.width) &&
          (align == Some(AlignLeft) ==> r.x == l.x) &&
          (align != Some(AlignRight) && align != Some(AlignLeft) ==> r.x + r.width / 2.0 == l.x + l.width / 2.0)))
  {
    if l.dataId.Some? && l.dataId.value != "" && l.dataId.value in row {
      var column := l.dataId.value;
      var rule := Classify(row[column]);
      var r := ApplyRow(l, row, mappings, styles, canvasAvailable, measure);
      if rule.Fill? && l.IsText() {
        assert r == FillText(l, rule.value, column, mappings, styles, canvasAvailable, measure);
        FillTextFacts(l, rule.value, column, mappings, styles, canvasAvailable, measure);
      }
    }
  }

  /** The refilled text layer keeps the old box's vertical centre and its anchor. */
  lemma FillTextFacts(l: Layer, value: string, column: string, mappings: map<string, string>,
                      styles: seq<TextStyle>, canvasAvailable: bool, measure: (Font, string) -> real)
    requires l.IsText()
    ensures var r := FillText(l, value, column, mappings, styles, canvasAvailable, measure);
      var align := r.content.text.textAlign;
      r.id == l.id && r.dataId == l.dataId && r.zIndex == l.zIndex && r.rotation == l.rotation &&
      r.locked == l.locked && r.visible == Some(true) &&
      r.y + r.height / 2.0 == l.y + l.height / 2.0 &&
      (align == Some(AlignRight) ==> r.x + r.width == l.x + l.width) &&
      (align == Some(AlignLeft) ==> r.x == l.x) &&
      (align != Some(AlignRight) && align != Some(AlignLeft) ==> r.x + r.width / 2.0 == l.x + l.width / 2.0)
  {
    var t := Refilled(l.content.text, value, mappings, column, styles);
    var filled := l.(visible := Some(true), content := Text(t.(spansVersion := Some(NextVersion(t.spansVersion)))));
    var size := TextSize(filled, canvasAvailable, measure);
    var r := FillText(l, value, column, mappings, styles, canvasAvailable, measure);
    assert r.content.text.textAlign == t.textAlign;
    assert r.width == size.width && r.height == size.height;
    assert r.x == l.x + AnchorShift(t.textAlign, l.width - size.width);
  }

  /** A refilled text layer shows the cell's trimmed text, unless the column
    * is mapped to a style that does not exist. */
  lemma FilledTextIsCell(l: Layer, row: Row, mappings: map<string, string>, styles: seq<TextStyle>,
                         canvasAvailable: bool, measure: (Font, string) -> real)
    requires l.IsText() && l.dataId.Some? && l.dataId.value != "" && l.dataId.value in row
    requires Classify(row[l.dataId.value]).Fill?
    requires !Mapped(mappings, l.dataId.value) || FindStyle(styles, mappings[l.dataId.value]).Some?
    ensures var r := ApplyRow(l, row, mappings, styles, canvasAvailable, measure);
      r.IsText() && PlainText(r.content.text.spans) == Trim(row[l.dataId.value])
  {
    var column := l.dataId.value;
    var value := Classify(row[column]).value;
    RefilledText(l.content.text, value, mappings, column, styles);
    var r := ApplyRow(l, row, mappings, styles, canvasAvailable, measure);
    assert r == FillText(l, value, column, mappings, styles, canvasAvailable, measure);
    assert r.content.text.spans == Refilled(l.content.text, value, mappings, column, styles).spans;
  }

  // ------------------------------------------------------------ second pass

  const SplitInfix := "_split_"

  /** `columnName.match(/^(.*)_split_(\d+)$/)`, group 1: the column a split
    * column was cut from. The trailing digits are the whole trailing digit run,
    * since the `_` before them is no digit. */
  function SplitOrigin(column: string): (r: Option<string>)
    ensures r.Some? ==> exists d :: (d != [] && AllDigits(d) && column == r.value + SplitInfix + d &&
      forall i :: 0 <= i < |r.value| ==> !IsLineTerminator(r.value[i]))
  {
    var k := AppLayers.DigitRunStart(column);
    if k < |column| && k >= |SplitInfix| && column[k - |SplitInfix|..k] == SplitInfix &&
       forall i :: 0 <= i < k - |SplitInfix| ==> !IsLineTerminator(column[i])
    then
      var p := column[..k - |SplitInfix|];
      assert column == p + SplitInfix + column[k..];
      assert forall i :: 0 <= i < |p| ==> p[i] == column[i];
      Some(p)
    else None
  }

  /** Conversely every `<name>_split_<digits>` with no line break in the name
    * is a split column of `name`. */
  lemma SplitOriginComplete(name: string, d: string)
    requires d != [] && AllDigits(d)
    requires forall i :: 0 <= i < |name| ==> !IsLineTerminator(name[i])
    ensures SplitOrigin(name + SplitInfix + d) == Some(name)
  {
    var prefix := name + SplitInfix;
    var column := prefix + d;
    assert prefix[|prefix| - 1] == '_';
    AppLayers.DigitRunOfNumbered(prefix, d);
    assert column[..|name|] == name;
    assert column[|name|..|prefix|] == SplitInfix;
    assert forall i :: 0 <= i < |name| ==> column[i] == name[i];
  }

  /** The column the data editor's split creates from `header` is read back as
    * a split of `header`. */
  lemma EditorSplitRecognised(header: string, n: nat)
    requires forall i :: 0 <= i < |header| ==> !IsLineTerminator(header[i])
    ensures SplitOrigin(Numbered(CsvEditor.SplitPrefix(header), n)) == Some(header)
  {
    SplitOriginComplete(header, NatToString(n));
    assert Numbered(CsvEditor.SplitPrefix(header), n) == header + SplitInfix + NatToString(n);
  }

  /** `layers.find(l => l.dataId === dataId)`. */
  function FindByDataId(layers: seq<Layer>, dataId: string): (r: Option<Layer>)
    ensures r.Some? ==> r.value in layers && r.value.dataId == Some(dataId)
    ensures r.None? <==> forall i :: 0 <= i < |layers| ==> layers[i].dataId != Some(dataId)
  {
    if layers == [] then None
    else if layers[0].dataId == Some(dataId) then Some(layers[0])
    else
      var r := FindByDataId(layers[1..], dataId);
      assert forall i :: 1 <= i < |layers| ==> layers[i] == layers[1..][i - 1];
      r
  }

  /** `text-split-${Date.now()}-${index}-${columnName}`, the clock reading given. */
  function SplitLayerId(stamp: string, index: nat, column: string): string {
    "text-split-" + stamp + "-" + NatToString(index) + "-" + column
  }

  /** Where the split layer's left edge goes: under the original, flush with
    * its right edge, its left edge, or centred on it. */
  function UnderX(orig: Layer, width: real): real
    requires orig.IsText()
  {
    var align := orig.content.text.textAlign;
    if align == Some(AlignRight) then orig.x + orig.width - width
    else if align == Some(AlignLeft) then orig.x
    else orig.x + orig.width / 2.0 - width / 2.0
  }

  /** What the split pass reads besides the layers: the row, the style
    * mappings and styles, the measuring context, the clock reading and the
    * row's index. */
  datatype Job = Job(row: Row, mappings: map<string, string>, styles: seq<TextStyle>,
                     canvasAvailable: bool, measure: (Font, string) -> real, stamp: string, index: nat)

  /** The layer a split column adds, at z `z`: a copy of the text layer whose
    * `dataId` is the origin, refilled with the raw cell, re-measured and put
    * right under the original. None when the column is no split column or no
    * text layer carries its origin. */
  function SplitLayerFor(layers: seq<Layer>, column: string, job: Job, z: int): (r: Option<Layer>)
    requires column in job.row
  {
    var origin := SplitOrigin(column);
    if origin.None? then None
    else
      var orig := FindByDataId(layers, origin.value);
      if orig.None? || !orig.value.IsText() then None
      else Some(SplitCopy(orig.value, column, job, z))
  }

  /** The copy of text layer `o` for split column `column`, at z `z`. */
  function SplitCopy(o: Layer, column: string, job: Job, z: int): (r: Layer)
    requires o.IsText() && column in job.row
    ensures r.IsText() && r.dataId == Some(column) && r.zIndex == z
    ensures r.y == o.y + o.height && r.rotation == o.rotation
  {
    var t := Refilled(o.content.text.(spansVersion := Some(1)), job.row[column], job.mappings, column, job.styles);
    var copy := o.(id := SplitLayerId(job.stamp, job.index, column), dataId := Some(column), zIndex := z,
                   content := Text(t));
    var size := TextSize(copy, job.canvasAvailable, job.measure);
    copy.(width := size.width, height := size.height, y := o.y + o.height, x := UnderX(o, size.width))
  }

  /** `l` is a text layer split off a text layer of `layers`: its `dataId` is
    * a split column of that layer's `dataId`, and it sits right under it with
    * the same rotation. */
  ghost predicate SplitOf(layers: seq<Layer>, l: Layer) {
    l.IsText() && l.dataId.Some? && SplitOrigin(l.dataId.value).Some? &&
    exists o :: o in layers && o.IsText() && o.dataId == SplitOrigin(l.dataId.value) &&
      l.y == o.y + o.height && l.rotation == o.rotation
  }

  /** A split column adds a split-off layer carrying its name, at the given z;
    * and it adds one exactly when it is a split column whose origin the first
    * layer carrying it as `dataId` is a text layer. */
  lemma SplitLayerForFacts(layers: seq<Layer>, column: string, job: Job, z: int)
    requires column in job.row
    ensures var r := SplitLayerFor(layers, column, job, z);
      (r.Some? <==>
         SplitOrigin(column).Some? && FindByDataId(layers, SplitOrigin(column).value).Some? &&
         FindByDataId(layers, SplitOrigin(column).value).value.IsText()) &&
      (r.Some? ==> SplitOf(layers, r.value) && r.value.dataId == Some(column) && r.value.zIndex == z)
  {
    var r := SplitLayerFor(layers, column, job, z);
    if r.Some? {
      var o := FindByDataId(layers, SplitOrigin(column).value).value;
      assert o in layers && o.dataId == SplitOrigin(column);
    }
  }

  /** Every column names a cell of the row (`Object.keys(row)`). */
  ghost predicate KeysOf(columns: seq<string>, row: Row) {
    forall i :: 0 <= i < |columns| ==> columns[i] in row
  }

  /** The layers the split columns add, in column order, numbered on from
    * `z`: each one takes the next number. */
  function SplitLayers(layers: seq<Layer>, columns: seq<string>, job: Job, z: int): (r: seq<Layer>)
    requires KeysOf(columns, job.row)
    ensures |r| <= |columns|
    ensures forall l :: l in r ==> SplitOf(layers, l) && l.dataId.Some? && l.dataId.value in columns
  {
    if columns == [] then []
    else
      var tail := columns[1..];
      assert KeysOf(tail, job.row) by {
        forall k | 0 <= k < |tail| ensures tail[k] in job.row {
          assert tail[k] == columns[k + 1];
        }
      }
      assert forall c :: c in tail ==> c in columns;
      var made := SplitLayerFor(layers, columns[0], job, z + 1);
      SplitLayerForFacts(layers, columns[0], job, z + 1);
      if made.Some? then [made.value] + SplitLayers(layers, tail, job, z + 1)
      else SplitLayers(layers, tail, job, z)
  }

  /** The `for (const columnName of columnNames)` loop, `++newZIndex` for each
    * layer it pushes. */
  method SplitPass(layers: seq<Layer>, columns: seq<string>, job: Job, z0: int) returns (splitLayersToAdd: seq<Layer>)
    requires KeysOf(columns, job.row)
    ensures splitLayersToAdd == SplitLayers(layers, columns, job, z0)
  {
    splitLayersToAdd := [];
    var newZIndex := z0;
    for i := 0 to |columns|
      invariant splitLayersToAdd + SplitLayers(layers, columns[i..], job, newZIndex) == SplitLayers(layers, columns, job, z0)
    {
      assert columns[i..][1..] == columns[i + 1..];
      var made := SplitLayerFor(layers, columns[i], job, newZIndex + 1);
      if made.Some? {
        newZIndex := newZIndex + 1;
        splitLayersToAdd := splitLayersToAdd + [made.value];
      }
    }
    assert columns[|columns|..] == [];
  }

  /** Each added layer is a split-off layer, numbered `z + 1 + i` at position
    * `i`, carrying one of the columns as its `dataId`. */
  lemma {:induction false} SplitLayersAt(layers: seq<Layer>, columns: seq<string>, job: Job, z: int, i: nat)
    requires KeysOf(columns, job.row)
    requires i < |SplitLayers(layers, columns, job, z)|
    ensures var l := SplitLayers(layers, columns, job, z)[i];
      SplitOf(layers, l) && l.zIndex == z + 1 + i && l.dataId.Some? && l.dataId.value in columns
  {
    var r := SplitLayers(layers, columns, job, z);
    assert r[i] in r;
    var tail := columns[1..];
    assert KeysOf(tail, job.row) by {
      forall k | 0 <= k < |tail| ensures tail[k] in job.row {
        assert tail[k] == columns[k + 1];
      }
    }
    var made := SplitLayerFor(layers, columns[0], job, z + 1);
    if made.Some? {
      var rest := SplitLayers(layers, tail, job, z + 1);
      assert r == [made.value] + rest;
      if i == 0 {
        SplitLayerForFacts(layers, columns[0], job, z + 1);
      } else {
        SplitLayersAt(layers, tail, job, z + 1, i - 1);
        assert r[i] == rest[i - 1];
      }
    } else {
      SplitLayersAt(layers, tail, job, z, i);
    }
  }

  // -------------------------------------------------------------- artboards

  /** `Math.max(-1, ...layers.map(l => l.zIndex))` */
  function TopZ(layers: seq<Layer>): (m: int)
    ensures m >= -1 && forall i :: 0 <= i < |layers| ==> layers[i].zIndex <= m
  {
    if layers == [] then -1 else IMax(layers[0].zIndex, TopZ(layers[1..]))
  }

  /** `row['Name'] || \`${templateArtboard.name} (Bản sao ${index + 1})\`` */
  function RowName(row: Row, templateName: string, index: nat): (r: string)
    ensures "Name" in row && row["Name"] != "" ==> r == row["Name"]
  {
    if "Name" in row && row["Name"] != "" then row["Name"]
    else templateName + " (B\U{1EA3}n sao " + NatToString(index + 1) + ")"
  }

  /** The first pass, `newArtboard.layers.map(...)`. */
  function FilledLayers(layers: seq<Layer>, row: Row, mappings: map<string, string>, styles: seq<TextStyle>,
                        canvasAvailable: bool, measure: (Font, string) -> real): (r: seq<Layer>)
    ensures |r| == |layers|
    ensures forall i :: 0 <= i < |layers| ==> r[i] == ApplyRow(layers[i], row, mappings, styles, canvasAvailable, measure)
  {
    seq(|layers|, i requires 0 <= i < |layers| => ApplyRow(layers[i], row, mappings, styles, canvasAvailable, measure))
  }

  /** The artboard one row makes from a copy of the template. */
  function ArtboardFromRow(template: Artboard, row: Row, columns: seq<string>, index: nat,
                           mappings: map<string, string>, styles: seq<TextStyle>,
                           canvasAvailable: bool, measure: (Font, string) -> real, stamp: string): Artboard
    requires KeysOf(columns, row)
  {
    var filled := FilledLayers(template.layers, row, mappings, styles, canvasAvailable, measure);
    var added := SplitLayers(filled, columns, Job(row, mappings, styles, canvasAvailable, measure, stamp, index),
                             TopZ(template.layers) + 1);
    template.(id := "artboard-csv-" + stamp + "-" + NatToString(index),
              name := RowName(row, template.name, index),
              layers := filled + added)
  }

  /** A row's artboard holds the template's layers, each under the row's rule,
    * then the split layers, all above every template layer and numbered
    * consecutively from two past the template's top z. */
  lemma ArtboardFromRowFacts(template: Artboard, row: Row, columns: seq<string>, index: nat,
                             mappings: map<string, string>, styles: seq<TextStyle>,
                             canvasAvailable: bool, measure: (Font, string) -> real, stamp: string)
    requires KeysOf(columns, row)
    ensures var a := ArtboardFromRow(template, row, columns, index, mappings, styles, canvasAvailable, measure, stamp);
      var n := |template.layers|;
      n <= |a.layers| <= n + |columns| &&
      a.width == template.width && a.height == template.height && a.guides == template.guides &&
      a.layers[..n] == FilledLayers(template.layers, row, mappings, styles, canvasAvailable, measure) &&
      (forall i :: n <= i < |a.layers| ==>
         a.layers[i].IsText() && a.layers[i].zIndex == TopZ(template.layers) + 2 + (i - n) &&
         forall j :: 0 <= j < n ==> template.layers[j].zIndex < a.layers[i].zIndex)
  {
    var a := ArtboardFromRow(template, row, columns, index, mappings, styles, canvasAvailable, measure, stamp);
    var n := |template.layers|;
    var top := TopZ(template.layers);
    var filled := FilledLayers(template.layers, row, mappings, styles, canvasAvailable, measure);
    var job := Job(row, mappings, styles, canvasAvailable, measure, stamp, index);
    var added := SplitLayers(filled, columns, job, top + 1);
    assert a.layers == filled + added;
    AddedLayersFacts(filled, columns, job, top, added);
    StackedAbove(template.layers, filled, added, top);
  }

  /** Layers numbered on from `top + 2` and appended after the filled ones sit
    * above every layer whose z is at most `top`. */
  lemma StackedAbove(layers: seq<Layer>, filled: seq<Layer>, added: seq<Layer>, top: int)
    requires |filled| == |layers|
    requires forall j :: 0 <= j < |layers| ==> layers[j].zIndex <= top
    requires forall k :: 0 <= k < |added| ==> added[k].IsText() && added[k].zIndex == top + 2 + k
    ensures var all := filled + added; var n := |layers|;
      all[..n] == filled &&
      (forall i :: n <= i < |all| ==>
         all[i].IsText() && all[i].zIndex == top + 2 + (i - n) &&
         forall j :: 0 <= j < n ==> layers[j].zIndex < all[i].zIndex)
  {
    var all := filled + added;
    forall i | |layers| <= i < |all|
      ensures all[i].IsText() && all[i].zIndex == top + 2 + (i - |layers|)
    {
      assert all[i] == added[i - |layers|];
    }
    assert all[..|layers|] == filled;
  }

  /** The split layers are text layers numbered consecutively from `top + 2`. */
  lemma AddedLayersFacts(filled: seq<Layer>, columns: seq<string>, job: Job, top: int, added: seq<Layer>)
    requires KeysOf(columns, job.row) && added == SplitLayers(filled, columns, job, top + 1)
    ensures forall k :: 0 <= k < |added| ==> added[k].IsText() && added[k].zIndex == top + 2 + k
  {
    forall k | 0 <= k < |added|
      ensures added[k].IsText() && added[k].zIndex == top + 2 + k
    {
      SplitLayersAt(filled, columns, job, top + 1, k);
    }
  }

  /** Each row's columns, in `Object.keys` order, name cells of that row. */
  ghost predicate ColumnsOfRows(data: seq<Row>, columns: seq<seq<string>>) {
    |columns| == |data| && forall i :: 0 <= i < |data| ==> KeysOf(columns[i], data[i])
  }

  /** `handleGenerateArtboardsFromCsv`: without a template nothing; otherwise
    * the template is replaced by one artboard per row, after the others. */
  function GenerateArtboardsFromCsv(artboards: seq<Artboard>, data: seq<Row>, columns: seq<seq<string>>,
                                    template: Option<Artboard>, mappings: map<string, string>,
                                    styles: seq<TextStyle>, canvasAvailable: bool,
                                    measure: (Font, string) -> real, stamp: string): Option<seq<Artboard>>
    requires ColumnsOfRows(data, columns)
  {
    if template.None? then None
    else
      var kept := Others(artboards, template.value.id);
      Some(kept + seq(|data|, i requires 0 <= i < |data| =>
        ArtboardFromRow(template.value, data[i], columns[i], i, mappings, styles, canvasAvailable, measure, stamp)))
  }

  /** `artboards.filter(a => a.id !== id)` */
  function Others(artboards: seq<Artboard>, id: string): (r: seq<Artboard>)
    ensures |r| <= |artboards|
    ensures forall a :: a in r <==> a in artboards && a.id != id
  {
    if artboards == [] then []
    else (if artboards[0].id != id then [artboards[0]] else []) + Others(artboards[1..], id)
  }

  /** `filter` keeps the list order and every repeat: it distributes over
    * concatenation, and artboards without that id come back whole. */
  lemma OthersKeepsOrder(a: seq<Artboard>, b: seq<Artboard>, id: string)
    ensures Others(a + b, id) == Others(a, id) + Others(b, id)
    ensures (forall i :: 0 <= i < |a| ==> a[i].id != id) ==> Others(a, id) == a
  {
    OthersAppend(a, b, id);
    if forall i :: 0 <= i < |a| ==> a[i].id != id {
      OthersAll(a, id);
    }
  }

  lemma {:induction false} OthersAppend(a: seq<Artboard>, b: seq<Artboard>, id: string)
    ensures Others(a + b, id) == Others(a, id) + Others(b, id)
  {
    if a == [] {
      assert a + b == b;
    } else {
      assert (a + b)[0] == a[0] && (a + b)[1..] == a[1..] + b;
      OthersAppend(a[1..], b, id);
      var h := if a[0].id != id then [a[0]] else [];
      assert Others(a + b, id) == h + Others(a[1..] + b, id);
      assert h + (Others(a[1..], id) + Others(b, id)) == (h + Others(a[1..], id)) + Others(b, id);
    }
  }

  lemma {:induction false} OthersAll(a: seq<Artboard>, id: string)
    requires forall i :: 0 <= i < |a| ==> a[i].id != id
    ensures Others(a, id) == a
  {
    if a != [] {
      assert forall i :: 0 <= i < |a[1..]| ==> a[1..][i].id != id by {
        forall i | 0 <= i < |a[1..]| ensures a[1..][i].id != id { assert a[1..][i] == a[i + 1]; }
      }
      OthersAll(a[1..], id);
      assert [a[0]] + a[1..] == a;
    }
  }

  /** The artboards after generation: every other artboard, in order, and then
    * one per row in row order; the template itself is gone. */
  lemma GenerateReplacesTemplate(artboards: seq<Artboard>, data: seq<Row>, columns: seq<seq<string>>,
                                 template: Artboard, mappings: map<string, string>,
                                 styles: seq<TextStyle>, canvasAvailable: bool,
                                 measure: (Font, string) -> real, stamp: string)
    requires ColumnsOfRows(data, columns)
    ensures var r := GenerateArtboardsFromCsv(artboards, data, columns, Some(template), mappings, styles,
                                              canvasAvailable, measure, stamp);
      var kept := Others(artboards, template.id);
      r.Some? && |r.value| == |kept| + |data| && r.value[..|kept|] == kept &&
      (forall a :: a in kept ==> a.id != template.id) &&
      forall i :: 0 <= i < |data| ==>
        r.value[|kept| + i] == ArtboardFromRow(template, data[i], columns[i], i, mappings, styles, canvasAvailable, measure, stamp)
  {
  }
}
