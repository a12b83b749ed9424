/**
 * Measuring a text layer (calculateTextDimensions in utils/text.ts): the spans are broken
 * into lines at every newline, each line is measured span by span with the span's own font,
 * and the box is the widest line by the number of lines times the layer's font size, plus padding.
 * The canvas measurement itself is a parameter.
 */
module TextLayout {
  import opened Wrappers
  import opened Types
  import opened TextSpans

  const PaddingV: real := 2.0
  const PaddingH: real := 4.0

  // ---------------------------------------------------------------------------
  // Splitting a string on newlines (`text.split('\n')`)
  // ---------------------------------------------------------------------------

  function SplitLines(t: string): (r: seq<string>)
    ensures |r| >= 1
  {
    if t == "" then [""]
    else if t[0] == '\n' then [""] + SplitLines(t[1..])
    else
      var rest := SplitLines(t[1..]);
      [[t[0]] + rest[0]] + rest[1..]
  }

  function CountNewlines(t: string): nat {
    if t == "" then 0 else (if t[0] == '\n' then 1 else 0) + CountNewlines(t[1..])
  }

  function DropNewlines(t: string): string {
    if t == "" then "" else (if t[0] == '\n' then "" else [t[0]]) + DropNewlines(t[1..])
  }

  function Concat(parts: seq<string>): string {
    if parts == [] then "" else parts[0] + Concat(parts[1..])
  }

  /** The text after the last newline (all of it when there is none). */
  function Trailing(t: string): string {
    var parts := SplitLines(t);
    parts[|parts| - 1]
  }

  lemma {:induction false} SplitLinesFacts(t: string)
    ensures |SplitLines(t)| == CountNewlines(t) + 1
    ensures forall i | 0 <= i < |SplitLines(t)| :: '\n' !in SplitLines(t)[i]
    ensures Concat(SplitLines(t)) == DropNewlines(t)
  {
    if t != "" {
      SplitLinesFacts(t[1..]);
      var rest := SplitLines(t[1..]);
      if t[0] == '\n' {
        assert ([""] + rest)[1..] == rest;
      } else {
        var parts := [[t[0]] + rest[0]] + rest[1..];
        assert parts[1..] == rest[1..];
        assert Concat(rest) == rest[0] + Concat(rest[1..]);
        assert Concat(parts) == [t[0]] + rest[0] + Concat(rest[1..]);
        forall i | 0 <= i < |parts| ensures '\n' !in parts[i] {
          if i == 0 { assert '\n' !in rest[0]; } else { assert parts[i] == rest[i]; }
        }
      }
    }
  }

  lemma {:induction false} NewlineCounted(t: string)
    ensures '\n' in t <==> CountNewlines(t) > 0
  {
    if t != "" {
      NewlineCounted(t[1..]);
      assert t == [t[0]] + t[1..];
    }
  }

  lemma {:induction false} TrailingAppend(t1: string, t2: string)
    ensures Trailing(t1 + t2) == if '\n' in t2 then Trailing(t2) else Trailing(t1) + t2
  {
    if t1 == "" {
      assert t1 + t2 == t2;
      if '\n' !in t2 { TrailingNoNewline(t2); }
    } else {
      var c, u := t1[0], t1[1..];
      assert t1 == [c] + u && t1 + t2 == [c] + (u + t2);
      TrailingAppend(u, t2);
      TrailingCons(c, u);
      TrailingCons(c, u + t2);
      assert ('\n' in u + t2) <==> ('\n' in u || '\n' in t2);
    }
  }

  /** The text after the last newline of `[c] + t`. */
  lemma TrailingCons(c: char, t: string)
    ensures Trailing([c] + t)
         == if c == '\n' || '\n' in t then Trailing(t) else [c] + Trailing(t)
  {
    assert ([c] + t)[0] == c && ([c] + t)[1..] == t;
    var r := SplitLines(t);
    SplitLinesCount(t);
    NewlineCounted(t);
    if c != '\n' {
      var p := [[c] + r[0]] + r[1..];
      assert SplitLines([c] + t) == p;
      if |r| > 1 { assert p[|p| - 1] == r[|r| - 1]; }
    } else {
      assert SplitLines([c] + t) == [""] + r;
    }
  }

  lemma {:induction false} SplitLinesCount(t: string)
    ensures |SplitLines(t)| == CountNewlines(t) + 1
  {
    if t != "" { SplitLinesCount(t[1..]); }
  }

  lemma {:induction false} TrailingNoNewline(t: string)
    requires '\n' !in t
    ensures Trailing(t) == t && SplitLines(t) == [t]
  {
    if t != "" {
      assert t[0] != '\n' && '\n' !in t[1..];
      TrailingNoNewline(t[1..]);
      assert [t[0]] + t[1..] == t;
    }
  }

  lemma {:induction false} CountNewlinesAppend(t1: string, t2: string)
    ensures CountNewlines(t1 + t2) == CountNewlines(t1) + CountNewlines(t2)
  {
    if t1 == "" {
      assert t1 + t2 == t2;
    } else {
      assert (t1 + t2)[0] == t1[0] && (t1 + t2)[1..] == t1[1..] + t2;
      CountNewlinesAppend(t1[1..], t2);
    }
  }

  lemma {:induction false} DropNewlinesAppend(t1: string, t2: string)
    ensures DropNewlines(t1 + t2) == DropNewlines(t1) + DropNewlines(t2)
  {
    if t1 == "" {
      assert t1 + t2 == t2;
    } else {
      assert (t1 + t2)[0] == t1[0] && (t1 + t2)[1..] == t1[1..] + t2;
      DropNewlinesAppend(t1[1..], t2);
    }
  }

  // ---------------------------------------------------------------------------
  // Lines of spans
  // ---------------------------------------------------------------------------

  /** All spans of a list of lines, in order. */
  function Flatten(lines: seq<seq<TextSpan>>): seq<TextSpan> {
    if lines == [] then [] else lines[0] + Flatten(lines[1..])
  }

  lemma {:induction false} FlattenSnoc(lines: seq<seq<TextSpan>>, line: seq<TextSpan>)
    ensures Flatten(lines + [line]) == Flatten(lines) + line
  {
    if lines == [] {
      assert [line][1..] == [];
    } else {
      assert (lines + [line])[1..] == lines[1..] + [line];
      FlattenSnoc(lines[1..], line);
    }
  }

  /** The state of the line breaker: the finished lines and the line being filled. */
  datatype Breaker = Breaker(lines: seq<seq<TextSpan>>, current: seq<TextSpan>)

  /** The inner `parts.forEach`: a non-empty part joins the current line, and every part
    * but the last ends it. */
  function BreakParts(b: Breaker, parts: seq<string>, style: SpanStyle): Breaker
    decreases |parts|
  {
    if parts == [] then b
    else
      var current := if parts[0] != "" then b.current + [TextSpan(parts[0], style)] else b.current;
      if |parts| > 1 then BreakParts(Breaker(b.lines + [current], []), parts[1..], style)
      else Breaker(b.lines, current)
  }

  /** The outer `layer.spans.forEach`. */
  function BreakSpans(b: Breaker, spans: seq<TextSpan>): Breaker
    decreases |spans|
  {
    if spans == [] then b
    else BreakSpans(BreakParts(b, SplitLines(spans[0].text), spans[0].style), spans[1..])
  }

  /** `linesOfSpans` once the unfinished line is pushed when it holds anything. */
  function LinesOf(spans: seq<TextSpan>): seq<seq<TextSpan>> {
    var b := BreakSpans(Breaker([], []), spans);
    if |b.current| > 0 then b.lines + [b.current] else b.lines
  }

  /** Every span on every line is non-empty and holds no newline. */
  ghost predicate CleanLines(lines: seq<seq<TextSpan>>) {
    forall i, j | 0 <= i < |lines| && 0 <= j < |lines[i]| :: lines[i][j].text != "" && '\n' !in lines[i][j].text
  }

  predicate CleanLine(line: seq<TextSpan>) {
    forall j | 0 <= j < |line| :: line[j].text != "" && '\n' !in line[j].text
  }

  /** What the breaker has consumed: its characters with the newlines dropped. */
  ghost function Consumed(b: Breaker): seq<StyledChar> {
    Chars(Flatten(b.lines)) + Chars(b.current)
  }

  ghost function DropNewlineChars(cs: seq<StyledChar>): seq<StyledChar> {
    if cs == [] then [] else (if cs[0].0 == '\n' then [] else [cs[0]]) + DropNewlineChars(cs[1..])
  }

  lemma {:induction false} DropNewlineCharsAppend(c1: seq<StyledChar>, c2: seq<StyledChar>)
    ensures DropNewlineChars(c1 + c2) == DropNewlineChars(c1) + DropNewlineChars(c2)
  {
    if c1 == [] {
      assert c1 + c2 == c2;
    } else {
      assert (c1 + c2)[0] == c1[0] && (c1 + c2)[1..] == c1[1..] + c2;
      DropNewlineCharsAppend(c1[1..], c2);
    }
  }

  lemma {:induction false} DropNewlineSpanChars(t: string, st: SpanStyle)
    ensures DropNewlineChars(SpanChars(TextSpan(t, st))) == SpanChars(TextSpan(DropNewlines(t), st))
  {
    if t != "" {
      DropNewlineSpanChars(t[1..], st);
      var cs := SpanChars(TextSpan(t, st));
      assert cs[0] == (t[0], st);
      assert cs[1..] == SpanChars(TextSpan(t[1..], st));
      var head := if t[0] == '\n' then "" else [t[0]];
      assert DropNewlines(t) == head + DropNewlines(t[1..]);
      PaintJoin(head, DropNewlines(t[1..]), st);
    }
  }

  ghost predicate NoNewlineParts(parts: seq<string>) {
    forall i | 0 <= i < |parts| :: '\n' !in parts[i]
  }

  lemma CleanSnoc(lines: seq<seq<TextSpan>>, line: seq<TextSpan>)
    requires CleanLines(lines) && CleanLine(line)
    ensures CleanLines(lines + [line])
  {
    forall i, j | 0 <= i < |lines| + 1 && 0 <= j < |(lines + [line])[i]|
      ensures (lines + [line])[i][j].text != "" && '\n' !in (lines + [line])[i][j].text
    {
      if i < |lines| { assert (lines + [line])[i] == lines[i]; }
    }
  }

  lemma {:induction false} BreakPartsClean(b: Breaker, parts: seq<string>, style: SpanStyle)
    requires CleanLines(b.lines) && CleanLine(b.current) && NoNewlineParts(parts)
    ensures CleanLines(BreakParts(b, parts, style).lines) && CleanLine(BreakParts(b, parts, style).current)
    decreases |parts|
  {
    if parts != [] {
      var current := if parts[0] != "" then b.current + [TextSpan(parts[0], style)] else b.current;
      assert CleanLine(current);
      if |parts| > 1 {
        CleanSnoc(b.lines, current);
        BreakPartsClean(Breaker(b.lines + [current], []), parts[1..], style);
      }
    }
  }

  lemma PaintJoin(x: string, y: string, st: SpanStyle)
    ensures SpanChars(TextSpan(x + y, st)) == SpanChars(TextSpan(x, st)) + SpanChars(TextSpan(y, st))
  {
    SpanCharsJoin(TextSpan(x, st), TextSpan(y, st));
  }

  /** Adding a span to the line being filled consumes its characters. */
  lemma ConsumedPush(b: Breaker, part: string, style: SpanStyle)
    ensures var current := if part != "" then b.current + [TextSpan(part, style)] else b.current;
      Consumed(Breaker(b.lines, current)) == Consumed(b) + SpanChars(TextSpan(part, style))
  {
    if part != "" {
      CharsAppend(b.current, [TextSpan(part, style)]);
      CharsSingle(TextSpan(part, style));
    }
  }

  /** Ending the line being filled consumes nothing. */
  lemma ConsumedBreak(b: Breaker)
    ensures Consumed(Breaker(b.lines + [b.current], [])) == Consumed(b)
  {
    FlattenSnoc(b.lines, b.current);
    CharsAppend(Flatten(b.lines), b.current);
  }

  lemma {:induction false} BreakPartsConsumed(b: Breaker, parts: seq<string>, style: SpanStyle)
    ensures Consumed(BreakParts(b, parts, style)) == Consumed(b) + SpanChars(TextSpan(Concat(parts), style))
    decreases |parts|
  {
    if parts == [] {
      assert SpanChars(TextSpan(Concat(parts), style)) == [];
    } else {
      var current := if parts[0] != "" then b.current + [TextSpan(parts[0], style)] else b.current;
      var pushed := Breaker(b.lines, current);
      ConsumedPush(b, parts[0], style);
      PaintJoin(parts[0], Concat(parts[1..]), style);
      if |parts| > 1 {
        var b2 := Breaker(b.lines + [current], []);
        ConsumedBreak(pushed);
        BreakPartsConsumed(b2, parts[1..], style);
        assert BreakParts(b, parts, style) == BreakParts(b2, parts[1..], style);
      } else {
        assert Concat(parts[1..]) == "";
        assert BreakParts(b, parts, style) == pushed;
      }
    }
  }

  lemma {:induction false} BreakPartsShape(b: Breaker, parts: seq<string>, style: SpanStyle)
    requires parts != []
    ensures |BreakParts(b, parts, style).lines| == |b.lines| + |parts| - 1
    ensures BreakParts(b, parts, style).current == []
        <==> parts[|parts| - 1] == "" && (b.current == [] || |parts| > 1)
    decreases |parts|
  {
    var current := if parts[0] != "" then b.current + [TextSpan(parts[0], style)] else b.current;
    if |parts| > 1 {
      BreakPartsShape(Breaker(b.lines + [current], []), parts[1..], style);
    }
  }

  lemma {:induction false} BreakSpansClean(b: Breaker, spans: seq<TextSpan>)
    requires CleanLines(b.lines) && CleanLine(b.current)
    ensures CleanLines(BreakSpans(b, spans).lines) && CleanLine(BreakSpans(b, spans).current)
    decreases |spans|
  {
    if spans != [] {
      SplitLinesFacts(spans[0].text);
      BreakPartsClean(b, SplitLines(spans[0].text), spans[0].style);
      BreakSpansClean(BreakParts(b, SplitLines(spans[0].text), spans[0].style), spans[1..]);
    }
  }

  lemma {:induction false} BreakSpansConsumed(b: Breaker, spans: seq<TextSpan>)
    ensures Consumed(BreakSpans(b, spans)) == Consumed(b) + DropNewlineChars(Chars(spans))
    decreases |spans|
  {
    if spans == [] {
      assert Consumed(b) + [] == Consumed(b);
    } else {
      var sp, rest := spans[0], spans[1..];
      var parts := SplitLines(sp.text);
      SplitLinesFacts(sp.text);
      BreakPartsConsumed(b, parts, sp.style);
      BreakSpansConsumed(BreakParts(b, parts, sp.style), rest);
      DropNewlineSpanChars(sp.text, sp.style);
      assert Chars(spans) == SpanChars(sp) + Chars(rest);
      assert sp == TextSpan(sp.text, sp.style);
      DropNewlineCharsAppend(SpanChars(sp), Chars(rest));
    }
  }

  lemma {:induction false} BreakSpansShape(b: Breaker, spans: seq<TextSpan>)
    ensures |BreakSpans(b, spans).lines| == |b.lines| + CountNewlines(PlainText(spans))
    ensures BreakSpans(b, spans).current == []
        <==> if '\n' in PlainText(spans) then Trailing(PlainText(spans)) == ""
             else b.current == [] && PlainText(spans) == ""
    decreases |spans|
  {
    if spans != [] {
      var sp, rest := spans[0], spans[1..];
      var parts := SplitLines(sp.text);
      SplitLinesFacts(sp.text);
      BreakPartsShape(b, parts, sp.style);
      BreakSpansShape(BreakParts(b, parts, sp.style), rest);
      assert PlainText(spans) == sp.text + PlainText(rest);
      CountNewlinesAppend(sp.text, PlainText(rest));
      TrailingAppend(sp.text, PlainText(rest));
      NewlineCounted(sp.text);
      if '\n' !in sp.text { TrailingNoNewline(sp.text); }
    }
  }

  /** Every line is made of non-empty spans without newlines. */
  lemma LinesOfClean(spans: seq<TextSpan>)
    ensures CleanLines(LinesOf(spans))
  {
    var b := BreakSpans(Breaker([], []), spans);
    BreakSpansClean(Breaker([], []), spans);
    if |b.current| > 0 { CleanSnoc(b.lines, b.current); }
  }

  /** The lines hold every character that is not a newline, with its style, in order. */
  lemma LinesOfChars(spans: seq<TextSpan>)
    ensures Chars(Flatten(LinesOf(spans))) == DropNewlineChars(Chars(spans))
  {
    var b0 := Breaker([], []);
    var b := BreakSpans(b0, spans);
    BreakSpansConsumed(b0, spans);
    assert Consumed(b0) == [];
    assert Consumed(b) == DropNewlineChars(Chars(spans));
    if |b.current| > 0 {
      ConsumedBreak(b);
      var done := Breaker(b.lines + [b.current], []);
      assert Consumed(done) == Chars(Flatten(done.lines)) + [];
      assert LinesOf(spans) == done.lines;
    } else {
      assert Chars(b.current) == [];
    }
  }

  /** There is one line per newline, and one more exactly when text follows the last newline. */
  lemma LinesOfCount(spans: seq<TextSpan>)
    ensures |LinesOf(spans)| == CountNewlines(PlainText(spans)) + (if Trailing(PlainText(spans)) != "" then 1 else 0)
  {
    BreakSpansShape(Breaker([], []), spans);
    if '\n' !in PlainText(spans) { TrailingNoNewline(PlainText(spans)); }
  }

  /** The nested `forEach` loops that break the spans into lines. */
  method BreakIntoLines(spans: seq<TextSpan>) returns (linesOfSpans: seq<seq<TextSpan>>)
    ensures linesOfSpans == LinesOf(spans)
  {
    linesOfSpans := [];
    var currentLine: seq<TextSpan> := [];
    var i := 0;
    while i < |spans|
      invariant 0 <= i <= |spans|
      invariant BreakSpans(Breaker(linesOfSpans, currentLine), spans[i..]) == BreakSpans(Breaker([], []), spans)
    {
      var span := spans[i];
      var parts := SplitLines(span.text);
      ghost var before := Breaker(linesOfSpans, currentLine);
      assert spans[i..][0] == span && spans[i..][1..] == spans[i + 1..];
      var j := 0;
      while j < |parts|
        invariant 0 <= j <= |parts|
        invariant BreakParts(Breaker(linesOfSpans, currentLine), parts[j..], span.style)
               == BreakParts(before, parts, span.style)
      {
        assert parts[j..][0] == parts[j] && parts[j..][1..] == parts[j + 1..];
        if parts[j] != "" {
          currentLine := currentLine + [TextSpan(parts[j], span.style)];
        }
        if j < |parts| - 1 {
          linesOfSpans := linesOfSpans + [currentLine];
          currentLine := [];
        }
        j := j + 1;
      }
      assert parts[j..] == [];
      i := i + 1;
    }
    assert spans[i..] == [];
    if |currentLine| > 0 {
      linesOfSpans := linesOfSpans + [currentLine];
    }
  }

  /** The font a span is measured in. */
  datatype Font = Font(weight: int, size: real, family: string)

  /** `span.fontWeight || layer.fontWeight` and likewise for the size and the family: an unset
    * or falsy span value falls back to the layer's. */
  function FontOf(st: SpanStyle, tp: TextProps): (f: Font)
    ensures st.fontFamily.Some? && st.fontFamily.value != "" ==> f.family == st.fontFamily.value
    ensures !(st.fontFamily.Some? && st.fontFamily.value != "") ==> f.family == tp.fontFamily
  {
    Font(
      if st.fontWeight.Some? && st.fontWeight.value != 0 then st.fontWeight.value else tp.fontWeight,
      if st.fontSize.Some? && st.fontSize.value != 0.0 then st.fontSize.value else tp.fontSize,
      if st.fontFamily.Some? && st.fontFamily.value != "" then st.fontFamily.value else tp.fontFamily)
  }

  /** The summed measured widths of a line's spans. */
  function LineWidth(line: seq<TextSpan>, tp: TextProps, measure: (Font, string) -> real): real {
    if line == [] then 0.0 else measure(FontOf(line[0].style, tp), line[0].text) + LineWidth(line[1..], tp, measure)
  }

  /** `line.forEach(span => currentLineWidth += ctx.measureText(span.text).width)` */
  method MeasureLine(line: seq<TextSpan>, tp: TextProps, measure: (Font, string) -> real) returns (currentLineWidth: real)
    ensures currentLineWidth == LineWidth(line, tp, measure)
  {
    currentLineWidth := 0.0;
    var j := 0;
    while j < |line|
      invariant 0 <= j <= |line|
      invariant currentLineWidth + LineWidth(line[j..], tp, measure) == LineWidth(line, tp, measure)
    {
      assert line[j..][0] == line[j] && line[j..][1..] == line[j + 1..];
      var font := FontOf(line[j].style, tp);
      currentLineWidth := currentLineWidth + measure(font, line[j].text);
      j := j + 1;
    }
    assert line[j..] == [];
  }

  /** The running maximum of the line widths, starting from 0. */
  function Widest(lines: seq<seq<TextSpan>>, tp: TextProps, measure: (Font, string) -> real): real {
    if lines == [] then 0.0
    else Max(Widest(lines[..|lines| - 1], tp, measure), LineWidth(lines[|lines| - 1], tp, measure))
  }

  /** The running maximum is at least 0 and every line's width, and it is 0 or the width of
    * one of the lines. */
  lemma {:induction false} WidestIsMaximum(lines: seq<seq<TextSpan>>, tp: TextProps, measure: (Font, string) -> real)
    ensures Widest(lines, tp, measure) >= 0.0
    ensures forall k | 0 <= k < |lines| :: LineWidth(lines[k], tp, measure) <= Widest(lines, tp, measure)
    ensures Widest(lines, tp, measure) == 0.0 ||
      exists k | 0 <= k < |lines| :: LineWidth(lines[k], tp, measure) == Widest(lines, tp, measure)
  {
    if lines != [] {
      var init := lines[..|lines| - 1];
      WidestIsMaximum(init, tp, measure);
      assert forall k | 0 <= k < |init| :: init[k] == lines[k];
    }
  }

  /** The widest of the lines, and 0 when every line is narrower or there are none. */
  method WidestLine(lines: seq<seq<TextSpan>>, tp: TextProps, measure: (Font, string) -> real) returns (maxWidth: real)
    ensures maxWidth == Widest(lines, tp, measure)
  {
    maxWidth := 0.0;
    var i := 0;
    while i < |lines|
      invariant 0 <= i <= |lines|
      invariant maxWidth == Widest(lines[..i], tp, measure)
    {
      var currentLineWidth := MeasureLine(lines[i], tp, measure);
      assert lines[..i + 1][..i] == lines[..i];
      if currentLineWidth > maxWidth {
        maxWidth := currentLineWidth;
      }
      i := i + 1;
    }
    assert lines[..i] == lines;
  }

  /** A measured box size. */
  datatype Size = Size(width: real, height: real)

  /** The size `calculateTextDimensions` gives a text layer: its own size without a drawing
    * context, else the widest line by one font size per line, plus padding. */
  function TextSize(layer: Layer, canvasAvailable: bool, measure: (Font, string) -> real): Size
    requires layer.IsText()
  {
    if !canvasAvailable then Size(layer.width, layer.height)
    else
      var tp := layer.content.text;
      var lines := LinesOf(tp.spans);
      Size(Widest(lines, tp, measure) + PaddingH, |lines| as real * tp.fontSize + PaddingV)
  }

  /** Without a drawing context the layer keeps its size; otherwise the box is as wide as the
    * widest line (never less than 0) and as tall as one font size per line, plus padding. */
  lemma TextSizeBounds(layer: Layer, canvasAvailable: bool, measure: (Font, string) -> real)
    requires layer.IsText()
    ensures var sz := TextSize(layer, canvasAvailable, measure);
      (!canvasAvailable ==> sz.width == layer.width && sz.height == layer.height) &&
      (canvasAvailable ==>
        var tp := layer.content.text;
        var lines := LinesOf(tp.spans);
        && sz.height == |lines| as real * tp.fontSize + PaddingV
        && sz.width >= PaddingH
        && (forall i | 0 <= i < |lines| :: LineWidth(lines[i], tp, measure) + PaddingH <= sz.width)
        && (sz.width == PaddingH || exists i | 0 <= i < |lines| :: LineWidth(lines[i], tp, measure) + PaddingH == sz.width))
  {
    if canvasAvailable {
      WidestIsMaximum(LinesOf(layer.content.text.spans), layer.content.text, measure);
    }
  }

  /** `calculateTextDimensions(layer)` */
  method CalculateTextDimensions(layer: Layer, canvasAvailable: bool, measure: (Font, string) -> real)
    returns (width: real, height: real)
    requires layer.IsText()
    ensures Size(width, height) == TextSize(layer, canvasAvailable, measure)
  {
    if !canvasAvailable {
      return layer.width, layer.height;
    }
    var tp := layer.content.text;
    var linesOfSpans := BreakIntoLines(tp.spans);
    var lineHeight := tp.fontSize * 1.0;
    var totalHeight := |linesOfSpans| as real * lineHeight;
    var maxWidth := WidestLine(linesOfSpans, tp, measure);
    width, height := maxWidth + PaddingH, totalHeight + PaddingV;
  }
}
