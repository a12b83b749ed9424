/**
 * The run-length styled-text model of utils/text.ts: range styling, canonicalising
 * merge, range extraction and excision, and the "uniform or mixed" style queries.
 *
 * Every operation is a method whose loop follows the source, proved equal to a
 * recursive specification function; what the operations mean is stated at the
 * level of styled characters (`Chars`), where a span list is read as the sequence
 * of its characters, each paired with the style of the span that holds it.
 */
module TextSpans {
  import opened Wrappers
  import opened Types

  /** A character range `[start, end)` of the layer's text. */
  datatype Range = Range(start: int, end: int)

  /** One field of a `Partial<TextSpan>`: absent, set to a value, or explicitly `undefined`. */
  datatype Patch<T> = Keep | Put(value: T) | Clear

  datatype StylePatch = StylePatch(
    fontFamily: Patch<string>,
    fontSize: Patch<real>,
    color: Patch<string>,
    fontWeight: Patch<int>,
    underline: Patch<bool>,
    strikethrough: Patch<bool>,
    textScript: Patch<Script>,
    textTransform: Patch<CaseTransform>)

  const KeepAll: StylePatch := StylePatch(Keep, Keep, Keep, Keep, Keep, Keep, Keep, Keep)

  /** `{ ...span, ...newStyle }` on one field, then deleting it when it is `undefined`. */
  function PatchField<T>(cur: Option<T>, p: Patch<T>): (r: Option<T>)
    ensures p.Keep? ==> r == cur
    ensures p.Put? ==> r == Some(p.value)
    ensures p.Clear? ==> r == None
  {
    match p
    case Keep => cur
    case Put(v) => Some(v)
    case Clear => None
  }

  function ApplyPatch(st: SpanStyle, p: StylePatch): SpanStyle {
    SpanStyle(
      PatchField(st.fontFamily, p.fontFamily),
      PatchField(st.fontSize, p.fontSize),
      PatchField(st.color, p.color),
      PatchField(st.fontWeight, p.fontWeight),
      PatchField(st.underline, p.underline),
      PatchField(st.strikethrough, p.strikethrough),
      PatchField(st.textScript, p.textScript),
      PatchField(st.textTransform, p.textTransform))
  }

  // ---------------------------------------------------------------------------
  // Reading a span list as styled characters
  // ---------------------------------------------------------------------------

  type StyledChar = (char, SpanStyle)

  /** The characters of one span, each with the span's style. */
  function SpanChars(sp: TextSpan): (r: seq<StyledChar>)
    ensures |r| == |sp.text|
  {
    Tagged(sp.text, sp.style)
  }

  /** Every character of `t` paired with `st`. */
  function Tagged(t: string, st: SpanStyle): (r: seq<StyledChar>)
    ensures |r| == |t|
  {
    if t == [] then [] else [(t[0], st)] + Tagged(t[1..], st)
  }

  lemma {:induction false} TaggedAt(t: string, st: SpanStyle)
    ensures forall i :: 0 <= i < |t| ==> Tagged(t, st)[i] == (t[i], st)
  {
    if t != [] {
      TaggedAt(t[1..], st);
      assert forall i :: 1 <= i < |t| ==> Tagged(t, st)[i] == Tagged(t[1..], st)[i - 1];
    }
  }

  /** Character `i` of a span is its `i`-th text character with the span's style. */
  lemma SpanCharsAt(sp: TextSpan)
    ensures forall i :: 0 <= i < |sp.text| ==> SpanChars(sp)[i] == (sp.text[i], sp.style)
  {
    TaggedAt(sp.text, sp.style);
  }

  /** The characters of a span list in order, each with the style of its span. */
  function Chars(spans: seq<TextSpan>): seq<StyledChar> {
    if spans == [] then [] else SpanChars(spans[0]) + Chars(spans[1..])
  }

  /** The concatenated text of a span list. */
  function PlainText(spans: seq<TextSpan>): string {
    if spans == [] then "" else spans[0].text + PlainText(spans[1..])
  }

  function CharsText(cs: seq<StyledChar>): (r: string)
    ensures |r| == |cs|
  {
    if cs == [] then [] else [cs[0].0] + CharsText(cs[1..])
  }

  predicate NoEmptySpans(spans: seq<TextSpan>) {
    forall i :: 0 <= i < |spans| ==> spans[i].text != ""
  }

  /** `spans.filter(s => s.text)` */
  function NonEmpty(spans: seq<TextSpan>): (r: seq<TextSpan>)
    ensures NoEmptySpans(r)
    ensures |r| <= |spans|
  {
    if spans == [] then []
    else if spans[0].text != "" then [spans[0]] + NonEmpty(spans[1..])
    else NonEmpty(spans[1..])
  }

  lemma {:induction false} CharsAppend(s: seq<TextSpan>, t: seq<TextSpan>)
    ensures Chars(s + t) == Chars(s) + Chars(t)
  {
    if s == [] {
      assert s + t == t;
    } else {
      assert (s + t)[1..] == s[1..] + t;
      CharsAppend(s[1..], t);
    }
  }

  lemma CharsCons(spans: seq<TextSpan>)
    requires spans != []
    ensures Chars(spans) == SpanChars(spans[0]) + Chars(spans[1..])
  {
  }

  lemma CharsAppend3(s: seq<TextSpan>, t: seq<TextSpan>, u: seq<TextSpan>)
    ensures Chars(s + t + u) == Chars(s) + Chars(t) + Chars(u)
  {
    CharsAppend(s + t, u);
    CharsAppend(s, t);
  }

  lemma CharsSingle(sp: TextSpan)
    ensures Chars([sp]) == SpanChars(sp)
  {
    assert [sp][1..] == [];
  }

  /** The text of a span list is the character part of its styled characters. */
  lemma {:induction false} TextIsCharsText(s: seq<TextSpan>)
    ensures PlainText(s) == CharsText(Chars(s))
  {
    if s != [] {
      TextIsCharsText(s[1..]);
      CharsCons(s);
      CharsTextAppend(SpanChars(s[0]), Chars(s[1..]));
      CharsTextTagged(s[0].text, s[0].style);
    }
  }

  lemma {:induction false} CharsTextAppend(c1: seq<StyledChar>, c2: seq<StyledChar>)
    ensures CharsText(c1 + c2) == CharsText(c1) + CharsText(c2)
  {
    if c1 == [] {
      assert c1 + c2 == c2;
    } else {
      CharsTextAppend(c1[1..], c2);
      assert (c1 + c2)[0] == c1[0] && (c1 + c2)[1..] == c1[1..] + c2;
    }
  }

  lemma {:induction false} CharsTextTagged(t: string, st: SpanStyle)
    ensures CharsText(Tagged(t, st)) == t
  {
    if t != [] {
      CharsTextTagged(t[1..], st);
      assert Tagged(t, st)[1..] == Tagged(t[1..], st);
    }
  }

  lemma {:induction false} CharsTextAt(cs: seq<StyledChar>)
    ensures forall k :: 0 <= k < |cs| ==> CharsText(cs)[k] == cs[k].0
  {
    if cs != [] {
      CharsTextAt(cs[1..]);
      assert forall k :: 1 <= k < |cs| ==> CharsText(cs)[k] == CharsText(cs[1..])[k - 1];
    }
  }

  /** Dropping empty spans changes no character. */
  lemma {:induction false} NonEmptyChars(s: seq<TextSpan>)
    ensures Chars(NonEmpty(s)) == Chars(s)
  {
    if s != [] {
      NonEmptyChars(s[1..]);
      if s[0].text != "" {
        CharsAppend([s[0]], NonEmpty(s[1..]));
        CharsSingle(s[0]);
      } else {
        assert SpanChars(s[0]) == [];
      }
    }
  }

  lemma {:induction false} NonEmptyIdentity(s: seq<TextSpan>)
    requires NoEmptySpans(s)
    ensures NonEmpty(s) == s
  {
    if s != [] {
      NonEmptyIdentity(s[1..]);
      assert [s[0]] + s[1..] == s;
    }
  }

  lemma {:induction false} NoEmptyCharsEmpty(s: seq<TextSpan>)
    requires NoEmptySpans(s)
    ensures Chars(s) == [] <==> s == []
  {
    if s != [] {
      assert |SpanChars(s[0])| > 0;
    }
  }

  // ---------------------------------------------------------------------------
  // applyTextStyle
  // ---------------------------------------------------------------------------

  /** The styled characters after applying `p` to every character at absolute index in `[a, b)`
    * (the characters of `cs` start at absolute index `off`). */
  function RestyleChars(cs: seq<StyledChar>, off: int, a: int, b: int, p: StylePatch): (r: seq<StyledChar>)
    ensures |r| == |cs|
  {
    seq(|cs|, k requires 0 <= k < |cs| =>
      if a <= off + k < b then (cs[k].0, ApplyPatch(cs[k].1, p)) else cs[k])
  }

  lemma RestyleAppend(c1: seq<StyledChar>, c2: seq<StyledChar>, off: int, a: int, b: int, p: StylePatch)
    ensures RestyleChars(c1 + c2, off, a, b, p)
         == RestyleChars(c1, off, a, b, p) + RestyleChars(c2, off + |c1|, a, b, p)
  {
  }

  /** A copy of `sp` holding `sp.text.substring(lo, hi)`. */
  function Part(sp: TextSpan, lo: int, hi: int): TextSpan
    requires 0 <= lo <= hi <= |sp.text|
  {
    TextSpan(sp.text[lo..hi], sp.style)
  }

  /** A copy of `sp` holding `sp.text.substring(lo, hi)`, with `p` applied to its style. */
  function RestyledPart(sp: TextSpan, lo: int, hi: int, p: StylePatch): TextSpan
    requires 0 <= lo <= hi <= |sp.text|
  {
    TextSpan(sp.text[lo..hi], ApplyPatch(sp.style, p))
  }

  /** The pieces one span becomes: itself when it misses `[a, b)`, otherwise the part
    * before the range, the restyled part inside it when that is not empty, and the part after. */
  function StylePieces(sp: TextSpan, off: int, a: int, b: int, p: StylePatch): seq<TextSpan>
    requires a < b
  {
    var e := off + |sp.text|;
    if e <= a || off >= b then [sp]
    else
      var lo := IMax(off, a) - off;
      var hi := IMin(e, b) - off;
      (if off < a then [Part(sp, 0, a - off)] else [])
      + (if hi - lo > 0 then [RestyledPart(sp, lo, hi, p)] else [])
      + (if e > b then [Part(sp, b - off, |sp.text|)] else [])
  }

  function RestyleFrom(spans: seq<TextSpan>, off: int, a: int, b: int, p: StylePatch): seq<TextSpan>
    requires a < b
  {
    if spans == [] then []
    else StylePieces(spans[0], off, a, b, p) + RestyleFrom(spans[1..], off + |spans[0].text|, a, b, p)
  }

  lemma RestyleFromCons(spans: seq<TextSpan>, h: TextSpan, t: seq<TextSpan>, off: int, a: int, b: int,
                        p: StylePatch)
    requires a < b && spans != [] && spans[0] == h && spans[1..] == t
    ensures RestyleFrom(spans, off, a, b, p) == StylePieces(h, off, a, b, p) + RestyleFrom(t, off + |h.text|, a, b, p)
  {
  }

  lemma RestyleFromAt(spans: seq<TextSpan>, i: int, off: int, a: int, b: int, p: StylePatch)
    requires a < b && 0 <= i < |spans|
    ensures RestyleFrom(spans[i..], off, a, b, p)
         == StylePieces(spans[i], off, a, b, p) + RestyleFrom(spans[i + 1..], off + |spans[i].text|, a, b, p)
  {
    assert spans[i..][0] == spans[i] && spans[i..][1..] == spans[i + 1..];
    RestyleFromCons(spans[i..], spans[i], spans[i + 1..], off, a, b, p);
  }

  /** The step of a loop that appends the pieces `p` of one span to what it has built, `x`:
    * when what is left, `rest`, is those pieces followed by `t`, the invariant carries over. */
  lemma LoopStep<T>(x: seq<T>, rest: seq<T>, p: seq<T>, p': seq<T>, t: seq<T>, w: seq<T>)
    requires x + rest == w && rest == p' + t && p == p'
    ensures (x + p) + t == w
  {
    assert x + (p + t) == (x + p) + t;
  }

  /** The span list `applyTextStyle(spans, range, patch)` returns. */
  function Restyled(spans: seq<TextSpan>, range: Range, p: StylePatch): seq<TextSpan> {
    if range.start >= range.end then spans else RestyleFrom(spans, 0, range.start, range.end, p)
  }

  lemma PartChars(sp: TextSpan, lo: int, hi: int)
    requires 0 <= lo <= hi <= |sp.text|
    ensures Chars([Part(sp, lo, hi)]) == SpanChars(sp)[lo..hi]
  {
    CharsSingle(Part(sp, lo, hi));
    SpanCharsAt(sp);
    SpanCharsAt(Part(sp, lo, hi));
  }

  lemma RestyledPartChars(sp: TextSpan, lo: int, hi: int, off: int, a: int, b: int, p: StylePatch)
    requires 0 <= lo <= hi <= |sp.text|
    requires a <= off + lo && off + hi <= b
    ensures Chars([RestyledPart(sp, lo, hi, p)]) == RestyleChars(SpanChars(sp)[lo..hi], off + lo, a, b, p)
  {
    CharsSingle(RestyledPart(sp, lo, hi, p));
    SpanCharsAt(sp);
    SpanCharsAt(RestyledPart(sp, lo, hi, p));
  }

  lemma RestyleOutside(cs: seq<StyledChar>, off: int, a: int, b: int, p: StylePatch)
    requires off + |cs| <= a || off >= b
    ensures RestyleChars(cs, off, a, b, p) == cs
  {
  }

  /** Restyling a character run whose characters before `lo` and from `hi` on lie outside `[a, b)`. */
  lemma RestyleSplit(cs: seq<StyledChar>, off: int, a: int, b: int, p: StylePatch, lo: int, hi: int)
    requires 0 <= lo <= hi <= |cs|
    requires lo == 0 || off + lo <= a
    requires hi == |cs| || b <= off + hi
    ensures RestyleChars(cs, off, a, b, p)
         == cs[..lo] + RestyleChars(cs[lo..hi], off + lo, a, b, p) + cs[hi..]
  {
    assert cs == cs[..lo] + cs[lo..hi] + cs[hi..];
    RestyleAppend(cs[..lo] + cs[lo..hi], cs[hi..], off, a, b, p);
    RestyleAppend(cs[..lo], cs[lo..hi], off, a, b, p);
    if lo > 0 { RestyleOutside(cs[..lo], off, a, b, p); }
    if hi < |cs| { RestyleOutside(cs[hi..], off + hi, a, b, p); }
  }

  /** The part of a span before `a`, as characters. */
  lemma PrePieceChars(sp: TextSpan, off: int, a: int, b: int, lo: int)
    requires a < off + |sp.text| && lo == IMax(off, a) - off
    ensures Chars(if off < a then [Part(sp, 0, a - off)] else []) == SpanChars(sp)[..lo]
  {
    if off < a { PartChars(sp, 0, a - off); } else { assert SpanChars(sp)[..lo] == []; }
  }

  /** The restyled part of a span inside `[a, b)`, as characters. */
  lemma MidPieceChars(sp: TextSpan, off: int, a: int, b: int, p: StylePatch, lo: int, hi: int)
    requires a < b && a < off + |sp.text| && off < b
    requires lo == IMax(off, a) - off && hi == IMin(off + |sp.text|, b) - off
    ensures Chars(if hi - lo > 0 then [RestyledPart(sp, lo, hi, p)] else [])
         == RestyleChars(SpanChars(sp)[lo..hi], off + lo, a, b, p)
  {
    if hi - lo > 0 {
      RestyledPartChars(sp, lo, hi, off, a, b, p);
    } else {
      assert SpanChars(sp)[lo..hi] == [];
    }
  }

  /** The part of a span from `b` on, as characters. */
  lemma PostPieceChars(sp: TextSpan, off: int, b: int, hi: int)
    requires off < b && hi == IMin(off + |sp.text|, b) - off
    ensures Chars(if off + |sp.text| > b then [Part(sp, b - off, |sp.text|)] else []) == SpanChars(sp)[hi..]
  {
    if off + |sp.text| > b { PartChars(sp, b - off, |sp.text|); } else { assert SpanChars(sp)[hi..] == []; }
  }

  lemma IntersectPiecesChars(sp: TextSpan, off: int, a: int, b: int, p: StylePatch, lo: int, hi: int)
    requires a < b
    requires a < off + |sp.text| && off < b
    requires lo == IMax(off, a) - off && hi == IMin(off + |sp.text|, b) - off
    ensures Chars(StylePieces(sp, off, a, b, p))
         == SpanChars(sp)[..lo] + RestyleChars(SpanChars(sp)[lo..hi], off + lo, a, b, p) + SpanChars(sp)[hi..]
  {
    var e := off + |sp.text|;
    var pre := if off < a then [Part(sp, 0, a - off)] else [];
    var mid := if hi - lo > 0 then [RestyledPart(sp, lo, hi, p)] else [];
    var post := if e > b then [Part(sp, b - off, |sp.text|)] else [];
    assert StylePieces(sp, off, a, b, p) == pre + mid + post;
    PrePieceChars(sp, off, a, b, lo);
    MidPieceChars(sp, off, a, b, p, lo, hi);
    PostPieceChars(sp, off, b, hi);
    CharsJoin3(StylePieces(sp, off, a, b, p), pre, mid, post,
      SpanChars(sp)[..lo], RestyleChars(SpanChars(sp)[lo..hi], off + lo, a, b, p), SpanChars(sp)[hi..]);
  }

  /** Spans made of three parts hold the characters of the three parts, in order. */
  lemma CharsJoin3(w: seq<TextSpan>, x: seq<TextSpan>, y: seq<TextSpan>, z: seq<TextSpan>,
                   cx: seq<StyledChar>, cy: seq<StyledChar>, cz: seq<StyledChar>)
    requires w == x + y + z && Chars(x) == cx && Chars(y) == cy && Chars(z) == cz
    ensures Chars(w) == cx + cy + cz
  {
    CharsAppend3(x, y, z);
  }

  lemma StylePiecesChars(sp: TextSpan, off: int, a: int, b: int, p: StylePatch)
    requires a < b
    ensures Chars(StylePieces(sp, off, a, b, p)) == RestyleChars(SpanChars(sp), off, a, b, p)
  {
    var e := off + |sp.text|;
    if e <= a || off >= b {
      CharsSingle(sp);
      RestyleOutside(SpanChars(sp), off, a, b, p);
    } else {
      IntersectPiecesChars(sp, off, a, b, p, IMax(off, a) - off, IMin(e, b) - off);
      RestyleSplit(SpanChars(sp), off, a, b, p, IMax(off, a) - off, IMin(e, b) - off);
    }
  }

  lemma {:induction false} RestyleFromChars(spans: seq<TextSpan>, off: int, a: int, b: int, p: StylePatch)
    requires a < b
    ensures Chars(RestyleFrom(spans, off, a, b, p)) == RestyleChars(Chars(spans), off, a, b, p)
  {
    if spans != [] {
      var sp, rest, next := spans[0], spans[1..], off + |spans[0].text|;
      var pieces, tail := StylePieces(sp, off, a, b, p), RestyleFrom(rest, next, a, b, p);
      assert RestyleFrom(spans, off, a, b, p) == pieces + tail;
      assert Chars(spans) == SpanChars(sp) + Chars(rest);
      RestyleFromChars(rest, next, a, b, p);
      StylePiecesChars(sp, off, a, b, p);
      CharsAppend(pieces, tail);
      RestyleAppend(SpanChars(sp), Chars(rest), off, a, b, p);
    }
  }

  /** applyTextStyle restyles exactly the characters inside the range and keeps every other
    * character and its style, in order. */
  lemma RestyledChars(spans: seq<TextSpan>, range: Range, p: StylePatch)
    ensures Chars(Restyled(spans, range, p)) == RestyleChars(Chars(spans), 0, range.start, range.end, p)
  {
    if range.start >= range.end {
      assert RestyleChars(Chars(spans), 0, range.start, range.end, p) == Chars(spans);
    } else {
      RestyleFromChars(spans, 0, range.start, range.end, p);
    }
  }

  /** Styling never changes the text. */
  lemma RestyledText(spans: seq<TextSpan>, range: Range, p: StylePatch)
    ensures PlainText(Restyled(spans, range, p)) == PlainText(spans)
  {
    RestyledChars(spans, range, p);
    TextIsCharsText(Restyled(spans, range, p));
    TextIsCharsText(spans);
    CharsTextAt(RestyleChars(Chars(spans), 0, range.start, range.end, p));
    CharsTextAt(Chars(spans));
    assert CharsText(RestyleChars(Chars(spans), 0, range.start, range.end, p)) == CharsText(Chars(spans));
  }

  /** The body of the loop of `applyTextStyle`: what one span, starting at `spanStart`, contributes. */
  method SplitSpan(span: TextSpan, spanStart: int, selectionStart: int, selectionEnd: int, newStyle: StylePatch)
    returns (pieces: seq<TextSpan>)
    requires selectionStart < selectionEnd
    ensures pieces == StylePieces(span, spanStart, selectionStart, selectionEnd, newStyle)
  {
    var spanEnd := spanStart + |span.text|;
    if spanEnd <= selectionStart || spanStart >= selectionEnd {
      return [span];
    }
    pieces := [];
    if spanStart < selectionStart {
      pieces := pieces + [Part(span, 0, selectionStart - spanStart)];
    }
    ghost var before := pieces;
    var intersectionStart := IMax(spanStart, selectionStart);
    var intersectionEnd := IMin(spanEnd, selectionEnd);
    var intersectedText := span.text[intersectionStart - spanStart..intersectionEnd - spanStart];
    var inside: seq<TextSpan> := [];
    if |intersectedText| > 0 {
      inside := [RestyledPart(span, intersectionStart - spanStart, intersectionEnd - spanStart, newStyle)];
      pieces := pieces + inside;
    }
    var after: seq<TextSpan> := [];
    if spanEnd > selectionEnd {
      after := [Part(span, selectionEnd - spanStart, |span.text|)];
      pieces := pieces + after;
    }
    assert pieces == before + inside + after;
  }

  /** The loop of `applyTextStyle`. */
  method ApplyTextStyle(spans: seq<TextSpan>, range: Range, newStyle: StylePatch) returns (result: seq<TextSpan>)
    ensures result == Restyled(spans, range, newStyle)
    ensures Chars(result) == RestyleChars(Chars(spans), 0, range.start, range.end, newStyle)
  {
    var selectionStart, selectionEnd := range.start, range.end;
    if selectionStart >= selectionEnd {
      RestyledChars(spans, range, newStyle);
      return spans;
    }
    ghost var whole := RestyleFrom(spans, 0, selectionStart, selectionEnd, newStyle);
    result := [];
    var currentIndex := 0;
    var i := 0;
    while i < |spans|
      invariant 0 <= i <= |spans|
      invariant result + RestyleFrom(spans[i..], currentIndex, selectionStart, selectionEnd, newStyle)
             == whole
    {
      var span := spans[i];
      var spanStart := currentIndex;
      var spanEnd := currentIndex + |span.text|;
      var pieces := SplitSpan(span, spanStart, selectionStart, selectionEnd, newStyle);
      RestyleFromAt(spans, i, currentIndex, selectionStart, selectionEnd, newStyle);
      LoopStep(result, RestyleFrom(spans[i..], currentIndex, selectionStart, selectionEnd, newStyle),
               pieces, StylePieces(span, spanStart, selectionStart, selectionEnd, newStyle),
               RestyleFrom(spans[i + 1..], spanEnd, selectionStart, selectionEnd, newStyle), whole);
      result := result + pieces;
      currentIndex := spanEnd;
      i := i + 1;
    }
    assert spans[i..] == [];
    assert result == Restyled(spans, range, newStyle);
    RestyledChars(spans, range, newStyle);
  }

  // ---------------------------------------------------------------------------
  // mergeSpans
  // ---------------------------------------------------------------------------

  /** `mergeSpans` from the point where `cur` is the span being grown and `rest` is still to come:
    * a following span of equal style is absorbed into a non-empty `cur`; empty spans are dropped. */
  function MergeRun(cur: TextSpan, rest: seq<TextSpan>): seq<TextSpan>
    decreases |rest|
  {
    if rest == [] then (if cur.text != "" then [cur] else [])
    else if cur.style == rest[0].style && cur.text != "" then
      MergeRun(TextSpan(cur.text + rest[0].text, cur.style), rest[1..])
    else
      (if cur.text != "" then [cur] else []) + MergeRun(rest[0], rest[1..])
  }

  /** The span list `mergeSpans(spans)` returns. */
  function Merged(spans: seq<TextSpan>): seq<TextSpan> {
    if spans == [] then [] else MergeRun(spans[0], spans[1..])
  }

  /** No two neighbouring spans have the same style. */
  predicate Canonical(spans: seq<TextSpan>) {
    forall i :: 0 <= i < |spans| - 1 ==> spans[i].style != spans[i + 1].style
  }

  lemma SpanCharsJoin(x: TextSpan, y: TextSpan)
    requires x.style == y.style
    ensures SpanChars(TextSpan(x.text + y.text, x.style)) == SpanChars(x) + SpanChars(y)
  {
    SpanCharsAt(x);
    SpanCharsAt(y);
    SpanCharsAt(TextSpan(x.text + y.text, x.style));
  }

  lemma {:induction false} MergeRunChars(cur: TextSpan, rest: seq<TextSpan>)
    ensures Chars(MergeRun(cur, rest)) == SpanChars(cur) + Chars(rest)
    decreases |rest|
  {
    if rest == [] {
      if cur.text != "" { CharsSingle(cur); } else { assert SpanChars(cur) == []; }
    } else if cur.style == rest[0].style && cur.text != "" {
      var joined := TextSpan(cur.text + rest[0].text, cur.style);
      MergeRunChars(joined, rest[1..]);
      SpanCharsJoin(cur, rest[0]);
    } else {
      var head := if cur.text != "" then [cur] else [];
      MergeRunChars(rest[0], rest[1..]);
      CharsAppend(head, MergeRun(rest[0], rest[1..]));
      if cur.text != "" { CharsSingle(cur); } else { assert SpanChars(cur) == []; }
    }
  }

  lemma {:induction false} MergeRunNoEmpty(cur: TextSpan, rest: seq<TextSpan>)
    ensures NoEmptySpans(MergeRun(cur, rest))
    decreases |rest|
  {
    if rest == [] {
    } else if cur.style == rest[0].style && cur.text != "" {
      MergeRunNoEmpty(TextSpan(cur.text + rest[0].text, cur.style), rest[1..]);
    } else {
      MergeRunNoEmpty(rest[0], rest[1..]);
    }
  }

  lemma {:induction false} MergeRunCanonical(cur: TextSpan, rest: seq<TextSpan>)
    requires cur.text != "" && NoEmptySpans(rest)
    ensures MergeRun(cur, rest) != [] && MergeRun(cur, rest)[0].style == cur.style
    ensures Canonical(MergeRun(cur, rest))
    decreases |rest|
  {
    if rest == [] {
    } else if cur.style == rest[0].style {
      MergeRunCanonical(TextSpan(cur.text + rest[0].text, cur.style), rest[1..]);
    } else {
      MergeRunCanonical(rest[0], rest[1..]);
      var tail := MergeRun(rest[0], rest[1..]);
      assert MergeRun(cur, rest) == [cur] + tail;
    }
  }

  lemma {:induction false} MergeRunIdentity(cur: TextSpan, rest: seq<TextSpan>)
    requires cur.text != "" && NoEmptySpans(rest) && Canonical([cur] + rest)
    ensures MergeRun(cur, rest) == [cur] + rest
    decreases |rest|
  {
    if rest != [] {
      assert ([cur] + rest)[0] == cur && ([cur] + rest)[1] == rest[0];
      assert [rest[0]] + rest[1..] == rest;
      assert Canonical([rest[0]] + rest[1..]) by {
        forall i | 0 <= i < |rest| - 1 ensures rest[i].style != rest[i + 1].style {
          assert ([cur] + rest)[i + 1] == rest[i] && ([cur] + rest)[i + 2] == rest[i + 1];
        }
      }
      MergeRunIdentity(rest[0], rest[1..]);
    }
  }

  /** mergeSpans keeps every character and its style. */
  lemma MergedChars(spans: seq<TextSpan>)
    ensures Chars(Merged(spans)) == Chars(spans)
  {
    if spans != [] { MergeRunChars(spans[0], spans[1..]); }
  }

  /** mergeSpans drops every empty span, and on a list without empty spans it leaves no two
    * neighbours of equal style. */
  lemma MergedCanonical(spans: seq<TextSpan>)
    ensures NoEmptySpans(Merged(spans))
    ensures NoEmptySpans(spans) ==> Canonical(Merged(spans))
  {
    if spans != [] {
      MergeRunNoEmpty(spans[0], spans[1..]);
      if NoEmptySpans(spans) { MergeRunCanonical(spans[0], spans[1..]); }
    }
  }

  /** A list that is already merged is returned unchanged. */
  lemma MergedIdentity(spans: seq<TextSpan>)
    requires NoEmptySpans(spans) && Canonical(spans)
    ensures Merged(spans) == spans
  {
    if spans != [] {
      assert [spans[0]] + spans[1..] == spans;
      MergeRunIdentity(spans[0], spans[1..]);
    }
  }

  /** mergeSpans is idempotent on lists without empty spans. */
  lemma MergedIdempotent(spans: seq<TextSpan>)
    requires NoEmptySpans(spans)
    ensures Merged(Merged(spans)) == Merged(spans)
  {
    MergedCanonical(spans);
    MergedIdentity(Merged(spans));
  }

  /** An empty span between two spans of equal style splits them, and a second merge then
    * joins them: the merge check `currentSpan.text` lets the empty span through as a separator. */
  lemma MergedNotIdempotentAcrossEmptySpan()
    ensures var a := TextSpan("x", NoStyle);
            var e := TextSpan("", NoStyle.(underline := Some(true)));
            var c := TextSpan("y", NoStyle);
            Merged([a, e, c]) == [a, c] && Merged(Merged([a, e, c])) == [TextSpan("xy", NoStyle)]
  {
    var a := TextSpan("x", NoStyle);
    var e := TextSpan("", NoStyle.(underline := Some(true)));
    var c := TextSpan("y", NoStyle);
    assert [a, e, c][1..] == [e, c] && [e, c][1..] == [c] && [c][1..] == [];
    assert MergeRun(c, []) == [c];
    assert MergeRun(e, [c]) == [c];
    assert MergeRun(a, [e, c]) == [a] + [c];
    assert [a, c][1..] == [c];
    assert "x" + "y" == "xy";
    assert MergeRun(TextSpan("xy", NoStyle), []) == [TextSpan("xy", NoStyle)];
  }

  /** The loop of `mergeSpans`. */
  method MergeSpans(spans: seq<TextSpan>) returns (merged: seq<TextSpan>)
    ensures merged == Merged(spans)
    ensures Chars(merged) == Chars(spans)
    ensures NoEmptySpans(merged)
    ensures NoEmptySpans(spans) ==> Canonical(merged)
  {
    if |spans| == 0 {
      MergedChars(spans);
      return [];
    }
    merged := [];
    var currentSpan := spans[0];
    var i := 1;
    while i < |spans|
      invariant 1 <= i <= |spans|
      invariant merged + MergeRun(currentSpan, spans[i..]) == Merged(spans)
    {
      var nextSpan := spans[i];
      assert spans[i..][0] == nextSpan && spans[i..][1..] == spans[i + 1..];
      if currentSpan.style == nextSpan.style && currentSpan.text != "" {
        currentSpan := TextSpan(currentSpan.text + nextSpan.text, currentSpan.style);
      } else {
        if currentSpan.text != "" {
          merged := merged + [currentSpan];
        }
        currentSpan := nextSpan;
      }
      i := i + 1;
    }
    assert spans[i..] == [];
    if currentSpan.text != "" {
      merged := merged + [currentSpan];
    }
    MergedChars(spans);
    MergedCanonical(spans);
  }

  /** `mergeSpans(spans.filter(s => s.text))`, or one empty span when nothing is left:
    * the span list stored after an edit. It keeps every styled character, and is either the
    * single empty span (exactly when there are no characters) or canonical. */
  function Tidied(spans: seq<TextSpan>): (r: seq<TextSpan>)
    ensures r != []
    ensures Chars(r) == Chars(spans)
    ensures r == [TextSpan("", NoStyle)] || (NoEmptySpans(r) && Canonical(r))
    ensures r == [TextSpan("", NoStyle)] <==> Chars(spans) == []
  {
    NonEmptyChars(spans);
    MergedChars(NonEmpty(spans));
    MergedCanonical(NonEmpty(spans));
    var m := Merged(NonEmpty(spans));
    NoEmptyCharsEmpty(m);
    CharsSingle(TextSpan("", NoStyle));
    if m != [] then
      assert m[0].text != "";
      m
    else [TextSpan("", NoStyle)]
  }

  // ---------------------------------------------------------------------------
  // getSpansForRange and removeRangeFromSpans
  // ---------------------------------------------------------------------------

  function Clamp(x: int, n: nat): (r: nat)
    ensures r <= n
  {
    if x < 0 then 0 else if x > n then n else x
  }

  /** The characters of `cs` at indices in `[lo, hi)`. */
  function Slice<T>(cs: seq<T>, lo: int, hi: int): seq<T>
    requires lo <= hi
  {
    cs[Clamp(lo, |cs|)..Clamp(hi, |cs|)]
  }

  /** The characters of `cs` at indices outside `[lo, hi)`. */
  function Outside<T>(cs: seq<T>, lo: int, hi: int): seq<T>
    requires lo <= hi
  {
    cs[..Clamp(lo, |cs|)] + cs[Clamp(hi, |cs|)..]
  }

  /** A piece of a concatenation is a piece of each part. */
  lemma SubAppend<T>(c1: seq<T>, c2: seq<T>, l: nat, h: nat)
    requires l <= h <= |c1| + |c2|
    ensures (c1 + c2)[l..h] == c1[IMin(l, |c1|)..IMin(h, |c1|)] + c2[IMax(l - |c1|, 0)..IMax(h - |c1|, 0)]
  {
    var c, n1 := c1 + c2, |c1|;
    if h <= n1 {
      assert c[l..h] == c1[l..h] by {
        forall i | 0 <= i < h - l ensures c[l..h][i] == c1[l..h][i] {
          assert c[l + i] == c1[l + i];
        }
      }
      assert c2[0..0] == [];
    } else if l >= n1 {
      assert c[l..h] == c2[l - n1..h - n1] by {
        forall i | 0 <= i < h - l ensures c[l..h][i] == c2[l - n1..h - n1][i] {
          assert c[l + i] == c2[l + i - n1];
        }
      }
      assert c1[n1..n1] == [];
    } else {
      var x, y := c1[l..], c2[..h - n1];
      assert c[l..h] == x + y by {
        forall i | 0 <= i < h - l ensures c[l..h][i] == (x + y)[i] {
          if i < n1 - l { assert c[l + i] == c1[l + i]; } else { assert c[l + i] == c2[l + i - n1]; }
        }
      }
      assert c1[l..n1] == x && c2[0..h - n1] == y;
    }
  }

  lemma SliceAppend<T>(c1: seq<T>, c2: seq<T>, lo: int, hi: int)
    requires lo <= hi
    ensures Slice(c1 + c2, lo, hi) == Slice(c1, lo, hi) + Slice(c2, lo - |c1|, hi - |c1|)
  {
    var n1, n2 := |c1|, |c2|;
    var l, h := Clamp(lo, n1 + n2), Clamp(hi, n1 + n2);
    assert Clamp(lo, n1) == IMin(l, n1) && Clamp(hi, n1) == IMin(h, n1);
    assert Clamp(lo - n1, n2) == IMax(l - n1, 0) && Clamp(hi - n1, n2) == IMax(h - n1, 0);
    SubAppend(c1, c2, l, h);
  }

  lemma SliceAppendAt<T>(c1: seq<T>, c2: seq<T>, lo: int, hi: int, lo2: int, hi2: int)
    requires lo <= hi && lo2 == lo - |c1| && hi2 == hi - |c1|
    ensures Slice(c1 + c2, lo, hi) == Slice(c1, lo, hi) + Slice(c2, lo2, hi2)
  {
    SliceAppend(c1, c2, lo, hi);
  }

  lemma TakeAppend<T>(c1: seq<T>, c2: seq<T>, l: nat)
    requires l <= |c1| + |c2|
    ensures (c1 + c2)[..l] == c1[..IMin(l, |c1|)] + c2[..IMax(l - |c1|, 0)]
  {
    if l <= |c1| {
      assert (c1 + c2)[..l] == c1[..l];
    } else {
      assert (c1 + c2)[..l] == c1 + c2[..l - |c1|];
    }
  }

  lemma DropAppend<T>(c1: seq<T>, c2: seq<T>, h: nat)
    requires h <= |c1| + |c2|
    ensures (c1 + c2)[h..] == c1[IMin(h, |c1|)..] + c2[IMax(h - |c1|, 0)..]
  {
    if h <= |c1| {
      assert (c1 + c2)[h..] == c1[h..] + c2;
    } else {
      assert (c1 + c2)[h..] == c2[h - |c1|..];
    }
  }

  lemma Regroup<T>(a: seq<T>, b: seq<T>, x: seq<T>, y: seq<T>)
    requires b == [] || x == []
    ensures (a + b) + (x + y) == (a + x) + (b + y)
  {
    if b == [] {
      assert a + b == a && b + y == y;
    } else {
      assert a + x == a && x + y == y;
    }
  }

  /** How the bounds `Outside` clamps to a concatenation split between its parts. */
  lemma ClampParts(lo: int, hi: int, n1: nat, n2: nat)
    requires lo <= hi
    ensures var l, h := Clamp(lo, n1 + n2), Clamp(hi, n1 + n2);
      Clamp(lo, n1) == IMin(l, n1) && Clamp(hi, n1) == IMin(h, n1) &&
      Clamp(lo - n1, n2) == IMax(l - n1, 0) && Clamp(hi - n1, n2) == IMax(h - n1, 0) &&
      (IMax(l - n1, 0) == 0 || IMin(h, n1) == n1)
  {
  }

  lemma OutsideAppend<T>(c1: seq<T>, c2: seq<T>, lo: int, hi: int)
    requires lo <= hi
    ensures Outside(c1 + c2, lo, hi) == Outside(c1, lo, hi) + Outside(c2, lo - |c1|, hi - |c1|)
  {
    var n1, n2 := |c1|, |c2|;
    var l, h := Clamp(lo, n1 + n2), Clamp(hi, n1 + n2);
    ClampParts(lo, hi, n1, n2);
    var l1, h1, l2, h2 := Clamp(lo, n1), Clamp(hi, n1), Clamp(lo - n1, n2), Clamp(hi - n1, n2);
    TakeAppend(c1, c2, l);
    DropAppend(c1, c2, h);
    var a, b, x, y := c1[..l1], c2[..l2], c1[h1..], c2[h2..];
    assert Outside(c1 + c2, lo, hi) == (a + b) + (x + y);
    Regroup(a, b, x, y);
  }

  lemma OutsideAppendAt<T>(c1: seq<T>, c2: seq<T>, lo: int, hi: int, lo2: int, hi2: int)
    requires lo <= hi && lo2 == lo - |c1| && hi2 == hi - |c1|
    ensures Outside(c1 + c2, lo, hi) == Outside(c1, lo, hi) + Outside(c2, lo2, hi2)
  {
    OutsideAppend(c1, c2, lo, hi);
  }

  /** What one span contributes to `getSpansForRange`: the part inside `[a, b)` when it is not empty. */
  function ExtractPieces(sp: TextSpan, off: int, a: int, b: int): seq<TextSpan> {
    var e := off + |sp.text|;
    if e > a && off < b then
      var lo := IMax(off, a) - off;
      var hi := IMin(e, b) - off;
      if hi - lo > 0 then [Part(sp, lo, hi)] else []
    else []
  }

  function ExtractFrom(spans: seq<TextSpan>, off: int, a: int, b: int): seq<TextSpan> {
    if spans == [] then []
    else ExtractPieces(spans[0], off, a, b) + ExtractFrom(spans[1..], off + |spans[0].text|, a, b)
  }

  lemma ExtractFromCons(spans: seq<TextSpan>, h: TextSpan, t: seq<TextSpan>, off: int, a: int, b: int)
    requires spans != [] && spans[0] == h && spans[1..] == t
    ensures ExtractFrom(spans, off, a, b) == ExtractPieces(h, off, a, b) + ExtractFrom(t, off + |h.text|, a, b)
  {
    var p, r := ExtractPieces(spans[0], off, a, b), ExtractFrom(spans[1..], off + |spans[0].text|, a, b);
    assert ExtractFrom(spans, off, a, b) == p + r;
  }

  lemma ExtractFromAt(spans: seq<TextSpan>, i: int, off: int, a: int, b: int)
    requires 0 <= i < |spans|
    ensures ExtractFrom(spans[i..], off, a, b)
         == ExtractPieces(spans[i], off, a, b) + ExtractFrom(spans[i + 1..], off + |spans[i].text|, a, b)
  {
    assert spans[i..][0] == spans[i] && spans[i..][1..] == spans[i + 1..];
    ExtractFromCons(spans[i..], spans[i], spans[i + 1..], off, a, b);
  }

  /** The span list `getSpansForRange(spans, range)` returns. */
  function SpansInRange(spans: seq<TextSpan>, range: Range): seq<TextSpan> {
    if range.start >= range.end then [] else ExtractFrom(spans, 0, range.start, range.end)
  }

  /** The styled characters inside a range (none when the range is empty). */
  function Window(cs: seq<StyledChar>, range: Range): seq<StyledChar> {
    if range.start >= range.end then [] else Slice(cs, range.start, range.end)
  }

  lemma ExtractPiecesChars(sp: TextSpan, off: int, a: int, b: int)
    requires a < b
    ensures Chars(ExtractPieces(sp, off, a, b)) == Slice(SpanChars(sp), a - off, b - off)
  {
    var e := off + |sp.text|;
    if e > a && off < b {
      var lo := IMax(off, a) - off;
      var hi := IMin(e, b) - off;
      if hi - lo > 0 { PartChars(sp, lo, hi); }
    }
  }

  lemma NoEmptyAppend(s: seq<TextSpan>, t: seq<TextSpan>)
    requires NoEmptySpans(s) && NoEmptySpans(t)
    ensures NoEmptySpans(s + t)
  {
    forall i | 0 <= i < |s + t| ensures (s + t)[i].text != "" {
      if i < |s| { assert (s + t)[i] == s[i]; } else { assert (s + t)[i] == t[i - |s|]; }
    }
  }

  /** The piece a span contributes is never empty. */
  lemma ExtractPiecesNoEmpty(sp: TextSpan, off: int, a: int, b: int)
    ensures NoEmptySpans(ExtractPieces(sp, off, a, b))
  {
  }

  lemma {:induction false} ExtractFromNoEmpty(spans: seq<TextSpan>, off: int, a: int, b: int)
    requires a < b
    ensures NoEmptySpans(ExtractFrom(spans, off, a, b))
  {
    if spans != [] {
      var pieces, tail := ExtractPieces(spans[0], off, a, b), ExtractFrom(spans[1..], off + |spans[0].text|, a, b);
      assert ExtractFrom(spans, off, a, b) == pieces + tail;
      ExtractFromNoEmpty(spans[1..], off + |spans[0].text|, a, b);
      ExtractPiecesNoEmpty(spans[0], off, a, b);
      NoEmptyAppend(pieces, tail);
    }
  }

  lemma {:induction false} ExtractFromChars(spans: seq<TextSpan>, off: int, a: int, b: int)
    requires a < b
    ensures Chars(ExtractFrom(spans, off, a, b)) == Slice(Chars(spans), a - off, b - off)
  {
    if spans == [] {
      assert Chars(spans) == [] && ExtractFrom(spans, off, a, b) == [];
    } else {
      var next := off + |spans[0].text|;
      ExtractFromChars(spans[1..], next, a, b);
      ExtractFromCharsStep(spans, off, a, b, next);
    }
  }

  /** The inductive step of `ExtractFromChars`. */
  lemma ExtractFromCharsStep(spans: seq<TextSpan>, off: int, a: int, b: int, next: int)
    requires a < b && spans != [] && next == off + |spans[0].text|
    requires Chars(ExtractFrom(spans[1..], next, a, b)) == Slice(Chars(spans[1..]), a - next, b - next)
    ensures Chars(ExtractFrom(spans, off, a, b)) == Slice(Chars(spans), a - off, b - off)
  {
    ExtractFromCons(spans, spans[0], spans[1..], off, a, b);
    CharsCons(spans);
    ExtractPiecesChars(spans[0], off, a, b);
    ExtractPiecesStep(spans[0], ExtractPieces(spans[0], off, a, b), Chars(spans[1..]), off, a, b, next,
      ExtractFrom(spans[1..], next, a, b));
  }

  /** Spans `p` holding a slice of one span's characters, followed by spans `t` holding the
    * shifted slice of `cs2`, hold that slice of the span's characters followed by `cs2`. */
  lemma ExtractPiecesStep(sp: TextSpan, p: seq<TextSpan>, cs2: seq<StyledChar>, off: int, a: int, b: int, next: int,
      t: seq<TextSpan>)
    requires a < b && next == off + |sp.text|
    requires Chars(p) == Slice(SpanChars(sp), a - off, b - off)
    requires Chars(t) == Slice(cs2, a - next, b - next)
    ensures Chars(p + t) == Slice(SpanChars(sp) + cs2, a - off, b - off)
  {
    CharsAppend(p, t);
    SliceAppendAt(SpanChars(sp), cs2, a - off, b - off, a - next, b - next);
  }

  /** getSpansForRange returns exactly the styled characters of the range, in non-empty spans. */
  lemma SpansInRangeChars(spans: seq<TextSpan>, range: Range)
    ensures Chars(SpansInRange(spans, range)) == Window(Chars(spans), range)
    ensures NoEmptySpans(SpansInRange(spans, range))
  {
    if range.start < range.end {
      ExtractFromChars(spans, 0, range.start, range.end);
      ExtractFromNoEmpty(spans, 0, range.start, range.end);
    }
  }

  /** The body of the loop of `getSpansForRange`. */
  method IntersectSpan(span: TextSpan, spanStart: int, selectionStart: int, selectionEnd: int)
    returns (pieces: seq<TextSpan>)
    requires selectionStart < selectionEnd
    ensures pieces == ExtractPieces(span, spanStart, selectionStart, selectionEnd)
  {
    pieces := [];
    var spanEnd := spanStart + |span.text|;
    if spanEnd > selectionStart && spanStart < selectionEnd {
      var intersectionStart := IMax(spanStart, selectionStart);
      var intersectionEnd := IMin(spanEnd, selectionEnd);
      var intersectedText := span.text[intersectionStart - spanStart..intersectionEnd - spanStart];
      if |intersectedText| > 0 {
        pieces := [Part(span, intersectionStart - spanStart, intersectionEnd - spanStart)];
      }
    }
  }

  /** `getSpansForRange`: nothing for an empty range, otherwise its loop. */
  method GetSpansForRange(spans: seq<TextSpan>, range: Range) returns (extracted: seq<TextSpan>)
    ensures extracted == SpansInRange(spans, range)
    ensures Chars(extracted) == Window(Chars(spans), range)
    ensures NoEmptySpans(extracted)
  {
    SpansInRangeChars(spans, range);
    if range.start >= range.end {
      return [];
    }
    extracted := ExtractLoop(spans, range.start, range.end);
  }

  /** The loop of `getSpansForRange`: the pieces of each span inside the range, in order. */
  method ExtractLoop(spans: seq<TextSpan>, selectionStart: int, selectionEnd: int) returns (extracted: seq<TextSpan>)
    requires selectionStart < selectionEnd
    ensures extracted == ExtractFrom(spans, 0, selectionStart, selectionEnd)
  {
    extracted := [];
    var currentIndex := 0;
    var i := 0;
    while i < |spans|
      invariant 0 <= i <= |spans|
      invariant extracted + ExtractFrom(spans[i..], currentIndex, selectionStart, selectionEnd)
             == ExtractFrom(spans, 0, selectionStart, selectionEnd)
    {
      var span := spans[i];
      var spanStart := currentIndex;
      var spanEnd := currentIndex + |span.text|;
      var pieces := IntersectSpan(span, spanStart, selectionStart, selectionEnd);
      ExtractLoopStep(spans, i, currentIndex, selectionStart, selectionEnd, extracted, pieces);
      extracted := extracted + pieces;
      currentIndex := spanEnd;
      i := i + 1;
    }
    assert spans[i..] == [];
  }

  /** One turn of the loop of `getSpansForRange` keeps its invariant. */
  lemma ExtractLoopStep(spans: seq<TextSpan>, i: int, off: int, a: int, b: int,
                        extracted: seq<TextSpan>, pieces: seq<TextSpan>)
    requires 0 <= i < |spans| && a < b
    requires extracted + ExtractFrom(spans[i..], off, a, b) == ExtractFrom(spans, 0, a, b)
    requires pieces == ExtractPieces(spans[i], off, a, b)
    ensures (extracted + pieces) + ExtractFrom(spans[i + 1..], off + |spans[i].text|, a, b)
         == ExtractFrom(spans, 0, a, b)
  {
    ExtractFromAt(spans, i, off, a, b);
    LoopStep(extracted, ExtractFrom(spans[i..], off, a, b), pieces, ExtractPieces(spans[i], off, a, b),
             ExtractFrom(spans[i + 1..], off + |spans[i].text|, a, b), ExtractFrom(spans, 0, a, b));
  }

  /** What one span keeps in `removeRangeFromSpans`: itself when it misses `[a, b)`, otherwise
    * its parts before and after the range. */
  function RemovePieces(sp: TextSpan, off: int, a: int, b: int): seq<TextSpan>
    requires a < b
  {
    var e := off + |sp.text|;
    if e <= a || off >= b then [sp]
    else
      (if off < a then [Part(sp, 0, a - off)] else [])
      + (if e > b then [Part(sp, b - off, |sp.text|)] else [])
  }

  function RemoveFrom(spans: seq<TextSpan>, off: int, a: int, b: int): seq<TextSpan>
    requires a < b
  {
    if spans == [] then []
    else RemovePieces(spans[0], off, a, b) + RemoveFrom(spans[1..], off + |spans[0].text|, a, b)
  }

  lemma RemoveFromCons(spans: seq<TextSpan>, off: int, a: int, b: int)
    requires a < b && spans != []
    ensures RemoveFrom(spans, off, a, b)
         == RemovePieces(spans[0], off, a, b) + RemoveFrom(spans[1..], off + |spans[0].text|, a, b)
  {
  }

  lemma RemoveFromAt(spans: seq<TextSpan>, i: int, off: int, a: int, b: int)
    requires 0 <= i < |spans| && a < b
    ensures RemoveFrom(spans[i..], off, a, b)
         == RemovePieces(spans[i], off, a, b) + RemoveFrom(spans[i + 1..], off + |spans[i].text|, a, b)
  {
    assert spans[i..][0] == spans[i] && spans[i..][1..] == spans[i + 1..];
    RemoveFromCons(spans[i..], off, a, b);
  }

  /** The span list `removeRangeFromSpans(spans, range)` returns. */
  function SpansOutsideRange(spans: seq<TextSpan>, range: Range): seq<TextSpan> {
    if range.start >= range.end then spans else RemoveFrom(spans, 0, range.start, range.end)
  }

  lemma RemovePiecesChars(sp: TextSpan, off: int, a: int, b: int)
    requires a < b
    ensures Chars(RemovePieces(sp, off, a, b)) == Outside(SpanChars(sp), a - off, b - off)
  {
    var cs := SpanChars(sp);
    var e := off + |sp.text|;
    if e <= a || off >= b {
      CharsSingle(sp);
      if e <= a {
        assert Outside(cs, a - off, b - off) == cs + [];
      } else {
        assert Outside(cs, a - off, b - off) == [] + cs;
      }
    } else {
      var pre := if off < a then [Part(sp, 0, a - off)] else [];
      var post := if e > b then [Part(sp, b - off, |sp.text|)] else [];
      assert RemovePieces(sp, off, a, b) == pre + post;
      CharsAppend(pre, post);
      RemoveBeforeChars(sp, off, a, pre);
      RemoveAfterChars(sp, off, b, post);
    }
  }

  /** The part of a span before `a` holds the characters before `a`. */
  lemma RemoveBeforeChars(sp: TextSpan, off: int, a: int, pre: seq<TextSpan>)
    requires off + |sp.text| > a
    requires pre == if off < a then [Part(sp, 0, a - off)] else []
    ensures Chars(pre) == SpanChars(sp)[..Clamp(a - off, |SpanChars(sp)|)]
  {
    if off < a { PartChars(sp, 0, a - off); } else { assert Clamp(a - off, |SpanChars(sp)|) == 0; }
  }

  /** The part of a span from `b` on holds the characters from `b` on. */
  lemma RemoveAfterChars(sp: TextSpan, off: int, b: int, post: seq<TextSpan>)
    requires off < b
    requires post == if off + |sp.text| > b then [Part(sp, b - off, |sp.text|)] else []
    ensures Chars(post) == SpanChars(sp)[Clamp(b - off, |SpanChars(sp)|)..]
  {
    var n := |SpanChars(sp)|;
    if off + |sp.text| > b {
      PartChars(sp, b - off, |sp.text|);
      assert SpanChars(sp)[b - off..|sp.text|] == SpanChars(sp)[b - off..];
    } else {
      assert Clamp(b - off, n) == n;
    }
  }

  lemma {:induction false} RemoveFromChars(spans: seq<TextSpan>, off: int, a: int, b: int)
    requires a < b
    ensures Chars(RemoveFrom(spans, off, a, b)) == Outside(Chars(spans), a - off, b - off)
  {
    if spans == [] {
      assert Chars(spans) == [] && RemoveFrom(spans, off, a, b) == [];
    } else {
      var next := off + |spans[0].text|;
      RemoveFromChars(spans[1..], next, a, b);
      RemoveFromCharsStep(spans, off, a, b, next);
    }
  }

  /** The inductive step of `RemoveFromChars`. */
  lemma RemoveFromCharsStep(spans: seq<TextSpan>, off: int, a: int, b: int, next: int)
    requires a < b && spans != [] && next == off + |spans[0].text|
    requires Chars(RemoveFrom(spans[1..], next, a, b)) == Outside(Chars(spans[1..]), a - next, b - next)
    ensures Chars(RemoveFrom(spans, off, a, b)) == Outside(Chars(spans), a - off, b - off)
  {
    RemoveFromCons(spans, off, a, b);
    CharsCons(spans);
    RemovePiecesChars(spans[0], off, a, b);
    RemovePiecesStep(spans[0], RemovePieces(spans[0], off, a, b), Chars(spans[1..]), off, a, b, next,
      RemoveFrom(spans[1..], next, a, b));
  }

  /** Spans `p` holding what lies outside the range in one span's characters, followed by
    * spans `t` holding what lies outside it in `cs2`, hold what lies outside it in the
    * span's characters followed by `cs2`. */
  lemma RemovePiecesStep(sp: TextSpan, p: seq<TextSpan>, cs2: seq<StyledChar>, off: int, a: int, b: int, next: int,
      t: seq<TextSpan>)
    requires a < b && next == off + |sp.text|
    requires Chars(p) == Outside(SpanChars(sp), a - off, b - off)
    requires Chars(t) == Outside(cs2, a - next, b - next)
    ensures Chars(p + t) == Outside(SpanChars(sp) + cs2, a - off, b - off)
  {
    CharsAppend(p, t);
    OutsideAppendAt(SpanChars(sp), cs2, a - off, b - off, a - next, b - next);
  }

  /** removeRangeFromSpans keeps exactly the styled characters outside the range, in order. */
  lemma SpansOutsideRangeChars(spans: seq<TextSpan>, range: Range)
    ensures range.start >= range.end ==> SpansOutsideRange(spans, range) == spans
    ensures range.start < range.end ==>
      Chars(SpansOutsideRange(spans, range)) == Outside(Chars(spans), range.start, range.end)
  {
    if range.start < range.end { RemoveFromChars(spans, 0, range.start, range.end); }
  }

  /** Over any range, the characters outside it and the characters inside it, put back at the
    * range start, are the original characters. */
  lemma RemoveAndExtractPartition(spans: seq<TextSpan>, range: Range)
    requires 0 <= range.start < range.end
    ensures var cs := Chars(spans);
      cs == Outside(cs, range.start, range.end)[..Clamp(range.start, |cs|)]
            + Chars(SpansInRange(spans, range))
            + Outside(cs, range.start, range.end)[Clamp(range.start, |cs|)..]
  {
    SpansInRangeChars(spans, range);
    OutsideSplice(Chars(spans), range.start, range.end);
  }

  /** What lies outside `[lo, hi)`, with the slice put back at the clamped start, is the whole run. */
  lemma OutsideSplice<T>(cs: seq<T>, lo: int, hi: int)
    requires lo <= hi
    ensures cs == Outside(cs, lo, hi)[..Clamp(lo, |cs|)] + Slice(cs, lo, hi) + Outside(cs, lo, hi)[Clamp(lo, |cs|)..]
  {
    var l, h := Clamp(lo, |cs|), Clamp(hi, |cs|);
    assert Outside(cs, lo, hi)[..l] == cs[..l];
    assert Outside(cs, lo, hi)[l..] == cs[h..];
    assert cs == cs[..l] + cs[l..h] + cs[h..];
  }

  /** The body of the loop of `removeRangeFromSpans`. */
  method CutSpan(span: TextSpan, spanStart: int, selectionStart: int, selectionEnd: int)
    returns (pieces: seq<TextSpan>)
    requires selectionStart < selectionEnd
    ensures pieces == RemovePieces(span, spanStart, selectionStart, selectionEnd)
  {
    var spanEnd := spanStart + |span.text|;
    if spanEnd <= selectionStart || spanStart >= selectionEnd {
      return [span];
    }
    pieces := [];
    if spanStart < selectionStart {
      pieces := pieces + [Part(span, 0, selectionStart - spanStart)];
    }
    if spanEnd > selectionEnd {
      pieces := pieces + [Part(span, selectionEnd - spanStart, |span.text|)];
    }
  }

  /** `removeRangeFromSpans`: the spans unchanged for an empty range, else the loop below. */
  method RemoveRangeFromSpans(spans: seq<TextSpan>, range: Range) returns (remaining: seq<TextSpan>)
    ensures remaining == SpansOutsideRange(spans, range)
  {
    if range.start >= range.end {
      return spans;
    }
    remaining := RemoveLoop(spans, range.start, range.end);
  }

  /** The loop of `removeRangeFromSpans`: the parts of each span outside the range, in order. */
  method RemoveLoop(spans: seq<TextSpan>, selectionStart: int, selectionEnd: int) returns (remaining: seq<TextSpan>)
    requires selectionStart < selectionEnd
    ensures remaining == RemoveFrom(spans, 0, selectionStart, selectionEnd)
  {
    remaining := [];
    var currentIndex := 0;
    var i := 0;
    while i < |spans|
      invariant 0 <= i <= |spans|
      invariant remaining + RemoveFrom(spans[i..], currentIndex, selectionStart, selectionEnd)
             == RemoveFrom(spans, 0, selectionStart, selectionEnd)
    {
      var span := spans[i];
      var spanStart := currentIndex;
      var spanEnd := currentIndex + |span.text|;
      var pieces := CutSpan(span, spanStart, selectionStart, selectionEnd);
      RemoveFromAt(spans, i, currentIndex, selectionStart, selectionEnd);
      LoopStep(remaining, RemoveFrom(spans[i..], currentIndex, selectionStart, selectionEnd),
               pieces, RemovePieces(span, spanStart, selectionStart, selectionEnd),
               RemoveFrom(spans[i + 1..], spanEnd, selectionStart, selectionEnd),
               RemoveFrom(spans, 0, selectionStart, selectionEnd));
      remaining := remaining + pieces;
      currentIndex := spanEnd;
      i := i + 1;
    }
    assert spans[i..] == [];
  }

  // ---------------------------------------------------------------------------
  // getStyleStateForRange
  // ---------------------------------------------------------------------------

  datatype StyleKey = UnderlineKey | StrikethroughKey | ScriptKey | TransformKey

  /** `boolean | 'mixed'` */
  datatype Toggle = Flag(on: bool) | Mixed

  /** `textScript || 'normal'` */
  function ScriptOf(st: SpanStyle): Script { st.textScript.GetOr(Normal) }

  /** `textTransform || 'none'` */
  function TransformOf(st: SpanStyle): CaseTransform { st.textTransform.GetOr(NoTransform) }

  /** Whether a span style counts as having the style `key`: a truthy flag for underline and
    * strikethrough, superscript for the script, upper case for the transform. */
  predicate IsOn(st: SpanStyle, key: StyleKey) {
    match key
    case UnderlineKey => st.underline == Some(true)
    case StrikethroughKey => st.strikethrough == Some(true)
    case ScriptKey => ScriptOf(st) == Superscript
    case TransformKey => TransformOf(st) == Uppercase
  }

  /** The state of a style over the spans `getSpansForRange` returns: for the script and the
    * transform, mixed when the spans disagree and otherwise whether the first one has it; for
    * the flags, on when every span has it, mixed when only some do. */
  function SpansToggle(inRange: seq<TextSpan>, key: StyleKey): Toggle {
    if inRange == [] then Flag(false)
    else
      match key
      case ScriptKey =>
        var first := ScriptOf(inRange[0].style);
        if !(forall i | 0 <= i < |inRange| :: ScriptOf(inRange[i].style) == first) then Mixed
        else Flag(first == Superscript)
      case TransformKey =>
        var first := TransformOf(inRange[0].style);
        if !(forall i | 0 <= i < |inRange| :: TransformOf(inRange[i].style) == first) then Mixed
        else Flag(first == Uppercase)
      case _ =>
        if forall i | 0 <= i < |inRange| :: IsOn(inRange[i].style, key) then Flag(true)
        else if exists i | 0 <= i < |inRange| :: IsOn(inRange[i].style, key) then Mixed
        else Flag(false)
  }

  /** `getStyleStateForRange(spans, range, key)` */
  function StyleStateForRange(spans: seq<TextSpan>, range: Range, key: StyleKey): Toggle {
    SpansToggle(SpansInRange(spans, range), key)
  }

  /** The state of a style over a run of styled characters: on when every character has it,
    * mixed when only some have it, off otherwise (and off when there are no characters). */
  function CharsToggle(cs: seq<StyledChar>, key: StyleKey): Toggle {
    if cs == [] then Flag(false)
    else if forall k | 0 <= k < |cs| :: IsOn(cs[k].1, key) then Flag(true)
    else if exists k | 0 <= k < |cs| :: IsOn(cs[k].1, key) then Mixed
    else Flag(false)
  }

  predicate AllSpansOn(s: seq<TextSpan>, key: StyleKey) { forall i | 0 <= i < |s| :: IsOn(s[i].style, key) }
  predicate SomeSpanOn(s: seq<TextSpan>, key: StyleKey) { exists i | 0 <= i < |s| :: IsOn(s[i].style, key) }
  predicate AllCharsOn(cs: seq<StyledChar>, key: StyleKey) { forall k | 0 <= k < |cs| :: IsOn(cs[k].1, key) }
  predicate SomeCharOn(cs: seq<StyledChar>, key: StyleKey) { exists k | 0 <= k < |cs| :: IsOn(cs[k].1, key) }

  lemma SpansOnCons(s: seq<TextSpan>, key: StyleKey)
    requires s != []
    ensures AllSpansOn(s, key) <==> IsOn(s[0].style, key) && AllSpansOn(s[1..], key)
    ensures SomeSpanOn(s, key) <==> IsOn(s[0].style, key) || SomeSpanOn(s[1..], key)
  {
    assert forall i | 1 <= i < |s| :: s[i] == s[1..][i - 1];
    if SomeSpanOn(s[1..], key) {
      var i :| 0 <= i < |s[1..]| && IsOn(s[1..][i].style, key);
      assert s[i + 1] == s[1..][i];
    }
  }

  lemma AllCharsOnAppend(a: seq<StyledChar>, b: seq<StyledChar>, key: StyleKey)
    ensures AllCharsOn(a + b, key) <==> AllCharsOn(a, key) && AllCharsOn(b, key)
  {
    if AllCharsOn(a + b, key) {
      forall k | 0 <= k < |a| ensures IsOn(a[k].1, key) { assert a[k] == (a + b)[k]; }
      forall k | 0 <= k < |b| ensures IsOn(b[k].1, key) { assert b[k] == (a + b)[|a| + k]; }
    }
    if AllCharsOn(a, key) && AllCharsOn(b, key) {
      forall k | 0 <= k < |a + b| ensures IsOn((a + b)[k].1, key) {
        if k < |a| { assert (a + b)[k] == a[k]; } else { assert (a + b)[k] == b[k - |a|]; }
      }
    }
  }

  lemma SomeCharOnAppend(a: seq<StyledChar>, b: seq<StyledChar>, key: StyleKey)
    ensures SomeCharOn(a + b, key) <==> SomeCharOn(a, key) || SomeCharOn(b, key)
  {
    if SomeCharOn(a, key) {
      var k :| 0 <= k < |a| && IsOn(a[k].1, key);
      assert (a + b)[k] == a[k];
    }
    if SomeCharOn(b, key) {
      var k :| 0 <= k < |b| && IsOn(b[k].1, key);
      assert (a + b)[|a| + k] == b[k];
    }
    if SomeCharOn(a + b, key) {
      var k :| 0 <= k < |a + b| && IsOn((a + b)[k].1, key);
      if k >= |a| { assert (a + b)[k] == b[k - |a|]; } else { assert (a + b)[k] == a[k]; }
    }
  }

  /** Every character of a non-empty span carries its style. */
  lemma SpanCharsOn(sp: TextSpan, key: StyleKey)
    requires sp.text != ""
    ensures AllCharsOn(SpanChars(sp), key) <==> IsOn(sp.style, key)
    ensures SomeCharOn(SpanChars(sp), key) <==> IsOn(sp.style, key)
  {
    SpanCharsAt(sp);
    assert SpanChars(sp)[0].1 == sp.style;
  }

  /** Without empty spans, a style is on for every (some) span exactly when it is on for every
    * (some) character. */
  lemma {:induction false} SpansOnChars(s: seq<TextSpan>, key: StyleKey)
    requires NoEmptySpans(s)
    ensures AllSpansOn(s, key) <==> AllCharsOn(Chars(s), key)
    ensures SomeSpanOn(s, key) <==> SomeCharOn(Chars(s), key)
  {
    if s != [] {
      var head, rest := SpanChars(s[0]), s[1..];
      assert NoEmptySpans(rest) by { assert forall i | 0 <= i < |rest| :: rest[i] == s[i + 1]; }
      SpansOnChars(rest, key);
      assert Chars(s) == head + Chars(rest);
      SpansOnCons(s, key);
      SpanCharsOn(s[0], key);
      AllCharsOnAppend(head, Chars(rest), key);
      SomeCharOnAppend(head, Chars(rest), key);
    }
  }

  /** Over spans without empty ones, the state of a style is the state over their characters. */
  lemma SpansToggleChars(s: seq<TextSpan>, key: StyleKey)
    requires NoEmptySpans(s)
    ensures SpansToggle(s, key) == CharsToggle(Chars(s), key)
  {
    NoEmptyCharsEmpty(s);
    SpansOnChars(s, key);
    if s != [] {
      if key.ScriptKey? {
        ScriptAllSame(s);
      } else if key.TransformKey? {
        TransformAllSame(s);
      }
    }
  }

  /** The style state of a range depends only on the styled characters in it. */
  lemma StyleStateChars(spans: seq<TextSpan>, range: Range, key: StyleKey)
    ensures StyleStateForRange(spans, range, key) == CharsToggle(Window(Chars(spans), range), key)
  {
    SpansInRangeChars(spans, range);
    SpansToggleChars(SpansInRange(spans, range), key);
  }

  /** With two script values, all spans agree exactly when all are superscript or none is. */
  lemma ScriptAllSame(s: seq<TextSpan>)
    requires s != []
    ensures (forall i | 0 <= i < |s| :: ScriptOf(s[i].style) == ScriptOf(s[0].style))
        <==> (forall i | 0 <= i < |s| :: IsOn(s[i].style, ScriptKey))
             || !(exists i | 0 <= i < |s| :: IsOn(s[i].style, ScriptKey))
  {
  }

  lemma TransformAllSame(s: seq<TextSpan>)
    requires s != []
    ensures (forall i | 0 <= i < |s| :: TransformOf(s[i].style) == TransformOf(s[0].style))
        <==> (forall i | 0 <= i < |s| :: IsOn(s[i].style, TransformKey))
             || !(exists i | 0 <= i < |s| :: IsOn(s[i].style, TransformKey))
  {
  }

  /** The patch that the toggle of `key` applies: the flag set to `on`, or the script or case
    * transform set to its "on" or "off" value. */
  function TogglePatch(key: StyleKey, on: bool): StylePatch {
    match key
    case UnderlineKey => KeepAll.(underline := Put(on))
    case StrikethroughKey => KeepAll.(strikethrough := Put(on))
    case ScriptKey => KeepAll.(textScript := Put(if on then Superscript else Normal))
    case TransformKey => KeepAll.(textTransform := Put(if on then Uppercase else NoTransform))
  }

  lemma WindowRestyled(cs: seq<StyledChar>, range: Range, p: StylePatch)
    ensures var w := Window(RestyleChars(cs, 0, range.start, range.end, p), range);
      |w| == |Window(cs, range)| &&
      forall k | 0 <= k < |w| :: w[k] == (Window(cs, range)[k].0, ApplyPatch(Window(cs, range)[k].1, p))
  {
  }

  /** Applying the toggle patch of `key` with `on` over a range that holds characters leaves
    * the style state of that range equal to `on`. */
  lemma ToggleSetsState(spans: seq<TextSpan>, range: Range, key: StyleKey, on: bool)
    requires Window(Chars(spans), range) != []
    ensures StyleStateForRange(Restyled(spans, range, TogglePatch(key, on)), range, key) == Flag(on)
  {
    var p := TogglePatch(key, on);
    var after := Restyled(spans, range, p);
    RestyledChars(spans, range, p);
    StyleStateChars(after, range, key);
    WindowRestyled(Chars(spans), range, p);
    var w := Window(Chars(after), range);
    TogglePatchOn(Window(Chars(spans), range), w, key, on);
    UniformToggle(w, key, on);
  }

  /** A toggle patch turns the style on, or off, for every character it reaches. */
  lemma TogglePatchOn(cs: seq<StyledChar>, w: seq<StyledChar>, key: StyleKey, on: bool)
    requires |w| == |cs|
    requires forall k | 0 <= k < |w| :: w[k] == (cs[k].0, ApplyPatch(cs[k].1, TogglePatch(key, on)))
    ensures forall k | 0 <= k < |w| :: IsOn(w[k].1, key) == on
  {
  }

  /** Characters that all agree on a style give its state. */
  lemma UniformToggle(w: seq<StyledChar>, key: StyleKey, on: bool)
    requires w != []
    requires forall k | 0 <= k < |w| :: IsOn(w[k].1, key) == on
    ensures CharsToggle(w, key) == Flag(on)
  {
    if !on { assert !IsOn(w[0].1, key); }
  }

  // ---------------------------------------------------------------------------
  // getPropertyStateForRange
  // ---------------------------------------------------------------------------

  datatype PropKey = FontFamilyKey | FontSizeKey | ColorKey | FontWeightKey

  /** A value of one of the four properties: a string or a number. */
  datatype PropValue = Str(s: string) | Num(n: real)

  /** `string | number | 'mixed' | undefined` */
  datatype PropState = Value(v: PropValue) | MixedValue | NoValue

  /** `span[key] ?? layer[key]` */
  function PropOf(st: SpanStyle, layer: TextProps, key: PropKey): PropValue {
    match key
    case FontFamilyKey => Str(st.fontFamily.GetOr(layer.fontFamily))
    case FontSizeKey => Num(st.fontSize.GetOr(layer.fontSize))
    case ColorKey => Str(st.color.GetOr(layer.color))
    case FontWeightKey => Num(st.fontWeight.GetOr(layer.fontWeight) as real)
  }

  /** The value at the first span whose closed interval `[start, end]` contains `pos`. */
  function FallbackFrom(spans: seq<TextSpan>, off: int, pos: int, layer: TextProps, key: PropKey): PropState {
    if spans == [] then NoValue
    else if pos >= off && pos <= off + |spans[0].text| then Value(PropOf(spans[0].style, layer, key))
    else FallbackFrom(spans[1..], off + |spans[0].text|, pos, layer, key)
  }

  /** `getPropertyStateForRange(layer, range, key)` */
  function PropertyStateForRange(layer: TextProps, range: Range, key: PropKey): PropState {
    var inRange := NonEmpty(SpansInRange(layer.spans, range));
    if inRange == [] then FallbackFrom(layer.spans, 0, range.start, layer, key)
    else
      var first := PropOf(inRange[0].style, layer, key);
      if forall i | 1 <= i < |inRange| :: PropOf(inRange[i].style, layer, key) == first then Value(first)
      else MixedValue
  }

  /** The fallback finds a span exactly when the position lies between the start and the end of
    * the text, both included. */
  lemma {:induction false} FallbackFound(spans: seq<TextSpan>, off: int, pos: int, layer: TextProps, key: PropKey)
    ensures FallbackFrom(spans, off, pos, layer, key) != NoValue
        <==> spans != [] && off <= pos <= off + |PlainText(spans)|
  {
    if spans != [] {
      FallbackFound(spans[1..], off + |spans[0].text|, pos, layer, key);
    }
  }

  /** Over a range that holds characters, the property state is the common value of all those
    * characters when they agree, and mixed otherwise. */
  lemma PropertyStateChars(layer: TextProps, range: Range, key: PropKey)
    requires Window(Chars(layer.spans), range) != []
    ensures var w := Window(Chars(layer.spans), range);
      PropertyStateForRange(layer, range, key)
        == if forall k | 0 <= k < |w| :: PropOf(w[k].1, layer, key) == PropOf(w[0].1, layer, key)
           then Value(PropOf(w[0].1, layer, key)) else MixedValue
  {
    var s := SpansInRange(layer.spans, range);
    SpansInRangeChars(layer.spans, range);
    NonEmptyIdentity(s);
    NoEmptyCharsEmpty(s);
    SpansAgreeChars(s, layer, key);
  }

  lemma {:induction false} SpansAgreeChars(s: seq<TextSpan>, layer: TextProps, key: PropKey)
    requires NoEmptySpans(s) && s != []
    ensures Chars(s) != [] && Chars(s)[0].1 == s[0].style
    ensures (forall i | 1 <= i < |s| :: PropOf(s[i].style, layer, key) == PropOf(s[0].style, layer, key))
        <==> (forall k | 0 <= k < |Chars(s)| :: PropOf(Chars(s)[k].1, layer, key) == PropOf(s[0].style, layer, key))
  {
    var v := PropOf(s[0].style, layer, key);
    var head, rest := SpanChars(s[0]), s[1..];
    SpanCharsAt(s[0]);
    assert Chars(s) == head + Chars(rest);
    assert Chars(s)[0] == head[0];
    SpansValueChars(rest, layer, key, v);
    if forall i | 1 <= i < |s| :: PropOf(s[i].style, layer, key) == v {
      assert forall i | 0 <= i < |rest| :: PropOf(rest[i].style, layer, key) == v by {
        forall i | 0 <= i < |rest| ensures PropOf(rest[i].style, layer, key) == v { assert rest[i] == s[i + 1]; }
      }
      forall k | 0 <= k < |Chars(s)| ensures PropOf(Chars(s)[k].1, layer, key) == v {
        if k >= |head| { assert Chars(s)[k] == Chars(rest)[k - |head|]; }
      }
    }
    if forall k | 0 <= k < |Chars(s)| :: PropOf(Chars(s)[k].1, layer, key) == v {
      forall k | 0 <= k < |Chars(rest)| ensures PropOf(Chars(rest)[k].1, layer, key) == v {
        assert Chars(s)[|head| + k] == Chars(rest)[k];
      }
      forall i | 1 <= i < |s| ensures PropOf(s[i].style, layer, key) == v { assert s[i] == rest[i - 1]; }
    }
  }

  lemma {:induction false} SpansValueChars(s: seq<TextSpan>, layer: TextProps, key: PropKey, v: PropValue)
    requires NoEmptySpans(s)
    ensures (forall i | 0 <= i < |s| :: PropOf(s[i].style, layer, key) == v)
        <==> (forall k | 0 <= k < |Chars(s)| :: PropOf(Chars(s)[k].1, layer, key) == v)
  {
    if s != [] {
      var head, rest := SpanChars(s[0]), s[1..];
      SpanCharsAt(s[0]);
      SpansValueChars(rest, layer, key, v);
      assert Chars(s) == head + Chars(rest);
      if forall i | 0 <= i < |s| :: PropOf(s[i].style, layer, key) == v {
        forall k | 0 <= k < |Chars(s)| ensures PropOf(Chars(s)[k].1, layer, key) == v {
          if k >= |head| { assert Chars(s)[k] == Chars(rest)[k - |head|]; }
        }
      }
      if forall k | 0 <= k < |Chars(s)| :: PropOf(Chars(s)[k].1, layer, key) == v {
        forall k | 0 <= k < |Chars(rest)| ensures PropOf(Chars(rest)[k].1, layer, key) == v {
          assert Chars(s)[|head| + k] == Chars(rest)[k];
        }
        forall i | 0 <= i < |s| ensures PropOf(s[i].style, layer, key) == v {
          if i > 0 { assert s[i] == rest[i - 1]; } else { assert Chars(s)[0] == head[0]; }
        }
      }
    }
  }

  /** The loops of `getPropertyStateForRange`. */
  method GetPropertyStateForRange(layer: TextProps, range: Range, key: PropKey) returns (state: PropState)
    ensures state == PropertyStateForRange(layer, range, key)
  {
    var extracted := GetSpansForRange(layer.spans, range);
    var spansInRange := NonEmpty(extracted);
    if |spansInRange| == 0 {
      var currentIndex := 0;
      var i := 0;
      while i < |layer.spans|
        invariant 0 <= i <= |layer.spans|
        invariant FallbackFrom(layer.spans[i..], currentIndex, range.start, layer, key)
               == FallbackFrom(layer.spans, 0, range.start, layer, key)
      {
        var span := layer.spans[i];
        var spanEnd := currentIndex + |span.text|;
        assert layer.spans[i..][0] == span && layer.spans[i..][1..] == layer.spans[i + 1..];
        if range.start >= currentIndex && range.start <= spanEnd {
          return Value(PropOf(span.style, layer, key));
        }
        currentIndex := spanEnd;
        i := i + 1;
      }
      return NoValue;
    }
    var firstValue := PropOf(spansInRange[0].style, layer, key);
    var i := 1;
    while i < |spansInRange|
      invariant 1 <= i <= |spansInRange|
      invariant forall j | 1 <= j < i :: PropOf(spansInRange[j].style, layer, key) == firstValue
    {
      if PropOf(spansInRange[i].style, layer, key) != firstValue {
        return MixedValue;
      }
      i := i + 1;
    }
    return Value(firstValue);
  }
}
