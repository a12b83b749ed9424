/**
 * The JavaScript string primitives the editor relies on, written out: decimal formatting and
 * parsing of counters, `String.prototype.trim`, and upper-casing of ASCII letters.
 */
module Strings {

  predicate IsDigit(c: char) { '0' <= c <= '9' }

  predicate AllDigits(s: string) { forall i | 0 <= i < |s| :: IsDigit(s[i]) }

  /** A regular-expression line terminator, which `.` does not match without the `s` flag. */
  predicate IsLineTerminator(c: char) {
    c == '\n' || c == '\r' || c == '\U{2028}' || c == '\U{2029}'
  }

  function DigitChar(d: nat): (c: char)
    requires d < 10
    ensures IsDigit(c)
  {
    ['0', '1', '2', '3', '4', '5', '6', '7', '8', '9'][d]
  }

  function DigitValue(c: char): (d: nat)
    requires IsDigit(c)
    ensures d < 10
  {
    (c as int - '0' as int) as nat
  }

  lemma DigitRoundTrip(d: nat)
    requires d < 10
    ensures DigitValue(DigitChar(d)) == d
  {
  }

  /** `${n}` for a non-negative integer: its decimal digits without leading zeros. */
  function NatToString(n: nat): (s: string)
    ensures |s| >= 1 && AllDigits(s)
  {
    if n < 10 then [DigitChar(n)] else NatToString(n / 10) + [DigitChar(n % 10)]
  }

  /** `parseInt(s, 10)` on a non-empty run of decimal digits. */
  function ParseDigits(s: string): nat
    requires AllDigits(s)
  {
    if s == [] then 0 else 10 * ParseDigits(s[..|s| - 1]) + DigitValue(s[|s| - 1])
  }

  /** Parsing a formatted number gives the number back. */
  lemma {:induction false} ParseNatToString(n: nat)
    ensures ParseDigits(NatToString(n)) == n
  {
    var s := NatToString(n);
    if n < 10 {
      DigitRoundTrip(n);
    } else {
      ParseNatToString(n / 10);
      assert s[..|s| - 1] == NatToString(n / 10);
      DigitRoundTrip(n % 10);
    }
  }

  /** Different numbers format differently, also after a common prefix. */
  lemma NatToStringInjective(prefix: string, a: nat, b: nat)
    requires prefix + NatToString(a) == prefix + NatToString(b)
    ensures a == b
  {
    assert NatToString(a) == (prefix + NatToString(a))[|prefix|..];
    assert NatToString(b) == (prefix + NatToString(b))[|prefix|..];
    ParseNatToString(a);
    ParseNatToString(b);
  }

  /** The characters `String.prototype.trim` removes: the white space and line terminator
    * code points of ECMAScript. */
  predicate IsWhiteSpace(c: char) {
    c == ' ' || c == '\t' || c == '\n' || c == '\r' || c == '\U{000B}' || c == '\U{000C}'
    || c == '\U{00A0}' || c == '\U{1680}' || ('\U{2000}' <= c <= '\U{200A}')
    || c == '\U{2028}' || c == '\U{2029}' || c == '\U{202F}' || c == '\U{205F}'
    || c == '\U{3000}' || c == '\U{FEFF}'
  }

  function TrimStart(s: string): (r: string)
    ensures |r| <= |s| && r == s[|s| - |r|..]
    ensures r == [] || !IsWhiteSpace(r[0])
  {
    if s != [] && IsWhiteSpace(s[0]) then TrimStart(s[1..]) else s
  }

  function TrimEnd(s: string): (r: string)
    ensures |r| <= |s| && r == s[..|r|]
    ensures r == [] || !IsWhiteSpace(r[|r| - 1])
  {
    if s != [] && IsWhiteSpace(s[|s| - 1]) then TrimEnd(s[..|s| - 1]) else s
  }

  /** `s.trim()`: the slice of `s` left after removing white space at both ends. */
  function Trim(s: string): string {
    TrimEnd(TrimStart(s))
  }

  /** Trimming yields the slice of the input that starts after its leading white space and
    * neither starts nor ends with white space. */
  lemma TrimSlice(s: string)
    ensures var r, i := Trim(s), |s| - |TrimStart(s)|;
      && i + |r| <= |s| && r == s[i..i + |r|]
      && (r == [] || (!IsWhiteSpace(r[0]) && !IsWhiteSpace(r[|r| - 1])))
  {
    TrimmedParts(s, TrimStart(s), Trim(s));
  }

  /** A prefix `r` of a suffix `t` of `s` is a slice of `s`; when `t` starts and `r` ends
    * with no white space, `r` neither starts nor ends with white space. */
  lemma TrimmedParts(s: string, t: string, r: string)
    requires |t| <= |s| && t == s[|s| - |t|..] && (t == [] || !IsWhiteSpace(t[0]))
    requires |r| <= |t| && r == t[..|r|] && (r == [] || !IsWhiteSpace(r[|r| - 1]))
    ensures var i := |s| - |t|;
      && i + |r| <= |s| && r == s[i..i + |r|]
      && (r == [] || (!IsWhiteSpace(r[0]) && !IsWhiteSpace(r[|r| - 1])))
  {
    var i := |s| - |t|;
    assert r == s[i..][..|r|] == s[i..i + |r|];
    if r != [] {
      assert r[0] == t[0];
    }
  }

  /** `TrimStart` cuts off only white space. */
  lemma {:induction false} TrimStartCut(s: string)
    ensures forall i | 0 <= i < |s| - |TrimStart(s)| :: IsWhiteSpace(s[i])
  {
    if s != [] && IsWhiteSpace(s[0]) {
      TrimStartCut(s[1..]);
      forall i | 1 <= i < |s| - |TrimStart(s)| ensures IsWhiteSpace(s[i]) {
        assert s[i] == s[1..][i - 1];
      }
    }
  }

  /** `TrimEnd` cuts off only white space. */
  lemma {:induction false} TrimEndCut(s: string)
    ensures forall i | |TrimEnd(s)| <= i < |s| :: IsWhiteSpace(s[i])
  {
    if s != [] && IsWhiteSpace(s[|s| - 1]) {
      TrimEndCut(s[..|s| - 1]);
      forall i | |TrimEnd(s)| <= i < |s| - 1 ensures IsWhiteSpace(s[i]) {
        assert s[i] == s[..|s| - 1][i];
      }
    }
  }

  /** Everything trimming cuts off is white space. */
  lemma TrimCut(s: string)
    ensures var r, i := Trim(s), |s| - |TrimStart(s)|;
      && (forall k | 0 <= k < i :: IsWhiteSpace(s[k]))
      && (forall k | i + |r| <= k < |s| :: IsWhiteSpace(s[k]))
  {
    var t := TrimStart(s);
    var r := TrimEnd(t);
    var i := |s| - |t|;
    TrimStartCut(s);
    TrimEndCut(t);
    forall k | i + |r| <= k < |s| ensures IsWhiteSpace(s[k]) {
      assert s[k] == t[k - i];
    }
  }

  /** Trimming again changes nothing. */
  lemma TrimIdempotent(s: string)
    ensures Trim(Trim(s)) == Trim(s)
  {
    var r := Trim(s);
    TrimSlice(s);
    if r != [] {
      assert TrimStart(r) == r;
      assert TrimEnd(r) == r;
    }
  }

  /** A string that is all white space trims to the empty string. */
  lemma TrimBlank(s: string)
    requires forall i | 0 <= i < |s| :: IsWhiteSpace(s[i])
    ensures Trim(s) == ""
  {
    TrimSlice(s);
  }

  function UpperChar(c: char): char {
    if 'a' <= c <= 'z' then (c as int - 'a' as int + 'A' as int) as char else c
  }

  /** `toUpperCase()` on ASCII letters; every other character is kept. */
  function ToUpper(s: string): (r: string)
    ensures |r| == |s|
    ensures forall i | 0 <= i < |s| :: r[i] == UpperChar(s[i])
  {
    seq(|s|, i requires 0 <= i < |s| => UpperChar(s[i]))
  }

  lemma ToUpperIdempotent(s: string)
    ensures ToUpper(ToUpper(s)) == ToUpper(s)
  {
  }

  lemma ToUpperAppend(a: string, b: string)
    ensures ToUpper(a + b) == ToUpper(a) + ToUpper(b)
  {
  }

  /** `${prefix}${n}` */
  function Numbered(prefix: string, n: nat): string {
    prefix + NatToString(n)
  }

  /** The names numbered `lo` up to, but not including, `hi`. */
  function NumberedRange(prefix: string, lo: nat, hi: nat): set<string>
    decreases hi - lo
  {
    if hi <= lo then {} else NumberedRange(prefix, lo, hi - 1) + {Numbered(prefix, hi - 1)}
  }

  lemma {:induction false} NumberedRangeMembers(prefix: string, lo: nat, hi: nat, n: nat)
    ensures Numbered(prefix, n) in NumberedRange(prefix, lo, hi) <==> lo <= n < hi
    decreases hi - lo
  {
    if hi > lo {
      NumberedRangeMembers(prefix, lo, hi - 1, n);
      assert NumberedRange(prefix, lo, hi) == NumberedRange(prefix, lo, hi - 1) + {Numbered(prefix, hi - 1)};
      if n != hi - 1 { NumberedDistinct(prefix, n, hi - 1); }
    }
  }

  /** Different counters give different names. */
  lemma NumberedDistinct(prefix: string, a: nat, b: nat)
    requires a != b
    ensures Numbered(prefix, a) != Numbered(prefix, b)
  {
    if Numbered(prefix, a) == Numbered(prefix, b) {
      NatToStringInjective(prefix, a, b);
    }
  }

  /** A counter search that starts at `lo` and has found names `lo..hi-1` all taken has
    * consumed that many distinct taken names, so it cannot run past `lo + |taken|`. */
  lemma NumberedRangeStep(prefix: string, lo: nat, hi: nat, taken: set<string>)
    requires lo <= hi
    requires NumberedRange(prefix, lo, hi) <= taken
    requires Numbered(prefix, hi) in taken
    ensures NumberedRange(prefix, lo, hi + 1) <= taken
    ensures |taken - NumberedRange(prefix, lo, hi + 1)| < |taken - NumberedRange(prefix, lo, hi)|
  {
    var name := Numbered(prefix, hi);
    NumberedRangeMembers(prefix, lo, hi, hi);
    assert NumberedRange(prefix, lo, hi + 1) == NumberedRange(prefix, lo, hi) + {name};
    var before := taken - NumberedRange(prefix, lo, hi);
    assert taken - NumberedRange(prefix, lo, hi + 1) == before - {name};
    assert name in before;
  }

  /** JavaScript `s.substring(a, b)` for non-negative indices: both ends are clamped to
    * the length and the two are swapped when `b < a`. */
  function Substring(s: string, a: nat, b: nat): (r: string)
    ensures a <= b ==> r == s[if a <= |s| then a else |s| .. if b <= |s| then b else |s|]
    ensures b < a ==> r == Substring(s, b, a)
    ensures |r| <= |s|
  {
    var lo := if a <= b then a else b;
    var hi := if a <= b then b else a;
    var lo' := if lo <= |s| then lo else |s|;
    var hi' := if hi <= |s| then hi else |s|;
    s[lo'..hi']
  }

  /** JavaScript `s.substring(a)`: the suffix from `a`, clamped to the length. */
  function SubstringFrom(s: string, a: nat): (r: string)
    ensures r == Substring(s, a, |s|)
  {
    s[if a <= |s| then a else |s|..]
  }
}
