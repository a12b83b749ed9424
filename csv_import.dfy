// Importing a CSV file: the quote-aware line splitter, the quote-aware field
// splitter and the header/row objects built from them (App.tsx).
module CsvImport {
  import opened Strings

  // ------------------------------------------------------------ quote count

  /** The number of `"` characters in `s`. */
  function Quotes(s: string): nat {
    if s == [] then 0 else (if s[0] == '"' then 1 else 0) + Quotes(s[1..])
  }

  lemma {:induction false} QuotesAppend(a: string, b: string)
    ensures Quotes(a + b) == Quotes(a) + Quotes(b)
  {
    if a != [] {
      assert (a + b)[1..] == a[1..] + b;
      QuotesAppend(a[1..], b);
    } else {
      assert a + b == b;
    }
  }

  predicate Even(n: nat) { n % 2 == 0 }

  // ------------------------------------------------------- split and join

  /** `s.split(sep)` for a one-character separator. */
  function SplitOn(s: string, sep: char): (r: seq<string>)
    ensures |r| >= 1
  {
    if s == [] then [""]
    else
      var rest := SplitOn(s[1..], sep);
      if s[0] == sep then [""] + rest else [[s[0]] + rest[0]] + rest[1..]
  }

  /** `pieces.join(sep)`. */
  function Join(pieces: seq<string>, sep: char): string
    requires |pieces| >= 1
  {
    if |pieces| == 1 then pieces[0] else pieces[0] + [sep] + Join(pieces[1..], sep)
  }

  /** Joining the pieces of a split with the separator gives the string back,
    * and no piece holds the separator. */
  lemma {:induction false} SplitOnJoin(s: string, sep: char)
    ensures Join(SplitOn(s, sep), sep) == s
    ensures forall k :: 0 <= k < |SplitOn(s, sep)| ==> sep !in SplitOn(s, sep)[k]
  {
    if s != [] {
      var rest := SplitOn(s[1..], sep);
      SplitOnJoin(s[1..], sep);
      if s[0] == sep {
        assert ([""] + rest)[1..] == rest;
      } else {
        var r := [[s[0]] + rest[0]] + rest[1..];
        if |rest| > 1 {
          assert r[1..] == rest[1..];
          assert Join(rest, sep) == rest[0] + [sep] + Join(rest[1..], sep);
        }
        assert sep !in [s[0]] + rest[0] by {
          assert sep !in rest[0];
        }
        forall k | 1 <= k < |r| ensures sep !in r[k] {
          assert r[k] == rest[k];
        }
      }
    }
  }

  /** Appending to the last piece appends to the joined string. */
  lemma {:induction false} JoinGrowLast(pieces: seq<string>, x: string, y: string, sep: char)
    ensures Join(pieces + [x + y], sep) == Join(pieces + [x], sep) + y
  {
    if pieces != [] {
      assert (pieces + [x + y])[1..] == pieces[1..] + [x + y];
      assert (pieces + [x])[1..] == pieces[1..] + [x];
      JoinGrowLast(pieces[1..], x, y, sep);
    }
  }

  /** Adding a piece adds the separator and the piece. */
  lemma {:induction false} JoinAddPiece(pieces: seq<string>, x: string, sep: char)
    requires |pieces| >= 1
    ensures Join(pieces + [x], sep) == Join(pieces, sep) + [sep] + x
  {
    if |pieces| > 1 {
      assert (pieces + [x])[1..] == pieces[1..] + [x];
      JoinAddPiece(pieces[1..], x, sep);
    }
  }

  // -------------------------------------------------------- splitCsvLines

  /** The state of the line splitter: the finished lines, the line being
    * built and whether the scan is inside quotes. */
  datatype Scan = Scan(lines: seq<string>, current: string, inQuote: bool)

  /** One character of the scan: a `"` flips the quote state, and a `\n`
    * outside quotes ends the line; every other character is kept. */
  function Step(st: Scan, c: char): Scan {
    var inQuote := if c == '"' then !st.inQuote else st.inQuote;
    if c == '\n' && !inQuote then Scan(st.lines + [st.current], "", inQuote)
    else Scan(st.lines, st.current + [c], inQuote)
  }

  function ScanAll(s: string): Scan {
    if s == [] then Scan([], "", false) else Step(ScanAll(s[..|s| - 1]), s[|s| - 1])
  }

  /** The lines before blank ones are dropped. */
  function RawLines(s: string): (r: seq<string>)
    ensures |r| >= 1
  {
    ScanAll(s).lines + [ScanAll(s).current]
  }

  /** A line break of `s` at position `i`: a `\n` after an even number of
    * quotes. */
  predicate BreaksAt(s: string, i: nat)
    requires i < |s|
  {
    s[i] == '\n' && Even(Quotes(s[..i]))
  }

  /** The number of line breaks in `s`. */
  function Breaks(s: string): nat {
    if s == [] then 0
    else Breaks(s[..|s| - 1]) + (if BreaksAt(s, |s| - 1) then 1 else 0)
  }

  /** The scan is inside quotes exactly after an odd number of quotes, and
    * it has ended one line per line break. */
  lemma {:induction false} ScanState(s: string)
    ensures ScanAll(s).inQuote <==> !Even(Quotes(s))
    ensures |ScanAll(s).lines| == Breaks(s)
  {
    if s != [] {
      var init := s[..|s| - 1];
      ScanState(init);
      QuotesAppend(init, [s[|s| - 1]]);
      assert init + [s[|s| - 1]] == s;
    }
  }

  /** Joining the lines with `\n` gives the input back: the splitter keeps
    * every character, quotes included, and drops only the line breaks. */
  lemma {:induction false} RawLinesJoin(s: string)
    ensures Join(RawLines(s), '\n') == s
  {
    if s != [] {
      var init := s[..|s| - 1];
      var c := s[|s| - 1];
      var st := ScanAll(init);
      RawLinesJoin(init);
      assert init + [c] == s;
      if c == '\n' && !Step(st, c).inQuote {
        JoinGrowLast(st.lines, st.current, "", '\n');
        assert st.current + "" == st.current;
        JoinAddPiece(st.lines + [st.current], "", '\n');
      } else {
        JoinGrowLast(st.lines, st.current, [c], '\n');
      }
    }
  }

  /** There is one more line than there are line breaks. */
  lemma RawLinesCount(s: string)
    ensures |RawLines(s)| == Breaks(s) + 1
  {
    ScanState(s);
  }

  /** Without quotes the splitter is a plain split on `\n`. */
  lemma NoQuotesPlainSplit(s: string)
    requires '"' !in s
    ensures RawLines(s) == SplitOn(s, '\n')
  {
    ScanNoQuotes(s);
  }

  lemma {:induction false} ScanNoQuotes(s: string)
    requires '"' !in s
    ensures !ScanAll(s).inQuote
    ensures RawLines(s) == SplitOn(s, '\n')
  {
    if s != [] {
      var init := s[..|s| - 1];
      var c := s[|s| - 1];
      assert forall x :: x in init ==> x in s;
      ScanNoQuotes(init);
      assert init + [c] == s;
      var st := ScanAll(init);
      assert ScanAll(s) == Step(st, c);
      if c == '\n' {
        assert RawLines(s) == RawLines(init) + [""];
        SplitOnAppendSep(init, '\n');
      } else {
        assert RawLines(s) == Grown(RawLines(init), c);
        SplitOnAppendOther(init, c, '\n');
      }
    }
  }

  /** A separator at the end starts an empty piece. */
  lemma {:induction false} SplitOnAppendSep(s: string, sep: char)
    ensures SplitOn(s + [sep], sep) == SplitOn(s, sep) + [""]
  {
    if s == [] {
      assert [sep][1..] == [];
    } else {
      assert (s + [sep])[1..] == s[1..] + [sep];
      SplitOnAppendSep(s[1..], sep);
      var r0 := SplitOn(s[1..], sep);
      if s[0] != sep {
        assert (r0 + [""])[1..] == r0[1..] + [""];
      }
    }
  }

  /** Any other character at the end grows the last piece. */
  lemma {:induction false} SplitOnAppendOther(s: string, c: char, sep: char)
    requires c != sep
    ensures SplitOn(s + [c], sep) == Grown(SplitOn(s, sep), c)
  {
    if s == [] {
      assert [c][1..] == [];
      assert [c] + "" == [c] && "" + [c] == [c];
      assert SplitOn([c], sep) == [[c]];
      assert Grown([""], c) == [[c]];
    } else {
      assert (s + [c])[1..] == s[1..] + [c];
      SplitOnAppendOther(s[1..], c, sep);
      if s[0] == sep {
        GrownCons("", SplitOn(s[1..], sep), c);
      } else {
        GrownHead(s[0], SplitOn(s[1..], sep), c);
      }
    }
  }

  /** The pieces with `c` added to the last one. */
  function Grown(r: seq<string>, c: char): seq<string>
    requires |r| >= 1
  {
    r[..|r| - 1] + [r[|r| - 1] + [c]]
  }

  lemma GrownCons(x: string, r: seq<string>, c: char)
    requires |r| >= 1
    ensures [x] + Grown(r, c) == Grown([x] + r, c)
  {
    assert ([x] + r)[..|r|] == [x] + r[..|r| - 1];
  }

  lemma GrownHead(x: char, r: seq<string>, c: char)
    requires |r| >= 1
    ensures [[x] + Grown(r, c)[0]] + Grown(r, c)[1..] == Grown([[x] + r[0]] + r[1..], c)
  {
    var g := Grown(r, c);
    var t := [[x] + r[0]] + r[1..];
    if |r| == 1 {
      assert [x] + (r[0] + [c]) == ([x] + r[0]) + [c];
    } else {
      assert g[0] == r[0];
      assert g[1..] == r[1..|r| - 1] + [r[|r| - 1] + [c]];
      assert t[..|t| - 1] == [[x] + r[0]] + r[1..|r| - 1];
    }
  }

  /** `lines.filter(line => line.trim() !== '')` */
  function NonBlank(lines: seq<string>): (r: seq<string>)
    ensures |r| <= |lines|
    ensures forall l :: l in r <==> l in lines && Trim(l) != ""
  {
    if lines == [] then []
    else
      var init := NonBlank(lines[..|lines| - 1]);
      assert forall l :: l in lines <==> l in lines[..|lines| - 1] || l == lines[|lines| - 1];
      if Trim(lines[|lines| - 1]) != "" then init + [lines[|lines| - 1]] else init
  }

  /** `filter` keeps the line order and every repeat: it distributes over
    * concatenation, and non-blank lines come back whole. */
  lemma NonBlankKeepsOrder(a: seq<string>, b: seq<string>)
    ensures NonBlank(a + b) == NonBlank(a) + NonBlank(b)
    ensures (forall i :: 0 <= i < |b| ==> Trim(b[i]) != "") ==> NonBlank(b) == b
  {
    NonBlankAppend(a, b);
    if forall i :: 0 <= i < |b| ==> Trim(b[i]) != "" {
      NonBlankAll(b);
    }
  }

  lemma {:induction false} NonBlankAppend(a: seq<string>, b: seq<string>)
    ensures NonBlank(a + b) == NonBlank(a) + NonBlank(b)
    decreases |b|
  {
    if b == [] {
      assert a + b == a;
    } else {
      var last := b[|b| - 1];
      var b0 := b[..|b| - 1];
      assert (a + b)[..|a + b| - 1] == a + b0 && (a + b)[|a + b| - 1] == last;
      NonBlankAppend(a, b0);
      if Trim(last) != "" {
        assert NonBlank(a) + (NonBlank(b0) + [last]) == (NonBlank(a) + NonBlank(b0)) + [last];
      }
    }
  }

  lemma {:induction false} NonBlankAll(b: seq<string>)
    requires forall i :: 0 <= i < |b| ==> Trim(b[i]) != ""
    ensures NonBlank(b) == b
    decreases |b|
  {
    if b != [] {
      var b0 := b[..|b| - 1];
      assert forall i :: 0 <= i < |b0| ==> Trim(b0[i]) != "" by {
        forall i | 0 <= i < |b0| ensures Trim(b0[i]) != "" { assert b0[i] == b[i]; }
      }
      NonBlankAll(b0);
      assert Trim(b[|b| - 1]) != "";
      assert b0 + [b[|b| - 1]] == b;
    }
  }

  /** `splitCsvLines`: the character loop with its `inQuote` flag and
    * `currentLine`, then the blank lines dropped. */
  method SplitCsvLines(csvText: string) returns (lines: seq<string>)
    ensures lines == NonBlank(RawLines(csvText))
  {
    var done: seq<string> := [];
    var inQuote := false;
    var currentLine := "";
    for i := 0 to |csvText|
      invariant Scan(done, currentLine, inQuote) == ScanAll(csvText[..i])
    {
      var c := csvText[i];
      assert csvText[..i + 1][..i] == csvText[..i];
      if c == '"' {
        inQuote := !inQuote;
      }
      if c == '\n' && !inQuote {
        done := done + [currentLine];
        currentLine := "";
      } else {
        currentLine := currentLine + [c];
      }
    }
    assert csvText[..|csvText|] == csvText;
    lines := NonBlank(done + [currentLine]);
  }

  // --------------------------------------------------------------- parseCsv

  /** `s.replace(/\r/g, '')` */
  function RemoveCR(s: string): (r: string)
    ensures '\r' !in r
    ensures forall c :: c != '\r' ==> (c in r <==> c in s)
  {
    if s == [] then [] else (if s[0] == '\r' then [] else [s[0]]) + RemoveCR(s[1..])
  }

  /** `line.split(/,(?=(?:(?:[^"]*"){2})*[^"]*$)/)`: a split at every comma
    * that is followed by an even number of quotes up to the end of the
    * line, that is, at every comma outside a quoted field. */
  function SplitFields(s: string): (r: seq<string>)
    ensures |r| >= 1
  {
    if s == [] then [""]
    else
      var rest := SplitFields(s[1..]);
      if s[0] == ',' && Even(Quotes(s[1..])) then [""] + rest
      else [[s[0]] + rest[0]] + rest[1..]
  }

  /** Joining the fields with commas gives the line back. */
  lemma {:induction false} SplitFieldsJoin(s: string)
    ensures Join(SplitFields(s), ',') == s
  {
    if s != [] {
      var rest := SplitFields(s[1..]);
      SplitFieldsJoin(s[1..]);
      if s[0] == ',' && Even(Quotes(s[1..])) {
        assert ([""] + rest)[1..] == rest;
      } else if |rest| > 1 {
        assert ([[s[0]] + rest[0]] + rest[1..])[1..] == rest[1..];
      }
    }
  }

  /** A line without quotes is split at every comma. */
  lemma {:induction false} SplitFieldsNoQuotes(s: string)
    requires '"' !in s
    ensures SplitFields(s) == SplitOn(s, ',')
  {
    if s != [] {
      assert forall x :: x in s[1..] ==> x in s;
      SplitFieldsNoQuotes(s[1..]);
      QuotesNone(s[1..]);
    }
  }

  lemma {:induction false} QuotesNone(s: string)
    requires '"' !in s
    ensures Quotes(s) == 0
  {
    if s != [] {
      assert forall x :: x in s[1..] ==> x in s;
      QuotesNone(s[1..]);
    }
  }

  /** A comma inside a quoted field does not split: in `"a,b"` the comma is
    * followed by one quote. */
  lemma QuotedCommaKept()
    ensures SplitFields("\"a,b\",c") == ["\"a,b\"", "c"]
  {
    var s0, s1, s2, s3, s4, s5 := "\"a,b\",c", "a,b\",c", ",b\",c", "b\",c", "\",c", ",c";
    assert s0[1..] == s1 && s1[1..] == s2 && s2[1..] == s3 && s3[1..] == s4 && s4[1..] == s5;
    assert s5[1..] == "c" && "c"[1..] == "";
    assert SplitFields("") == [""];
    assert ['c'] + "" == "c" && ['"'] + "" == "\"" && ['b'] + "\"" == "b\"";
    assert [','] + "b\"" == ",b\"" && ['a'] + ",b\"" == "a,b\"" && ['"'] + "a,b\"" == "\"a,b\"";
    assert Quotes("") == 0;
    assert Quotes("c") == 0;
    assert Quotes(s5) == 0;
    assert Quotes(s4) == 1;
    assert Quotes(s3) == 1;
    assert SplitFields("c") == ["c"];
    assert SplitFields(s5) == ["", "c"];
    assert SplitFields(s4) == ["\"", "c"];
    assert SplitFields(s3) == ["b\"", "c"];
    assert SplitFields(s2) == [",b\"", "c"];
    assert SplitFields(s1) == ["a,b\"", "c"];
  }

  /** `value.startsWith('"') && value.endsWith('"')`, then
    * `value.substring(1, value.length - 1)`. */
  function Unquote(v: string): string {
    if |v| >= 1 && v[0] == '"' && v[|v| - 1] == '"' then Substring(v, 1, |v| - 1) else v
  }

  /** A value of two or more characters wrapped in quotes loses both; any
    * other value, a lone `"` included, is kept. */
  lemma UnquoteCases(v: string)
    ensures |v| >= 2 && v[0] == '"' && v[|v| - 1] == '"' ==> Unquote(v) == v[1..|v| - 1]
    ensures !(|v| >= 2 && v[0] == '"' && v[|v| - 1] == '"') ==> Unquote(v) == v
  {
  }

  /** The cell for the header at `index`: `(values[index] || '').trim()`,
    * unquoted. */
  function Cell(values: seq<string>, index: nat): string {
    Unquote(Trim(if index < |values| then values[index] else ""))
  }

  /** `headers.forEach((header, index) => rowObject[header] = value)`. */
  function RowOf(headers: seq<string>, values: seq<string>): (r: map<string, string>)
  {
    if headers == [] then map[]
    else RowOf(headers[..|headers| - 1], values)[headers[|headers| - 1] := Cell(values, |headers| - 1)]
  }

  /** The row has a key for each header and no other. */
  lemma {:induction false} RowOfKeys(headers: seq<string>, values: seq<string>)
    ensures RowOf(headers, values).Keys == set h | h in headers
  {
    if headers != [] {
      var init := headers[..|headers| - 1];
      RowOfKeys(init, values);
      assert forall h :: h in headers <==> h in init || h == headers[|headers| - 1];
    }
  }

  /** Every header holds the cell of its last occurrence: with duplicate
    * headers the last one written wins. */
  lemma {:induction false} RowOfCell(headers: seq<string>, values: seq<string>, k: nat)
    requires k < |headers|
    requires forall k' :: k < k' < |headers| ==> headers[k'] != headers[k]
    ensures headers[k] in RowOf(headers, values) && RowOf(headers, values)[headers[k]] == Cell(values, k)
  {
    var init := headers[..|headers| - 1];
    if k < |headers| - 1 {
      RowOfCell(init, values, k);
    }
  }

  /** The headers and rows of a parsed file. */
  datatype Table = Table(headers: seq<string>, rows: seq<map<string, string>>)

  /** `lines[0].split(',').map(h => h.trim())` */
  function HeadersOf(line: string): (r: seq<string>)
    ensures |r| == |SplitOn(line, ',')|
    ensures forall k :: 0 <= k < |r| ==> r[k] == Trim(SplitOn(line, ',')[k])
  {
    var cells := SplitOn(line, ',');
    seq(|cells|, k requires 0 <= k < |cells| => Trim(cells[k]))
  }

  /** The rows the loop pushes for `lines`: blank lines are skipped. */
  function RowsOf(headers: seq<string>, lines: seq<string>): seq<map<string, string>> {
    if lines == [] then []
    else
      var line := lines[|lines| - 1];
      RowsOf(headers, lines[..|lines| - 1])
        + (if Trim(line) == "" then [] else [RowOf(headers, SplitFields(line))])
  }

  /** The lines `parseCsv` works on. */
  function CsvLines(csvText: string): seq<string> {
    NonBlank(RawLines(RemoveCR(Trim(csvText))))
  }

  /** `parseCsv` as a value. */
  function TableOf(csvText: string): Table {
    var lines := CsvLines(csvText);
    if |lines| < 1 then Table([], [])
    else
      var headers := HeadersOf(lines[0]);
      Table(headers, RowsOf(headers, lines[1..]))
  }

  /** `parseCsv`: the lines split, the headers from the first line and one
    * row pushed per further line. */
  method ParseCsv(csvText: string) returns (headers: seq<string>, rows: seq<map<string, string>>)
    ensures Table(headers, rows) == TableOf(csvText)
  {
    var lines := SplitCsvLines(RemoveCR(Trim(csvText)));
    if |lines| < 1 {
      return [], [];
    }
    headers := HeadersOf(lines[0]);
    rows := PushRows(headers, lines);
  }

  /** The row loop of `parseCsv`, from the second line on. */
  method PushRows(headers: seq<string>, lines: seq<string>) returns (rows: seq<map<string, string>>)
    requires |lines| >= 1
    ensures rows == RowsOf(headers, lines[1..])
  {
    rows := [];
    for i := 1 to |lines|
      invariant rows == RowsOf(headers, lines[1..i])
    {
      var line := lines[i];
      RowsOfStep(headers, lines, i);
      if Trim(line) == "" {
        continue;
      }
      var values := SplitFields(line);
      rows := rows + [RowOf(headers, values)];
    }
    assert lines[1..|lines|] == lines[1..];
  }

  lemma RowsOfStep(headers: seq<string>, lines: seq<string>, i: nat)
    requires 1 <= i < |lines|
    ensures RowsOf(headers, lines[1..i + 1]) ==
      RowsOf(headers, lines[1..i]) + (if Trim(lines[i]) == "" then [] else [RowOf(headers, SplitFields(lines[i]))])
  {
    var upTo := lines[1..i + 1];
    assert upTo[..|upTo| - 1] == lines[1..i] && upTo[|upTo| - 1] == lines[i];
  }

  /** Since blank lines are already gone, every line after the first gives
    * one row, in order. */
  lemma {:induction false} RowsOfNonBlank(headers: seq<string>, lines: seq<string>)
    requires forall l :: l in lines ==> Trim(l) != ""
    ensures |RowsOf(headers, lines)| == |lines|
  {
    if lines != [] {
      var init := lines[..|lines| - 1];
      assert forall l :: l in init ==> l in lines;
      RowsOfNonBlank(headers, init);
      assert lines[|lines| - 1] in lines;
    }
  }

  /** The row of the line at `k`. */
  lemma {:induction false} RowsOfAt(headers: seq<string>, lines: seq<string>, k: nat)
    requires forall l :: l in lines ==> Trim(l) != ""
    requires k < |lines|
    ensures |RowsOf(headers, lines)| == |lines|
    ensures RowsOf(headers, lines)[k] == RowOf(headers, SplitFields(lines[k]))
  {
    var init := lines[..|lines| - 1];
    assert forall l :: l in init ==> l in lines;
    assert lines[|lines| - 1] in lines;
    RowsOfNonBlank(headers, init);
    RowsOfNonBlank(headers, lines);
    if k < |lines| - 1 {
      RowsOfAt(headers, init, k);
    }
  }

  /** A blank file has no headers and no rows. */
  lemma BlankTable(csvText: string)
    requires Trim(csvText) == ""
    ensures TableOf(csvText) == Table([], [])
  {
    assert RemoveCR("") == "";
    assert RawLines("") == [""];
    assert Trim("") == "" by { TrimBlank(""); }
    assert NonBlank([""]) == [];
  }

  /** Otherwise the headers are the trimmed pieces of the first line and
    * there is one row per further line. */
  lemma TableShape(csvText: string)
    requires |CsvLines(csvText)| >= 1
    ensures var lines := CsvLines(csvText); var t := TableOf(csvText);
      t.headers == HeadersOf(lines[0]) && |t.rows| == |lines| - 1
  {
    var lines := CsvLines(csvText);
    assert forall l :: l in lines[1..] ==> l in lines;
    RowsOfNonBlank(HeadersOf(lines[0]), lines[1..]);
  }

  /** Row `k` of the table is the row of line `k + 1`: every header holds
    * the cell of the field at its last position. */
  lemma TableRow(csvText: string, k: nat, h: nat)
    requires var lines := CsvLines(csvText); |lines| >= 1 && k < |lines| - 1
    requires var t := TableOf(csvText);
      (h < |t.headers| && forall h' :: h < h' < |t.headers| ==> t.headers[h'] != t.headers[h])
    ensures var lines := CsvLines(csvText); var t := TableOf(csvText);
      (|t.rows| == |lines| - 1 && t.headers[h] in t.rows[k] &&
       t.rows[k][t.headers[h]] == Cell(SplitFields(lines[k + 1]), h))
  {
    var lines := CsvLines(csvText);
    var t := TableOf(csvText);
    assert forall l :: l in lines[1..] ==> l in lines;
    RowsOfAt(t.headers, lines[1..], k);
    RowOfCell(t.headers, SplitFields(lines[k + 1]), h);
  }
}
