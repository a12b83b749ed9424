// The CSV data editor: a table of rows with its own undo history, live cell
// editing, row deletion and the column-split operation.
module CsvEditor {
  import opened Wrappers
  import opened Strings

  /** One CSV row: a mutable record from header to cell text. Rows are held by
    * reference, so the live table and the history entries can share them. */
  class Row {
    var cells: map<string, string>

    constructor (cells: map<string, string>)
      ensures this.cells == cells
    {
      this.cells := cells;
    }
  }

  /** The cell values of a list of rows as they are now (what a serialisation sees). */
  function Values(rows: seq<Row>): (v: seq<map<string, string>>)
    reads rows
    ensures |v| == |rows|
    ensures forall i :: 0 <= i < |rows| ==> v[i] == rows[i].cells
  {
    if rows == [] then [] else [rows[0].cells] + Values(rows[1..])
  }

  /** One entry of the editor's history. */
  datatype Sheet = Sheet(headers: seq<string>, rows: seq<Row>)

  /** A non-empty text selection inside one cell. */
  datatype Selection = Selection(rowIndex: nat, header: string, start: nat, end: nat)

  /** `s.filter((_, index) => index !== i)`: every element except the one at `i`. */
  function Without<T>(s: seq<T>, i: int): (r: seq<T>)
    ensures 0 <= i < |s| ==> r == s[..i] + s[i + 1..]
    ensures !(0 <= i < |s|) ==> r == s
  {
    if s == [] then []
    else if i == 0 then s[1..]
    else [s[0]] + Without(s[1..], i - 1)
  }

  /** `s.indexOf(x)`: the first position holding `x`, or -1. */
  function IndexOf(s: seq<string>, x: string): (i: int)
    ensures -1 <= i < |s|
    ensures i == -1 <==> x !in s
    ensures 0 <= i ==> s[i] == x && x !in s[..i]
  {
    if s == [] then -1
    else if s[0] == x then 0
    else
      var j := IndexOf(s[1..], x);
      assert s[1..][..if j < 0 then 0 else j] == s[1..if j < 0 then 1 else j + 1];
      if j < 0 then -1 else j + 1
  }

  /** The prefix of every column name produced by splitting `header`. */
  function SplitPrefix(header: string): string {
    header + "_split_"
  }

  /** The new cells of one row after splitting column `header` into `newHeader`:
    * the selected row keeps the text around the selection and the new column
    * gets the selected text; every other row gets an empty cell. */
  function SplitCells(cells: map<string, string>, selected: bool, header: string, newHeader: string,
                      start: nat, end: nat): (r: map<string, string>)
    requires selected ==> header in cells
    ensures r.Keys == cells.Keys + {newHeader}
    ensures forall h :: h in cells && h != newHeader && (h != header || !selected) ==> r[h] == cells[h]
    ensures !selected ==> r[newHeader] == ""
    ensures selected && header != newHeader && start <= end ==>
      var k := if start <= |cells[header]| then start else |cells[header]|;
      k <= |r[header]| && r[header][..k] + r[newHeader] + r[header][k..] == cells[header]
  {
    if selected then
      var text := cells[header];
      var remaining := Substring(text, 0, start) + SubstringFrom(text, end);
      var r := cells[header := remaining][newHeader := Substring(text, start, end)];
      if header != newHeader && start <= end then
        var k := if start <= |text| then start else |text|;
        var m := if end <= |text| then end else |text|;
        assert remaining == text[..k] + text[m..];
        assert remaining[..k] == text[..k] && remaining[k..] == text[m..];
        assert text == text[..k] + text[k..m] + text[m..];
        r
      else r
    else cells[newHeader := ""]
  }

  /** The editor's state. The live rows are what the table shows while a cell is
    * being edited; they are reloaded from the current history entry whenever
    * that entry changes. */
  class Editor {
    var history: seq<Sheet>
    var historyIndex: nat
    var liveRows: seq<Row>
    var styleMappings: map<string, string>

    ghost predicate Valid()
      reads this
    {
      historyIndex < |history|
    }

    function Current(): Sheet
      reads this
      requires Valid()
    {
      history[historyIndex]
    }

    /** The live rows are exactly the current entry's rows, by reference. */
    ghost predicate Synced()
      reads this
      requires Valid()
    {
      liveRows == Current().rows
    }

    function CanUndo(): bool
      reads this
    {
      historyIndex > 0
    }

    function CanRedo(): bool
      reads this
    {
      historyIndex < |history| - 1
    }

    /** Opening the editor: a single history entry, the live rows taken from it. */
    constructor (headers: seq<string>, rows: seq<Row>)
      ensures Valid() && Synced()
      ensures history == [Sheet(headers, rows)] && historyIndex == 0
      ensures styleMappings == map[]
      ensures !CanUndo() && !CanRedo()
    {
      history := [Sheet(headers, rows)];
      historyIndex := 0;
      liveRows := rows;
      styleMappings := map[];
    }

    /** Drops the entries after the current one, appends `s` and moves to it.
      * The live rows are reloaded from the new current entry. */
    method PushState(s: Sheet)
      requires Valid()
      modifies this
      ensures Valid() && Synced()
      ensures history == old(history[..historyIndex + 1]) + [s]
      ensures historyIndex == |history| - 1 && !CanRedo()
      ensures historyIndex == old(historyIndex) + 1 && CanUndo()
      ensures styleMappings == old(styleMappings)
    {
      history := history[..historyIndex + 1] + [s];
      historyIndex := |history| - 1;
      liveRows := s.rows;
    }

    /** Steps back one entry when there is one; otherwise nothing changes. */
    method HandleUndo()
      requires Valid()
      modifies this
      ensures Valid() && history == old(history) && styleMappings == old(styleMappings)
      ensures old(CanUndo()) ==> historyIndex == old(historyIndex) - 1 && Synced()
      ensures !old(CanUndo()) ==> historyIndex == old(historyIndex) && liveRows == old(liveRows)
    {
      if CanUndo() {
        historyIndex := historyIndex - 1;
        liveRows := history[historyIndex].rows;
      }
    }

    /** Steps forward one entry when there is one; otherwise nothing changes. */
    method HandleRedo()
      requires Valid()
      modifies this
      ensures Valid() && history == old(history) && styleMappings == old(styleMappings)
      ensures old(CanRedo()) ==> historyIndex == old(historyIndex) + 1 && Synced()
      ensures !old(CanRedo()) ==> historyIndex == old(historyIndex) && liveRows == old(liveRows)
    {
      if CanRedo() {
        historyIndex := historyIndex + 1;
        liveRows := history[historyIndex].rows;
      }
    }

    /** A keystroke in a cell, as written: the row list is copied but the row
      * object is written in place, so the change also lands in every history
      * entry that holds the same row. */
    method HandleLiveRowChange(rowIndex: nat, header: string, value: string)
      requires rowIndex < |liveRows|
      modifies liveRows[rowIndex]
      ensures liveRows[rowIndex].cells == old(liveRows[rowIndex].cells)[header := value]
    {
      var row := liveRows[rowIndex];
      row.cells := row.cells[header := value];
    }

    /** A keystroke in a cell with the row copied before it is written: the
      * history entries keep their values. */
    method HandleLiveRowChangeCopied(rowIndex: nat, header: string, value: string)
      requires rowIndex < |liveRows|
      modifies this
      ensures history == old(history) && historyIndex == old(historyIndex)
      ensures styleMappings == old(styleMappings)
      ensures |liveRows| == old(|liveRows|) && fresh(liveRows[rowIndex])
      ensures liveRows == old(liveRows)[rowIndex := liveRows[rowIndex]]
      ensures Values(liveRows) == old(Values(liveRows))[rowIndex := old(liveRows[rowIndex].cells)[header := value]]
    {
      var row := new Row(liveRows[rowIndex].cells[header := value]);
      liveRows := liveRows[rowIndex := row];
    }

    /** Leaving a cell: the live rows become a new history entry when their
      * values differ from the current entry's. (The header comparison in the
      * same condition compares the current headers with themselves.) */
    method CommitChanges()
      requires Valid()
      modifies this
      ensures Valid()
      ensures old(Values(liveRows)) != old(Values(Current().rows)) ==>
        history == old(history[..historyIndex + 1]) + [Sheet(old(Current().headers), old(liveRows))] &&
        historyIndex == old(historyIndex) + 1 && Synced()
      ensures old(Values(liveRows)) == old(Values(Current().rows)) ==>
        history == old(history) && historyIndex == old(historyIndex) && liveRows == old(liveRows)
      ensures styleMappings == old(styleMappings)
    {
      var current := history[historyIndex];
      if Values(liveRows) != Values(current.rows) {
        PushState(Sheet(current.headers, liveRows));
      }
    }

    /** Removes the row at `rowIndex` (an index outside the table removes nothing)
      * and records the result. */
    method HandleDeleteRow(rowIndex: int)
      requires Valid()
      modifies this
      ensures Valid() && Synced()
      ensures history == old(history[..historyIndex + 1]) + [Sheet(old(Current().headers), Without(old(liveRows), rowIndex))]
      ensures historyIndex == old(historyIndex) + 1
      ensures 0 <= rowIndex < old(|liveRows|) ==> |liveRows| == old(|liveRows|) - 1
      ensures styleMappings == old(styleMappings)
    {
      var newRows := Without(liveRows, rowIndex);
      liveRows := newRows;
      PushState(Sheet(history[historyIndex].headers, newRows));
    }

    /** Moves the selected text of one cell into a new column named
      * `header_split_n`, for the least `n >= 1` not already a header, placed
      * right after the source column. Every row is copied; the selected row's
      * cell keeps the text around the selection. Without a selection nothing
      * changes. */
    method HandleSplitText(selection: Option<Selection>, splitStyleId: string) returns (newHeader: string)
      requires Valid()
      requires selection.Some? ==>
        (selection.value.rowIndex < |liveRows| && selection.value.header in liveRows[selection.value.rowIndex].cells)
      modifies this
      ensures Valid()
      ensures selection.None? ==>
        (history == old(history) && historyIndex == old(historyIndex) &&
         liveRows == old(liveRows) && styleMappings == old(styleMappings))
      ensures selection.Some? ==>
        var sel := selection.value;
        var headers := old(Current().headers);
        var k := IndexOf(headers, sel.header) + 1;
        IsSplitHeader(headers, sel.header, newHeader) &&
        |history| == old(historyIndex) + 2 && history[..historyIndex] == old(history[..historyIndex + 1]) &&
        Synced() &&
        Current().headers == headers[..k] + [newHeader] + headers[k..] &&
        |liveRows| == old(|liveRows|) &&
        (forall i :: 0 <= i < |liveRows| ==> fresh(liveRows[i])) &&
        (forall i :: 0 <= i < |liveRows| ==>
           liveRows[i].cells == SplitCells(old(liveRows[i].cells), i == sel.rowIndex, sel.header, newHeader, sel.start, sel.end)) &&
        styleMappings == if splitStyleId != "" then old(styleMappings)[newHeader := splitStyleId] else old(styleMappings)
    {
      newHeader := "";
      if selection.None? {
        return;
      }
      var sel := selection.value;
      var headers := history[historyIndex].headers;
      newHeader := FreshSplitHeader(headers, sel.header);
      if splitStyleId != "" {
        styleMappings := styleMappings[newHeader := splitStyleId];
      }
      var k := IndexOf(headers, sel.header) + 1;
      var newHeaders := headers[..k] + [newHeader] + headers[k..];
      var newRows := CopySplitRows(liveRows, sel, newHeader);
      liveRows := newRows;
      PushState(Sheet(newHeaders, newRows));
    }
  }

  /** `newHeader` is `header_split_n` for the least `n >= 1` that is not in `headers`. */
  ghost predicate IsSplitHeader(headers: seq<string>, header: string, newHeader: string) {
    newHeader !in headers &&
    exists n: nat :: 1 <= n && newHeader == Numbered(SplitPrefix(header), n) &&
      forall j: nat :: 1 <= j < n ==> Numbered(SplitPrefix(header), j) in headers
  }

  /** The counter search over `header_split_1`, `header_split_2`, ... */
  method FreshSplitHeader(headers: seq<string>, header: string) returns (newHeader: string)
    ensures IsSplitHeader(headers, header, newHeader)
  {
    var prefix := SplitPrefix(header);
    var counter: nat := 1;
    newHeader := Numbered(prefix, counter);
    ghost var taken := set h | h in headers;
    while newHeader in headers
      invariant 1 <= counter && newHeader == Numbered(prefix, counter)
      invariant NumberedRange(prefix, 1, counter) <= taken
      decreases |taken - NumberedRange(prefix, 1, counter)|
    {
      NumberedRangeStep(prefix, 1, counter, taken);
      counter := counter + 1;
      newHeader := Numbered(prefix, counter);
    }
    forall j: nat | 1 <= j < counter
      ensures Numbered(prefix, j) in headers
    {
      NumberedRangeMembers(prefix, 1, counter, j);
    }
  }

  /** `liveRows.map(row => ({...row, ...}))`: a fresh copy of every row with the split applied. */
  method CopySplitRows(rows: seq<Row>, sel: Selection, newHeader: string) returns (newRows: seq<Row>)
    requires sel.rowIndex < |rows| ==> sel.header in rows[sel.rowIndex].cells
    ensures |newRows| == |rows|
    ensures forall i :: 0 <= i < |rows| ==> fresh(newRows[i])
    ensures forall i :: 0 <= i < |rows| ==>
      newRows[i].cells == SplitCells(rows[i].cells, i == sel.rowIndex, sel.header, newHeader, sel.start, sel.end)
  {
    newRows := [];
    var i := 0;
    while i < |rows|
      invariant 0 <= i <= |rows| && |newRows| == i
      invariant forall j :: 0 <= j < i ==> fresh(newRows[j])
      invariant forall j :: 0 <= j < i ==>
        newRows[j].cells == SplitCells(rows[j].cells, j == sel.rowIndex, sel.header, newHeader, sel.start, sel.end)
    {
      var row := new Row(SplitCells(rows[i].cells, i == sel.rowIndex, sel.header, newHeader, sel.start, sel.end));
      newRows := newRows + [row];
      i := i + 1;
    }
  }

  /** As written, a cell edit followed by leaving the cell records nothing: the
    * live row is the current entry's own row object, so the two never differ,
    * and the current entry itself now holds the edited value. */
  method EditIsNotRecorded(e: Editor, rowIndex: nat, header: string, value: string)
    requires e.Valid() && e.Synced() && rowIndex < |e.liveRows|
    modifies e, e.liveRows[rowIndex]
    ensures e.Valid()
    ensures e.history == old(e.history) && e.historyIndex == old(e.historyIndex)
    ensures e.Current().rows[rowIndex].cells == old(e.Current().rows[rowIndex].cells)[header := value]
  {
    e.HandleLiveRowChange(rowIndex, header, value);
    e.CommitChanges();
  }

  /** With the row copied before it is written, a cell edit that changes a value
    * becomes a new history entry, and the entry before it still holds the old
    * values, so one undo brings them back. */
  method EditIsRecorded(e: Editor, rowIndex: nat, header: string, value: string)
    requires e.Valid() && e.Synced() && rowIndex < |e.liveRows|
    requires header !in e.liveRows[rowIndex].cells || e.liveRows[rowIndex].cells[header] != value
    modifies e
    ensures e.Valid() && e.Synced() && e.CanUndo()
    ensures e.historyIndex == old(e.historyIndex) + 1
    ensures e.history[..e.historyIndex] == old(e.history[..e.historyIndex + 1])
    ensures Values(e.Current().rows) == old(Values(e.liveRows))[rowIndex := old(e.liveRows[rowIndex].cells)[header := value]]
    ensures Values(e.history[e.historyIndex - 1].rows) == old(Values(e.Current().rows))
  {
    e.HandleLiveRowChangeCopied(rowIndex, header, value);
    assert Values(e.liveRows)[rowIndex] != Values(e.Current().rows)[rowIndex];
    e.CommitChanges();
  }
}
