/**
 * The table pass of the renderer (components/MarkdownRenderer.tsx lines 73-137): runs of
 * lines written `| a | b |` become one `table` element.
 */
module Tables {
  import opened Wrappers
  import opened Text

  predicate IsRow(t: string) {
    |t| >= 1 && t[0] == '|' && t[|t| - 1] == '|'
  }

  predicate StartsWithBar(t: string) {
    |t| >= 1 && t[0] == '|'
  }

  predicate SeparatorChar(c: char) { IsSpace(c) || c == '-' }
  predicate SeparatorTailChar(c: char) { IsSpace(c) || c == '-' || c == '|' }

  /** `/^\|[\s-]+\|[\s-\|]*$/` (line 93): a bar, whitespace or hyphens, a bar, then whitespace, hyphens or bars. */
  predicate IsSeparator(t: string) {
    exists j :: 2 <= j < |t| && t[0] == '|' && t[j] == '|'
      && (forall k :: 1 <= k < j ==> SeparatorChar(t[k]))
      && (forall k :: j < k < |t| ==> SeparatorTailChar(t[k]))
  }

  predicate HeaderChar(c: char) { IsSpace(c) || c == ':' || c == '-' }

  /** In `[\s:-\|]` the `:-\|` is the range from `:` to `|`, which does not hold `-`. */
  predicate HeaderTailChar(c: char) { IsSpace(c) || (':' <= c <= '|') }

  /** `/^\|[\s:-]+\|[\s:-\|]*$/` (line 103). */
  predicate IsHeaderRule(t: string) {
    exists j :: 2 <= j < |t| && t[0] == '|' && t[j] == '|'
      && (forall k :: 1 <= k < j ==> HeaderChar(t[k]))
      && (forall k :: j < k < |t| ==> HeaderTailChar(t[k]))
  }

  /** Line 103: a row's cells are header cells on the first line, or on the third when the second is a header rule. */
  predicate IsHeaderIndex(lines: seq<string>, i: nat)
    requires i < |lines|
  {
    i == 0 || (i == 2 && IsHeaderRule(Trim(lines[1])))
  }

  /** `s.substring(a, b)`: both ends are clamped to the string and swapped when out of order. */
  function Substring(s: string, a: int, b: int): (r: string)
    ensures 0 <= a <= b <= |s| ==> r == s[a..b]
    ensures |r| <= |s|
  {
    var x := if a < 0 then 0 else if a > |s| then |s| else a;
    var y := if b < 0 then 0 else if b > |s| then |s| else b;
    if x <= y then s[x..y] else s[y..x]
  }

  /** Line 98: the text between the outer bars, split at the inner bars. */
  function Cells(t: string): seq<string> {
    Split(Substring(t, 1, |t| - 1), '|')
  }

  function CellHtml(cell: string, header: bool): string {
    if header then "<th class=\"notion-th\">" + Trim(cell) + "</th>"
    else "<td class=\"notion-td\">" + Trim(cell) + "</td>"
  }

  function CellsHtml(cells: seq<string>, header: bool): string {
    if cells == [] then "" else CellHtml(cells[0], header) + CellsHtml(cells[1..], header)
  }

  function RowHtml(t: string, header: bool): string {
    "<tr>" + CellsHtml(Cells(t), header) + "</tr>"
  }

  const TableOpen := "<table class=\"notion-table\"><tbody>"
  const TableClose := "</tbody></table>"

  /** What line `i`, a row, adds to its table: nothing for a separator line. */
  function Contribution(lines: seq<string>, i: nat): string
    requires i < |lines|
  {
    var t := Trim(lines[i]);
    if IsSeparator(t) then "" else RowHtml(t, IsHeaderIndex(lines, i))
  }

  // The loop of lines 81-135 as a state machine: `Closed` outside a table, `Open` inside one
  // with the table text gathered so far.

  function Closed(lines: seq<string>, i: nat): seq<string>
    requires i <= |lines|
    decreases |lines| - i
  {
    if i == |lines| then []
    else if IsRow(Trim(lines[i])) then Open(lines, i + 1, TableOpen + Contribution(lines, i))
    else [lines[i]] + Closed(lines, i + 1)
  }

  function Open(lines: seq<string>, i: nat, table: string): seq<string>
    requires i <= |lines|
    decreases |lines| - i
  {
    if i == |lines| then [table + TableClose]
    else if IsRow(Trim(lines[i])) then Open(lines, i + 1, table + Contribution(lines, i))
    else if StartsWithBar(Trim(lines[i])) then Open(lines, i + 1, table)
    else [table + TableClose, lines[i]] + Closed(lines, i + 1)
  }

  // The same pass described by blocks: a table starts at a row and takes in every following
  // line that starts with a bar; lines among them that do not end with a bar vanish.

  /** The end of the run of lines from `i` on whose trimmed text starts with a bar. */
  function RunEnd(lines: seq<string>, i: nat): (j: nat)
    requires i <= |lines|
    decreases |lines| - i
    ensures i <= j <= |lines|
    ensures forall k :: i <= k < j ==> StartsWithBar(Trim(lines[k]))
    ensures j < |lines| ==> !StartsWithBar(Trim(lines[j]))
  {
    if i < |lines| && StartsWithBar(Trim(lines[i])) then RunEnd(lines, i + 1) else i
  }

  /** The rows that lines `i` to `j` put into their table. */
  function Rows(lines: seq<string>, i: nat, j: nat): string
    requires i <= j <= |lines|
    decreases j - i
  {
    if i == j then ""
    else (if IsRow(Trim(lines[i])) then Contribution(lines, i) else "") + Rows(lines, i + 1, j)
  }

  function Blocks(lines: seq<string>, i: nat): seq<string>
    requires i <= |lines|
    decreases |lines| - i
  {
    if i == |lines| then []
    else if IsRow(Trim(lines[i])) then
      var j := RunEnd(lines, i + 1);
      [TableOpen + Rows(lines, i, j) + TableClose] + Blocks(lines, j)
    else [lines[i]] + Blocks(lines, i + 1)
  }

  /** Inside a table the machine closes it at the end of the run and then goes on by blocks. */
  lemma {:induction false} OpenIsBlocks(lines: seq<string>, i: nat, table: string)
    requires i <= |lines|
    ensures Open(lines, i, table) ==
      [table + Rows(lines, i, RunEnd(lines, i)) + TableClose] + Blocks(lines, RunEnd(lines, i))
    decreases |lines| - i, 1
  {
    if i < |lines| {
      var t := Trim(lines[i]);
      var j := RunEnd(lines, i);
      if IsRow(t) {
        var c := Contribution(lines, i);
        assert j == RunEnd(lines, i + 1);
        assert Rows(lines, i, j) == c + Rows(lines, i + 1, j);
        assert Open(lines, i, table) == Open(lines, i + 1, table + c);
        OpenIsBlocks(lines, i + 1, table + c);
        ConcatAssoc(table, c, Rows(lines, i + 1, j));
        assert table + Rows(lines, i, j) == table + c + Rows(lines, i + 1, j);
      } else if StartsWithBar(t) {
        assert j == RunEnd(lines, i + 1);
        assert Rows(lines, i, j) == "" + Rows(lines, i + 1, j);
        assert Rows(lines, i, j) == Rows(lines, i + 1, j);
        assert Open(lines, i, table) == Open(lines, i + 1, table);
        OpenIsBlocks(lines, i + 1, table);
      } else {
        assert j == i;
        assert Rows(lines, i, j) == "";
        assert Open(lines, i, table) == [table + TableClose, lines[i]] + Closed(lines, i + 1);
        assert Blocks(lines, i) == [lines[i]] + Blocks(lines, i + 1);
        ClosedIsBlocks(lines, i + 1);
        var x := table + TableClose;
        assert table + Rows(lines, i, j) + TableClose == x;
        assert [x, lines[i]] == [x] + [lines[i]];
        ConcatAssoc([x], [lines[i]], Blocks(lines, i + 1));
      }
    } else {
      assert RunEnd(lines, i) == i && Rows(lines, i, i) == "" && Blocks(lines, i) == [];
      assert table + "" + TableClose == table + TableClose;
    }
  }

  /** The machine and the block description agree. */
  lemma {:induction false} ClosedIsBlocks(lines: seq<string>, i: nat)
    requires i <= |lines|
    ensures Closed(lines, i) == Blocks(lines, i)
    decreases |lines| - i, 0
  {
    if i < |lines| {
      if IsRow(Trim(lines[i])) {
        var c := Contribution(lines, i);
        var j := RunEnd(lines, i + 1);
        assert Closed(lines, i) == Open(lines, i + 1, TableOpen + c);
        OpenIsBlocks(lines, i + 1, TableOpen + c);
        assert Rows(lines, i, j) == c + Rows(lines, i + 1, j);
        ConcatAssoc(TableOpen, c, Rows(lines, i + 1, j));
        assert Blocks(lines, i) == [TableOpen + Rows(lines, i, j) + TableClose] + Blocks(lines, j);
      } else {
        assert Closed(lines, i) == [lines[i]] + Closed(lines, i + 1);
        assert Blocks(lines, i) == [lines[i]] + Blocks(lines, i + 1);
        ClosedIsBlocks(lines, i + 1);
      }
    }
  }

  lemma AppendContribution(lines: seq<string>, i: nat, table: string)
    requires i < |lines|
    ensures var t := Trim(lines[i]);
      table + Contribution(lines, i) == if IsSeparator(t) then table else table + RowHtml(t, IsHeaderIndex(lines, i))
  {
    if IsSeparator(Trim(lines[i])) {
      assert table + "" == table;
    }
  }

  /** A row line: the machine goes on inside a table that has the row's contribution added. */
  lemma RowStep(lines: seq<string>, i: nat, out: seq<string>, inTable: bool, table: string)
    requires i < |lines| && IsRow(Trim(lines[i]))
    requires inTable ==> out + Open(lines, i, table) == Closed(lines, 0)
    requires !inTable ==> out + Closed(lines, i) == Closed(lines, 0)
    ensures out + Open(lines, i + 1, (if inTable then table else TableOpen) + Contribution(lines, i)) == Closed(lines, 0)
  {
  }

  /** A line inside a table that starts with a bar but does not end with one is dropped. */
  lemma BarStep(lines: seq<string>, i: nat, out: seq<string>, table: string)
    requires i < |lines| && !IsRow(Trim(lines[i])) && StartsWithBar(Trim(lines[i]))
    requires out + Open(lines, i, table) == Closed(lines, 0)
    ensures out + Open(lines, i + 1, table) == Closed(lines, 0)
  {
  }

  /** Any other line inside a table closes it, and the line itself follows the table. */
  lemma CloseStep(lines: seq<string>, i: nat, out: seq<string>, table: string)
    requires i < |lines| && !StartsWithBar(Trim(lines[i]))
    requires out + Open(lines, i, table) == Closed(lines, 0)
    ensures out + [table + TableClose] + [lines[i]] + Closed(lines, i + 1) == Closed(lines, 0)
  {
    assert !IsRow(Trim(lines[i]));
    ConcatAssoc(out, [table + TableClose, lines[i]], Closed(lines, i + 1));
    assert out + [table + TableClose] + [lines[i]] == out + [table + TableClose, lines[i]];
  }

  /** Outside a table, a line that is not a row is copied. */
  lemma PlainStep(lines: seq<string>, i: nat, out: seq<string>)
    requires i < |lines| && !IsRow(Trim(lines[i]))
    requires out + Closed(lines, i) == Closed(lines, 0)
    ensures out + [lines[i]] + Closed(lines, i + 1) == Closed(lines, 0)
  {
    ConcatAssoc(out, [lines[i]], Closed(lines, i + 1));
  }

  /** Lines 76-137, the loop and the final flush. */
  method TableStage(lines: seq<string>) returns (out: seq<string>)
    ensures out == Blocks(lines, 0)
  {
    var inTable := false;
    var table := "";
    out := [];
    var i := 0;
    while i < |lines|
      invariant i <= |lines|
      invariant inTable ==> out + Open(lines, i, table) == Closed(lines, 0)
      invariant !inTable ==> out + Closed(lines, i) == Closed(lines, 0)
    {
      var line := Trim(lines[i]);
      if IsRow(line) {
        ghost var next := (if inTable then table else TableOpen) + Contribution(lines, i);
        RowStep(lines, i, out, inTable, table);
        if !inTable {
          inTable := true;
          table := TableOpen;
        }
        AppendContribution(lines, i, table);
        if !IsSeparator(line) {
          table := table + RowHtml(line, IsHeaderIndex(lines, i));
        }
        assert table == next;
        // The `continue` of line 114: a row leaves the table open, so the final `if` is skipped.
      } else if inTable && !StartsWithBar(line) {
        CloseStep(lines, i, out, table);
        table := table + TableClose;
        out := out + [table];
        inTable := false;
        table := "";
        assert out + [lines[i]] + Closed(lines, i + 1) == Closed(lines, 0);
      } else if inTable {
        BarStep(lines, i, out, table);
      } else {
        PlainStep(lines, i, out);
      }
      if !inTable {
        out := out + [lines[i]];
      }
      i := i + 1;
    }
    if inTable {
      table := table + TableClose;
      out := out + [table];
    }
    ClosedIsBlocks(lines, 0);
  }

  /** Text in which no line starts with a bar goes through the pass unchanged. */
  lemma {:induction false} NoBarsUnchanged(lines: seq<string>, i: nat)
    requires i <= |lines|
    requires forall k :: i <= k < |lines| ==> !StartsWithBar(Trim(lines[k]))
    ensures Blocks(lines, i) == lines[i..]
    decreases |lines| - i
  {
    if i < |lines| {
      NoBarsUnchanged(lines, i + 1);
      assert lines[i..] == [lines[i]] + lines[i + 1..];
    }
  }

  /** The pass never makes more lines than it is given: each table replaces at least one line. */
  lemma {:induction false} BlocksNoLonger(lines: seq<string>, i: nat)
    requires i <= |lines|
    ensures |Blocks(lines, i)| <= |lines| - i
    decreases |lines| - i
  {
    if i < |lines| {
      if IsRow(Trim(lines[i])) {
        BlocksNoLonger(lines, RunEnd(lines, i + 1));
      } else {
        BlocksNoLonger(lines, i + 1);
      }
    }
  }

  /** The one-character line `|` gives two empty cells, since `substring(1, 0)` swaps its ends. */
  lemma SingleBarCells()
    ensures Cells("|") == ["", ""]
  {
    assert Substring("|", 1, 0) == "|";
    assert FindChar("|", '|', 0) == Some(0);
    assert FindChar("", '|', 0).None?;
  }

  /** The single-column rule `|---|` marks a header; the two-column `| --- | --- |` does not. */
  lemma HeaderRuleRange()
    ensures IsHeaderRule("|---|")
    ensures !IsHeaderRule("| --- | --- |")
  {
    var t := "| --- | --- |";
    assert t[4] == '-';
    forall j | 2 <= j < |t| && t[0] == '|' && t[j] == '|' && (forall k :: 1 <= k < j ==> HeaderChar(t[k]))
      ensures exists k :: j < k < |t| && !HeaderTailChar(t[k])
    {
      assert t[6] == '|' && !HeaderChar(t[6]);
      assert j == 6;
      assert !HeaderTailChar(t[8]);
    }
    assert "|---|"[4] == '|';
  }
}
