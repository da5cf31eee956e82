/**
 * The table layout shared by the header line and the data rows: cells
 * printed one after the other with " | " between neighbours. Every cell but
 * the last has a fixed width; the last one runs to the end of the line.
 */
module Columns {
  import opened CTypes

  const Separator: string := " | "

  /** Cells printed left to right with the separator between neighbours. */
  function JoinColumns(cells: seq<string>): (line: string)
    requires |cells| >= 1
    ensures |line| >= |cells[0]| && line[..|cells[0]|] == cells[0]
  {
    if |cells| == 1 then cells[0] else cells[0] + (Separator + JoinColumns(cells[1..]))
  }

  /** A joined line ends with its last cell, unchanged. */
  lemma {:induction false} JoinColumnsLast(cells: seq<string>)
    requires |cells| >= 1
    ensures var line, last := JoinColumns(cells), cells[|cells| - 1];
      |line| >= |last| && line[|line| - |last|..] == last
  {
    if |cells| > 1 {
      JoinColumnsLast(cells[1..]);
      assert cells[1..][|cells| - 2] == cells[|cells| - 1];
    }
  }

  /** The widths of all cells but the last: the positions of the separators follow from them. */
  function Widths(cells: seq<string>): (ws: seq<nat>)
    requires |cells| >= 1
    ensures |ws| == |cells| - 1
    ensures forall k :: 0 <= k < |ws| ==> ws[k] == |cells[k]|
  {
    seq(|cells| - 1, k requires 0 <= k < |cells| - 1 => |cells[k]|)
  }

  /**
   * Cuts a line into cells of the given widths, each followed by the
   * separator, and a last cell holding the rest of the line; None when the
   * separators are not where the widths put them.
   */
  function SplitColumns(line: string, widths: seq<nat>): (r: Option<seq<string>>)
    ensures r.Some? ==> |r.value| == |widths| + 1
    ensures r.Some? ==> forall k :: 0 <= k < |widths| ==> |r.value[k]| == widths[k]
  {
    if widths == [] then Some([line])
    else if |line| >= widths[0] + 3 && line[widths[0]..widths[0] + 3] == Separator then
      match SplitColumns(line[widths[0] + 3..], widths[1..])
      case Some(rest) => Some([line[..widths[0]]] + rest)
      case None => None
    else None
  }

  /** Cutting a joined line at its own cell widths gives back the cells. */
  lemma {:induction false} SplitJoin(cells: seq<string>)
    requires |cells| >= 1
    ensures SplitColumns(JoinColumns(cells), Widths(cells)) == Some(cells)
  {
    if |cells| > 1 {
      var line, ws := JoinColumns(cells), Widths(cells);
      var tail := JoinColumns(cells[1..]);
      assert line == cells[0] + (Separator + tail);
      assert line[|cells[0]|..|cells[0]| + 3] == Separator;
      assert line[|cells[0]| + 3..] == tail && line[..|cells[0]|] == cells[0];
      assert ws[1..] == Widths(cells[1..]);
      SplitJoin(cells[1..]);
      assert [cells[0]] + cells[1..] == cells;
    } else {
      assert [cells[0]] == cells;
    }
  }

  /** Cells of the given widths, joined, cut back at those widths. */
  lemma SplitJoinAt(cells: seq<string>, widths: seq<nat>)
    requires |cells| == |widths| + 1
    requires forall k :: 0 <= k < |widths| ==> |cells[k]| == widths[k]
    ensures SplitColumns(JoinColumns(cells), widths) == Some(cells)
  {
    assert Widths(cells) == widths;
    SplitJoin(cells);
  }

  /** The converse: a line that cuts into cells is those cells joined again. */
  lemma {:induction false} JoinSplit(line: string, widths: seq<nat>)
    requires SplitColumns(line, widths).Some?
    ensures JoinColumns(SplitColumns(line, widths).value) == line
  {
    if widths != [] {
      var w := widths[0];
      var rest := SplitColumns(line[w + 3..], widths[1..]).value;
      JoinSplit(line[w + 3..], widths[1..]);
      var cells := SplitColumns(line, widths).value;
      assert cells == [line[..w]] + rest && cells[1..] == rest;
      assert line == line[..w] + (line[w..w + 3] + line[w + 3..]);
    }
  }
}
