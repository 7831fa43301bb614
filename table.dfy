/**
 * `print_table`: lays out a header and rows of text cells as a boxed,
 * left-aligned table. The lines are returned instead of being logged.
 */
module Table {
  import opened Values
  import opened Text

  /** Every row has one cell per header. */
  predicate Rectangular(headers: seq<string>, rows: seq<seq<string>>)
  {
    forall r :: 0 <= r < |rows| ==> |rows[r]| == |headers|
  }

  /**
   * `max(len(cell) for cell in [header] + [row[i] for row in rows])`: the
   * length of the longest of the header and the cells of column `i`.
   */
  function ColumnWidth(header: string, rows: seq<seq<string>>, i: nat): (w: nat)
    requires forall r :: 0 <= r < |rows| ==> i < |rows[r]|
    ensures w >= |header|
    ensures forall r :: 0 <= r < |rows| ==> w >= |rows[r][i]|
    ensures w == |header| || exists r :: 0 <= r < |rows| && w == |rows[r][i]|
    decreases |rows|
  {
    if rows == [] then |header|
    else
      var w0 := ColumnWidth(header, rows[..|rows| - 1], i);
      var last := |rows[|rows| - 1][i]|;
      if w0 < last then last else w0
  }

  /** `col_widths`: one width per header. */
  function Widths(headers: seq<string>, rows: seq<seq<string>>): (ws: seq<nat>)
    requires Rectangular(headers, rows)
    ensures |ws| == |headers|
    ensures forall i :: 0 <= i < |headers| ==> ws[i] == ColumnWidth(headers[i], rows, i)
  {
    seq(|headers|, i requires 0 <= i < |headers| => ColumnWidth(headers[i], rows, i))
  }

  /** The runs of dashes of a border line, two wider than their column. */
  function Dashes(widths: seq<nat>): (ds: seq<string>)
    ensures |ds| == |widths|
    ensures forall i :: 0 <= i < |widths| ==> ds[i] == Repeat('-', widths[i] + 2)
  {
    seq(|widths|, i requires 0 <= i < |widths| => Repeat('-', widths[i] + 2))
  }

  /** The cells of a row, each padded to its column's width. */
  function Padded(cells: seq<string>, widths: seq<nat>): (ps: seq<string>)
    requires |cells| == |widths|
    ensures |ps| == |cells|
    ensures forall i :: 0 <= i < |cells| ==> ps[i] == PadRight(cells[i], widths[i])
  {
    seq(|cells|, i requires 0 <= i < |cells| => PadRight(cells[i], widths[i]))
  }

  /**
   * `"+" + "+".join("-" * (w + 2) for w in col_widths) + "+"`: a line
   * starting and ending with `+` (`BorderLayout` gives every character).
   */
  function Border(widths: seq<nat>): (line: string)
    ensures |line| >= 2 && line[0] == '+' && line[|line| - 1] == '+'
  {
    "+" + Join("+", Dashes(widths)) + "+"
  }

  /**
   * `"| " + " | ".join(f"{cell:<{w}}" ...) + " |"`: a line opening with
   * `| ` and closing with ` |` (`RowLayout` gives where every cell sits).
   */
  function FormatRow(cells: seq<string>, widths: seq<nat>): (line: string)
    requires |cells| == |widths|
    ensures |line| >= 4 && line[..2] == "| " && line[|line| - 2..] == " |"
  {
    "| " + Join(" | ", Padded(cells, widths)) + " |"
  }

  /**
   * The lines `print_table` logs: border, header row, border, one line per
   * row, border. None when a row does not have one cell per header, where
   * the source raises IndexError.
   */
  function PrintTable(headers: seq<string>, rows: seq<seq<string>>): (lines: Option<seq<string>>)
    ensures lines.Some? <==> forall r :: 0 <= r < |rows| ==> |rows[r]| == |headers|
    ensures lines.Some? ==> |lines.value| == |rows| + 4
  {
    if !Rectangular(headers, rows) then None
    else
      var widths := Widths(headers, rows);
      var line := Border(widths);
      Some([line, FormatRow(headers, widths), line] + FormatRows(rows, widths) + [line])
  }

  /** The data rows, formatted one line per row, in order. */
  function FormatRows(rows: seq<seq<string>>, widths: seq<nat>): (lines: seq<string>)
    requires forall r :: 0 <= r < |rows| ==> |rows[r]| == |widths|
    ensures |lines| == |rows|
    ensures forall r :: 0 <= r < |rows| ==> lines[r] == FormatRow(rows[r], widths)
  {
    seq(|rows|, r requires 0 <= r < |rows| => FormatRow(rows[r], widths))
  }

  /** A prefix of the widths sums to no more than the whole, and one more column adds its width. */
  lemma {:induction false} SumPrefix(widths: seq<nat>, j: nat)
    requires j <= |widths|
    ensures Sum(widths[..j]) <= Sum(widths)
    ensures j < |widths| ==> Sum(widths[..j + 1]) == Sum(widths[..j]) + widths[j]
    ensures j < |widths| ==> Sum(widths[..j]) + widths[j] <= Sum(widths)
    decreases |widths|
  {
    if j < |widths| {
      assert widths[..j + 1][..j] == widths[..j];
      var init := widths[..|widths| - 1];
      if j < |init| {
        SumPrefix(init, j);
        assert init[..j] == widths[..j];
      } else {
        assert init == widths[..j];
      }
    } else {
      assert widths[..j] == widths;
    }
  }

  /** Where the column boundary before column `j` falls in every line. */
  function ColumnStart(widths: seq<nat>, j: nat): (c: nat)
    requires j <= |widths|
    ensures c <= Sum(widths) + 3 * |widths|
    ensures j < |widths| ==> c + widths[j] + 3 <= Sum(widths) + 3 * |widths|
  {
    SumPrefix(widths, j);
    Sum(widths[..j]) + 3 * j
  }

  lemma {:induction false} DashesLength(widths: seq<nat>, j: nat)
    requires j <= |widths|
    ensures TotalLength(Dashes(widths)[..j]) == Sum(widths[..j]) + 2 * j
  {
    if j > 0 {
      DashesLength(widths, j - 1);
      assert Dashes(widths)[..j][..j - 1] == Dashes(widths)[..j - 1];
      assert widths[..j][..j - 1] == widths[..j - 1];
    }
  }

  lemma {:induction false} PaddedLength(cells: seq<string>, widths: seq<nat>, j: nat)
    requires |cells| == |widths| && j <= |widths|
    requires forall i :: 0 <= i < |cells| ==> |cells[i]| <= widths[i]
    ensures TotalLength(Padded(cells, widths)[..j]) == Sum(widths[..j])
  {
    if j > 0 {
      PaddedLength(cells, widths, j - 1);
      assert Padded(cells, widths)[..j][..j - 1] == Padded(cells, widths)[..j - 1];
      assert widths[..j][..j - 1] == widths[..j - 1];
    }
  }

  /** All border segments together. */
  lemma DashesTotal(widths: seq<nat>)
    ensures TotalLength(Dashes(widths)) == Sum(widths) + 2 * |widths|
  {
    var n := |widths|;
    DashesLength(widths, n);
    assert widths[..n] == widths;
    assert Dashes(widths)[..n] == Dashes(widths);
  }

  /** All padded cells together. */
  lemma PaddedTotal(cells: seq<string>, widths: seq<nat>)
    requires |cells| == |widths|
    requires forall i :: 0 <= i < |cells| ==> |cells[i]| <= widths[i]
    ensures TotalLength(Padded(cells, widths)) == Sum(widths)
  {
    var n := |widths|;
    PaddedLength(cells, widths, n);
    assert widths[..n] == widths;
    assert Padded(cells, widths)[..n] == Padded(cells, widths);
  }

  lemma BorderLength(widths: seq<nat>)
    requires |widths| > 0
    ensures |Border(widths)| == Sum(widths) + 3 * |widths| + 1
  {
    var n := |widths|;
    var joined := Join("+", Dashes(widths));
    assert |joined| == Sum(widths) + 2 * n + (n - 1) by {
      JoinLength("+", Dashes(widths));
      DashesTotal(widths);
      assert |"+"| == 1;
    }
  }

  /** A slice `x` of the middle part of `whole == pre + mid + post`, seen in `whole`. */
  lemma Framed(whole: string, pre: string, mid: string, post: string, a: nat, b: nat, s: nat, e: nat, x: string)
    requires whole == pre + mid + post
    requires a <= b <= |mid| && mid[a..b] == x && s == |pre| + a && e == |pre| + b
    ensures e <= |whole| && whole[s..e] == x
  {
    assert whole[s..e] == mid[a..b];
  }

  /** A character `x` of the middle part of `whole == pre + mid + post`, seen in `whole`. */
  lemma FramedAt(whole: string, pre: string, mid: string, post: string, a: nat, s: nat, x: char)
    requires whole == pre + mid + post
    requires a < |mid| && mid[a] == x && s == |pre| + a
    ensures s < |whole| && whole[s] == x
  {
  }

  lemma BorderBoundary(widths: seq<nat>, j: nat)
    requires 0 < j < |widths|
    ensures ColumnStart(widths, j) < |Border(widths)|
    ensures Border(widths)[ColumnStart(widths, j)] == '+'
  {
    var joined := Join("+", Dashes(widths));
    var c := ColumnStart(widths, j);
    JoinedBorderBoundary(widths, j);
    FramedAt(Border(widths), "+", joined, "+", c - 1, c, '+');
  }

  /** Inside the border's frame, the `+` before column `j` sits one place before its start. */
  lemma JoinedBorderBoundary(widths: seq<nat>, j: nat)
    requires 0 < j < |widths|
    ensures 1 <= ColumnStart(widths, j) <= |Join("+", Dashes(widths))|
    ensures Join("+", Dashes(widths))[ColumnStart(widths, j) - 1] == '+'
  {
    JoinSepChar("+", Dashes(widths), j, 0);
    BorderOffset(widths, j);
  }

  /** Character `k` of the separator before part `j` of a joined string. */
  lemma JoinSepChar(sep: string, parts: seq<string>, j: nat, k: nat)
    requires 0 < j < |parts| && k < |sep|
    ensures |sep| <= PartOffset(sep, parts, j) <= |Join(sep, parts)|
    ensures Join(sep, parts)[PartOffset(sep, parts, j) - |sep| + k] == sep[k]
  {
    var off := PartOffset(sep, parts, j);
    JoinSepAt(sep, parts, j);
    SliceAt(Join(sep, parts), off - |sep|, off, k, off - |sep| + k, sep);
  }

  /** Character `i` of a slice `s[a..b] == t` is character `a + i` of `s`. */
  lemma SliceAt(s: string, a: nat, b: nat, i: nat, p: nat, t: string)
    requires a <= b <= |s| && s[a..b] == t && i < |t| && p == a + i
    ensures s[p] == t[i]
  {
  }

  /** Part `j` of the joined border segments starts at column `j`'s start. */
  lemma BorderOffset(widths: seq<nat>, j: nat)
    requires j <= |widths|
    ensures PartOffset("+", Dashes(widths), j) == ColumnStart(widths, j)
  {
    DashesLength(widths, j);
    assert |"+"| == 1;
  }

  /** A border is `sum(widths) + 3 * len(widths) + 1` long and has a `+` at every column boundary. */
  lemma BorderLayout(widths: seq<nat>)
    requires |widths| > 0
    ensures |Border(widths)| == Sum(widths) + 3 * |widths| + 1
    ensures forall j :: 0 <= j <= |widths| ==> Border(widths)[ColumnStart(widths, j)] == '+'
  {
    BorderLength(widths);
    var n := |widths|;
    assert widths[..n] == widths;
    forall j | 0 <= j <= n ensures Border(widths)[ColumnStart(widths, j)] == '+' {
      if 0 < j < n {
        BorderBoundary(widths, j);
      }
    }
  }

  lemma RowLength(cells: seq<string>, widths: seq<nat>)
    requires |cells| == |widths| > 0
    requires forall i :: 0 <= i < |cells| ==> |cells[i]| <= widths[i]
    ensures |FormatRow(cells, widths)| == Sum(widths) + 3 * |widths| + 1
  {
    var n := |widths|;
    var joined := Join(" | ", Padded(cells, widths));
    assert |joined| == Sum(widths) + 3 * (n - 1) by {
      JoinLength(" | ", Padded(cells, widths));
      PaddedTotal(cells, widths);
      assert |" | "| == 3;
    }
  }

  lemma RowBoundary(cells: seq<string>, widths: seq<nat>, j: nat)
    requires |cells| == |widths| && 0 < j < |widths|
    requires forall i :: 0 <= i < |cells| ==> |cells[i]| <= widths[i]
    ensures ColumnStart(widths, j) < |FormatRow(cells, widths)|
    ensures FormatRow(cells, widths)[ColumnStart(widths, j)] == '|'
  {
    var joined := Join(" | ", Padded(cells, widths));
    var c := ColumnStart(widths, j);
    JoinedRowBoundary(cells, widths, j);
    FramedAt(FormatRow(cells, widths), "| ", joined, " |", c - 2, c, '|');
  }

  /** Inside a row's frame, the `|` before column `j` sits two places before its start. */
  lemma JoinedRowBoundary(cells: seq<string>, widths: seq<nat>, j: nat)
    requires |cells| == |widths| && 0 < j < |widths|
    requires forall i :: 0 <= i < |cells| ==> |cells[i]| <= widths[i]
    ensures 3 <= ColumnStart(widths, j) <= |Join(" | ", Padded(cells, widths))|
    ensures Join(" | ", Padded(cells, widths))[ColumnStart(widths, j) - 2] == '|'
  {
    RowOffset(cells, widths, j);
    BarBeforePart(Padded(cells, widths), j);
  }

  /** Among parts joined by `" | "`, the bar before part `j` sits two places before it. */
  lemma BarBeforePart(ps: seq<string>, j: nat)
    requires 0 < j < |ps|
    ensures 3 <= PartOffset(" | ", ps, j) <= |Join(" | ", ps)|
    ensures Join(" | ", ps)[PartOffset(" | ", ps, j) - 2] == '|'
  {
    JoinSepChar(" | ", ps, j, 1);
  }

  /** Padded cell `j` starts, among the joined cells, at column `j`'s start. */
  lemma RowOffset(cells: seq<string>, widths: seq<nat>, j: nat)
    requires |cells| == |widths| && j <= |widths|
    requires forall i :: 0 <= i < |cells| ==> |cells[i]| <= widths[i]
    ensures PartOffset(" | ", Padded(cells, widths), j) == ColumnStart(widths, j)
  {
    PaddedLength(cells, widths, j);
    assert |" | "| == 3;
  }

  lemma RowCell(cells: seq<string>, widths: seq<nat>, j: nat)
    requires |cells| == |widths| && j < |widths|
    requires forall i :: 0 <= i < |cells| ==> |cells[i]| <= widths[i]
    ensures ColumnStart(widths, j) + 2 + widths[j] <= |FormatRow(cells, widths)|
    ensures FormatRow(cells, widths)[ColumnStart(widths, j) + 2..ColumnStart(widths, j) + 2 + widths[j]]
            == PadRight(cells[j], widths[j])
  {
    var joined := Join(" | ", Padded(cells, widths));
    var c, w, x := ColumnStart(widths, j), widths[j], PadRight(cells[j], widths[j]);
    assert c + w <= |joined| && joined[c..c + w] == x by {
      JoinedRowCell(cells, widths, j);
    }
    Framed(FormatRow(cells, widths), "| ", joined, " |", c, c + w, c + 2, c + 2 + w, x);
  }

  /** Inside a row's frame, cell `j`, padded, starts where column `j` starts. */
  lemma JoinedRowCell(cells: seq<string>, widths: seq<nat>, j: nat)
    requires |cells| == |widths| && j < |widths|
    requires forall i :: 0 <= i < |cells| ==> |cells[i]| <= widths[i]
    ensures ColumnStart(widths, j) + widths[j] <= |Join(" | ", Padded(cells, widths))|
    ensures Join(" | ", Padded(cells, widths))[ColumnStart(widths, j)..ColumnStart(widths, j) + widths[j]]
            == PadRight(cells[j], widths[j])
  {
    var ps := Padded(cells, widths);
    JoinPartAt(" | ", ps, j);
    RowOffset(cells, widths, j);
    assert ps[j] == PadRight(cells[j], widths[j]);
  }

  /**
   * A row whose cells fit their columns is as long as a border, has a `|`
   * at every column boundary, and shows cell `j`, padded to its column's
   * width, two characters after boundary `j`.
   */
  lemma RowLayout(cells: seq<string>, widths: seq<nat>)
    requires |cells| == |widths| > 0
    requires forall i :: 0 <= i < |cells| ==> |cells[i]| <= widths[i]
    ensures |FormatRow(cells, widths)| == Sum(widths) + 3 * |widths| + 1
    ensures forall j :: 0 <= j <= |widths| ==> FormatRow(cells, widths)[ColumnStart(widths, j)] == '|'
    ensures forall j :: 0 <= j < |widths| ==>
              FormatRow(cells, widths)[ColumnStart(widths, j) + 2..ColumnStart(widths, j) + 2 + widths[j]]
              == PadRight(cells[j], widths[j])
  {
    RowLength(cells, widths);
    var n := |widths|;
    assert widths[..n] == widths;
    forall j | 0 <= j <= n ensures FormatRow(cells, widths)[ColumnStart(widths, j)] == '|' {
      if 0 < j < n {
        RowBoundary(cells, widths, j);
      }
    }
    forall j | 0 <= j < n
      ensures FormatRow(cells, widths)[ColumnStart(widths, j) + 2..ColumnStart(widths, j) + 2 + widths[j]]
              == PadRight(cells[j], widths[j])
    {
      RowCell(cells, widths, j);
    }
  }

  /**
   * `col_widths` holds, per column, the length of the longest of its header
   * and its cells: at least each of them, and equal to one of them.
   */
  lemma WidthsAreMaxima(headers: seq<string>, rows: seq<seq<string>>)
    requires Rectangular(headers, rows)
    ensures |Widths(headers, rows)| == |headers|
    ensures forall i :: 0 <= i < |headers| ==> |headers[i]| <= Widths(headers, rows)[i]
    ensures forall r, i :: 0 <= r < |rows| && 0 <= i < |headers| ==> |rows[r][i]| <= Widths(headers, rows)[i]
    ensures forall i :: 0 <= i < |headers| ==>
              Widths(headers, rows)[i] == |headers[i]|
              || exists r :: 0 <= r < |rows| && Widths(headers, rows)[i] == |rows[r][i]|
  {
  }

  /** Each run of dashes in a border is two longer than its column is wide, and all dashes. */
  lemma DashRuns(widths: seq<nat>)
    ensures |Dashes(widths)| == |widths|
    ensures forall i :: 0 <= i < |widths| ==> |Dashes(widths)[i]| == widths[i] + 2
    ensures forall i, k :: 0 <= i < |widths| && 0 <= k < |Dashes(widths)[i]| ==> Dashes(widths)[i][k] == '-'
  {
  }

  /**
   * Each padded cell is as wide as its column when the cell fits, starts
   * with the cell's text and continues with spaces.
   */
  lemma PaddedCells(cells: seq<string>, widths: seq<nat>)
    requires |cells| == |widths|
    ensures |Padded(cells, widths)| == |cells|
    ensures forall i :: 0 <= i < |cells| && |cells[i]| <= widths[i] ==> |Padded(cells, widths)[i]| == widths[i]
    ensures forall i :: 0 <= i < |cells| ==> Padded(cells, widths)[i][..|cells[i]|] == cells[i]
    ensures forall i, k :: 0 <= i < |cells| && |cells[i]| <= k < |Padded(cells, widths)[i]| ==>
              Padded(cells, widths)[i][k] == ' '
  {
  }

  /** Every header and every cell fits its column's width. */
  lemma CellsFit(headers: seq<string>, rows: seq<seq<string>>)
    requires Rectangular(headers, rows)
    ensures forall i :: 0 <= i < |headers| ==> |headers[i]| <= Widths(headers, rows)[i]
    ensures forall r, i :: 0 <= r < |rows| && 0 <= i < |headers| ==> |rows[r][i]| <= Widths(headers, rows)[i]
  {
  }

  /**
   * The table's layout: with one cell per header in every row, there are
   * `len(rows) + 4` lines; the three borders are the same line, followed by
   * the header row and the data rows in order.
   */
  lemma TableShape(headers: seq<string>, rows: seq<seq<string>>)
    requires Rectangular(headers, rows)
    ensures PrintTable(headers, rows).Some?
    ensures |PrintTable(headers, rows).value| == |rows| + 4
    ensures PrintTable(headers, rows).value[0] == PrintTable(headers, rows).value[2]
            == PrintTable(headers, rows).value[|rows| + 3] == Border(Widths(headers, rows))
    ensures PrintTable(headers, rows).value[1] == FormatRow(headers, Widths(headers, rows))
    ensures forall r :: 0 <= r < |rows| ==>
              PrintTable(headers, rows).value[r + 3] == FormatRow(rows[r], Widths(headers, rows))
  {
    var widths := Widths(headers, rows);
    var body := FormatRows(rows, widths);
    FrameLines(Border(widths), FormatRow(headers, widths), body);
    forall r | 0 <= r < |rows| ensures PrintTable(headers, rows).value[r + 3] == FormatRow(rows[r], widths) {
      assert PrintTable(headers, rows).value[r + 3] == body[r];
    }
  }

  /**
   * The table's geometry: with at least one header, every line is
   * `sum(col_widths) + 3 * len(headers) + 1` long. (`BorderLayout` and
   * `RowLayout` show that the columns line up.)
   */
  lemma TableGeometry(headers: seq<string>, rows: seq<seq<string>>)
    requires |headers| > 0 && Rectangular(headers, rows)
    ensures PrintTable(headers, rows).Some?
    ensures forall k :: 0 <= k < |PrintTable(headers, rows).value| ==>
              |PrintTable(headers, rows).value[k]| == Sum(Widths(headers, rows)) + 3 * |headers| + 1
  {
    var widths := Widths(headers, rows);
    var total := Sum(widths) + 3 * |headers| + 1;
    assert |Border(widths)| == total by {
      BorderLength(widths);
    }
    assert |FormatRow(headers, widths)| == total by {
      CellsFit(headers, rows);
      RowLength(headers, widths);
    }
    assert forall r :: 0 <= r < |rows| ==> |FormatRows(rows, widths)[r]| == total by {
      DataRowsLength(headers, rows);
    }
    UniformLines(Border(widths), FormatRow(headers, widths), FormatRows(rows, widths), total);
  }

  /** Where each line of a framed table lands. */
  lemma FrameLines(line: string, header: string, body: seq<string>)
    ensures var lines := [line, header, line] + body + [line];
            && |lines| == |body| + 4
            && lines[0] == lines[2] == lines[|body| + 3] == line && lines[1] == header
            && (forall r :: 0 <= r < |body| ==> lines[r + 3] == body[r])
  {
  }

  /** Framing lines of one length with a border of that length keeps every line that long. */
  lemma UniformLines(line: string, header: string, body: seq<string>, total: nat)
    requires |line| == total && |header| == total
    requires forall r :: 0 <= r < |body| ==> |body[r]| == total
    ensures forall k :: 0 <= k < |body| + 4 ==> |([line, header, line] + body + [line])[k]| == total
  {
    var lines := [line, header, line] + body + [line];
    forall k | 0 <= k < |lines| ensures |lines[k]| == total {
      if 3 <= k < |lines| - 1 {
        assert lines[k] == body[k - 3];
      }
    }
  }

  /** Every data row is as long as a border. */
  lemma DataRowsLength(headers: seq<string>, rows: seq<seq<string>>)
    requires |headers| > 0 && Rectangular(headers, rows)
    ensures forall r :: 0 <= r < |rows| ==>
      |FormatRow(rows[r], Widths(headers, rows))| == Sum(Widths(headers, rows)) + 3 * |headers| + 1
  {
    var widths := Widths(headers, rows);
    forall r | 0 <= r < |rows|
      ensures |FormatRow(rows[r], widths)| == Sum(widths) + 3 * |headers| + 1
    {
      assert forall i :: 0 <= i < |headers| ==> |rows[r][i]| <= widths[i];
      RowLength(rows[r], widths);
    }
  }

  /**
   * A row with the wrong number of cells makes `print_table` raise, and
   * only such a row does.
   */
  lemma TableFailsOnRaggedRows(headers: seq<string>, rows: seq<seq<string>>)
    ensures PrintTable(headers, rows).None? <==> exists r :: 0 <= r < |rows| && |rows[r]| != |headers|
  {
  }
}
