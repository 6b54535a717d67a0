/** The body of a menu screen: how many columns, and the rows of fitted cells that
    are written in place of the items marker. */
module MenuRows {
  import opened CStrings
  import opened Bytes
  import opened MenuTemplate

  const KEY_CAP := 15
  const LABEL_CAP := 108

  /** format_menu_cell, on a label whose codes are expanded */
  function FormatCell(key: string, caption: string): string {
    ['['] + (key[..Min(|key|, KEY_CAP)] + ([']', ' '] + caption[..Min(|caption|, LABEL_CAP)]))
  }

  /* ---------- widths ---------- */

  function LeftOf(line: string): string {
    var t := Find(line, TOKEN, 0);
    if t > |line| then "" else line[..t]
  }

  function RightOf(line: string): string {
    var t := Find(line, TOKEN, 0);
    if t > |line| then "" else line[t + |TOKEN|..]
  }

  /** calc_body_width: the columns that are left for items; only so much of what is
      left of the marker is measured as fits its buffer. */
  method CalcBodyWidth(line: string) returns (width: nat)
    ensures width == BodyWidth(line)
  {
    var t := Find(line, TOKEN, 0);
    if t > |line| {
      return 0;
    }
    var left := line[..Min(t, LEFT_CAP - 1)];
    assert left == LeftOf(line)[..Min(t, LEFT_CAP - 1)];
    var l := VisibleLen(left);
    var r := VisibleLen(line[t + |TOKEN|..]);
    var w := TERMINAL_WIDTH - l - r;
    width := if w > 0 then w else 0;
  }

  function BodyWidth(line: string): nat {
    if Find(line, TOKEN, 0) > |line| then 0
    else
      var left := LeftOf(line);
      var w := TERMINAL_WIDTH - Visible(left[..Min(|left|, LEFT_CAP - 1)], 0) - Visible(RightOf(line), 0);
      if w > 0 then w else 0
  }

  /** What is asked for, between 1 and 3. */
  function Clamped(requested: int): nat {
    if requested < 1 then 1 else if requested > MAX_MENU_COLS then MAX_MENU_COLS else requested
  }

  /** compute_columns: the most columns, of those asked for, that are wide enough. */
  method ComputeColumns(width: nat, requested: int, count: nat) returns (cols: nat)
    ensures 1 <= cols <= Clamped(requested)
    ensures cols == 1 || (count > 0 && width / cols >= MIN_CELL_WIDTH)
    ensures count > 0 ==> forall c :: cols < c <= Clamped(requested) ==> width / c < MIN_CELL_WIDTH
  {
    if count == 0 {
      return 1;
    }
    cols := Clamped(requested);
    while cols >= 1
      invariant cols <= Clamped(requested)
      invariant forall c :: cols < c <= Clamped(requested) ==> width / c < MIN_CELL_WIDTH
    {
      if width / cols >= MIN_CELL_WIDTH {
        return;
      }
      cols := cols - 1;
    }
    cols := 1;
  }

  /* ---------- rows ---------- */

  datatype Row = Row(text: string, next: nat)

  function CellAt(cells: seq<string>, k: nat): string {
    if k < |cells| then cells[k] else ""
  }

  function After(cells: seq<string>, k: nat): nat {
    if k < |cells| then k + 1 else k
  }

  /** The rest of a row from column `c` on: a cell that does not fit the row is lost. */
  function RowFrom(cells: seq<string>, k: nat, c: nat, row: string, cols: nat, w: nat): (r: Row)
    ensures k <= r.next && (k <= |cells| ==> r.next <= |cells|)
    ensures k < |cells| && c < cols && |row| + w + 1 < ROW_CAP ==> k < r.next
    decreases cols - c
  {
    if c < cols && |row| + w + 1 < ROW_CAP then
      var f := Fitted(CellAt(cells, k), w, CELL_CAP);
      RowFrom(cells, After(cells, k), c + 1, if |row| + |f| < ROW_CAP then row + f else row, cols, w)
    else Row(row, k)
  }

  method FillRow(cells: seq<string>, k: nat, cols: nat, w: nat) returns (row: string, next: nat)
    ensures Row(row, next) == RowFrom(cells, k, 0, "", cols, w)
  {
    hide Fitted;
    row, next := "", k;
    var c := 0;
    while c < cols && |row| + w + 1 < ROW_CAP
      invariant c <= cols
      invariant RowFrom(cells, next, c, row, cols, w) == RowFrom(cells, k, 0, "", cols, w)
      decreases cols - c
    {
      var cell := "";
      if next < |cells| {
        cell := cells[next];
        next := next + 1;
      }
      var fitted := new char[CELL_CAP];
      var o := FitCell(cell, w, fitted);
      if |row| + o < ROW_CAP {
        row := row + fitted[..o];
      }
      c := c + 1;
    }
  }

  predicate Progress(cols: nat, w: nat) {
    cols >= 1 && w + 1 < ROW_CAP
  }

  function RowsFrom(cells: seq<string>, k: nat, cols: nat, w: nat): seq<string>
    requires Progress(cols, w)
    decreases |cells| - k
  {
    if k >= |cells| then []
    else
      var r := RowFrom(cells, k, 0, "", cols, w);
      [r.text] + RowsFrom(cells, r.next, cols, w)
  }

  /** The rows of the body: one empty one for an empty menu. */
  function Rows(cells: seq<string>, cols: nat, w: nat): seq<string>
    requires Progress(cols, w)
  {
    if cells == [] then [RowFrom(cells, 0, 0, "", cols, w).text] else RowsFrom(cells, 0, cols, w)
  }

  const CRLF: string := ['\r', '\n']

  function Line(left: string, row: string, right: string): string {
    left + row + right + CRLF
  }

  /** A row is written if there is room for 256 more characters. */
  function Written(buf: string, rows: seq<string>, left: string, right: string, cap: nat): string
    decreases |rows|
  {
    if rows == [] then buf
    else Written(if |buf| + ROW_CAP < cap then buf + Line(left, rows[0], right) else buf, rows[1..], left, right, cap)
  }

  /** The loop that generates the body rows, after `start` in a buffer of `cap`. */
  method WriteRows(cells: seq<string>, line: string, cols: nat, w: nat, start: string, cap: nat) returns (buf: string)
    requires Progress(cols, w) && Find(line, TOKEN, 0) <= |line|
    ensures buf == Written(start, Rows(cells, cols, w), LeftOf(line), RightOf(line), cap)
  {
    hide RowFrom, Find, LeftOf, RightOf, Line;
    var left, right := LeftOf(line), RightOf(line);
    buf := start;
    var k := 0;
    ghost var all := Written(start, Rows(cells, cols, w), left, right, cap);
    while k < |cells|
      invariant k <= |cells|
      invariant |cells| > 0 ==> Written(buf, RowsFrom(cells, k, cols, w), left, right, cap) == all
      invariant |cells| == 0 ==> buf == start
    {
      var row, next := FillRow(cells, k, cols, w);
      OneRow(cells, k, cols, w);
      assert RowsFrom(cells, k, cols, w)[1..] == RowsFrom(cells, next, cols, w);
      if |buf| + ROW_CAP < cap {
        buf := buf + Line(left, row, right);
      }
      k := next;
    }
    if |cells| == 0 {
      var row, _ := FillRow(cells, 0, cols, w);
      if |buf| + ROW_CAP < cap {
        buf := buf + Line(left, row, right);
      }
    }
  }

  lemma OneRow(cells: seq<string>, k: nat, cols: nat, w: nat)
    requires Progress(cols, w) && k < |cells|
    ensures var r := RowFrom(cells, k, 0, "", cols, w);
            k < r.next <= |cells| && RowsFrom(cells, k, cols, w) == [r.text] + RowsFrom(cells, r.next, cols, w)
  {
  }

  /** How many columns are wished for: up to three, and three if the menu does not say. */
  function Wish(genCols: int): nat {
    if 1 <= genCols <= 3 then genCols else 3
  }

  /** The body part of menu_render_template: nothing if the template leaves no room for
      a cell, else rows of as many columns as fit; `genCols` is the menu's wish. */
  method RenderBody(cells: seq<string>, line: string, genCols: int, start: string, cap: nat)
    returns (ok: bool, cols: nat, buf: string)
    ensures ok == (BodyWidth(line) >= 10) && (!ok ==> buf == start)
    ensures ok ==> 1 <= cols <= Wish(genCols) && BodyWidth(line) / cols >= 10 && (cells == [] ==> cols == 1)
    ensures ok && cells != [] ==> forall c :: cols < c <= Wish(genCols) ==> BodyWidth(line) / c < 10
    ensures ok ==> Progress(cols, BodyWidth(line) / cols) &&
                   buf == Written(start, Rows(cells, cols, BodyWidth(line) / cols), LeftOf(line), RightOf(line), cap)
  {
    hide Written, Rows, Find, Visible, LeftOf, RightOf;
    cols, buf := 1, start;
    var width := CalcBodyWidth(line);
    ok := width >= MIN_CELL_WIDTH;
    if ok {
      cols := ComputeColumns(width, if genCols > 0 then genCols else 3, |cells|);
      NarrowColumns(line, cols);
      buf := WriteRows(cells, line, cols, width / cols, start, cap);
    }
  }

  lemma NarrowColumns(line: string, cols: nat)
    requires 1 <= cols && BodyWidth(line) > 0
    ensures BodyWidth(line) / cols <= TERMINAL_WIDTH && Find(line, TOKEN, 0) <= |line|
  {
    hide Find, Visible;
    Quotient(BodyWidth(line), cols);
  }

  lemma Quotient(a: nat, b: nat)
    requires b >= 1
    ensures a / b <= a
  {
  }
}
