/** Menu templates: visible widths in the presence of ANSI sequences, and the rows
    of menu items that replace the items marker of a template. */
module MenuTemplate {
  import opened CStrings
  import opened Bytes

  const ESC: char := 27 as char
  const TERMINAL_WIDTH := 80
  const MIN_CELL_WIDTH := 10
  const MAX_MENU_COLS := 3
  const CELL_CAP := 128
  const ROW_CAP := 256
  const LEFT_CAP := 256
  const TOKEN := "%%MENU_ITEMS%%"

  predicate IsAlpha(c: char) {
    'a' <= c <= 'z' || 'A' <= c <= 'Z'
  }

  /** A CSI sequence starts at `i`. */
  predicate CsiAt(s: string, i: nat) {
    i + 1 < |s| && s[i] == ESC && s[i + 1] == '['
  }

  predicate IsControl(c: char) {
    c < ' ' && c != '\t'
  }

  /** The first letter at or after `i`. */
  function Letter(s: string, i: nat): (j: nat)
    requires i <= |s|
    ensures i <= j <= |s|
    ensures j < |s| ==> IsAlpha(s[j])
    decreases |s| - i
  {
    if i < |s| && !IsAlpha(s[i]) then Letter(s, i + 1) else i
  }

  /** Where the unit at `i` ends: a CSI sequence to its letter, or one character. */
  function Next(s: string, i: nat): (j: nat)
    requires i < |s|
    ensures i < j <= |s|
  {
    if CsiAt(s, i) then Min(Letter(s, i + 2) + 1, |s|) else i + 1
  }

  /** How many columns the unit at `i` takes. */
  function Columns(s: string, i: nat): nat
    requires i < |s|
  {
    if CsiAt(s, i) || IsControl(s[i]) then 0 else 1
  }

  /** The columns of what stands at or after `i`. */
  function Visible(s: string, i: nat): nat
    requires i <= |s|
    decreases |s| - i
  {
    if i == |s| then 0 else Columns(s, i) + Visible(s, Next(s, i))
  }

  method VisibleLen(s: string) returns (n: nat)
    ensures n == Visible(s, 0)
  {
    n := 0;
    var i := 0;
    while i < |s|
      invariant i <= |s| && n + Visible(s, i) == Visible(s, 0)
      decreases |s| - i
    {
      ghost var next := Next(s, i);
      if i + 1 < |s| && s[i] == ESC && s[i + 1] == '[' {
        ghost var start := i + 2;
        i := i + 2;
        while i < |s| && !IsAlpha(s[i])
          invariant start <= i <= |s| && Letter(s, i) == Letter(s, start)
        {
          i := i + 1;
        }
        if i < |s| {
          i := i + 1;
        }
      } else if s[i] < ' ' && s[i] != '\t' {
        i := i + 1;
      } else {
        n := n + 1;
        i := i + 1;
      }
      assert i == next;
    }
  }

  /* ---------- one cell ---------- */

  /** How far a CSI sequence is copied into a buffer of `cap`. */
  function CsiCopied(s: string, i: nat, cap: nat): (j: nat)
    requires i <= |s|
    ensures i <= j <= |s|
    decreases |s| - i
  {
    if i < |s| && i + 1 < cap then (if IsAlpha(s[i]) then i + 1 else CsiCopied(s, i + 1, cap)) else i
  }

  /** How much of a cell is copied until `left` characters that are no sequences have been. */
  function Cut(s: string, i: nat, left: nat, cap: nat): (k: nat)
    requires i <= |s|
    ensures i <= k <= |s|
    decreases |s| - i
  {
    if i < |s| && left > 0 && i + 4 < cap then
      if CsiAt(s, i) then Cut(s, CsiCopied(s, i + 2, cap), left, cap) else Cut(s, i + 1, left - 1, cap)
    else i
  }

  const ELLIPSIS: string := "..."

  /** Where a cell that is too wide is cut. */
  function CutAt(width: nat): nat {
    if width > 3 then width - 3 else width
  }

  /** fit_cell into a buffer of `cap` characters. */
  function Fitted(cell: string, width: nat, cap: nat): (s: string)
    requires cap > 0
  {
    var vis := Visible(cell, 0);
    if vis <= width then
      var start := if |cell| < cap then cell else "";
      start + Spaces(Min(width - vis, cap - 1 - |start|))
    else
      var k := Cut(cell, 0, CutAt(width), cap);
      cell[..k] + if width > 3 && k + 4 < cap then ELLIPSIS else ""
  }

  /** fit_cell when there is room for everything. */
  function Ideal(cell: string, width: nat): string {
    var vis := Visible(cell, 0);
    if vis <= width then cell + Spaces(width - vis)
    else cell[..Cut(cell, 0, CutAt(width), |cell| + 4)] + if width > 3 then ELLIPSIS else ""
  }

  lemma {:induction false} CutFits(s: string, i: nat, left: nat, cap: nat)
    requires i <= |s| && i < cap
    ensures Cut(s, i, left, cap) < cap
    decreases |s| - i
  {
    if i < |s| && left > 0 && i + 4 < cap {
      if CsiAt(s, i) {
        CsiFits(s, i + 2, cap);
        CutFits(s, CsiCopied(s, i + 2, cap), left, cap);
      } else {
        CutFits(s, i + 1, left - 1, cap);
      }
    }
  }

  lemma {:induction false} CsiFits(s: string, i: nat, cap: nat)
    requires i <= |s| && i < cap
    ensures CsiCopied(s, i, cap) < cap
    decreases |s| - i
  {
    if i < |s| && i + 1 < cap && !IsAlpha(s[i]) {
      CsiFits(s, i + 1, cap);
    }
  }

  method CopyCsi(cell: string, i: nat, out: array<char>) returns (o: nat)
    requires CsiAt(cell, i) && i + 4 < out.Length && out[..i] == cell[..i]
    modifies out
    ensures o == CsiCopied(cell, i + 2, out.Length) && i < o < out.Length && out[..o] == cell[..o]
  {
    CsiFits(cell, i + 2, out.Length);
    out[i], out[i + 1] := cell[i], cell[i + 1];
    o := i + 2;
    assert out[..o] == cell[..o];
    while o < |cell| && !IsAlpha(cell[o]) && o + 1 < out.Length
      invariant i + 2 <= o <= |cell| && o < out.Length && out[..o] == cell[..o]
      invariant CsiCopied(cell, o, out.Length) == CsiCopied(cell, i + 2, out.Length)
    {
      out[o] := cell[o];
      o := o + 1;
      assert out[..o] == cell[..o];
    }
    if o < |cell| && o + 1 < out.Length {
      out[o] := cell[o];
      o := o + 1;
      assert out[..o] == cell[..o];
    }
  }

  method CutCell(cell: string, at: nat, out: array<char>) returns (o: nat)
    requires out.Length > 0
    modifies out
    ensures o == Cut(cell, 0, at, out.Length) && o < out.Length && out[..o] == cell[..o]
  {
    o := 0;
    var left := at;
    CutFits(cell, 0, at, out.Length);
    while o < |cell| && left > 0 && o + 4 < out.Length
      invariant o <= |cell| && o < out.Length && out[..o] == cell[..o]
      invariant Cut(cell, o, left, out.Length) == Cut(cell, 0, at, out.Length)
      decreases |cell| - o
    {
      if CsiAt(cell, o) {
        o := CopyCsi(cell, o, out);
      } else {
        out[o] := cell[o];
        o := o + 1;
        left := left - 1;
        assert out[..o] == cell[..o];
      }
    }
  }

  lemma SpacesSnoc(n: nat)
    ensures Spaces(n + 1) == Spaces(n) + [' ']
  {
  }

  method PadCell(cell: string, width: nat, vis: nat, out: array<char>) returns (o: nat)
    requires out.Length > 0 && vis == Visible(cell, 0) <= width
    modifies out
    ensures o < out.Length && out[..o] == Fitted(cell, width, out.Length)
  {
    ghost var start := if |cell| < out.Length then cell else "";
    o := 0;
    if |cell| < out.Length {
      forall i | 0 <= i < |cell| {
        out[i] := cell[i];
      }
      o := |cell|;
    }
    assert out[..o] == start;
    var n := vis;
    while n < width && o + 1 < out.Length
      invariant vis <= n <= width && o == |start| + (n - vis) && o < out.Length
      invariant out[..o] == start + Spaces(n - vis)
    {
      out[o] := ' ';
      SpacesSnoc(n - vis);
      assert out[..o + 1] == out[..o] + [' '];
      o, n := o + 1, n + 1;
    }
  }

  method FitCell(cell: string, width: nat, out: array<char>) returns (o: nat)
    requires out.Length > 0
    modifies out
    ensures o < out.Length && out[o] == '\0' && out[..o] == Fitted(cell, width, out.Length)
  {
    var vis := VisibleLen(cell);
    if vis <= width {
      o := PadCell(cell, width, vis, out);
    } else {
      hide Cut;
      o := CutCell(cell, CutAt(width), out);
      if width > 3 && o + 4 < out.Length {
        out[o], out[o + 1], out[o + 2] := '.', '.', '.';
        ghost var k := o;
        o := o + 3;
        assert out[..o] == cell[..k] + ELLIPSIS;
      }
    }
    out[o] := '\0';
  }
}
