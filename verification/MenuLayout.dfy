/** Fitted cells are exactly as wide as their column, so the rows of a menu hold every
    item once, row by row, and are at most 80 columns wide. */
module MenuLayout {
  import opened CStrings
  import opened Bytes
  import opened MenuTemplate
  import opened MenuRows

  /** Every CSI sequence from `i` on is complete. */
  predicate Closed(s: string, i: nat)
    requires i <= |s|
    decreases |s| - i
  {
    i == |s| || ((CsiAt(s, i) ==> Letter(s, i + 2) < |s|) && Closed(s, Next(s, i)))
  }

  /** Every CSI sequence from `i` on is complete and no other control characters stand there. */
  predicate Clean(s: string, i: nat)
    requires i <= |s|
    decreases |s| - i
  {
    i == |s| || ((if CsiAt(s, i) then Letter(s, i + 2) < |s| else !IsControl(s[i])) && Clean(s, Next(s, i)))
  }

  lemma {:induction false} CleanIsClosed(s: string, i: nat)
    requires i <= |s| && Clean(s, i)
    ensures Closed(s, i)
    decreases |s| - i
  {
    if i < |s| {
      CleanIsClosed(s, Next(s, i));
    }
  }

  /* ---------- what takes a column ---------- */

  /** Text as a terminal sees it: sequences of ESC, [, parameters and a letter, other
      control characters, and characters that are shown. */
  datatype Seen = Csi(params: string, letter: char) | Control(c: char) | Shown(c: char)

  predicate IsLetter(c: char) {
    65 <= c as int <= 90 || 97 <= c as int <= 122
  }

  predicate LegalSeen(u: Seen) {
    match u
    case Csi(params, letter) => IsLetter(letter) && forall k :: 0 <= k < |params| ==> !IsLetter(params[k])
    case Control(c) => (c as int) < 32 && c as int != 9
    case Shown(c) => (c as int) >= 32 || c as int == 9
  }

  function SeenText(u: Seen): string {
    if u.Csi? then [27 as char, '['] + (u.params + [u.letter]) else [u.c]
  }

  function SeenAll(us: seq<Seen>): string {
    if us == [] then "" else SeenText(us[0]) + SeenAll(us[1..])
  }

  function ShownIn(us: seq<Seen>): nat {
    if us == [] then 0 else (if us[0].Shown? then 1 else 0) + ShownIn(us[1..])
  }

  /** An ESC that is shown for itself is not followed by a bracket, which would begin a sequence. */
  predicate LegalText(us: seq<Seen>) {
    forall k :: 0 <= k < |us| ==>
      LegalSeen(us[k]) && (us[k] == Control(27 as char) && k + 1 < |us| ==> us[k + 1] != Shown('['))
  }

  lemma {:induction false} LetterBehind(s: string, i: nat, params: string, letter: char, rest: string)
    requires i <= |s| && s[i..] == params + ([letter] + rest) && IsLetter(letter)
    requires forall k :: 0 <= k < |params| ==> !IsLetter(params[k])
    ensures Letter(s, i) == i + |params|
    decreases |params|
  {
    var t := params + ([letter] + rest);
    assert s[i] == s[i..][0] == t[0];
    if params != "" {
      assert s[i + 1..] == s[i..][1..] == t[1..] == params[1..] + ([letter] + rest);
      LetterBehind(s, i + 1, params[1..], letter, rest);
    }
  }

  lemma SeenUnit(s: string, i: nat, u: Seen, rest: string)
    requires i <= |s| && s[i..] == SeenText(u) + rest && LegalSeen(u)
    requires u == Control(27 as char) && rest != "" ==> rest[0] != '['
    ensures i < |s| && Columns(s, i) == (if u.Shown? then 1 else 0) && Next(s, i) == i + |SeenText(u)|
    ensures s[i + |SeenText(u)|..] == rest
  {
    var t, n := SeenText(u) + rest, |SeenText(u)|;
    assert t[n..] == rest && s[i + n..] == s[i..][n..];
    assert s[i] == s[i..][0] && (i + 1 < |s| ==> s[i + 1] == s[i..][1]);
    if u.Csi? {
      CsiText(u, rest);
      assert s[i + 2..] == s[i..][2..];
      hide SeenText;
      LetterBehind(s, i + 2, u.params, u.letter, rest);
    }
  }

  lemma CsiText(u: Seen, rest: string)
    requires u.Csi?
    ensures var t := SeenText(u) + rest;
            |t| >= 3 && t[0] as int == 27 && t[1] == '[' && t[2..] == u.params + ([u.letter] + rest)
    ensures |SeenText(u)| == |u.params| + 3
  {
    var t := SeenText(u) + rest;
    assert t == [27 as char, '['] + (u.params + ([u.letter] + rest));
  }

  lemma {:induction false} VisibleFrom(s: string, i: nat, us: seq<Seen>)
    requires i <= |s| && s[i..] == SeenAll(us) && LegalText(us)
    ensures Visible(s, i) == ShownIn(us)
    decreases |us|
  {
    hide SeenText, LegalSeen, Columns, Next;
    if us != [] {
      NoBracketBehind(us);
      SeenUnit(s, i, us[0], SeenAll(us[1..]));
      assert forall k :: 0 <= k < |us[1..]| ==> us[1..][k] == us[k + 1];
      VisibleFrom(s, i + |SeenText(us[0])|, us[1..]);
    }
  }

  lemma NoBracketBehind(us: seq<Seen>)
    requires us != [] && LegalText(us)
    ensures us[0] == Control(27 as char) && SeenAll(us[1..]) != "" ==> SeenAll(us[1..])[0] != '['
    ensures LegalSeen(us[0])
  {
    if |us| > 1 {
      var u := us[1];
      assert us[1..][0] == u && LegalSeen(u);
      assert SeenAll(us[1..])[0] == SeenText(u)[0];
    }
  }

  /** Exactly the characters that are shown take a column. */
  lemma VisibleCounts(us: seq<Seen>)
    requires LegalText(us)
    ensures Visible(SeenAll(us), 0) == ShownIn(us)
  {
    assert SeenAll(us)[0..] == SeenAll(us);
    VisibleFrom(SeenAll(us), 0, us);
  }

  /* ---------- text with more text behind it ---------- */

  lemma {:induction false} LetterStays(s: string, t: string, i: nat)
    requires i <= |s| && Letter(s, i) < |s|
    ensures Letter(s + t, i) == Letter(s, i)
    decreases |s| - i
  {
    if !IsAlpha(s[i]) {
      LetterStays(s, t, i + 1);
    }
  }

  lemma {:induction false} LetterShifts(s: string, t: string, i: nat)
    requires i <= |t|
    ensures Letter(s + t, |s| + i) == |s| + Letter(t, i)
    decreases |t| - i
  {
    if i < |t| && !IsAlpha(t[i]) {
      LetterShifts(s, t, i + 1);
    }
  }

  /** The unit at `i` is the same in the longer text, unless it is an ESC at the end that gets a bracket. */
  lemma UnitStays(s: string, t: string, i: nat)
    requires i < |s| && (CsiAt(s, i) ==> Letter(s, i + 2) < |s|)
    requires t != "" && i + 1 == |s| && s[i] == ESC ==> t[0] != '['
    ensures CsiAt(s + t, i) == CsiAt(s, i) && Next(s + t, i) == Next(s, i) && Columns(s + t, i) == Columns(s, i)
  {
    if CsiAt(s, i) {
      LetterStays(s, t, i + 2);
    }
  }

  lemma UnitShifts(s: string, t: string, i: nat)
    requires i < |t|
    ensures CsiAt(s + t, |s| + i) == CsiAt(t, i) && Next(s + t, |s| + i) == |s| + Next(t, i)
    ensures Columns(s + t, |s| + i) == Columns(t, i)
  {
    if CsiAt(t, i) {
      LetterShifts(s, t, i + 2);
    }
  }

  lemma {:induction false} Shifted(s: string, t: string, i: nat)
    requires i <= |t|
    ensures Visible(s + t, |s| + i) == Visible(t, i)
    ensures Clean(t, i) ==> Clean(s + t, |s| + i)
    decreases |t| - i
  {
    if i < |t| {
      UnitShifts(s, t, i);
      Shifted(s, t, Next(t, i));
      if CsiAt(t, i) {
        LetterShifts(s, t, i + 2);
      }
    }
  }

  /** Columns add up behind clean text. */
  lemma {:induction false} VisibleAdds(s: string, t: string, i: nat)
    requires i <= |s| && Clean(s, i)
    ensures Visible(s + t, i) == Visible(s, i) + Visible(t, 0)
    ensures Clean(t, 0) ==> Clean(s + t, i)
    decreases |s| - i
  {
    if i == |s| {
      Shifted(s, t, 0);
    } else {
      UnitStays(s, t, i);
      VisibleAdds(s, t, Next(s, i));
      if CsiAt(s, i) {
        LetterStays(s, t, i + 2);
      }
    }
  }

  /** Columns add up behind text without open sequences, unless its last character is an
      ESC that the text behind it makes a sequence of. */
  lemma {:induction false} ClosedAdds(s: string, t: string, i: nat)
    requires i <= |s| && Closed(s, i) && !EndsInEsc(s)
    ensures Visible(s + t, i) == Visible(s, i) + Visible(t, 0)
    decreases |s| - i
  {
    if i == |s| {
      Shifted(s, t, 0);
    } else {
      UnitStays(s, t, i);
      ClosedAdds(s, t, Next(s, i));
    }
  }

  predicate EndsInEsc(s: string) {
    s != "" && s[|s| - 1] == ESC
  }

  lemma {:induction false} LetterPasses(s: string, t: string, i: nat)
    requires i <= |s| && Letter(s, i) == |s|
    ensures Letter(s + t, i) == |s| + Letter(t, 0)
    decreases |s| - i
  {
    if i < |s| {
      LetterPasses(s, t, i + 1);
    } else {
      LetterShifts(s, t, 0);
    }
  }

  /** What an open sequence takes away from the text behind it ends where a unit of it ends. */
  lemma {:induction false} BehindLetter(t: string, i: nat)
    requires i <= |t|
    ensures Visible(t, Min(Letter(t, i) + 1, |t|)) <= Visible(t, i)
    decreases |t| - i
  {
    if i < |t| && !IsAlpha(t[i]) {
      if CsiAt(t, i) {
        assert Letter(t, i) == Letter(t, i + 1) == Letter(t, i + 2);
      } else {
        BehindLetter(t, i + 1);
      }
    }
  }

  /** An open sequence at the end, or an ESC there that the text behind it opens, takes away. */
  lemma OpenTakes(s: string, t: string, i: nat)
    requires i < |s| && CsiAt(s + t, i) && Letter(s + t, i + 2) == |s| + Letter(t, 0)
    ensures Visible(s + t, i) <= Visible(t, 0)
  {
    Shifted(s, t, Min(Letter(t, 0) + 1, |t|));
    BehindLetter(t, 0);
  }

  /** Whatever it is, text does not take more columns than its parts do. */
  lemma {:induction false} VisibleAtMost(s: string, t: string, i: nat)
    requires i <= |s|
    ensures Visible(s + t, i) <= Visible(s, i) + Visible(t, 0)
    decreases |s| - i
  {
    if i == |s| {
      Shifted(s, t, 0);
    } else if CsiAt(s, i) && Letter(s, i + 2) == |s| {
      LetterPasses(s, t, i + 2);
      OpenTakes(s, t, i);
    } else if i + 1 == |s| && s[i] == ESC && t != "" && t[0] == '[' {
      LetterShifts(s, t, 1);
      OpenTakes(s, t, i);
    } else {
      UnitStays(s, t, i);
      VisibleAtMost(s, t, Next(s, i));
    }
  }

  /* ---------- padding ---------- */

  lemma {:induction false} SpacesVisible(n: nat, i: nat)
    requires i <= n
    ensures Visible(Spaces(n), i) == n - i && Clean(Spaces(n), i)
    decreases n - i
  {
    if i < n {
      SpacesVisible(n, i + 1);
    }
  }

  lemma NoLetterInSpaces(s: string, n: nat, i: nat)
    requires i <= |s| && Letter(s, i) == |s|
    ensures Letter(s + Spaces(n), i) == |s| + n
  {
    LetterPasses(s, Spaces(n), i);
    NoLetterIn(Spaces(n), 0);
  }

  lemma {:induction false} NoLetterIn(t: string, i: nat)
    requires i <= |t| && forall k :: i <= k < |t| ==> !IsAlpha(t[k])
    ensures Letter(t, i) == |t|
    decreases |t| - i
  {
    if i < |t| {
      NoLetterIn(t, i + 1);
    }
  }

  /** Blanks behind a text take their columns, unless they end up in an open sequence. */
  lemma {:induction false} PadVisible(s: string, n: nat, i: nat)
    requires i <= |s|
    ensures Visible(s + Spaces(n), i) == Visible(s, i) + if Closed(s, i) then n else 0
    decreases |s| - i
  {
    if i == |s| {
      Shifted(s, Spaces(n), 0);
      SpacesVisible(n, 0);
    } else if CsiAt(s, i) && Letter(s, i + 2) == |s| {
      NoLetterInSpaces(s, n, i + 2);
    } else {
      UnitStays(s, Spaces(n), i);
      PadVisible(s, n, Next(s, i));
    }
  }

  /* ---------- cutting ---------- */

  lemma {:induction false} WholeCsi(s: string, i: nat)
    requires i <= |s|
    ensures CsiCopied(s, i, |s| + 4) == Min(Letter(s, i) + 1, |s|)
    decreases |s| - i
  {
    if i < |s| && !IsAlpha(s[i]) {
      WholeCsi(s, i + 1);
    }
  }

  /** With room for everything the copying goes on unit by unit. */
  lemma CutStep(s: string, i: nat, left: nat)
    requires i < |s| && left > 0
    ensures Cut(s, i, left, |s| + 4) == Cut(s, Next(s, i), if CsiAt(s, i) then left else left - 1, |s| + 4)
  {
    if CsiAt(s, i) {
      WholeCsi(s, i + 2);
    }
  }

  /** How many control characters are among the `left` characters that are counted. */
  function Controls(s: string, i: nat, left: nat): nat
    requires i <= |s|
    decreases |s| - i
  {
    if i == |s| || left == 0 then 0
    else if CsiAt(s, i) then Controls(s, Next(s, i), left)
    else (if IsControl(s[i]) then 1 else 0) + Controls(s, i + 1, left - 1)
  }

  lemma EllipsisVisible(s: string)
    ensures Visible(s + ELLIPSIS, |s|) == 3 && Clean(s + ELLIPSIS, |s|)
  {
    hide Visible, Clean;
    DotsVisible();
    Shifted(s, ELLIPSIS, 0);
  }

  lemma DotsVisible()
    ensures Visible(ELLIPSIS, 0) == 3 && Clean(ELLIPSIS, 0)
  {
    assert Visible(ELLIPSIS, 3) == 0 && Clean(ELLIPSIS, 3);
    assert Visible(ELLIPSIS, 2) == 1 && Clean(ELLIPSIS, 2);
    assert Visible(ELLIPSIS, 1) == 2 && Clean(ELLIPSIS, 1);
  }

  lemma {:induction false} LetterInPrefix(s: string, t: string, k: nat, i: nat)
    requires i <= |s| && Letter(s, i) < k <= |s| && k <= |t| && t[..k] == s[..k]
    ensures Letter(t, i) == Letter(s, i)
    decreases k - i
  {
    assert t[i] == t[..k][i] == s[..k][i] == s[i];
    if !IsAlpha(s[i]) {
      LetterInPrefix(s, t, k, i + 1);
    }
  }

  lemma CharInPrefix(s: string, t: string, i: nat, k: nat)
    requires i < k <= |s| && k <= |t| && t[..k] == s[..k]
    ensures t[i] == s[i]
  {
    assert t[..k][i] == s[..k][i];
  }

  lemma CsiInPrefix(s: string, t: string, i: nat, k: nat)
    requires i < k <= |s| && (CsiAt(s, i) ==> i + 1 < k)
    requires k < |t| && t[..k] == s[..k] && t[k] != '['
    ensures CsiAt(t, i) == CsiAt(s, i)
  {
    CharInPrefix(s, t, i, k);
    if i + 1 < k {
      CharInPrefix(s, t, i + 1, k);
    }
  }

  /** A unit that ends before the cut is the same in the cut text. */
  lemma UnitInPrefix(s: string, t: string, i: nat, k: nat)
    requires i < |s| && Next(s, i) <= k <= |s| && (CsiAt(s, i) ==> Letter(s, i + 2) < |s|)
    requires k < |t| && t[..k] == s[..k] && t[k] != '['
    ensures CsiAt(t, i) == CsiAt(s, i) && Next(t, i) == Next(s, i) && Columns(t, i) == Columns(s, i) && t[i] == s[i]
    ensures CsiAt(s, i) ==> Letter(t, i + 2) == Letter(s, i + 2)
  {
    hide CsiAt, IsControl, Letter;
    NextIsFar(s, i);
    CsiInPrefix(s, t, i, k);
    CharInPrefix(s, t, i, k);
    if CsiAt(s, i) {
      LetterInPrefix(s, t, k, i + 2);
    }
  }

  lemma NextIsFar(s: string, i: nat)
    requires i < |s|
    ensures CsiAt(s, i) ==> i + 2 <= |s| && i + 2 <= Next(s, i)
  {
  }

  lemma {:induction false} CutVisible(s: string, i: nat, left: nat)
    requires i <= |s| && Visible(s, i) > left
    ensures var t := s[..Cut(s, i, left, |s| + 4)] + ELLIPSIS;
            Visible(t, i) == left - Controls(s, i, left) + 3 && (Clean(s, i) ==> Clean(t, i))
    decreases |s| - i
  {
    var k := Cut(s, i, left, |s| + 4);
    if left == 0 {
      EllipsisVisible(s[..i]);
    } else {
      CutStep(s, i, left);
      CutVisible(s, Next(s, i), if CsiAt(s, i) then left else left - 1);
      UnitInPrefix(s, s[..k] + ELLIPSIS, i, k);
    }
  }

  lemma {:induction false} CleanHasNoControls(s: string, i: nat, left: nat)
    requires i <= |s| && Clean(s, i)
    ensures Controls(s, i, left) == 0
    decreases |s| - i
  {
    if i < |s| && left > 0 {
      CleanHasNoControls(s, Next(s, i), if CsiAt(s, i) then left else left - 1);
    }
  }

  /* ---------- fitted cells ---------- */

  /** With room for it, a cell is fitted to exactly its column if and only if: when it
      is not too wide, it fills it already or leaves no sequence open; when it is too
      wide, no control character is counted in what is kept of it. */
  lemma FitsExactlyIff(cell: string, w: nat)
    requires w > 3
    ensures Visible(Ideal(cell, w), 0) == w <==>
            if Visible(cell, 0) <= w then Visible(cell, 0) == w || Closed(cell, 0)
            else Controls(cell, 0, w - 3) == 0
  {
    if Visible(cell, 0) <= w {
      PadVisible(cell, w - Visible(cell, 0), 0);
    } else {
      CutVisible(cell, 0, w - 3);
    }
  }

  /** Text with complete sequences and no other control characters fits exactly. */
  lemma CleanFits(cell: string, w: nat)
    requires w > 3 && Clean(cell, 0)
    ensures Visible(Ideal(cell, w), 0) == w && Clean(Ideal(cell, w), 0)
  {
    var vis := Visible(cell, 0);
    if vis <= w {
      SpacesVisible(w - vis, 0);
      VisibleAdds(cell, Spaces(w - vis), 0);
    } else {
      CutVisible(cell, 0, w - 3);
      CleanHasNoControls(cell, 0, w - 3);
    }
  }

  lemma {:induction false} CsiRoomy(s: string, i: nat, cap: nat)
    requires i <= |s| && CsiCopied(s, i, |s| + 4) + 1 < cap
    ensures CsiCopied(s, i, cap) == CsiCopied(s, i, |s| + 4)
    decreases |s| - i
  {
    if i < |s| && !IsAlpha(s[i]) {
      CsiRoomy(s, i + 1, cap);
    }
  }

  lemma {:induction false} CutRoomy(s: string, i: nat, left: nat, cap: nat)
    requires i <= |s| && Cut(s, i, left, |s| + 4) + 4 < cap
    ensures Cut(s, i, left, cap) == Cut(s, i, left, |s| + 4)
    decreases |s| - i
  {
    if i < |s| && left > 0 {
      if CsiAt(s, i) {
        CsiRoomy(s, i + 2, cap);
        CutRoomy(s, CsiCopied(s, i + 2, |s| + 4), left, cap);
      } else {
        CutRoomy(s, i + 1, left - 1, cap);
      }
    }
  }

  /** A buffer with room for the result and two more characters changes nothing. */
  lemma RoomyFits(cell: string, w: nat, cap: nat)
    requires w > 3 && |Ideal(cell, w)| + 1 < cap
    ensures Fitted(cell, w, cap) == Ideal(cell, w)
  {
    if Visible(cell, 0) > w {
      CutRoomy(cell, 0, w - 3, cap);
    }
  }

  /** The buffers of cells have 128 characters.  A cell of 127 is kept; of a longer one that
      is not too wide only the padding is left, so that it takes less than its column. */
  lemma LongCell(cell: string, w: nat)
    requires Visible(cell, 0) <= w <= 80
    ensures |cell| == 127 ==> Fitted(cell, w, CELL_CAP) == cell
    ensures |cell| > 127 ==> Fitted(cell, w, CELL_CAP) == Spaces(w - Visible(cell, 0))
  {
    hide Visible;
    var n := w - Visible(cell, 0);
    if |cell| == 127 {
      assert cell + Spaces(0) == cell;
    } else if |cell| > 127 {
      assert "" + Spaces(n) == Spaces(n);
    }
  }

  /* ---------- rows ---------- */

  /** How long a fitted cell may be, with the sequences in it, so that nothing is lost:
      three such cells and a blank one fit the row. */
  const ROOM := 84

  predicate Column(cols: nat, w: nat) {
    1 <= cols <= 3 && 10 <= w && cols * w <= 80
  }

  predicate Fine(cell: string, w: nat) {
    Clean(cell, 0) && |Ideal(cell, w)| <= ROOM
  }

  predicate AllFine(cells: seq<string>, w: nat) {
    forall k :: 0 <= k < |cells| ==> Fine(cells[k], w)
  }

  /** `c` fitted cells side by side, from the `k`-th on; blank where there are no more. */
  function CellsFrom(cells: seq<string>, k: nat, c: nat, w: nat): string {
    if c == 0 then "" else CellsFrom(cells, k, c - 1, w) + Ideal(CellAt(cells, k + c - 1), w)
  }

  lemma BlankIsFine(w: nat)
    requires 3 < w <= ROOM
    ensures Fine("", w) && Ideal("", w) == Spaces(w)
  {
    assert "" + Spaces(w) == Spaces(w);
  }

  lemma CellIsFine(cells: seq<string>, k: nat, w: nat)
    requires AllFine(cells, w) && 3 < w <= ROOM
    ensures Fine(CellAt(cells, k), w)
  {
    BlankIsFine(w);
  }

  /** A menu of printable texts is fine: a fitted cell is as long as it is wide. */
  lemma PrintableIsFine(cell: string, w: nat)
    requires 3 < w <= ROOM && forall i :: 0 <= i < |cell| ==> cell[i] >= ' '
    ensures Fine(cell, w) && |Ideal(cell, w)| == w
  {
    PrintableVisible(cell, 0);
    if |cell| > w {
      PrintableCut(cell, 0, w - 3);
    }
  }

  /** The cells of items with printable keys and labels are fine. */
  lemma LabelsAreFine(key: string, caption: string, w: nat)
    requires 3 < w <= ROOM
    requires forall i :: 0 <= i < |key| ==> key[i] >= ' '
    requires forall i :: 0 <= i < |caption| ==> caption[i] >= ' '
    ensures Fine(FormatCell(key, caption), w) && |Ideal(FormatCell(key, caption), w)| == w
  {
    PrintableIsFine(FormatCell(key, caption), w);
  }

  lemma {:induction false} PrintableVisible(s: string, i: nat)
    requires i <= |s| && forall k :: 0 <= k < |s| ==> s[k] >= ' '
    ensures Clean(s, i) && Visible(s, i) == |s| - i
    decreases |s| - i
  {
    if i < |s| {
      PrintableVisible(s, i + 1);
    }
  }

  lemma {:induction false} PrintableCut(s: string, i: nat, left: nat)
    requires i + left <= |s| && forall k :: 0 <= k < |s| ==> s[k] >= ' '
    ensures Cut(s, i, left, |s| + 4) == i + left
    decreases left
  {
    if left > 0 {
      PrintableCut(s, i + 1, left - 1);
    }
  }

  /** A printable cell is fitted to its column in its buffer: padded with blanks, or cut to
      three characters less and followed by three dots. */
  lemma PrintableFitted(cell: string, w: nat)
    requires 4 <= w <= 80 && forall i :: 0 <= i < |cell| ==> (cell[i] as int) >= 32
    ensures Fitted(cell, w, CELL_CAP) ==
            if |cell| <= w then cell + Spaces(w - |cell|) else cell[..w - 3] + ['.', '.', '.']
  {
    hide Clean;
    PrintableVisible(cell, 0);
    if |cell| > w {
      PrintableCut(cell, 0, w - 3);
    }
    hide Visible;
    RoomyFits(cell, w, CELL_CAP);
  }

  /** The cell of an item: its key in brackets, a blank and its caption, cut to 15 and 108. */
  lemma ItemCell(key: string, caption: string)
    ensures |key| <= 15 && |caption| <= 108 ==> FormatCell(key, caption) == "[" + key + "] " + caption
    ensures FormatCell(key, caption) ==
            FormatCell(if |key| > 15 then key[..15] else key, if |caption| > 108 then caption[..108] else caption)
  {
    if |key| <= 15 && |caption| <= 108 {
      assert key[..|key|] == key && caption[..|caption|] == caption;
      assert "[" + key + "] " + caption == ['['] + (key + ([']', ' '] + caption));
    }
  }

  lemma {:induction false} CellsShort(cells: seq<string>, k: nat, c: nat, w: nat)
    requires AllFine(cells, w) && 3 < w <= ROOM
    ensures |CellsFrom(cells, k, c, w)| <= c * ROOM
    decreases c
  {
    hide Ideal, Fine;
    if c > 0 {
      CellsShort(cells, k, c - 1, w);
      CellIsFine(cells, k + c - 1, w);
      FineIsShort(CellAt(cells, k + c - 1), w);
    }
  }

  lemma FineIsShort(cell: string, w: nat)
    requires Fine(cell, w)
    ensures |Ideal(cell, w)| <= ROOM
  {
  }

  /** A row of fine cells holds its cells, none of them lost. */
  lemma {:induction false} RowHolds(cells: seq<string>, k: nat, c: nat, cols: nat, w: nat)
    requires AllFine(cells, w) && Column(cols, w) && c <= cols && k <= |cells|
    ensures RowFrom(cells, Min(k + c, |cells|), c, CellsFrom(cells, k, c, w), cols, w) ==
            Row(CellsFrom(cells, k, cols, w), Min(k + cols, |cells|))
    decreases cols - c
  {
    hide Ideal, Fitted, Fine, AllFine, CellsFrom, Column;
    WidthOk(cols, w);
    if c < cols {
      OneMoreCell(cells, k, c, w);
      CellsShort(cells, k, c, w);
      CellsShort(cells, k, c + 1, w);
      CellIsFine(cells, k + c, w);
      FineIsShort(CellAt(cells, k + c), w);
      RoomyFits(CellAt(cells, k + c), w, CELL_CAP);
      NextCell(cells, k, c);
      RowHolds(cells, k, c + 1, cols, w);
    }
  }

  lemma OneMoreCell(cells: seq<string>, k: nat, c: nat, w: nat)
    ensures CellsFrom(cells, k, c + 1, w) == CellsFrom(cells, k, c, w) + Ideal(CellAt(cells, k + c), w)
  {
    hide Ideal;
  }

  lemma NextCell(cells: seq<string>, k: nat, c: nat)
    ensures CellAt(cells, Min(k + c, |cells|)) == CellAt(cells, k + c)
    ensures After(cells, Min(k + c, |cells|)) == Min(k + c + 1, |cells|)
  {
  }

  lemma WidthOk(cols: nat, w: nat)
    requires Column(cols, w)
    ensures 3 < w <= 80 && (cols - 1) * ROOM + w + 1 < 256 && 1 <= cols <= 3
  {
  }

  /** The rows of a menu: the cells in order, `cols` to a row. */
  function Grid(cells: seq<string>, k: nat, cols: nat, w: nat): seq<string>
    requires cols > 0
    decreases |cells| - k
  {
    if k >= |cells| then [] else [CellsFrom(cells, k, cols, w)] + Grid(cells, k + cols, cols, w)
  }

  lemma {:induction false} RowsAreGrid(cells: seq<string>, k: nat, cols: nat, w: nat)
    requires AllFine(cells, w) && Column(cols, w) && Progress(cols, w) && k <= |cells|
    ensures RowsFrom(cells, k, cols, w) == Grid(cells, k, cols, w)
    decreases |cells| - k
  {
    hide RowFrom, CellsFrom, Fine;
    if k < |cells| {
      NoCells(cells, k, w);
      RowHolds(cells, k, 0, cols, w);
      if k + cols <= |cells| {
        RowsAreGrid(cells, k + cols, cols, w);
      } else {
        RowsAreGrid(cells, |cells|, cols, w);
      }
    }
  }

  lemma NoCells(cells: seq<string>, k: nat, w: nat)
    ensures CellsFrom(cells, k, 0, w) == ""
  {
  }

  /** The item in row `r` and column 0, if the first row begins with the `k`-th. */
  function FirstIn(k: nat, r: nat, cols: nat): nat {
    k + r * cols
  }

  /** Every item is in exactly one place: the one in row `r` and column `c` is behind
      the `c` cells of that row before it. */
  lemma {:induction false} ItemPlace(cells: seq<string>, k: nat, r: nat, c: nat, cols: nat, w: nat)
    requires c < cols && FirstIn(k, r, cols) + c < |cells|
    ensures r < |Grid(cells, k, cols, w)|
    ensures Grid(cells, k, cols, w)[r] == CellsFrom(cells, FirstIn(k, r, cols), cols, w)
    ensures At(Grid(cells, k, cols, w)[r], |CellsFrom(cells, FirstIn(k, r, cols), c, w)|,
               Ideal(cells[FirstIn(k, r, cols) + c], w))
    decreases r
  {
    hide CellsFrom, Ideal, At;
    if r == 0 {
      CellInRow(cells, k, c, cols, w);
    } else {
      assert FirstIn(k, r, cols) == FirstIn(k + cols, r - 1, cols);
      ItemPlace(cells, k + cols, r - 1, c, cols, w);
    }
  }

  /** The `c`-th cell of a row stands behind the cells before it. */
  lemma {:induction false} CellInRow(cells: seq<string>, k: nat, c: nat, cols: nat, w: nat)
    requires c < cols && k + c < |cells|
    ensures At(CellsFrom(cells, k, cols, w), |CellsFrom(cells, k, c, w)|, Ideal(cells[k + c], w))
    decreases cols
  {
    hide Ideal;
    var front, last := CellsFrom(cells, k, cols - 1, w), Ideal(CellAt(cells, k + cols - 1), w);
    if c == cols - 1 {
      assert (front + last)[|front|..|front| + |last|] == last;
    } else {
      CellInRow(cells, k, c, cols - 1, w);
      StillAt(front, |CellsFrom(cells, k, c, w)|, Ideal(cells[k + c], w), last);
    }
  }

  /** There are as many rows as it takes to hold the items, and no more. */
  lemma {:induction false} RowCount(cells: seq<string>, k: nat, cols: nat, w: nat)
    requires cols > 0 && k <= |cells|
    ensures var rows := |Grid(cells, k, cols, w)|; (rows - 1) * cols < |cells| - k <= rows * cols
    decreases |cells| - k
  {
    hide CellsFrom;
    if k + cols <= |cells| {
      RowCount(cells, k + cols, cols, w);
      var rows := |Grid(cells, k + cols, cols, w)|;
      assert rows * cols == cols + (rows - 1) * cols;
    }
  }

  /* ---------- widths of rows ---------- */

  lemma {:induction false} CellsWidth(cells: seq<string>, k: nat, c: nat, w: nat)
    requires AllFine(cells, w) && 3 < w <= ROOM
    ensures Visible(CellsFrom(cells, k, c, w), 0) == c * w && Clean(CellsFrom(cells, k, c, w), 0)
    decreases c
  {
    hide Ideal, Visible, Clean, Fine;
    if c == 0 {
      EmptyText();
    } else {
      CellsWidth(cells, k, c - 1, w);
      CellIsFine(cells, k + c - 1, w);
      FineIsClean(CellAt(cells, k + c - 1), w);
      CleanFits(CellAt(cells, k + c - 1), w);
      VisibleAdds(CellsFrom(cells, k, c - 1, w), Ideal(CellAt(cells, k + c - 1), w), 0);
      assert (c - 1) * w + w == c * w;
    }
  }

  lemma EmptyText()
    ensures Visible("", 0) == 0 && Clean("", 0)
  {
  }

  lemma FineIsClean(cell: string, w: nat)
    requires Fine(cell, w)
    ensures Clean(cell, 0)
  {
  }

  /** A line of a template that has the marker, and no sequence left of it that the row
      would become a part of. */
  predicate Template(line: string) {
    Find(line, TOKEN, 0) <= |line| && Closed(LeftOf(line), 0) && !EndsInEsc(LeftOf(line))
  }

  /** The columns left of the marker that are not measured: only 255 characters are. */
  function Unseen(line: string): int {
    Visible(LeftOf(line), 0) - Visible(LeftOf(line)[..Min(|LeftOf(line)|, 255)], 0)
  }

  function BodyRow(line: string, cells: seq<string>, k: nat, cols: nat, w: nat): string {
    LeftOf(line) + CellsFrom(cells, k, cols, w) + RightOf(line)
  }

  /** A row takes all 80 columns but the remainder, and those that were not measured.  It
      is at most 80 columns wide if and only if these are not more than the remainder. */
  lemma RowWidth(line: string, cells: seq<string>, k: nat, cols: nat, w: nat)
    requires Template(line) && AllFine(cells, w) && 10 <= BodyWidth(line)
    requires 1 <= cols && w == BodyWidth(line) / cols && 3 < w <= ROOM
    ensures var width := Visible(BodyRow(line, cells, k, cols, w), 0);
            width == 80 - BodyWidth(line) % cols + Unseen(line) &&
            (width <= 80 <==> Unseen(line) <= BodyWidth(line) % cols)
  {
    hide Visible, Clean, Closed, EndsInEsc, CellsFrom, AllFine, Find, LeftOf, RightOf;
    var left, row, right := LeftOf(line), CellsFrom(cells, k, cols, w), RightOf(line);
    CellsWidth(cells, k, cols, w);
    VisibleAdds(row, right, 0);
    Assoc(left, row, right);
    ClosedAdds(left, row + right, 0);
    Measured(line);
  }

  /** On any line at all, rows are no wider than that; so they keep to 80 columns if all
      that stands left of the marker is measured. */
  lemma RowAtMost(line: string, cells: seq<string>, k: nat, cols: nat, w: nat)
    requires AllFine(cells, w) && 10 <= BodyWidth(line)
    requires 1 <= cols && w == BodyWidth(line) / cols && 3 < w <= ROOM
    ensures var width := Visible(BodyRow(line, cells, k, cols, w), 0);
            width <= 80 - BodyWidth(line) % cols + Unseen(line) &&
            (|LeftOf(line)| < 256 ==> width <= 80)
  {
    hide Visible, Clean, CellsFrom, AllFine, Find, LeftOf, RightOf;
    var left, row, right := LeftOf(line), CellsFrom(cells, k, cols, w), RightOf(line);
    CellsWidth(cells, k, cols, w);
    VisibleAdds(row, right, 0);
    Assoc(left, row, right);
    VisibleAtMost(left, row + right, 0);
    Measured(line);
    assert left[..|left|] == left;
  }

  lemma Measured(line: string)
    requires 0 < BodyWidth(line)
    ensures BodyWidth(line) + Visible(LeftOf(line), 0) + Visible(RightOf(line), 0) == 80 + Unseen(line)
  {
    hide Find, Visible;
  }

  /* ---------- the screen ---------- */

  function Lines(rows: seq<string>, left: string, right: string): string {
    if rows == [] then "" else Line(left, rows[0], right) + Lines(rows[1..], left, right)
  }

  /** With room for all of it and 256 characters more every row is written. */
  lemma {:induction false} AllWritten(buf: string, rows: seq<string>, left: string, right: string, cap: nat)
    requires |buf| + |Lines(rows, left, right)| + 256 < cap
    ensures Written(buf, rows, left, right, cap) == buf + Lines(rows, left, right)
    decreases |rows|
  {
    hide Line;
    if rows == [] {
      assert buf + "" == buf;
    } else {
      Assoc(buf, Line(left, rows[0], right), Lines(rows[1..], left, right));
      AllWritten(buf + Line(left, rows[0], right), rows[1..], left, right, cap);
    }
  }

  /** The body of the screen: the items in order, `cols` to a row. */
  lemma ScreenHoldsItems(cells: seq<string>, line: string, cols: nat, w: nat, start: string, cap: nat)
    requires AllFine(cells, w) && Column(cols, w) && cells != []
    requires |start| + |Lines(Grid(cells, 0, cols, w), LeftOf(line), RightOf(line))| + 256 < cap
    ensures Progress(cols, w)
    ensures Written(start, Rows(cells, cols, w), LeftOf(line), RightOf(line), cap) ==
            start + Lines(Grid(cells, 0, cols, w), LeftOf(line), RightOf(line))
  {
    hide Grid, Lines, Written, Find, Fine, RowsFrom;
    WidthOk(cols, w);
    RowsAreGrid(cells, 0, cols, w);
    AllWritten(start, Grid(cells, 0, cols, w), LeftOf(line), RightOf(line), cap);
  }

  /** A line of the body ends with a carriage return and a line feed, and an empty menu has
      one blank line. */
  lemma LinesEnd(left: string, row: string, right: string, cols: nat, w: nat)
    requires Column(cols, w)
    ensures Line(left, row, right) == left + row + right + "\r\n"
    ensures Progress(cols, w) && Rows([], cols, w) == [Spaces(cols * w)]
  {
    hide Ideal, RowFrom;
    WidthOk(cols, w);
    NoCells([], 0, w);
    RowHolds([], 0, 0, cols, w);
    BlankCells(0, cols, w);
  }

  lemma {:induction false} BlankCells(k: nat, c: nat, w: nat)
    requires 3 < w <= ROOM
    ensures CellsFrom([], k, c, w) == Spaces(c * w)
    decreases c
  {
    hide Ideal;
    if c > 0 {
      BlankCells(k, c - 1, w);
      BlankIsFine(w);
      assert Spaces((c - 1) * w) + Spaces(w) == Spaces(c * w);
    }
  }

  /* ---------- when the rows stay within the screen buffer ---------- */

  /** Every line is as short as the room that is asked for before one is written. */
  predicate ShortLines(rows: seq<string>, left: string, right: string) {
    forall k :: 0 <= k < |rows| ==> |Line(left, rows[k], right)| <= 256
  }

  lemma {:induction false} ShortLinesFit(buf: string, rows: seq<string>, left: string, right: string, cap: nat)
    requires |buf| < cap && ShortLines(rows, left, right)
    ensures |Written(buf, rows, left, right, cap)| < cap
    decreases |rows|
  {
    hide Line;
    if rows != [] {
      forall k | 0 <= k < |rows[1..]| ensures |Line(left, rows[1..][k], right)| <= 256 {
        assert rows[1..][k] == rows[k + 1];
      }
      assert |Line(left, rows[0], right)| <= 256;
      var next := if |buf| + 256 < cap then buf + Line(left, rows[0], right) else buf;
      ShortLinesFit(next, rows[1..], left, right, cap);
    }
  }

  /** What is written only grows. */
  lemma {:induction false} WrittenGrows(buf: string, rows: seq<string>, left: string, right: string, cap: nat)
    ensures |Written(buf, rows, left, right, cap)| >= |buf|
    decreases |rows|
  {
    hide Line;
    if rows != [] {
      var next := if |buf| + 256 < cap then buf + Line(left, rows[0], right) else buf;
      WrittenGrows(next, rows[1..], left, right, cap);
    }
  }

  /** A buffer of 257 characters more than the lines before the `k`-th is passed by a
      `k`-th line that is longer than 256. */
  lemma {:induction false} LongLinePasses(buf: string, rows: seq<string>, k: nat, left: string, right: string)
    requires k < |rows| && |Line(left, rows[k], right)| > 256
    ensures var cap := |buf| + |Lines(rows[..k], left, right)| + 257;
            |Written(buf, rows, left, right, cap)| >= cap
    decreases k
  {
    hide Line;
    var cap := |buf| + |Lines(rows[..k], left, right)| + 257;
    var next := buf + Line(left, rows[0], right);
    if k == 0 {
      WrittenGrows(next, rows[1..], left, right, cap);
    } else {
      assert rows[..k][1..] == rows[1..][..k - 1] && rows[1..][k - 1] == rows[k];
      LongLinePasses(next, rows[1..], k - 1, left, right);
    }
  }

  /** The rows stay within the buffer, whatever stands in it and however long it is, if
      and only if no line of the body is longer than the 256 characters that are asked
      for before a row is written. */
  lemma BufferHoldsIff(rows: seq<string>, left: string, right: string)
    ensures (forall start: string, cap: nat :: |start| < cap ==> |Written(start, rows, left, right, cap)| < cap) <==>
            ShortLines(rows, left, right)
  {
    hide Written, Line, Lines;
    if ShortLines(rows, left, right) {
      forall start: string, cap: nat | |start| < cap ensures |Written(start, rows, left, right, cap)| < cap {
        ShortLinesFit(start, rows, left, right, cap);
      }
    } else {
      var k :| 0 <= k < |rows| && |Line(left, rows[k], right)| > 256;
      LongLinePasses("", rows, k, left, right);
    }
  }

  function BackSpaces(n: nat): (s: string)
    ensures |s| == n
    ensures forall i :: 0 <= i < n ==> s[i] == 8 as char
  {
    if n == 0 then "" else BackSpaces(n - 1) + [8 as char]
  }

  lemma {:induction false} BackSpacesInvisible(n: nat, i: nat)
    requires i <= n
    ensures Visible(BackSpaces(n), i) == 0
    decreases n - i
  {
    if i < n {
      BackSpacesInvisible(n, i + 1);
    }
  }

  /** The marker is found behind text without percent signs. */
  lemma {:induction false} TokenBehind(text: string, i: nat)
    requires i <= |text| && forall k :: 0 <= k < |text| ==> text[k] != '%'
    ensures Find(text + TOKEN, TOKEN, i) == |text|
    decreases |text| - i
  {
    var s := text + TOKEN;
    if i < |text| {
      assert s[i] == text[i];
      if At(s, i, TOKEN) {
        AtHeadOf(s, i, TOKEN);
      }
      TokenBehind(text, i + 1);
    } else {
      assert s[i..i + |TOKEN|] == TOKEN;
    }
  }

  lemma BeforeToken(text: string)
    requires forall k :: 0 <= k < |text| ==> text[k] != '%'
    ensures Find(text + TOKEN, TOKEN, 0) == |text|
    ensures LeftOf(text + TOKEN) == text && RightOf(text + TOKEN) == ""
  {
    hide Find, At;
    TokenBehind(text, 0);
    Cutting(text, TOKEN);
  }

  lemma Cutting(text: string, token: string)
    ensures (text + token)[..|text|] == text && (text + token)[|text| + |token|..] == ""
  {
  }

  /** A template line with 255 characters that take no column beside the marker leaves
      all 80 columns to the items, and its rows do not stay within every buffer. */
  lemma InvisibleTextPasses(rows: seq<string>)
    requires rows != []
    ensures var line := BackSpaces(255) + "%%MENU_ITEMS%%";
            BodyWidth(line) == 80 && !ShortLines(rows, LeftOf(line), RightOf(line))
  {
    var n: nat := 255;
    InvisibleText(n);
    var line := BackSpaces(n) + TOKEN;
    assert |Line(LeftOf(line), rows[0], RightOf(line))| > 256;
  }

  lemma InvisibleText(n: nat)
    requires n < 256
    ensures var line := BackSpaces(n) + TOKEN;
            BodyWidth(line) == 80 && |LeftOf(line)| == n && RightOf(line) == ""
  {
    hide Find, Visible, LeftOf, RightOf;
    BeforeToken(BackSpaces(n));
    BackSpacesInvisible(n, 0);
    EmptyText();
    assert BackSpaces(n)[..n] == BackSpaces(n);
  }

  function Ten(): (s: string)
    ensures |s| == 10 && forall k :: 0 <= k < 10 ==> s[k] == 'a'
  {
    "aaaaaaaaaa"
  }

  /** With ten letters behind these characters the items still get all 80 columns, and
      every row is 88 or 90 columns wide. */
  lemma UnseenTextPasses(cells: seq<string>, k: nat, cols: nat, w: nat)
    requires 1 <= cols <= 3 && w == 80 / cols && AllFine(cells, w)
    ensures var line := BackSpaces(255) + Ten() + "%%MENU_ITEMS%%";
            Template(line) && BodyWidth(line) == 80 && Unseen(line) == 10 &&
            Visible(BodyRow(line, cells, k, cols, w), 0) == if cols == 3 then 88 else 90
  {
    hide Template, BodyWidth, Unseen, BodyRow, AllFine, BackSpaces, Ten;
    var n: nat := 255;
    UnseenText(n);
    RowWidth(BackSpaces(n) + Ten() + TOKEN, cells, k, cols, w);
  }

  lemma UnseenText(n: nat)
    requires n == 255
    ensures var line := BackSpaces(n) + Ten() + TOKEN;
            Template(line) && BodyWidth(line) == 80 && Unseen(line) == 10
  {
    hide Find, Visible, LeftOf, RightOf, Closed, Ten;
    var left := BackSpaces(n) + Ten();
    BeforeToken(left);
    BackSpacesInvisible(n, 0);
    BackSpacesClosed(n, Ten(), 0);
    PrintableVisible(Ten(), 0);
    CleanIsClosed(Ten(), 0);
    Shifted(BackSpaces(n), Ten(), 0);
    EmptyText();
    assert left[..Min(|left|, n)] == BackSpaces(n);
  }

  /** Behind backspaces the text takes its own columns. */
  lemma {:induction false} BackSpacesClosed(n: nat, t: string, i: nat)
    requires i <= n && Clean(t, 0)
    ensures Visible(BackSpaces(n) + t, i) == Visible(t, 0) && Closed(BackSpaces(n) + t, i)
    decreases n - i
  {
    var s := BackSpaces(n);
    if i == n {
      Shifted(s, t, 0);
      CleanIsClosed(s + t, n);
    } else {
      assert (s + t)[i] == s[i];
      BackSpacesClosed(n, t, i + 1);
    }
  }
}
