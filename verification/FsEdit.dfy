/** The full-screen message editor: a bounded array of bounded lines, a cursor
    and a viewport, changed in place by each key. */
module FsEdit {
  import opened Bytes

  const MAX_LINES := 50
  const LINE_LEN := 78
  const VIEW_LINES := 20

  /** The value of an editor: the lines in use, the cursor, the viewport. */
  datatype Editor = Editor(lines: seq<string>, line: nat, col: nat, top: nat, insertMode: bool)

  /** Keys as they arrive: ESC [ c, any other ESC, or a single byte. */
  datatype Key = Arrow(c: char) | Stray | Press(ch: byte)

  const CTRL_A: byte := 0x01
  const BACKSPACE: byte := 0x08
  const NEWLINE: byte := 0x0A
  const RETURN: byte := 0x0D
  const CTRL_N: byte := 0x0E
  const CTRL_S: byte := 0x13
  const CTRL_Y: byte := 0x19
  const DELETE: byte := 0x7F

  /** What every key keeps. */
  predicate Ok(e: Editor) {
    1 <= |e.lines| <= MAX_LINES && e.line < |e.lines| && e.col <= |e.lines[e.line]| &&
    e.top <= e.line < e.top + VIEW_LINES && AllFit(e.lines)
  }

  predicate AllFit(lines: seq<string>) {
    forall i :: 0 <= i < |lines| ==> Fits(lines[i])
  }

  /** A line fits its buffer and holds no line end. */
  predicate Fits(l: string) {
    |l| <= LINE_LEN && forall i :: 0 <= i < |l| ==> l[i] != '\n'
  }

  /** What the editor's operations need to know of its state. */
  lemma OkMeans(e: Editor)
    requires Ok(e)
    ensures 1 <= |e.lines| <= MAX_LINES && AllFit(e.lines) && 0 <= e.line < |e.lines| && 0 <= e.col <= |e.lines[e.line]|
  {
  }

  /** A line that is cut still fits, and so does what is cut off. */
  lemma CutFits(lines: seq<string>, k: nat, c: nat)
    requires AllFit(lines) && k < |lines| && c <= |lines[k]|
    ensures AllFit(lines[k := lines[k][..c]]) && |lines[k][c..]| <= LINE_LEN
  {
    assert Fits(lines[k]);
  }

  lemma JoinFits(lines: seq<string>, k: nat)
    requires AllFit(lines) && 0 < k < |lines| && |lines[k - 1]| + |lines[k]| <= LINE_LEN
    ensures AllFit(lines[k - 1 := lines[k - 1] + lines[k]])
  {
    assert Fits(lines[k - 1]) && Fits(lines[k]);
  }

  /** clamp_cursor, on a cursor that may have left its line or the viewport */
  function Clamped(e: Editor): Editor
    requires |e.lines| >= 1
  {
    var line := Min(e.line, |e.lines| - 1);
    var col := Min(e.col, |e.lines[line]|);
    var top := if line < e.top then line else if line >= e.top + VIEW_LINES then line - VIEW_LINES + 1 else e.top;
    e.(line := line, col := col, top := top)
  }

  lemma ClampedAlready(e: Editor)
    requires Ok(e)
    ensures |e.lines| >= 1 && Clamped(e) == e
  {
  }

  function Moved(e: Editor, c: char): Editor
    requires Ok(e)
  {
    Clamped(
      if c == 'A' && e.line > 0 then e.(line := e.line - 1)
      else if c == 'B' && e.line < |e.lines| - 1 then e.(line := e.line + 1)
      else if c == 'C' && e.col < |e.lines[e.line]| then e.(col := e.col + 1)
      else if c == 'D' && e.col > 0 then e.(col := e.col - 1)
      else e)
  }

  function LineDeleted(e: Editor): Editor
    requires Ok(e)
  {
    var lines := if |e.lines| > 1 then e.lines[..e.line] + e.lines[e.line + 1..] else [""];
    Clamped(e.(lines := lines, col := 0))
  }

  function LineInserted(e: Editor): Editor
    requires Ok(e)
  {
    if |e.lines| < MAX_LINES then
      Clamped(e.(lines := e.lines[..e.line + 1] + [""] + e.lines[e.line + 1..], line := e.line + 1, col := 0))
    else e
  }

  function Entered(e: Editor): Editor
    requires Ok(e)
  {
    if |e.lines| < MAX_LINES then
      var l := e.lines[e.line];
      Clamped(e.(lines := e.lines[..e.line] + [l[..e.col], l[e.col..]] + e.lines[e.line + 1..],
                 line := e.line + 1, col := 0))
    else e
  }

  function BackedUp(e: Editor): Editor
    requires Ok(e)
  {
    var l := e.lines[e.line];
    if e.col > 0 then
      Clamped(e.(lines := e.lines[e.line := l[..e.col - 1] + l[e.col..]], col := e.col - 1))
    else if e.line > 0 && |e.lines[e.line - 1]| + |l| <= LINE_LEN then
      var p := e.lines[e.line - 1];
      Clamped(e.(lines := e.lines[..e.line - 1] + [p + l] + e.lines[e.line + 1..], line := e.line - 1, col := |p|))
    else e
  }

  /** A printable character, inserted or written over the one under the cursor. */
  function Typed(e: Editor, c: char): Editor
    requires Ok(e)
  {
    var l := e.lines[e.line];
    if |l| < LINE_LEN then
      var rest := if e.insertMode || e.col >= |l| then l[e.col..] else l[e.col + 1..];
      Clamped(e.(lines := e.lines[e.line := l[..e.col] + [c] + rest], col := e.col + 1))
    else e
  }

  /** Everything but saving and leaving. */
  function Handled(e: Editor, k: Key): Editor
    requires Ok(e)
  {
    match k
    case Arrow(c) => Moved(e, c)
    case Stray => e
    case Press(ch) =>
      if ch == CTRL_Y then LineDeleted(e)
      else if ch == CTRL_N then LineInserted(e)
      else if ch == RETURN || ch == NEWLINE then Entered(e)
      else if ch == BACKSPACE || ch == DELETE then BackedUp(e)
      else if 0x20 <= ch < 0x7F then Typed(e, ch as char)
      else e
  }

  lemma MovedIsOk(e: Editor, c: char)
    requires Ok(e)
    ensures Ok(Moved(e, c)) && Moved(e, c).insertMode == e.insertMode
  {
  }

  lemma LineDeletedIsOk(e: Editor)
    requires Ok(e)
    ensures Ok(LineDeleted(e)) && LineDeleted(e).insertMode == e.insertMode
  {
  }

  lemma LineInsertedIsOk(e: Editor)
    requires Ok(e)
    ensures Ok(LineInserted(e)) && LineInserted(e).insertMode == e.insertMode
  {
  }

  lemma EnteredIsOk(e: Editor)
    requires Ok(e)
    ensures Ok(Entered(e)) && Entered(e).insertMode == e.insertMode
  {
  }

  lemma BackedUpIsOk(e: Editor)
    requires Ok(e)
    ensures Ok(BackedUp(e)) && BackedUp(e).insertMode == e.insertMode
  {
  }

  lemma TypedIsOk(e: Editor, c: char)
    requires Ok(e) && c != '\n'
    ensures Ok(Typed(e, c)) && Typed(e, c).insertMode == e.insertMode
  {
  }

  /** Each key keeps 1..50 lines of at most 78 characters, the cursor within its
      line and the viewport around the cursor. */
  lemma KeyKeepsOk(e: Editor, k: Key)
    requires Ok(e)
    ensures Ok(Handled(e, k)) && Handled(e, k).insertMode == e.insertMode
  {
    hide Ok, Moved, LineDeleted, LineInserted, Entered, BackedUp, Typed;
    match k
    case Arrow(c) => MovedIsOk(e, c);
    case Stray =>
    case Press(ch) =>
      LineDeletedIsOk(e);
      LineInsertedIsOk(e);
      EnteredIsOk(e);
      BackedUpIsOk(e);
      if 0x20 <= ch < 0x7F {
        TypedIsOk(e, ch as char);
      }
  }

  /** In numbers: 1 to 50 lines of at most 78 characters, and the cursor in its line and
      among the 20 lines that are shown. */
  lemma KeyStaysInBounds(e: Editor, k: Key)
    requires Ok(e)
    ensures var r := Handled(e, k);
            1 <= |r.lines| <= 50 && (forall i :: 0 <= i < |r.lines| ==> |r.lines[i]| <= 78) && r.line < |r.lines| &&
            r.col <= |r.lines[r.line]| && r.top <= r.line < r.top + 20
  {
    hide Handled;
    KeyKeepsOk(e, k);
    assert forall i :: 0 <= i < |Handled(e, k).lines| ==> Fits(Handled(e, k).lines[i]);
  }

  /* ---------- saving and loading ---------- */

  function Saved(lines: seq<string>): string {
    if lines == [] then "" else Saved(lines[..|lines| - 1]) + lines[|lines| - 1] + "\r\n"
  }

  /** The index of the first line feed at or after `i`, |text| when there is none. */
  function LineFeed(text: string, i: nat): (j: nat)
    requires i <= |text|
    ensures i <= j <= |text| && (j < |text| ==> text[j] == '\n')
    decreases |text| - i
  {
    if i < |text| && text[i] != '\n' then LineFeed(text, i + 1) else i
  }

  /** A stretch of text as a line: without one carriage return at its end, cut to 78. */
  function AsLine(raw: string): string {
    var l := if |raw| > 0 && raw[|raw| - 1] == '\r' then raw[..|raw| - 1] else raw;
    l[..Min(|l|, LINE_LEN)]
  }

  /** The line that starts at `i`. */
  function LineAt(text: string, i: nat): string
    requires i <= |text|
  {
    AsLine(text[i..LineFeed(text, i)])
  }

  /** Where the line after it starts. */
  function NextLine(text: string, i: nat): (j: nat)
    requires i < |text|
    ensures i < j <= |text|
  {
    Min(LineFeed(text, i) + 1, |text|)
  }

  /** The lines read from `i` on while there is room for `room` more. */
  function LinesFrom(text: string, i: nat, room: nat): seq<string>
    requires i <= |text|
    decreases room
  {
    if i == |text| || room == 0 then [] else [LineAt(text, i)] + LinesFrom(text, NextLine(text, i), room - 1)
  }

  function Loaded(text: string): seq<string> {
    if text == "" then [""] else LinesFrom(text, 0, MAX_LINES)
  }

  lemma {:induction false} LineFeedIsFirst(text: string, i: nat)
    requires i <= |text|
    ensures forall k :: i <= k < LineFeed(text, i) ==> text[k] != '\n'
    decreases |text| - i
  {
    if i < |text| && text[i] != '\n' {
      LineFeedIsFirst(text, i + 1);
    }
  }

  /** The loading loop has read `read` and stands at `i` with room for `room` more lines. */
  ghost predicate Reading(text: string, read: seq<string>, i: nat, room: nat) {
    i <= |text| && Loaded(text) == read + LinesFrom(text, i, room)
  }

  lemma ReadingStarts(text: string)
    requires text != ""
    ensures Reading(text, [], 0, MAX_LINES)
  {
  }

  lemma ReadingGoesOn(text: string, read: seq<string>, i: nat, room: nat)
    requires Reading(text, read, i, room) && i < |text| && room > 0
    ensures Reading(text, read + [LineAt(text, i)], NextLine(text, i), room - 1)
  {
    hide LineAt, NextLine, LineFeed;
    Assoc(read, [LineAt(text, i)], LinesFrom(text, NextLine(text, i), room - 1));
  }

  lemma ReadingEnds(text: string, read: seq<string>, i: nat, room: nat)
    requires Reading(text, read, i, room) && (i == |text| || room == 0)
    ensures read == Loaded(text)
  {
  }

  lemma LineAtFits(text: string, i: nat)
    requires i <= |text|
    ensures Fits(LineAt(text, i))
  {
    LineFeedIsFirst(text, i);
    var raw := text[i..LineFeed(text, i)];
    assert forall k :: 0 <= k < |raw| ==> raw[k] == text[i + k];
  }

  lemma {:induction false} LinesFromFit(text: string, i: nat, room: nat)
    requires i <= |text|
    ensures |LinesFrom(text, i, room)| <= room && AllFit(LinesFrom(text, i, room))
    ensures i < |text| && room > 0 ==> LinesFrom(text, i, room) != []
    decreases room
  {
    hide LineAt, NextLine, LineFeed, Fits;
    if i < |text| && room > 0 {
      LineAtFits(text, i);
      LinesFromFit(text, NextLine(text, i), room - 1);
    }
  }

  /** Whatever text it is given, the editor starts in order. */
  lemma LoadedNothing()
    ensures Loaded("") == [""]
  {
  }

  lemma LoadedIsOk(text: string)
    ensures Ok(Editor(Loaded(text), 0, 0, 0, true))
  {
    LinesFromFit(text, 0, MAX_LINES);
  }

  lemma {:induction false} SavedBegins(all: seq<string>, i: nat)
    requires i <= |all|
    ensures Saved(all[..i]) <= Saved(all)
    decreases |all|
  {
    if i == |all| {
      assert all[..i] == all;
    } else {
      var n := |all| - 1;
      SavedBegins(all[..n], i);
      assert all[..n][..i] == all[..i];
    }
  }

  /** What is saved of the first lines is how everything saved begins. */
  lemma SavedGrows(all: seq<string>, i: nat)
    requires i < |all|
    ensures Saved(all[..i + 1]) == Saved(all[..i]) + all[i] + "\r\n"
    ensures Saved(all[..i]) <= Saved(all) && Saved(all[..i]) + all[i] <= Saved(all)
  {
    hide Saved;
    SavedSnoc(all, i);
    SavedBegins(all, i + 1);
    PrefixParts(Saved(all[..i]), all[i], "\r\n", Saved(all));
  }

  lemma SavedSnoc(all: seq<string>, i: nat)
    requires i < |all|
    ensures Saved(all[..i + 1]) == Saved(all[..i]) + all[i] + "\r\n"
  {
    assert all[..i + 1][..i] == all[..i];
  }

  lemma PrefixParts(a: string, b: string, c: string, t: string)
    requires a + b + c <= t
    ensures a <= t && a + b <= t
  {
    assert t[..|a|] == (a + b + c)[..|a|] == a;
    assert t[..|a + b|] == (a + b + c)[..|a + b|] == a + b;
  }
}
