/** The editor object: fsedit_edit and its helpers, over the array of line buffers.
    A buffer is the string before its NUL. */
module FsEditorObject {
  import opened Bytes
  import opened FsEdit

  class FsEditor {
    const lines: array<string>
    var lineCount: int
    var curLine: int
    var curCol: int
    var insertMode: bool
    var topLine: int

    ghost predicate Shape()
      reads this
    {
      lines.Length == MAX_LINES && 1 <= lineCount <= MAX_LINES && 0 <= curLine && 0 <= curCol && 0 <= topLine
    }

    ghost function Value(): Editor
      requires Shape()
      reads this, lines
    {
      Editor(lines[..lineCount], curLine, curCol, topLine, insertMode)
    }

    ghost predicate Valid()
      reads this, lines
    {
      Shape() && Ok(Value())
    }

    constructor ()
      ensures Valid() && fresh(lines)
      ensures Value() == Editor([""], 0, 0, 0, true)
    {
      lines := new string[MAX_LINES](_ => "");
      lineCount, curLine, curCol, topLine, insertMode := 1, 0, 0, 0, true;
    }

    /** The loading part of fsedit_edit. */
    method Load(text: string)
      requires Valid() && Value() == Editor([""], 0, 0, 0, true)
      modifies `lineCount, lines
      ensures Valid() && Value() == Editor(Loaded(text), 0, 0, 0, true)
    {
      hide Ok, Loaded;
      LoadedIsOk(text);
      LoadedNothing();
      if text != "" {
        lineCount := 0;
        ReadLines(text);
      }
    }

    method ReadLines(text: string)
      requires lines.Length == MAX_LINES && lineCount == 0 && text != ""
      modifies `lineCount, lines
      ensures 0 <= lineCount <= MAX_LINES && lines[..lineCount] == Loaded(text)
    {
      ReadingStarts(text);
      hide Reading, Loaded;
      var p := 0;
      while p < |text| && lineCount < MAX_LINES
        invariant p <= |text| && 0 <= lineCount <= MAX_LINES
        invariant Reading(text, lines[..lineCount], p, MAX_LINES - lineCount)
        decreases |text| - p
      {
        p := ReadLine(text, p);
      }
      ReadingEnds(text, lines[..lineCount], p, MAX_LINES - lineCount);
    }

    /** One turn of the loading loop: the line at `p`, and where the next one starts. */
    method ReadLine(text: string, p: nat) returns (next: nat)
      requires lines.Length == MAX_LINES && 0 <= lineCount < MAX_LINES
      requires p < |text| && Reading(text, lines[..lineCount], p, MAX_LINES - lineCount)
      modifies `lineCount, lines
      ensures lineCount == old(lineCount) + 1 && p < next <= |text|
      ensures Reading(text, lines[..lineCount], next, MAX_LINES - lineCount)
    {
      hide Reading, AsLine, LineFeed;
      ReadingGoesOn(text, lines[..lineCount], p, MAX_LINES - lineCount);
      var j := FindLineFeed(text, p);
      var l := StripLine(text[p..j]);
      assert l == LineAt(text, p);
      next := if j < |text| then j + 1 else j;
      assert next == NextLine(text, p);
      hide LineAt, NextLine;
      PutLine(l);
    }

    method PutLine(l: string)
      requires lines.Length == MAX_LINES && 0 <= lineCount < MAX_LINES
      modifies `lineCount, lines
      ensures lineCount == old(lineCount) + 1 && lines[..lineCount] == old(lines[..lineCount]) + [l]
    {
      lines[lineCount] := l;
      lineCount := lineCount + 1;
    }

    /** The line between two line ends, as it goes into its buffer. */
    static method StripLine(raw: string) returns (l: string)
      ensures l == AsLine(raw)
    {
      var len := |raw|;
      if len > 0 && raw[len - 1] == '\r' {
        len := len - 1;
      }
      if len > LINE_LEN {
        len := LINE_LEN;
      }
      l := raw[..len];
    }

    /** strchr(p, '\n') */
    static method FindLineFeed(text: string, p: nat) returns (j: nat)
      requires p <= |text|
      ensures j == LineFeed(text, p)
    {
      j := p;
      while j < |text| && text[j] != '\n'
        invariant p <= j <= |text| && LineFeed(text, j) == LineFeed(text, p)
      {
        j := j + 1;
      }
    }

    method ClampCursor()
      requires lines.Length == MAX_LINES && lineCount <= MAX_LINES
      modifies `lineCount, `curLine, `curCol, `topLine
      ensures Shape() && (old(Shape()) ==> Value() == Clamped(old(Value())))
    {
      if lineCount < 1 {
        lineCount := 1;
      }
      if curLine < 0 {
        curLine := 0;
      }
      if curLine >= lineCount {
        curLine := lineCount - 1;
      }
      assert old(Shape()) ==> curLine == Min(old(curLine), lineCount - 1) && lineCount == old(lineCount);
      var len := |lines[curLine]|;
      if curCol < 0 {
        curCol := 0;
      }
      if curCol > len {
        curCol := len;
      }
      assert old(Shape()) ==> curCol == Min(old(curCol), |lines[curLine]|);
      if curLine < topLine {
        topLine := curLine;
      }
      if curLine >= topLine + VIEW_LINES {
        topLine := curLine - VIEW_LINES + 1;
      }
      if topLine < 0 {
        topLine := 0;
      }
    }

    /** copy_line: at most 78 characters are copied */
    method CopyLine(i: int, src: string)
      requires 0 <= i < lines.Length && |src| <= LINE_LEN
      modifies lines
      ensures lines[i] == src && forall k :: 0 <= k < lines.Length && k != i ==> lines[k] == old(lines[k])
    {
      assert src[..|src|] == src;
      lines[i] := src[..Min(|src|, LINE_LEN)];
    }

    /** Lines from `from + 1` on move up by one. */
    method ShiftUp(from: int)
      requires lines.Length == MAX_LINES && 0 <= from < lineCount <= MAX_LINES && AllFit(lines[..lineCount])
      modifies lines
      ensures lines[..lineCount - 1] == old(lines[..lineCount])[..from] + old(lines[..lineCount])[from + 1..]
    {
      ghost var was := lines[..lineCount];
      for i := from to lineCount - 1
        invariant forall k :: 0 <= k < from || i <= k < lineCount ==> lines[k] == was[k]
        invariant forall k :: from <= k < i ==> lines[k] == was[k + 1]
      {
        assert Fits(was[i + 1]);
        CopyLine(i, lines[i + 1]);
      }
    }

    /** Lines from `from` on move down by one; slot `from` is left as it was. */
    method ShiftDown(from: int)
      requires lines.Length == MAX_LINES && 0 <= from <= lineCount < MAX_LINES && AllFit(lines[..lineCount])
      modifies lines
      ensures lines[..from] == old(lines[..lineCount])[..from]
      ensures lines[from + 1..lineCount + 1] == old(lines[..lineCount])[from..]
    {
      ghost var was := lines[..lineCount];
      var i := lineCount;
      while i > from
        invariant from <= i <= lineCount
        invariant forall k :: 0 <= k < i ==> lines[k] == was[k]
        invariant forall k :: i < k <= lineCount ==> lines[k] == was[k - 1]
      {
        assert Fits(was[i - 1]);
        CopyLine(i, lines[i - 1]);
        i := i - 1;
      }
      assert forall k {:trigger was[k]} :: from <= k < lineCount ==> lines[k + 1] == was[k];
    }

    method Move(c: char)
      requires Valid()
      modifies this
      ensures Valid() && Value() == Moved(old(Value()), c)
    {
      hide Ok, AllFit, Clamped;
      ghost var e := Value();
      MovedIsOk(e, c);
      OkMeans(e);
      if c == 'A' && curLine > 0 {
        curLine := curLine - 1;
      } else if c == 'B' && curLine < lineCount - 1 {
        curLine := curLine + 1;
      } else if c == 'C' && curCol < |lines[curLine]| {
        curCol := curCol + 1;
      } else if c == 'D' && curCol > 0 {
        curCol := curCol - 1;
      }
      assert Value() == e.(line := curLine, col := curCol);
      ClampCursor();
    }

    method DeleteLine()
      requires Valid()
      modifies this, lines
      ensures Valid() && Value() == LineDeleted(old(Value()))
    {
      hide Ok, AllFit, Clamped;
      ghost var e := Value();
      LineDeletedIsOk(e);
      OkMeans(e);
      if lineCount > 1 {
        ShiftUp(curLine);
        lineCount := lineCount - 1;
      } else {
        lines[0] := "";
        assert lines[..1] == [""];
      }
      curCol := 0;
      assert Value() == e.(lines := lines[..lineCount], col := 0);
      ClampCursor();
    }

    method InsertLine()
      requires Valid()
      modifies this, lines
      ensures Valid() && Value() == LineInserted(old(Value()))
    {
      hide Ok, AllFit, Clamped;
      ghost var e := Value();
      LineInsertedIsOk(e);
      OkMeans(e);
      ClampedAlready(e);
      if lineCount < MAX_LINES {
        OpenLine("");
      }
      assert Value() == e.(lines := lines[..lineCount], line := curLine, col := curCol);
      ClampCursor();
    }

    /** The lines below the current one move down, and a line is copied to its place. */
    method OpenLine(text: string)
      requires Shape() && lineCount < MAX_LINES && curLine < lineCount && AllFit(lines[..lineCount]) &&
               |text| <= LINE_LEN
      modifies this, lines
      ensures Shape() && insertMode == old(insertMode) && topLine == old(topLine)
      ensures lineCount == old(lineCount) + 1 && curLine == old(curLine) + 1 && curCol == 0
      ensures lines[..lineCount] == old(lines[..lineCount])[..curLine] + [text] + old(lines[..lineCount])[curLine..]
    {
      hide AllFit;
      ghost var was := lines[..lineCount];
      ShiftDown(curLine + 1);
      lineCount := lineCount + 1;
      curLine := curLine + 1;
      ghost var moved := lines[..lineCount];
      assert moved[..curLine] == was[..curLine] && moved[curLine + 1..] == was[curLine..];
      CopyLine(curLine, text);
      curCol := 0;
      assert lines[..lineCount] == moved[curLine := text];
      Placed(moved, curLine, text);
    }

    method Enter()
      requires Valid()
      modifies this, lines
      ensures Valid() && Value() == Entered(old(Value()))
    {
      hide Ok, AllFit, Clamped;
      ghost var e := Value();
      EnteredIsOk(e);
      OkMeans(e);
      ClampedAlready(e);
      if lineCount < MAX_LINES {
        SplitLine();
      }
      assert Value() == e.(lines := lines[..lineCount], line := curLine, col := curCol);
      ClampCursor();
    }

    /** The text after the cursor becomes the next line. */
    method SplitLine()
      requires Valid() && lineCount < MAX_LINES
      modifies this, lines
      ensures Shape() && insertMode == old(insertMode) && topLine == old(topLine)
      ensures curLine == old(curLine) + 1 && curCol == 0
      ensures var was, k, c := old(lines[..lineCount]), old(curLine), old(curCol);
              lines[..lineCount] == was[..k] + [was[k][..c], was[k][c..]] + was[k + 1..]
    {
      hide Ok, AllFit;
      ghost var was, k := lines[..lineCount], curLine;
      OkMeans(Value());
      CutFits(was, k, curCol);
      CutParts(was, k, curCol);
      var rest := lines[curLine][curCol..];
      lines[curLine] := lines[curLine][..curCol];
      assert lines[..lineCount] == was[k := was[k][..curCol]];
      OpenLine(rest);
    }

    static lemma CutParts(was: seq<string>, k: nat, c: nat)
      requires k < |was| && c <= |was[k]|
      ensures var cut := was[k := was[k][..c]];
              cut[k + 1..] == was[k + 1..] && cut[..k + 1] + [was[k][c..]] == was[..k] + [was[k][..c], was[k][c..]]
    {
    }

    static lemma Placed(moved: seq<string>, k: nat, text: string)
      requires k < |moved|
      ensures moved[k := text] == moved[..k] + [text] + moved[k + 1..]
    {
    }

    method Backspace()
      requires Valid()
      modifies this, lines
      ensures Valid() && Value() == BackedUp(old(Value()))
    {
      hide Ok, AllFit, Clamped;
      ghost var e := Value();
      BackedUpIsOk(e);
      OkMeans(e);
      ClampedAlready(e);
      if curCol > 0 {
        EraseChar();
      } else if curLine > 0 {
        var prevLen, curLen := |lines[curLine - 1]|, |lines[curLine]|;
        if prevLen + curLen <= LINE_LEN {
          JoinLines(prevLen);
        }
      }
      assert Value() == e.(lines := lines[..lineCount], line := curLine, col := curCol);
      ClampCursor();
    }

    /** memmove of the rest of the line, with its NUL, over the character before the cursor */
    method EraseChar()
      requires Valid() && curCol > 0
      modifies this, lines
      ensures Shape() && insertMode == old(insertMode) && topLine == old(topLine) && lineCount == old(lineCount)
      ensures curLine == old(curLine) && curCol == old(curCol) - 1
      ensures var was := old(lines[..lineCount]);
              lines[..lineCount] == was[curLine := was[curLine][..curCol] + was[curLine][curCol + 1..]]
    {
      ghost var was := lines[..lineCount];
      var line := lines[curLine];
      lines[curLine] := line[..curCol - 1] + line[curCol..];
      curCol := curCol - 1;
      assert lines[..lineCount] == was[curLine := lines[curLine]];
    }

    /** The current line joins the one above it. */
    method JoinLines(prevLen: int)
      requires Valid() && curLine > 0 && prevLen == |lines[curLine - 1]|
      requires prevLen + |lines[curLine]| <= LINE_LEN
      modifies this, lines
      ensures Shape() && insertMode == old(insertMode) && topLine == old(topLine)
      ensures curLine == old(curLine) - 1 && curCol == prevLen
      ensures var was := old(lines[..lineCount]);
              lines[..lineCount] == was[..curLine] + [was[curLine] + was[curLine + 1]] + was[curLine + 2..]
    {
      hide Ok, AllFit;
      ghost var was := lines[..lineCount];
      OkMeans(Value());
      JoinFits(was, curLine);
      JoinParts(was, curLine - 1);
      CopyUp(LINE_LEN - prevLen);
      ShiftUp(curLine);
      lineCount := lineCount - 1;
      curLine := curLine - 1;
      curCol := prevLen;
    }

    /** The current line is copied behind the one above, if there is room for any of it. */
    method CopyUp(room: int)
      requires Shape() && 0 < curLine < lineCount && |lines[curLine]| <= room
      modifies lines
      ensures var was := old(lines[..lineCount]);
              lines[..lineCount] == was[curLine - 1 := was[curLine - 1] + was[curLine]]
    {
      if room > 0 {
        lines[curLine - 1] := lines[curLine - 1] + lines[curLine];
      } else {
        NothingJoins(lines[curLine - 1], lines[curLine]);
      }
    }

    static lemma NothingJoins(line: string, empty: string)
      requires |empty| == 0
      ensures line + empty == line
    {
    }

    static lemma JoinParts(was: seq<string>, k: nat)
      requires k + 1 < |was|
      ensures var joined := was[k] + was[k + 1];
              was[k := joined][..k + 1] + was[k := joined][k + 2..] == was[..k] + [joined] + was[k + 2..]
    {
      assert was[k := was[k] + was[k + 1]][..k + 1] == was[..k] + [was[k] + was[k + 1]];
    }

    method Type(c: char)
      requires Valid() && c != '\n'
      modifies this, lines
      ensures Valid() && Value() == Typed(old(Value()), c)
    {
      TypedIsOk(Value(), c);
      var line := lines[curLine];
      var len := |line|;
      if len < LINE_LEN {
        var rest := line[curCol..];
        if !insertMode && curCol < len {
          rest := line[curCol + 1..];
        }
        lines[curLine] := line[..curCol] + [c] + rest;
        assert lines[..lineCount] == old(lines[..lineCount])[curLine := lines[curLine]];
        curCol := curCol + 1;
        ClampCursor();
      }
    }

    method Handle(k: Key)
      requires Valid()
      modifies this, lines
      ensures Valid() && Value() == Handled(old(Value()), k)
    {
      match k
      case Arrow(c) => Move(c);
      case Stray =>
      case Press(ch) =>
        if ch == CTRL_Y {
          DeleteLine();
        } else if ch == CTRL_N {
          InsertLine();
        } else if ch == RETURN || ch == NEWLINE {
          Enter();
        } else if ch == BACKSPACE || ch == DELETE {
          Backspace();
        } else if 0x20 <= ch < 0x7F {
          Type(ch as char);
        }
    }

    /** save_text: what fits is written, and a NUL after it. */
    method SaveText(textOut: array<char>)
      requires Valid() && textOut.Length > 0
      modifies textOut
      ensures var full := Saved(Value().lines);
              var n := Min(|full|, textOut.Length - 1);
              textOut[..n] == full[..n] && textOut[n] == '\0'
    {
      ghost var all := lines[..lineCount];
      var used := 0;
      textOut[0] := '\0';
      for i := 0 to lineCount
        invariant Written(textOut, used, Saved(all[..i]))
      {
        SavedGrows(all, i);
        if textOut.Length - used - 1 == 0 {
          return;
        }
        used := AppendPart(textOut, used, lines[i], Saved(all[..i]));
        if textOut.Length - used - 1 == 0 {
          return;
        }
        used := AppendPart(textOut, used, "\r\n", Saved(all[..i]) + lines[i]);
      }
      assert all[..lineCount] == all;
    }

    /** The first `used` characters of `done` are in the buffer, and a NUL after them. */
    static ghost predicate Written(textOut: array<char>, used: nat, done: string)
      requires textOut.Length > 0
      reads textOut
    {
      used == Min(|done|, textOut.Length - 1) && textOut[..used] == done[..used] && textOut[used] == '\0'
    }

    /** One turn of the inner loop: memcpy of as much of `part` as fits. */
    static method AppendPart(textOut: array<char>, used: nat, part: string, ghost done: string) returns (now: nat)
      requires textOut.Length > 0 && Written(textOut, used, done) && used < textOut.Length - 1
      modifies textOut
      ensures Written(textOut, now, done + part)
    {
      var n := Min(|part|, textOut.Length - used - 1);
      forall k | 0 <= k < n {
        textOut[used + k] := part[k];
      }
      now := used + n;
      textOut[now] := '\0';
      assert textOut[..used] == done;
      assert textOut[used..now] == part[..n];
      assert textOut[..now] == textOut[..used] + textOut[used..now];
    }
  }
}
