/** Whole editing sessions: undoing a key, saving and loading again, and any run of keys. */
module FsEditSession {
  import opened Bytes
  import opened FsEdit
  import opened FsEditText
  import opened FsEditorObject

  /* ---------- undoing ---------- */

  predicate SamePlace(e: Editor, f: Editor) {
    e.lines == f.lines && e.line == f.line && e.col == f.col
  }

  lemma StandsAgain(e: Editor, f: Editor, a: seq<string>, x: string, y: string, b: seq<string>)
    requires Stands(e, a, x, y, b) && Stands(f, a, x, y, b)
    ensures SamePlace(e, f)
  {
  }

  /** Enter and then Backspace restore the text and the cursor, unless Enter was refused. */
  lemma EnterThenBackspace(e: Editor)
    requires Ok(e) && |e.lines| < MAX_LINES
    ensures Ok(Entered(e)) && SamePlace(BackedUp(Entered(e)), e)
  {
    EnteredIsOk(e);
    StandsSomewhere(e);
    var l := e.lines[e.line];
    var a, x, y, b := e.lines[..e.line], l[..e.col], l[e.col..], e.lines[e.line + 1..];
    assert Fits(l) && |x| + |y| == |l|;
    EnteredStands(e, a, x, y, b);
    JoinedStands(Entered(e), a, x, y, b);
    StandsAgain(BackedUp(Entered(e)), e, a, x, y, b);
  }

  /** A typed character and then Backspace restore the text and the cursor in
      insert mode, unless the line was full. */
  lemma TypeThenBackspace(e: Editor, c: char)
    requires Ok(e) && e.insertMode && c != '\n' && |e.lines[e.line]| < LINE_LEN
    ensures Ok(Typed(e, c)) && SamePlace(BackedUp(Typed(e, c)), e)
  {
    TypedIsOk(e, c);
    StandsSomewhere(e);
    var l := e.lines[e.line];
    var a, x, y, b := e.lines[..e.line], l[..e.col], l[e.col..], e.lines[e.line + 1..];
    TypedStands(e, a, x, y, b, c);
    ErasedStands(Typed(e, c), a, x + [c], y, b);
    assert (x + [c])[..|x + [c]| - 1] == x;
    StandsAgain(BackedUp(Typed(e, c)), e, a, x, y, b);
  }

  /* ---------- loading what was saved ---------- */

  lemma {:induction false} LineFeedAt(text: string, i: nat, j: nat)
    requires i <= j < |text| && text[j] == '\n' && forall k :: i <= k < j ==> text[k] != '\n'
    ensures LineFeed(text, i) == j
    decreases j - i
  {
    if i < j {
      LineFeedAt(text, i + 1, j);
    }
  }

  lemma LineComesBack(text: string, before: string, l: string)
    requires before + l + "\r\n" <= text && Fits(l)
    ensures |before| < |text| && LineAt(text, |before|) == l
    ensures NextLine(text, |before|) == |before + l + "\r\n"|
  {
    var i, j := |before|, |before| + |l| + 1;
    var all := before + l + "\r\n";
    assert forall k :: 0 <= k < |all| ==> text[k] == all[k];
    assert forall k :: i <= k < i + |l| ==> text[k] == l[k - i];
    LineFeedAt(text, i, j);
    assert text[i..j] == l + "\r";
    assert (l + "\r")[..|l|] == l;
  }

  lemma {:induction false} LinesComeBack(lines: seq<string>, k: nat, room: nat)
    requires AllFit(lines) && k <= |lines| && room >= |lines| - k
    ensures |Saved(lines[..k])| <= |Saved(lines)|
    ensures LinesFrom(Saved(lines), |Saved(lines[..k])|, room) == lines[k..]
    decreases |lines| - k
  {
    SavedBegins(lines, k);
    if k == |lines| {
      assert lines[..k] == lines;
    } else {
      SavedGrows(lines, k);
      SavedBegins(lines, k + 1);
      LineComesBack(Saved(lines), Saved(lines[..k]), lines[k]);
      LinesComeBack(lines, k + 1, room - 1);
      assert [lines[k]] + lines[k + 1..] == lines[k..];
    }
  }

  /** Loading a saved buffer gives back the same lines. */
  lemma LoadSaved(e: Editor)
    requires Ok(e)
    ensures Loaded(Saved(e.lines)) == e.lines
  {
    LinesComeBack(e.lines, 0, MAX_LINES);
    assert e.lines[..0] == [] && e.lines[0..] == e.lines;
    assert Saved(e.lines) != "";
  }

  /** A line of a text, with a line feed or with a carriage return before it. */
  datatype Ended = Ended(text: string, crlf: bool)

  function EndedText(l: Ended): string {
    l.text + if l.crlf then "\r\n" else "\n"
  }

  function TextOf(ls: seq<Ended>, last: string): string {
    if ls == [] then last else EndedText(ls[0]) + TextOf(ls[1..], last)
  }

  /** No line feed is in it, and a carriage return only in front of one is none of its own. */
  predicate PlainLine(l: Ended) {
    (forall i :: 0 <= i < |l.text| ==> l.text[i] != '\n') && (!l.crlf ==> NoReturn(l.text))
  }

  predicate NoReturn(s: string) {
    s == "" || s[|s| - 1] != '\r'
  }

  /** The first 78 characters. */
  function Cut78(s: string): string {
    if |s| > 78 then s[..78] else s
  }

  /** The lines as they are loaded, the last one only if it is not empty. */
  function Lines78(ls: seq<Ended>, last: string): seq<string> {
    if ls == [] then (if last == "" then [] else [Cut78(last)]) else [Cut78(ls[0].text)] + Lines78(ls[1..], last)
  }

  lemma EndedIsLine(l: Ended)
    requires PlainLine(l)
    ensures AsLine(EndedText(l)[..|EndedText(l)| - 1]) == Cut78(l.text)
  {
    if l.crlf {
      assert EndedText(l)[..|EndedText(l)| - 1] == l.text + "\r" && (l.text + "\r")[..|l.text|] == l.text;
    } else {
      assert EndedText(l)[..|EndedText(l)| - 1] == l.text;
    }
    assert l.text[..|l.text|] == l.text;
  }

  lemma NothingIsPlain()
    ensures PlainLine(Ended("", false))
  {
  }

  lemma LineLoads(text: string, i: nat, l: Ended, rest: string)
    requires i <= |text| && text[i..] == EndedText(l) + rest && PlainLine(l)
    ensures i < |text| && LineAt(text, i) == Cut78(l.text)
    ensures NextLine(text, i) == i + |EndedText(l)| && text[i + |EndedText(l)|..] == rest
  {
    var t := EndedText(l) + rest;
    var j := i + |EndedText(l)| - 1;
    assert forall k :: i <= k < |text| ==> text[k] == t[k - i];
    LineFeedAt(text, i, j);
    assert text[i..j] == text[i..][..j - i] == EndedText(l)[..j - i];
    EndedIsLine(l);
    assert text[j + 1..] == t[|EndedText(l)|..];
  }

  lemma LastLoads(text: string, i: nat, last: string)
    requires i <= |text| && text[i..] == last && last != "" && PlainLine(Ended(last, false))
    ensures i < |text| && LineAt(text, i) == Cut78(last) && NextLine(text, i) == |text|
  {
    assert forall k :: i <= k < |text| ==> text[k] == last[k - i];
    NoLineFeed(text, i);
    assert text[i..|text|] == last && last[..|last|] == last;
  }

  lemma {:induction false} NoLineFeed(text: string, i: nat)
    requires i <= |text| && forall k :: i <= k < |text| ==> text[k] != '\n'
    ensures LineFeed(text, i) == |text|
    decreases |text| - i
  {
    if i < |text| {
      NoLineFeed(text, i + 1);
    }
  }

  lemma {:induction false} LinesLoad(text: string, i: nat, ls: seq<Ended>, last: string, room: nat)
    requires i <= |text| && text[i..] == TextOf(ls, last) && (forall k :: 0 <= k < |ls| ==> PlainLine(ls[k]))
    requires PlainLine(Ended(last, false))
    ensures var all := Lines78(ls, last); LinesFrom(text, i, room) == all[..Min(|all|, room)]
    decreases room
  {
    hide LineAt, NextLine, EndedText, PlainLine, Cut78;
    if room == 0 {
    } else if ls == [] {
      if last != "" {
        LastLoads(text, i, last);
        NothingIsPlain();
        LinesLoad(text, |text|, [], "", room - 1);
      }
    } else {
      LineLoads(text, i, ls[0], TextOf(ls[1..], last));
      LinesLoad(text, i + |EndedText(ls[0])|, ls[1..], last, room - 1);
      var more := Lines78(ls[1..], last);
      var first := Cut78(ls[0].text);
      assert ([first] + more)[..Min(1 + |more|, room)] == [first] + more[..Min(|more|, room - 1)];
    }
  }

  /** Any text is loaded line by line: each without its line feed and a carriage return
      before that, and cut to 78 characters, the first 50 of them. */
  lemma AnyTextLoads(ls: seq<Ended>, last: string)
    requires (forall k :: 0 <= k < |ls| ==> PlainLine(ls[k])) && PlainLine(Ended(last, false))
    ensures var all := Lines78(ls, last);
            Loaded(TextOf(ls, last)) == if TextOf(ls, last) == "" then [""] else all[..Min(|all|, 50)]
  {
    var text := TextOf(ls, last);
    assert text[0..] == text;
    LinesLoad(text, 0, ls, last, 50);
  }

  /* ---------- a whole session ---------- */

  /** The return code of fsedit_edit and the editor at that point: 1 saved, 0 aborted,
      -1 when the keys run out, that is when the connection is gone. */
  datatype Ending = Ending(rc: int, editor: Editor)

  ghost function Finish(e: Editor, keys: seq<Key>): (r: Ending)
    requires Ok(e)
    ensures Ok(r.editor) && r.editor.insertMode == e.insertMode
    decreases |keys|
  {
    if keys == [] then Ending(-1, e)
    else if keys[0] == Press(CTRL_S) then Ending(1, e)
    else if keys[0] == Press(CTRL_A) then Ending(0, e)
    else
      KeyKeepsOk(e, keys[0]);
      Finish(Handled(e, keys[0]), keys[1..])
  }

  /** The same session on the flat text. */
  ghost function FlatFinish(t: Text, keys: seq<Key>, insertMode: bool): Text
    decreases |keys|
  {
    if keys == [] || keys[0] == Press(19) || keys[0] == Press(1) then t
    else FlatFinish(FlatHandled(t, keys[0], insertMode), keys[1..], insertMode)
  }

  /** A key that leaves the editor: control S, which saves, and control A. */
  predicate Leaves(k: Key) {
    k == Press(19) || k == Press(1)
  }

  /** The code is 1 if the first key that leaves is control S, 0 if it is control A, and -1
      if there is none; what comes behind it makes no difference. */
  lemma {:induction false} ReturnCode(e: Editor, keys: seq<Key>, k: nat)
    requires Ok(e) && k <= |keys| && forall i :: 0 <= i < k ==> !Leaves(keys[i])
    ensures k == |keys| ==> Finish(e, keys).rc == -1
    ensures k < |keys| && keys[k] == Press(19) ==> Finish(e, keys).rc == 1
    ensures k < |keys| && keys[k] == Press(1) ==> Finish(e, keys).rc == 0
    ensures k < |keys| && Leaves(keys[k]) ==> Finish(e, keys).editor == Finish(e, keys[..k]).editor
    decreases k
  {
    hide Handled, Ok;
    if k > 0 {
      KeyKeepsOk(e, keys[0]);
      assert !Leaves(keys[0]);
      FinishGoesOn(e, keys);
      FinishGoesOn(e, keys[..k]);
      assert keys[..k][1..] == keys[1..][..k - 1];
      hide Finish;
      assert forall i :: 0 <= i < |keys[1..]| ==> keys[1..][i] == keys[i + 1];
      ReturnCode(Handled(e, keys[0]), keys[1..], k - 1);
    }
  }

  lemma FinishGoesOn(e: Editor, keys: seq<Key>)
    requires Ok(e) && keys != [] && !Leaves(keys[0])
    ensures Ok(Handled(e, keys[0])) && Finish(e, keys) == Finish(Handled(e, keys[0]), keys[1..])
  {
    hide Handled, Ok;
    KeyKeepsOk(e, keys[0]);
  }

  /** Over any keys the editor ends with the text that the flat editor ends with. */
  lemma {:induction false} SessionIsFlat(e: Editor, keys: seq<Key>)
    requires Ok(e)
    ensures View(Finish(e, keys).editor) == FlatFinish(View(e), keys, e.insertMode)
    decreases |keys|
  {
    if keys != [] && keys[0] != Press(CTRL_S) && keys[0] != Press(CTRL_A) {
      KeyIsFlat(e, keys[0]);
      KeyKeepsOk(e, keys[0]);
      hide View, Handled, FlatHandled, Ok;
      SessionIsFlat(Handled(e, keys[0]), keys[1..]);
    }
  }

  method FsEditEdit(text: string, keys: seq<Key>, textOut: array<char>) returns (rc: int)
    requires textOut.Length > 0
    modifies textOut
    ensures Ok(Editor(Loaded(text), 0, 0, 0, true))
    ensures var end := Finish(Editor(Loaded(text), 0, 0, 0, true), keys);
            rc == end.rc &&
            (rc == 1 ==>
               var full := Saved(end.editor.lines);
               var n := Min(|full|, textOut.Length - 1);
               textOut[..n] == full[..n] && textOut[n] == '\0')
    ensures rc != 1 ==> textOut[..] == old(textOut[..])
  {
    hide Ok, Handled, Saved, Loaded, Finish;
    LoadedIsOk(text);
    var ed := new FsEditor();
    ed.Load(text);
    ghost var start := ed.Value();
    assert keys[0..] == keys;
    var i := 0;
    while i < |keys|
      invariant 0 <= i <= |keys| && ed.Valid() && fresh(ed) && fresh(ed.lines)
      invariant Ok(start) && Finish(ed.Value(), keys[i..]) == Finish(start, keys)
      invariant textOut[..] == old(textOut[..])
    {
      var k := keys[i];
      FinishAt(ed.Value(), keys, i);
      if k == Press(CTRL_S) {
        ed.SaveText(textOut);
        return 1;
      }
      if k == Press(CTRL_A) {
        return 0;
      }
      ed.Handle(k);
      i := i + 1;
    }
    FinishAt(ed.Value(), keys, i);
    rc := -1;
  }

  lemma FinishAt(e: Editor, keys: seq<Key>, i: nat)
    requires Ok(e) && i <= |keys|
    ensures i < |keys| ==> Ok(Handled(e, keys[i]))
    ensures Finish(e, keys[i..]) ==
            if i == |keys| then Ending(-1, e)
            else if keys[i] == Press(CTRL_S) then Ending(1, e)
            else if keys[i] == Press(CTRL_A) then Ending(0, e)
            else Finish(Handled(e, keys[i]), keys[i + 1..])
  {
    hide Ok, Handled;
    if i < |keys| {
      KeyKeepsOk(e, keys[i]);
      assert keys[i..][0] == keys[i] && keys[i..][1..] == keys[i + 1..];
    }
  }
}
