/** The editor seen as one flat text with a cursor in it: each key is the matching
    operation on the text before and after the cursor. */
module FsEditText {
  import opened Bytes
  import opened FsEdit

  datatype Text = Text(before: string, after: string)

  /** The lines above the cursor's line, each with its line end. */
  function Above(lines: seq<string>): string {
    if lines == [] then "" else Above(lines[..|lines| - 1]) + (lines[|lines| - 1] + "\n")
  }

  /** The lines below the cursor's line, each after a line end. */
  function Below(lines: seq<string>): string {
    if lines == [] then "" else "\n" + lines[0] + Below(lines[1..])
  }

  function View(e: Editor): Text
    requires Ok(e)
  {
    var l := e.lines[e.line];
    Text(Above(e.lines[..e.line]) + l[..e.col], l[e.col..] + Below(e.lines[e.line + 1..]))
  }

  /* ---------- the flat operations ---------- */

  /** What stands before the current line: up to and with the last line end. */
  function Head(s: string): (h: string)
    ensures |h| <= |s| && h == s[..|h|]
  {
    if s == "" || s[|s| - 1] == '\n' then s else Head(s[..|s| - 1])
  }

  /** What stands after the current line: from the first line end on. */
  function Tail(s: string): (t: string)
    ensures |t| <= |s| && t == s[|s| - |t|..]
  {
    if s == "" || s[0] == '\n' then s else Tail(s[1..])
  }

  function LineEnds(s: string): nat {
    if s == "" then 0 else LineEnds(s[..|s| - 1]) + if s[|s| - 1] == '\n' then 1 else 0
  }

  function Column(t: Text): nat {
    |t.before| - |Head(t.before)|
  }

  /** The part of the current line that is after the cursor. */
  function LineRest(t: Text): string {
    t.after[..|t.after| - |Tail(t.after)|]
  }

  function LineLength(t: Text): nat {
    Column(t) + |LineRest(t)|
  }

  function LineCount(t: Text): nat {
    1 + LineEnds(t.before) + LineEnds(t.after)
  }

  function FlatLeft(t: Text): Text {
    if Column(t) == 0 then t else
    var n := |t.before| - 1;
    Text(t.before[..n], [t.before[n]] + t.after)
  }

  function FlatRight(t: Text): Text {
    if LineRest(t) == "" then t else Text(t.before + [t.after[0]], t.after[1..])
  }

  /** To the line above, in the same column or at its end. */
  function FlatUp(t: Text): Text {
    var h := Head(t.before);
    if h == "" then t else
    var up := h[..|h| - 1];
    var start := Head(up);
    var c := |start| + Min(Column(t), |up| - |start|);
    Text(up[..c], up[c..] + "\n" + t.before[|h|..] + t.after)
  }

  /** To the line below, in the same column or at its end. */
  function FlatDown(t: Text): Text {
    var q := Tail(t.after);
    if q == "" then t else
    var down := q[1..];
    var c := Min(Column(t), |down| - |Tail(down)|);
    Text(t.before + LineRest(t) + "\n" + down[..c], down[c..])
  }

  function FlatType(t: Text, c: char, insertMode: bool): Text {
    if LineLength(t) >= LINE_LEN then t
    else Text(t.before + [c], if insertMode || LineRest(t) == "" then t.after else t.after[1..])
  }

  function FlatEnter(t: Text): Text {
    if LineCount(t) >= MAX_LINES then t else Text(t.before + "\n", t.after)
  }

  /** Deletes the character before the cursor; a line end only if the joined line fits. */
  function FlatBackspace(t: Text): Text {
    if t.before == "" then t else
    var n := |t.before| - 1;
    var shorter := Text(t.before[..n], t.after);
    if t.before[n] == '\n' && LineLength(shorter) > LINE_LEN then t else shorter
  }

  function FlatInsertLine(t: Text): Text {
    if LineCount(t) >= MAX_LINES then t else Text(t.before + LineRest(t) + "\n", Tail(t.after))
  }

  /** Deletes the current line with its line end; the last line goes with the one before it. */
  function FlatDeleteLine(t: Text): Text {
    var h, q := Head(t.before), Tail(t.after);
    if q != "" then Text(h, q[1..])
    else if h != "" then
      var up := h[..|h| - 1];
      Text(Head(up), up[|Head(up)|..])
    else Text("", "")
  }

  function FlatHandled(t: Text, k: Key, insertMode: bool): Text {
    match k
    case Arrow(c) =>
      if c == 'A' then FlatUp(t) else if c == 'B' then FlatDown(t)
      else if c == 'C' then FlatRight(t) else if c == 'D' then FlatLeft(t) else t
    case Stray => t
    case Press(ch) =>
      if ch == 25 then FlatDeleteLine(t)
      else if ch == 14 then FlatInsertLine(t)
      else if ch == 13 || ch == 10 then FlatEnter(t)
      else if ch == 8 || ch == 127 then FlatBackspace(t)
      else if 32 <= ch < 127 then FlatType(t, ch as char, insertMode)
      else t
  }

  /* ---------- how lines make up the text ---------- */

  predicate NoLineEnd(l: string) {
    forall i :: 0 <= i < |l| ==> l[i] != '\n'
  }

  lemma AboveSnoc(lines: seq<string>, l: string)
    ensures Above(lines + [l]) == Above(lines) + (l + "\n")
  {
    assert (lines + [l])[..|lines|] == lines;
  }

  lemma BelowCons(l: string, lines: seq<string>)
    ensures Below([l] + lines) == "\n" + l + Below(lines)
  {
    assert ([l] + lines)[1..] == lines;
  }

  lemma {:induction false} HeadOf(h: string, l: string)
    requires (h == "" || h[|h| - 1] == '\n') && NoLineEnd(l)
    ensures Head(h + l) == h
    decreases |l|
  {
    if l == "" {
      assert h + l == h;
    } else {
      assert (h + l)[..|h + l| - 1] == h + l[..|l| - 1];
      HeadOf(h, l[..|l| - 1]);
    }
  }

  lemma {:induction false} TailOf(l: string, q: string)
    requires (q == "" || q[0] == '\n') && NoLineEnd(l)
    ensures Tail(l + q) == q
    decreases |l|
  {
    if l == "" {
      assert l + q == q;
    } else {
      assert (l + q)[1..] == l[1..] + q;
      TailOf(l[1..], q);
    }
  }

  lemma AboveEnds(lines: seq<string>)
    ensures Above(lines) == "" || Above(lines)[|Above(lines)| - 1] == '\n'
    ensures Above(lines) == "" <==> lines == []
  {
  }

  lemma BelowStarts(lines: seq<string>)
    ensures Below(lines) == "" || Below(lines)[0] == '\n'
    ensures Below(lines) == "" <==> lines == []
  {
  }

  lemma {:induction false} LineEndsOf(a: string, b: string)
    ensures LineEnds(a + b) == LineEnds(a) + LineEnds(b)
    decreases |b|
  {
    if b == "" {
      assert a + b == a;
    } else {
      assert (a + b)[..|a + b| - 1] == a + b[..|b| - 1];
      LineEndsOf(a, b[..|b| - 1]);
    }
  }

  lemma {:induction false} NoneIn(l: string)
    requires NoLineEnd(l)
    ensures LineEnds(l) == 0
  {
    if l != "" {
      NoneIn(l[..|l| - 1]);
    }
  }

  lemma {:induction false} LineEndsAbove(lines: seq<string>)
    requires AllFit(lines)
    ensures LineEnds(Above(lines)) == |lines|
  {
    if lines != [] {
      var n := |lines| - 1;
      LineEndsAbove(lines[..n]);
      assert Fits(lines[n]);
      NoneIn(lines[n]);
      assert (lines[n] + "\n")[..|lines[n]|] == lines[n];
      LineEndsOf(Above(lines[..n]), lines[n] + "\n");
    }
  }

  lemma {:induction false} LineEndsBelow(lines: seq<string>)
    requires AllFit(lines)
    ensures LineEnds(Below(lines)) == |lines|
  {
    if lines != [] {
      LineEndsBelow(lines[1..]);
      assert Fits(lines[0]);
      NoneIn(lines[0]);
      assert "\n"[..0] == "";
      LineEndsOf("\n", lines[0]);
      LineEndsOf("\n" + lines[0], Below(lines[1..]));
    }
  }

  lemma ViewCounts(e: Editor)
    requires Ok(e)
    ensures LineCount(View(e)) == |e.lines|
  {
    var l := e.lines[e.line];
    assert Fits(l);
    LineEndsAbove(e.lines[..e.line]);
    NoneIn(l[..e.col]);
    LineEndsOf(Above(e.lines[..e.line]), l[..e.col]);
    NoneIn(l[e.col..]);
    LineEndsBelow(e.lines[e.line + 1..]);
    LineEndsOf(l[e.col..], Below(e.lines[e.line + 1..]));
  }

  /* ---------- each key is its flat operation ---------- */

  /** The cursor stands between `x` and `y`, below the lines `a` and above the lines `b`. */
  predicate Stands(e: Editor, a: seq<string>, x: string, y: string, b: seq<string>) {
    e.lines == a + [x + y] + b && e.line == |a| && e.col == |x|
  }

  lemma ViewOf(e: Editor, a: seq<string>, x: string, y: string, b: seq<string>)
    requires Ok(e) && Stands(e, a, x, y, b)
    ensures View(e) == Text(Above(a) + x, y + Below(b))
  {
    assert e.lines[..e.line] == a && e.lines[e.line] == x + y && e.lines[e.line + 1..] == b;
    assert (x + y)[..|x|] == x && (x + y)[|x|..] == y;
  }

  lemma StandsSomewhere(e: Editor)
    requires Ok(e)
    ensures var l := e.lines[e.line];
            Stands(e, e.lines[..e.line], l[..e.col], l[e.col..], e.lines[e.line + 1..])
  {
    var l := e.lines[e.line];
    assert l[..e.col] + l[e.col..] == l;
  }

  /* what each key does to the parts */

  lemma TypedStands(e: Editor, a: seq<string>, x: string, y: string, b: seq<string>, c: char)
    requires Ok(e) && Stands(e, a, x, y, b) && |x| + |y| < LINE_LEN
    ensures Stands(Typed(e, c), a, x + [c], if e.insertMode || y == "" then y else y[1..], b)
  {
    var l := e.lines[e.line];
    assert l == x + y && l[..e.col] == x && l[e.col..] == y;
    assert e.col < |l| ==> l[e.col + 1..] == y[1..];
  }

  lemma EnteredStands(e: Editor, a: seq<string>, x: string, y: string, b: seq<string>)
    requires Ok(e) && Stands(e, a, x, y, b) && |e.lines| < MAX_LINES
    ensures Stands(Entered(e), a + [x], "", y, b)
  {
    var l := e.lines[e.line];
    assert l == x + y && l[..e.col] == x && l[e.col..] == y && "" + y == y;
    assert e.lines[..e.line] == a && e.lines[e.line + 1..] == b;
    assert a + [x, y] + b == a + [x] + [y] + b;
  }

  lemma LineInsertedStands(e: Editor, a: seq<string>, x: string, y: string, b: seq<string>)
    requires Ok(e) && Stands(e, a, x, y, b) && |e.lines| < MAX_LINES
    ensures Stands(LineInserted(e), a + [x + y], "", "", b)
  {
    assert e.lines[..e.line + 1] == a + [x + y] && e.lines[e.line + 1..] == b && "" + "" == "";
  }

  lemma ErasedStands(e: Editor, a: seq<string>, x: string, y: string, b: seq<string>)
    requires Ok(e) && Stands(e, a, x, y, b) && x != ""
    ensures Stands(BackedUp(e), a, x[..|x| - 1], y, b)
  {
    var l := e.lines[e.line];
    assert l == x + y && l[..e.col - 1] == x[..|x| - 1] && l[e.col..] == y;
  }

  lemma JoinedStands(e: Editor, a: seq<string>, p: string, y: string, b: seq<string>)
    requires Ok(e) && Stands(e, a + [p], "", y, b)
    ensures if |p| + |y| <= LINE_LEN then Stands(BackedUp(e), a, p, y, b) else BackedUp(e) == e
  {
    assert "" + y == y;
    assert e.lines[e.line] == y && e.lines[e.line - 1] == p;
    assert e.lines[..e.line - 1] == a && e.lines[e.line + 1..] == b;
  }

  lemma LineDeletedStands(e: Editor, a: seq<string>, x: string, y: string, b: seq<string>)
    requires Ok(e) && Stands(e, a, x, y, b)
    ensures b != [] ==> Stands(LineDeleted(e), a, "", b[0], b[1..])
    ensures b == [] && a != [] ==> Stands(LineDeleted(e), a[..|a| - 1], "", a[|a| - 1], [])
    ensures b == [] && a == [] ==> Stands(LineDeleted(e), [], "", "", [])
  {
    assert e.lines[..e.line] == a && e.lines[e.line + 1..] == b;
    if b != [] {
      assert "" + b[0] == b[0] && a + b == a + [b[0]] + b[1..];
    } else if a != [] {
      var n := |a| - 1;
      assert "" + a[n] == a[n] && a + b == a[..n] + [a[n]] + [];
    }
  }

  lemma RightStands(e: Editor, a: seq<string>, x: string, y: string, b: seq<string>)
    requires Ok(e) && Stands(e, a, x, y, b)
    ensures if y == "" then Moved(e, 'C') == e else Stands(Moved(e, 'C'), a, x + [y[0]], y[1..], b)
  {
    if y != "" {
      assert x + [y[0]] + y[1..] == x + y;
    }
  }

  lemma LeftStands(e: Editor, a: seq<string>, x: string, y: string, b: seq<string>)
    requires Ok(e) && Stands(e, a, x, y, b)
    ensures if x == "" then Moved(e, 'D') == e
            else Stands(Moved(e, 'D'), a, x[..|x| - 1], [x[|x| - 1]] + y, b)
  {
    if x != "" {
      assert x[..|x| - 1] + ([x[|x| - 1]] + y) == x + y;
    }
  }

  lemma UpStands(e: Editor, a: seq<string>, p: string, x: string, y: string, b: seq<string>)
    requires Ok(e) && Stands(e, a + [p], x, y, b)
    ensures var c := Min(|x|, |p|); Stands(Moved(e, 'A'), a, p[..c], p[c..], [x + y] + b)
  {
    var c := Min(|x|, |p|);
    assert p[..c] + p[c..] == p;
    assert a + [p] + [x + y] + b == a + [p] + ([x + y] + b);
    assert e.lines[e.line - 1] == p;
  }

  lemma DownStands(e: Editor, a: seq<string>, x: string, y: string, d: string, b: seq<string>)
    requires Ok(e) && Stands(e, a, x, y, [d] + b)
    ensures var c := Min(|x|, |d|); Stands(Moved(e, 'B'), a + [x + y], d[..c], d[c..], b)
  {
    var c := Min(|x|, |d|);
    assert d[..c] + d[c..] == d;
    assert a + [x + y] + ([d] + b) == a + [x + y] + [d] + b;
    assert e.lines[e.line + 1] == d;
  }

  /* what each flat operation does to the parts: `h` ends with a line end or is
     empty, `q` starts with one or is empty, the parts of lines have none */

  predicate Parts(h: string, x: string, y: string, q: string) {
    (h == "" || h[|h| - 1] == '\n') && NoLineEnd(x) && NoLineEnd(y) && (q == "" || q[0] == '\n')
  }

  lemma FlatKnows(h: string, x: string, y: string, q: string)
    requires Parts(h, x, y, q)
    ensures var t := Text(h + x, y + q);
            Head(t.before) == h && Tail(t.after) == q && Column(t) == |x| && LineRest(t) == y &&
            LineLength(t) == |x| + |y|
  {
    hide Head, Tail, NoLineEnd;
    HeadOf(h, x);
    TailOf(y, q);
    FrontOf(y, q);
  }

  lemma FrontOf(y: string, q: string)
    ensures |y + q| - |q| == |y| && (y + q)[..|y|] == y
  {
  }

  lemma FlatTypeParts(h: string, x: string, y: string, q: string, c: char, insertMode: bool)
    requires Parts(h, x, y, q)
    ensures FlatType(Text(h + x, y + q), c, insertMode) ==
            if |x| + |y| >= LINE_LEN then Text(h + x, y + q)
            else Text(h + (x + [c]), (if insertMode || y == "" then y else y[1..]) + q)
  {
    hide Head, Tail, Column, LineRest, LineLength, NoLineEnd;
    FlatKnows(h, x, y, q);
    Assoc(h, x, [c]);
    assert y != "" ==> (y + q)[1..] == y[1..] + q;
  }

  lemma FlatBackspaceParts(h: string, x: string, y: string, q: string)
    requires Parts(h, x, y, q) && x != ""
    ensures FlatBackspace(Text(h + x, y + q)) == Text(h + x[..|x| - 1], y + q)
  {
    assert (h + x)[..|h + x| - 1] == h + x[..|x| - 1];
    assert (h + x)[|h + x| - 1] == x[|x| - 1];
  }

  lemma FlatJoinParts(h: string, p: string, y: string, q: string)
    requires Parts(h, p, y, q)
    ensures FlatBackspace(Text(h + (p + "\n") + "", y + q)) ==
            if |p| + |y| <= LINE_LEN then Text(h + p, y + q) else Text(h + (p + "\n") + "", y + q)
  {
    hide Head, Tail, Column, LineRest, LineLength, NoLineEnd;
    var before := h + (p + "\n") + "";
    assert before[..|before| - 1] == h + p && before[|before| - 1] == '\n';
    FlatKnows(h, p, y, q);
  }

  lemma FlatSidewaysParts(h: string, x: string, y: string, q: string)
    requires Parts(h, x, y, q)
    ensures FlatRight(Text(h + x, y + q)) ==
            if y == "" then Text(h + x, y + q) else Text(h + (x + [y[0]]), y[1..] + q)
    ensures FlatLeft(Text(h + x, y + q)) ==
            if x == "" then Text(h + x, y + q) else Text(h + x[..|x| - 1], [x[|x| - 1]] + y + q)
  {
    hide Head, Tail, Column, LineRest, LineLength, NoLineEnd;
    FlatKnows(h, x, y, q);
    if y != "" {
      assert (y + q)[1..] == y[1..] + q && (y + q)[0] == y[0];
      Assoc(h, x, [y[0]]);
    }
    if x != "" {
      var n := |x| - 1;
      assert (h + x)[..|h| + n] == h + x[..n] && (h + x)[|h| + n] == x[n];
      Assoc([x[n]], y, q);
    }
  }

  lemma FlatUpIs(t: Text, h: string, p: string)
    requires Head(t.before) == h + (p + "\n") && Head(h + p) == h
    ensures var c := |h| + Min(Column(t), |p|);
            FlatUp(t) == Text((h + p)[..c], (h + p)[c..] + "\n" + t.before[|h + (p + "\n")|..] + t.after)
  {
    hide Head, Column;
    LineEndLast(h, p);
  }

  lemma FlatUpParts(h: string, p: string, x: string, y: string, q: string)
    requires Parts(h, p, y, q) && NoLineEnd(x)
    ensures var c := Min(|x|, |p|);
            FlatUp(Text(h + (p + "\n") + x, y + q)) == Text(h + p[..c], p[c..] + ("\n" + (x + y) + q))
  {
    hide Head, Tail, Column, LineRest, LineLength, NoLineEnd, FlatUp;
    LineEndLast(h, p);
    FlatKnows(h + (p + "\n"), x, y, q);
    HeadOf(h, p);
    FlatUpIs(Text(h + (p + "\n") + x, y + q), h, p);
    UpText(h, p, Min(|x|, |p|), x, y, q);
  }

  lemma UpText(h: string, p: string, c: nat, x: string, y: string, q: string)
    requires c <= |p|
    ensures var hp := h + (p + "\n");
            hp[..|hp| - 1] == h + p && (hp + x)[|hp|..] == x
    ensures (h + p)[..|h| + c] == h + p[..c] && (h + p)[|h| + c..] == p[c..]
    ensures p[c..] + "\n" + x + (y + q) == p[c..] + ("\n" + (x + y) + q)
  {
    assert p[c..] + "\n" + x + (y + q) == p[c..] + ("\n" + x + (y + q));
  }

  lemma FlatDownParts(h: string, x: string, y: string, d: string, q: string)
    requires Parts(h, x, y, q) && NoLineEnd(d)
    ensures var c := Min(|x|, |d|);
            FlatDown(Text(h + x, y + ("\n" + d + q))) == Text(h + (x + y + "\n") + d[..c], d[c..] + q)
  {
    hide Head, Tail, Column, LineRest, LineLength, NoLineEnd;
    var dq := "\n" + d + q;
    FlatKnows(h, x, y, dq);
    TailOf(d, q);
    DownText(h, x, y, d, Min(|x|, |d|), q);
  }

  lemma DownText(h: string, x: string, y: string, d: string, c: nat, q: string)
    requires c <= |d|
    ensures ("\n" + d + q)[1..] == d + q && (d + q)[..c] == d[..c] && (d + q)[c..] == d[c..] + q
    ensures h + x + y + "\n" + d[..c] == h + (x + y + "\n") + d[..c]
  {
    assert h + x + y + "\n" == h + (x + y + "\n");
  }

  /** A line that others are below: the one below comes to its place. */
  lemma FlatDeleteDown(h: string, x: string, y: string, d: string, q: string)
    requires Parts(h, x, y, q)
    ensures FlatDeleteLine(Text(h + x, y + ("\n" + d + q))) == Text(h + "", d + q)
  {
    hide Head, Tail, Column, LineRest, LineLength, NoLineEnd;
    var dq := "\n" + d + q;
    FlatKnows(h, x, y, dq);
    assert dq[1..] == d + q;
    assert h + "" == h;
  }

  /** The last line: the cursor goes to the one above. */
  lemma FlatDeleteUp(h: string, x: string, y: string, d: string)
    requires Parts(h, x, y, "") && NoLineEnd(d)
    ensures FlatDeleteLine(Text(h + (d + "\n") + x, y + "")) == Text(h + "", d + "")
  {
    hide Head, Tail, Column, LineRest, LineLength, NoLineEnd;
    LineEndLast(h, d);
    FlatKnows(h + (d + "\n"), x, y, "");
    HeadOf(h, d);
    assert h + "" == h && d + "" == d;
  }

  lemma LineEndLast(h: string, d: string)
    ensures var hd := h + (d + "\n");
            hd != "" && hd[|hd| - 1] == '\n' && hd[..|hd| - 1] == h + d && (h + d)[|h|..] == d
  {
  }

  /** The only line becomes empty. */
  lemma FlatDeleteOnly(x: string, y: string)
    requires Parts("", x, y, "")
    ensures FlatDeleteLine(Text("" + x, y + "")) == Text("", "")
  {
    hide Head, Tail, Column, LineRest, LineLength, NoLineEnd;
    FlatKnows("", x, y, "");
  }

  /* ---------- the editor refines the flat text, key by key ---------- */

  /** The view in parts, with what the flat operations need to know about them. */
  lemma ViewParts(e: Editor, a: seq<string>, x: string, y: string, b: seq<string>)
    requires Ok(e) && Stands(e, a, x, y, b)
    ensures View(e) == Text(Above(a) + x, y + Below(b)) && Parts(Above(a), x, y, Below(b))
    ensures AllFit(a) && AllFit(b) && LineCount(View(e)) == |e.lines|
  {
    ViewOf(e, a, x, y, b);
    ViewCounts(e);
    AboveEnds(a);
    BelowStarts(b);
    hide NoLineEnd, View, Fits;
    assert e.lines[e.line] == x + y && Fits(x + y);
    FitsInParts(x, y);
    AllFitInParts(a, x + y, b);
  }

  lemma FitsInParts(x: string, y: string)
    requires Fits(x + y)
    ensures NoLineEnd(x) && NoLineEnd(y)
  {
    assert forall i :: 0 <= i < |x| ==> x[i] == (x + y)[i];
    assert forall i :: 0 <= i < |y| ==> y[i] == (x + y)[|x| + i];
  }

  lemma AllFitInParts(a: seq<string>, l: string, b: seq<string>)
    requires AllFit(a + [l] + b)
    ensures AllFit(a) && AllFit(b)
  {
    hide Fits;
    var all := a + [l] + b;
    assert forall i :: 0 <= i < |a| ==> a[i] == all[i];
    assert forall i :: 0 <= i < |b| ==> b[i] == all[|a| + 1 + i];
  }

  lemma TypeIsFlat(e: Editor, c: char, a: seq<string>, x: string, y: string, b: seq<string>)
    requires Ok(e) && Stands(e, a, x, y, b) && c != '\n'
    requires Ok(Typed(e, c))
    ensures View(Typed(e, c)) == FlatType(View(e), c, e.insertMode)
  {
    ViewParts(e, a, x, y, b);
    FlatTypeParts(Above(a), x, y, Below(b), c, e.insertMode);
    assert |e.lines[e.line]| == |x| + |y|;
    if |x| + |y| < LINE_LEN {
      TypedStands(e, a, x, y, b, c);
      ViewOf(Typed(e, c), a, x + [c], if e.insertMode || y == "" then y else y[1..], b);
    }
  }

  lemma EnterIsFlat(e: Editor, a: seq<string>, x: string, y: string, b: seq<string>)
    requires Ok(e) && Stands(e, a, x, y, b)
    requires Ok(Entered(e)) && Ok(LineInserted(e))
    ensures View(Entered(e)) == FlatEnter(View(e)) && View(LineInserted(e)) == FlatInsertLine(View(e))
  {
    ViewParts(e, a, x, y, b);
    if |e.lines| < MAX_LINES {
      EnteredStands(e, a, x, y, b);
      ViewOf(Entered(e), a + [x], "", y, b);
      AboveSnoc(a, x);
      LineInsertedStands(e, a, x, y, b);
      ViewOf(LineInserted(e), a + [x + y], "", "", b);
      AboveSnoc(a, x + y);
      FlatKnows(Above(a), x, y, Below(b));
      EnterText(Above(a), x, y, Below(b));
    }
  }

  lemma EnterText(h: string, x: string, y: string, q: string)
    ensures h + (x + "\n") + "" == h + x + "\n"
    ensures h + (x + y + "\n") + "" == h + x + y + "\n"
    ensures "" + q == q
  {
  }

  lemma BackspaceIsFlat(e: Editor, a: seq<string>, x: string, y: string, b: seq<string>)
    requires Ok(e) && Stands(e, a, x, y, b)
    requires Ok(BackedUp(e))
    ensures View(BackedUp(e)) == FlatBackspace(View(e))
  {
    hide View, Moved, BackedUp, LineDeleted, FlatUp, FlatDown, FlatLeft, FlatRight, FlatDeleteLine, FlatBackspace;
    ViewParts(e, a, x, y, b);
    if x != "" {
      FlatBackspaceParts(Above(a), x, y, Below(b));
      ErasedStands(e, a, x, y, b);
      ViewOf(BackedUp(e), a, x[..|x| - 1], y, b);
    } else if a != [] {
      LastFits(a);
      var up, p := a[..|a| - 1], a[|a| - 1];
      assert a == up + [p];
      JoinedStands(e, up, p, y, b);
      AboveEnds(up);
      FlatJoinParts(Above(up), p, y, Below(b));
      if |p| + |y| <= LINE_LEN {
        ViewOf(BackedUp(e), up, p, y, b);
      }
    } else {
      AtTheEdges(e, a, x, y, b);
    }
  }

  /** Keys that would leave the text do nothing. */
  lemma AtTheEdges(e: Editor, a: seq<string>, x: string, y: string, b: seq<string>)
    requires Ok(e) && Stands(e, a, x, y, b) && View(e) == Text(Above(a) + x, y + Below(b))
    requires Parts(Above(a), x, y, Below(b))
    ensures a == [] ==> Moved(e, 'A') == e && FlatUp(View(e)) == View(e)
    ensures b == [] ==> Moved(e, 'B') == e && FlatDown(View(e)) == View(e)
    ensures a == [] && x == "" ==> BackedUp(e) == e && FlatBackspace(View(e)) == View(e)
  {
    AboveEnds(a);
    BelowStarts(b);
    EdgesKeepText(Above(a), x, y, Below(b));
    EdgesKeepEditor(e, a, x, y, b);
    hide Ok, Stands, View, Moved, BackedUp, FlatUp, FlatDown, FlatBackspace;
  }

  lemma EdgesKeepEditor(e: Editor, a: seq<string>, x: string, y: string, b: seq<string>)
    requires Ok(e) && Stands(e, a, x, y, b)
    ensures a == [] ==> Moved(e, 'A') == e
    ensures b == [] ==> Moved(e, 'B') == e
    ensures a == [] && x == "" ==> BackedUp(e) == e
  {
  }

  lemma EdgesKeepText(h: string, x: string, y: string, q: string)
    requires Parts(h, x, y, q)
    ensures var t := Text(h + x, y + q);
            (h == "" ==> FlatUp(t) == t) && (q == "" ==> FlatDown(t) == t) &&
            (h == "" && x == "" ==> FlatBackspace(t) == t)
  {
    FlatKnows(h, x, y, q);
    hide Head, Tail, Column, LineRest;
  }

  lemma LastFits(a: seq<string>)
    requires AllFit(a) && a != []
    ensures NoLineEnd(a[|a| - 1]) && NoLineEnd(a[0])
    ensures Above(a) == Above(a[..|a| - 1]) + (a[|a| - 1] + "\n")
    ensures Below(a) == "\n" + a[0] + Below(a[1..])
  {
    assert Fits(a[|a| - 1]) && Fits(a[0]);
  }

  lemma SidewaysIsFlat(e: Editor, a: seq<string>, x: string, y: string, b: seq<string>)
    requires Ok(e) && Stands(e, a, x, y, b)
    requires Ok(Moved(e, 'C')) && Ok(Moved(e, 'D'))
    ensures View(Moved(e, 'C')) == FlatRight(View(e)) && View(Moved(e, 'D')) == FlatLeft(View(e))
  {
    hide View, Moved, BackedUp, LineDeleted, FlatUp, FlatDown, FlatLeft, FlatRight, FlatDeleteLine, FlatBackspace;
    ViewParts(e, a, x, y, b);
    FlatSidewaysParts(Above(a), x, y, Below(b));
    RightStands(e, a, x, y, b);
    LeftStands(e, a, x, y, b);
    if y != "" {
      ViewOf(Moved(e, 'C'), a, x + [y[0]], y[1..], b);
    }
    if x != "" {
      ViewOf(Moved(e, 'D'), a, x[..|x| - 1], [x[|x| - 1]] + y, b);
    }
  }

  lemma UpIsFlat(e: Editor, a: seq<string>, x: string, y: string, b: seq<string>)
    requires Ok(e) && Stands(e, a, x, y, b)
    requires Ok(Moved(e, 'A'))
    ensures View(Moved(e, 'A')) == FlatUp(View(e))
  {
    hide Ok, Stands, Above, Below;
    hide View, Moved, BackedUp, LineDeleted, FlatUp, FlatDown, FlatLeft, FlatRight, FlatDeleteLine, FlatBackspace;
    ViewParts(e, a, x, y, b);
    if a != [] {
      LastFits(a);
      var up, p := a[..|a| - 1], a[|a| - 1];
      assert a == up + [p];
      UpStands(e, up, p, x, y, b);
      var c := Min(|x|, |p|);
      ViewOf(Moved(e, 'A'), up, p[..c], p[c..], [x + y] + b);
      AboveEnds(up);
      FlatUpParts(Above(up), p, x, y, Below(b));
      BelowCons(x + y, b);
    } else {
      AtTheEdges(e, a, x, y, b);
    }
  }

  lemma DownIsFlat(e: Editor, a: seq<string>, x: string, y: string, b: seq<string>)
    requires Ok(e) && Stands(e, a, x, y, b)
    requires Ok(Moved(e, 'B'))
    ensures View(Moved(e, 'B')) == FlatDown(View(e))
  {
    hide Ok, Stands, Above, Below;
    hide View, Moved, BackedUp, LineDeleted, FlatUp, FlatDown, FlatLeft, FlatRight, FlatDeleteLine, FlatBackspace;
    ViewParts(e, a, x, y, b);
    if b != [] {
      LastFits(b);
      var d, rest := b[0], b[1..];
      assert b == [d] + rest;
      DownStands(e, a, x, y, d, rest);
      var c := Min(|x|, |d|);
      ViewOf(Moved(e, 'B'), a + [x + y], d[..c], d[c..], rest);
      BelowStarts(rest);
      FlatDownParts(Above(a), x, y, d, Below(rest));
      AboveSnoc(a, x + y);
    } else {
      AtTheEdges(e, a, x, y, b);
    }
  }

  lemma DeleteLineIsFlat(e: Editor, a: seq<string>, x: string, y: string, b: seq<string>)
    requires Ok(e) && Stands(e, a, x, y, b)
    requires Ok(LineDeleted(e))
    ensures View(LineDeleted(e)) == FlatDeleteLine(View(e))
  {
    hide View, Moved, BackedUp, LineDeleted, FlatUp, FlatDown, FlatLeft, FlatRight, FlatDeleteLine, FlatBackspace;
    ViewParts(e, a, x, y, b);
    LineDeletedStands(e, a, x, y, b);
    if b != [] {
      LastFits(b);
      BelowStarts(b[1..]);
      ViewOf(LineDeleted(e), a, "", b[0], b[1..]);
      FlatDeleteDown(Above(a), x, y, b[0], Below(b[1..]));
    } else if a != [] {
      LastFits(a);
      var up, p := a[..|a| - 1], a[|a| - 1];
      AboveEnds(up);
      ViewOf(LineDeleted(e), up, "", p, []);
      FlatDeleteUp(Above(up), x, y, p);
    } else {
      ViewOf(LineDeleted(e), [], "", "", []);
      FlatDeleteOnly(x, y);
    }
  }

  /** The editor refines the flat text with a cursor, key by key. */
  lemma KeyIsFlat(e: Editor, k: Key)
    requires Ok(e)
    ensures Ok(Handled(e, k)) && View(Handled(e, k)) == FlatHandled(View(e), k, e.insertMode)
  {
    KeyKeepsOk(e, k);
    StandsSomewhere(e);
    var l := e.lines[e.line];
    var a, x, y, b := e.lines[..e.line], l[..e.col], l[e.col..], e.lines[e.line + 1..];
    hide Ok, View, Stands;
    match k
    case Arrow(c) => ArrowIsFlat(e, c, a, x, y, b);
    case Stray =>
    case Press(ch) => PressIsFlat(e, ch, a, x, y, b);
  }

  lemma ArrowIsFlat(e: Editor, c: char, a: seq<string>, x: string, y: string, b: seq<string>)
    requires Ok(e) && Stands(e, a, x, y, b)
    ensures Ok(Moved(e, c)) && View(Moved(e, c)) == FlatHandled(View(e), Arrow(c), e.insertMode)
  {
    MovedIsOk(e, 'A');
    MovedIsOk(e, 'B');
    MovedIsOk(e, 'C');
    MovedIsOk(e, 'D');
    MovedIsOk(e, c);
    SidewaysIsFlat(e, a, x, y, b);
    UpIsFlat(e, a, x, y, b);
    DownIsFlat(e, a, x, y, b);
    if c != 'A' && c != 'B' && c != 'C' && c != 'D' {
      StaysPut(e, c);
    }
    hide Ok, Moved, View, Stands, FlatUp, FlatDown, FlatLeft, FlatRight;
  }

  lemma StaysPut(e: Editor, c: char)
    requires Ok(e) && c != 'A' && c != 'B' && c != 'C' && c != 'D'
    ensures Moved(e, c) == e
  {
  }

  lemma PressIsFlat(e: Editor, ch: byte, a: seq<string>, x: string, y: string, b: seq<string>)
    requires Ok(e) && Stands(e, a, x, y, b) && Ok(Handled(e, Press(ch)))
    ensures View(Handled(e, Press(ch))) == FlatHandled(View(e), Press(ch), e.insertMode)
  {
    hide Ok, View, Stands, FlatDeleteLine, FlatInsertLine, FlatEnter, FlatBackspace, FlatType;
    hide LineDeleted, LineInserted, Entered, BackedUp, Typed;
    LineDeletedIsOk(e);
    LineInsertedIsOk(e);
    EnteredIsOk(e);
    BackedUpIsOk(e);
    DeleteLineIsFlat(e, a, x, y, b);
    EnterIsFlat(e, a, x, y, b);
    BackspaceIsFlat(e, a, x, y, b);
    if 0x20 <= ch < 0x7F {
      TypedIsOk(e, ch as char);
      TypeIsFlat(e, ch as char, a, x, y, b);
    }
  }
}
