/** What comes back of a saved menu, and when that is the menu itself. */
module MenuLaws {
  import opened CStrings
  import opened Bytes
  import opened TextFiles
  import opened MenuFile
  import opened MenuFlags
  import opened Wrappers

  const LINE_MAX := 510

  /** A field of an item: no bars and no line feeds. */
  predicate IsField(s: string) {
    forall i :: 0 <= i < |s| ==> s[i] != '|' && s[i] != '\n'
  }

  /** No white space at either end. */
  predicate Trimmed(s: string) {
    s != "" ==> !IsSpace(s[0]) && !IsSpace(s[|s| - 1])
  }

  /** An upper-case key that is not taken for a comment or a directive, in the form the
      loader gives it: one character, or from two to seven. */
  predicate KeyOk(it: Item) {
    var k := KeyText(it);
    IsField(k) && k != "" && Trimmed(k) && k[0] != '#' && k[0] != '@' && Upper(k) == k &&
    if it.key != '\0' then it.keyStr == "" else 2 <= |k| <= 7
  }

  predicate ItemOk(it: Item) {
    KeyOk(it) && IsField(it.caption) && IsField(it.action) && IsField(it.data) && IsField(it.acs) &&
    IsField(it.password) && |it.caption| < 128 && |it.action| < 64 && |it.data| < 256 && |it.acs| < 64 &&
    |it.password| < 32 && |ItemLine(it)| <= LINE_MAX
  }

  /** A menu in memory whose fields stay on their lines. */
  predicate MenuOk(m: Menu) {
    NoLf(m.name) && NoLf(m.title) && NoLf(m.prompt) && NoLf(m.art) && NoLf(m.fallback) && |m.name| < 32 &&
    |m.title| < 128 && |m.prompt| < 64 && |m.art| < 64 && |m.fallback| < 32 && m.cols <= INT_MAX &&
    forall k :: 0 <= k < |m.items| ==> ItemOk(m.items[k])
  }

  /* ---------- trimming ---------- */

  lemma {:induction false} TrimEndAppends(a: string, b: string)
    ensures TrimEnd(a + b) == if AllSpaces(b) then TrimEnd(a) else a + TrimEnd(b)
    decreases |b|
  {
    if b == "" {
      assert a + b == a;
    } else {
      var front, c := b[..|b| - 1], b[|b| - 1];
      assert a + b == a + front + [c];
      assert (a + b)[..|a + b| - 1] == a + front;
      if IsSpace(c) {
        TrimEndAppends(a, front);
        assert AllSpaces(b) <==> AllSpaces(front);
      }
    }
  }

  lemma TrimEndTwice(s: string)
    ensures TrimEnd(TrimEnd(s)) == TrimEnd(s) && Trim(TrimEnd(s)) == Trim(s)
  {
  }

  lemma {:induction false} TrimSpaces(s: string)
    requires AllSpaces(s)
    ensures TrimEnd(s) == "" && Trim(s) == ""
    decreases |s|
  {
    if s != "" {
      TrimSpaces(s[..|s| - 1]);
    }
  }

  lemma TrimLine(t: string)
    ensures Trim(L(t)) == Trim(t)
  {
    assert (t + ['\n'])[..|t|] == t;
  }

  /** A line that begins with no blank is trimmed at its end only. */
  lemma TrimsAtEnd(s: string)
    requires s != "" && !IsSpace(s[0])
    ensures Trim(s) == TrimEnd(s) && TrimEnd(s) != "" && TrimEnd(s)[0] == s[0]
  {
    FirstStays(s);
  }

  lemma {:induction false} FirstStays(s: string)
    requires s != "" && !IsSpace(s[0])
    ensures TrimEnd(s) != "" && TrimEnd(s)[0] == s[0]
    decreases |s|
  {
    if IsSpace(s[|s| - 1]) {
      FirstStays(s[..|s| - 1]);
    }
  }

  lemma TrimIff(s: string)
    ensures Trim(s) == s <==> Trimmed(s)
  {
    var e := TrimEnd(s);
    var k := SkipSpaces(e, 0);
    if Trim(s) == s {
      assert |Trim(s)| == |e| - k;
    }
  }

  /* ---------- reading lines ---------- */

  lemma LineLoads(s: string, i: nat, t: string, rest: string, m: Menu)
    requires At(s, i, L(t) + rest) && NoLf(t) && |t| <= LINE_MAX
    ensures At(s, i + |t| + 1, rest) && LoadFrom(s, i, m) == LoadFrom(s, i + |t| + 1, WithLine(m, Trim(t)))
  {
    hide WithLine, Trim, LineEnd;
    AtSplit(s, i, L(t), rest);
    LineFits(s, i, t);
    TrimLine(t);
  }

  lemma CommentLine(m: Menu, t: string)
    requires t != "" && t[0] == '#'
    ensures WithLine(m, Trim(t)) == m
  {
    hide Trim, TrimEnd, ItemFrom, Directive, IndexOf;
    TrimsAtEnd(t);
  }

  /** The words of the directives have no blanks. */
  predicate IsWord(w: string) {
    w != "" && forall i :: 0 <= i < |w| ==> !IsSpace(w[i])
  }

  lemma {:induction false} BlankBehind(a: string, x: string, i: nat)
    requires i <= |a| && (forall k :: i <= k < |a| ==> a[k] != ' ') && (x == "" || x[0] == ' ')
    ensures IndexOf(a + x, ' ', i) == |a|
    decreases |a| - i
  {
    if i < |a| {
      BlankBehind(a, x, i + 1);
    }
  }

  lemma WordKept(a: string)
    requires a != "" && !IsSpace(a[|a| - 1])
    ensures TrimEnd(a) == a
  {
  }

  lemma BlankValue(m: Menu, w: string)
    requires IsWord(w)
    ensures WithLine(m, ['@'] + w) == Directive(m, w, "")
  {
    hide Directive, IndexOf, ItemFrom, Trim;
    var a := ['@'] + w;
    BlankBehind(a, "", 1);
    assert a + "" == a && a[1..|a|] == w;
  }

  lemma SomeValue(m: Menu, w: string, e: string)
    requires IsWord(w)
    ensures WithLine(m, ['@'] + w + ([' '] + e)) == Directive(m, w, Trim(e))
  {
    hide Directive, IndexOf, ItemFrom, Trim;
    var a := ['@'] + w;
    BlankBehind(a, [' '] + e, 1);
    var line := a + ([' '] + e);
    assert line[1..|a|] == w && line[|a| + 1..] == e;
  }

  lemma BlankFirst(v: string)
    ensures AllSpaces([' '] + v) <==> AllSpaces(v)
  {
    assert forall i :: 0 <= i < |v| ==> ([' '] + v)[i + 1] == v[i];
  }

  /** A directive line gives its word and its trimmed value, even an empty one. */
  lemma DirectiveLine(m: Menu, w: string, v: string)
    requires IsWord(w)
    ensures WithLine(m, Trim(['@'] + w + ([' '] + v))) == Directive(m, w, Trim(v))
  {
    hide TrimEnd, Directive, WithLine, AllSpaces, Trim;
    var a := ['@'] + w;
    TrimsAtEnd(a + ([' '] + v));
    TrimEndAppends(a, [' '] + v);
    BlankFirst(v);
    if AllSpaces(v) {
      WordKept(a);
      TrimSpaces(v);
      BlankValue(m, w);
    } else {
      TrimEndAppends([' '], v);
      TrimEndTwice(v);
      SomeValue(m, w, TrimEnd(v));
    }
  }

  /** Between the word and its line. */
  lemma Spelled(key: string, w: string, v: string)
    requires key == ['@'] + w + [' ']
    ensures key + v == ['@'] + w + ([' '] + v)
  {
  }

  lemma NotSame(s: string, t: string)
    requires s != "" && t != "" && ToUpper(s[0]) != ToUpper(t[0])
    ensures !SameCase(s, t)
  {
  }

  lemma Title(m: Menu, v: string)
    ensures WithLine(m, Trim("@TITLE " + v)) == m.(title := Copy(Trim(v), 128))
  {
    hide Trim, WithLine;
    Spelled("@TITLE ", "TITLE", v);
    DirectiveLine(m, "TITLE", v);
  }

  lemma Flags(m: Menu, v: string)
    ensures WithLine(m, Trim("@FLAGS " + v)) == m.(flags := ParsedFlags(MenuFlagNames(), Trim(v)))
  {
    hide Trim, WithLine, ParsedFlags, MenuFlagNames;
    Spelled("@FLAGS ", "FLAGS", v);
    DirectiveLine(m, "FLAGS", v);
    NotSame("FLAGS", "TITLE");
  }

  lemma Prompt(m: Menu, v: string)
    ensures WithLine(m, Trim("@PROMPT " + v)) == m.(prompt := Copy(Trim(v), 64))
  {
    hide Trim, WithLine;
    Spelled("@PROMPT ", "PROMPT", v);
    DirectiveLine(m, "PROMPT", v);
  }

  lemma Art(m: Menu, v: string)
    ensures WithLine(m, Trim("@ART " + v)) == m.(art := Copy(Trim(v), 64))
  {
    hide Trim, WithLine;
    Spelled("@ART ", "ART", v);
    DirectiveLine(m, "ART", v);
  }

  lemma Fallback(m: Menu, v: string)
    ensures WithLine(m, Trim("@FALLBACK " + v)) == m.(fallback := Copy(Trim(v), 32))
  {
    hide Trim, WithLine;
    Spelled("@FALLBACK ", "FALLBACK", v);
    DirectiveLine(m, "FALLBACK", v);
  }

  lemma Cols(m: Menu, v: string)
    ensures WithLine(m, Trim("@COLS " + v)) == m.(cols := Clamped(Atoi(Trim(v))))
  {
    hide Trim, WithLine, Atoi;
    Spelled("@COLS ", "COLS", v);
    DirectiveLine(m, "COLS", v);
  }

  /* ---------- item lines ---------- */

  lemma {:induction false} NoBarIn(s: string, i: nat, f: string, j: nat)
    requires i + |f| <= |s| && s[i..i + |f|] == f && IsField(f) && i <= j <= i + |f|
    requires i + |f| < |s| ==> s[i + |f|] == '|'
    ensures IndexOf(s, '|', j) == i + |f|
    decreases i + |f| - j
  {
    if j < i + |f| {
      assert s[j] == s[i..i + |f|][j - i] == f[j - i];
      NoBarIn(s, i, f, j + 1);
    }
  }

  lemma BarBehind(s: string, i: nat, f: string, rest: string)
    requires i <= |s| && s[i..] == f + (['|'] + rest)
    ensures i + |f| + 1 <= |s| && s[i + |f| + 1..] == rest && s[i + |f|] == '|' && s[i..i + |f|] == f
  {
    var t := s[i..];
    assert t[..|f|] == f && t[|f|] == '|' && t[|f| + 1..] == rest;
    assert s[i..i + |f|] == t[..|f|];
    assert s[i + |f| + 1..] == t[|f| + 1..];
  }

  lemma NextPart(s: string, i: nat, f: string, rest: string, room: nat)
    requires i <= |s| && s[i..] == f + (['|'] + rest) && IsField(f) && room > 1
    ensures i + |f| + 1 <= |s| && s[i + |f| + 1..] == rest
    ensures Parts(s, i, room) == [f] + Parts(s, i + |f| + 1, room - 1)
  {
    hide Parts, IsField;
    BarBehind(s, i, f, rest);
    NoBarIn(s, i, f, i);
    FirstPart(s, i, room);
  }

  lemma FinalPart(s: string, i: nat, f: string, room: nat)
    requires i <= |s| && s[i..] == f && IsField(f) && room > 0
    ensures Parts(s, i, room) == [f]
  {
    assert s[i..i + |f|] == f;
    NoBarIn(s, i, f, i);
    LastPart(s, i, room);
  }

  /** A line of seven fields. */
  function Seven(a: string, b: string, c: string, d: string, e: string, f: string, g: string): string {
    a + (['|'] + (b + (['|'] + (c + (['|'] + (d + (['|'] + (e + (['|'] + (f + (['|'] + g)))))))))))
  }

  lemma FourParts(s: string, d: string, e: string, f: string, g: string, i: nat)
    requires i <= |s| && IsField(d) && IsField(e) && IsField(f) && IsField(g)
    requires s[i..] == d + (['|'] + (e + (['|'] + (f + (['|'] + g)))))
    ensures Parts(s, i, 5) == [d, e, f, g]
  {
    hide Parts, IsField;
    NextPart(s, i, d, e + (['|'] + (f + (['|'] + g))), 5);
    var i1 := i + |d| + 1;
    NextPart(s, i1, e, f + (['|'] + g), 4);
    var i2 := i1 + |e| + 1;
    NextPart(s, i2, f, g, 3);
    FinalPart(s, i2 + |f| + 1, g, 2);
  }

  /** The field `f` and a bar begin `s`, and `rest` is behind them. */
  predicate Begins(s: string, f: string, rest: string) {
    s == f + (['|'] + rest)
  }

  lemma PartBehind(s: string, i: nat, t: string, f: string, rest: string, room: nat)
    requires i <= |s| && s[i..] == t && Begins(t, f, rest) && IsField(f) && room > 1
    ensures i + |f| + 1 <= |s| && s[i + |f| + 1..] == rest
    ensures Parts(s, i, room) == [f] + Parts(s, i + |f| + 1, room - 1)
  {
    hide Parts, IsField;
    NextPart(s, i, f, rest, room);
  }

  lemma ThreeParts(s: string, a: string, b: string, br: string, c: string, cr: string, rest: string)
    requires Begins(s, a, br) && Begins(br, b, cr) && Begins(cr, c, rest) && IsField(a) && IsField(b) && IsField(c)
    ensures var k := |a| + |b| + |c| + 3;
            k <= |s| && s[k..] == rest && Parts(s, 0, 8) == [a] + ([b] + ([c] + Parts(s, k, 5)))
  {
    hide Parts, IsField, Begins;
    assert s[0..] == s;
    PartBehind(s, 0, s, a, br, 8);
    PartBehind(s, |a| + 1, br, b, cr, 7);
    PartBehind(s, |a| + |b| + 2, cr, c, rest, 6);
  }

  lemma SevenParts(a: string, b: string, c: string, d: string, e: string, f: string, g: string)
    requires IsField(a) && IsField(b) && IsField(c) && IsField(d) && IsField(e) && IsField(f) && IsField(g)
    ensures Parts(Seven(a, b, c, d, e, f, g), 0, MAX_PARTS) == [a] + ([b] + ([c] + [d, e, f, g]))
  {
    hide Parts, IsField;
    var s := Seven(a, b, c, d, e, f, g);
    var dr := d + (['|'] + (e + (['|'] + (f + (['|'] + g)))));
    var cr := c + (['|'] + dr);
    ThreeParts(s, a, b, b + (['|'] + cr), c, cr, dr);
    hide Seven;
    FourParts(s, d, e, f, g, |a| + |b| + |c| + 3);
  }

  /** Only the last field is cut when the line is trimmed. */
  lemma SevenTrims(a: string, b: string, c: string, d: string, e: string, f: string, g: string)
    requires a != "" && !IsSpace(a[0])
    ensures Trim(Seven(a, b, c, d, e, f, g)) == Seven(a, b, c, d, e, f, TrimEnd(g))
    ensures Seven(a, b, c, d, e, f, g) != "" && Seven(a, b, c, d, e, f, g)[0] == a[0]
  {
    hide TrimEnd, Trim;
    TrimsAtEnd(Seven(a, b, c, d, e, f, g));
    hide AllSpaces;
    LastKept(f, g);
    BarKept(e, f + (['|'] + g));
    BarKept(d, e + (['|'] + (f + (['|'] + g))));
    BarKept(c, d + (['|'] + (e + (['|'] + (f + (['|'] + g))))));
    BarKept(b, c + (['|'] + (d + (['|'] + (e + (['|'] + (f + (['|'] + g))))))));
    BarKept(a, b + (['|'] + (c + (['|'] + (d + (['|'] + (e + (['|'] + (f + (['|'] + g))))))))));
  }

  lemma LastKept(f: string, g: string)
    ensures TrimEnd(f + (['|'] + g)) == f + (['|'] + TrimEnd(g))
  {
    BarKept(f, g);
  }

  lemma BarIsNoSpace(g: string)
    ensures !AllSpaces(['|'] + g) && TrimEnd(['|']) == ['|']
  {
    assert (['|'] + g)[0] == '|';
    WordKept(['|']);
  }

  lemma BarKept(a: string, g: string)
    ensures TrimEnd(a + (['|'] + g)) == a + (['|'] + TrimEnd(g))
  {
    hide TrimEnd, AllSpaces;
    TrimEndAppends(a, ['|'] + g);
    BarIsNoSpace(g);
    TrimBehindBar(g);
  }

  lemma TrimBehindBar(g: string)
    ensures TrimEnd(['|'] + g) == ['|'] + TrimEnd(g)
  {
    hide TrimEnd, AllSpaces;
    TrimEndAppends(['|'], g);
    BarIsNoSpace(g);
    if AllSpaces(g) {
      TrimSpaces(g);
      assert ['|'] + "" == ['|'];
    }
  }

  /** What comes back of an item. */
  function ItemBack(it: Item): Item {
    Item(it.key, it.keyStr, Trim(it.caption), Trim(it.action), Trim(it.data), Trim(it.acs), Below(it.flags, 4),
         Trim(it.password))
  }

  lemma TrimShorter(s: string)
    ensures |Trim(s)| <= |s|
  {
  }

  lemma CopyTrimmed(s: string, cap: nat)
    requires |s| < cap
    ensures Copy(Trim(s), cap) == Trim(s)
  {
    TrimShorter(s);
  }

  lemma FieldTrimEnd(s: string)
    requires IsField(s)
    ensures IsField(TrimEnd(s))
  {
  }

  lemma {:induction false} UpperOne(c: char)
    requires Upper([c]) == [c]
    ensures ToUpper(c) == c
  {
    assert [c][1..] == "";
    assert Upper([c])[0] == ToUpper(c);
  }

  /** A key in the form of the loader is read as it is. */
  lemma KeyBack(it: Item)
    requires KeyOk(it)
    ensures var k := KeyText(it);
            Trim(k) == k && k != "" && (if |k| > 1 then '\0' else ToUpper(k[0])) == it.key &&
            (if |k| > 1 then Upper(Copy(k, 8)) else "") == it.keyStr
  {
    var k := KeyText(it);
    TrimIff(k);
    if it.key != '\0' {
      UpperOne(it.key);
    } else {
      assert k[..|k|] == k;
    }
  }

  lemma FlagField(flags: set<nat>)
    ensures var t := FlagText(CmdFlagNames(), flags, 4);
            IsField(t) && ParsedFlags(CmdFlagNames(), Trim(t)) == Below(flags, 4)
  {
    hide AllNames, Distinct, FlagText, ParsedFlags, Trim, CmdFlagNames, Below;
    CmdNames();
    FlagTextIs(CmdFlagNames(), flags, 4);
    FlagsRoundTrip(CmdFlagNames(), flags);
  }

  lemma ItemLineIs(it: Item)
    ensures ItemLine(it) ==
            Seven(KeyText(it), it.caption, it.action, it.data, it.acs,
                  FlagText(CmdFlagNames(), it.flags, 4), it.password)
  {
    hide FlagText, CmdFlagNames;
  }

  lemma ItemReads(it: Item)
    requires ItemOk(it)
    ensures ItemFrom(Trim(ItemLine(it))) == Some(ItemBack(it))
  {
    hide Trim, TrimEnd, Parts, FlagText, ParsedFlags, CmdFlagNames, Upper, IsField, Below, Seven, ItemLine, KeyText;
    var flags := FlagText(CmdFlagNames(), it.flags, 4);
    ItemLineIs(it);
    SevenTrims(KeyText(it), it.caption, it.action, it.data, it.acs, flags, it.password);
    FlagField(it.flags);
    FieldTrimEnd(it.password);
    SevenParts(KeyText(it), it.caption, it.action, it.data, it.acs, flags, TrimEnd(it.password));
    KeyBack(it);
    CopyTrimmed(it.caption, 128);
    CopyTrimmed(it.action, 64);
    CopyTrimmed(it.data, 256);
    CopyTrimmed(it.acs, 64);
    CopyTrimmed(it.password, 32);
    TrimEndTwice(it.password);
  }

  lemma ItemLoads(m: Menu, it: Item)
    requires ItemOk(it)
    ensures WithLine(m, Trim(ItemLine(it))) == m.(items := m.items + [ItemBack(it)])
  {
    hide Trim, TrimEnd, ItemFrom, FlagText, CmdFlagNames, ItemBack, Seven, ItemLine;
    ItemReads(it);
    ItemLineIs(it);
    var flags := FlagText(CmdFlagNames(), it.flags, 4);
    SevenTrims(KeyText(it), it.caption, it.action, it.data, it.acs, flags, it.password);
    TrimsAtEnd(ItemLine(it));
  }

  /* ---------- the whole file ---------- */

  function ItemsBack(items: seq<Item>): seq<Item> {
    if items == [] then [] else ItemsBack(items[..|items| - 1]) + [ItemBack(items[|items| - 1])]
  }

  /** The lines of the items from the `k`-th on. */
  function Tail(items: seq<Item>, k: nat): string
    requires k <= |items|
    decreases |items| - k
  {
    if k == |items| then "" else L(ItemLine(items[k])) + Tail(items, k + 1)
  }

  lemma {:induction false} LinesAreTail(items: seq<Item>, k: nat)
    requires k <= |items|
    ensures ItemLines(items[..k]) + Tail(items, k) == ItemLines(items)
    decreases |items| - k
  {
    hide ItemLine;
    if k == |items| {
      assert items[..k] == items;
      assert ItemLines(items) + "" == ItemLines(items);
    } else {
      assert items[..k + 1][..k] == items[..k];
      Assoc(ItemLines(items[..k]), L(ItemLine(items[k])), Tail(items, k + 1));
      LinesAreTail(items, k + 1);
    }
  }

  lemma ItemLineStays(it: Item)
    requires ItemOk(it)
    ensures NoLf(ItemLine(it)) && |ItemLine(it)| <= LINE_MAX
  {
    hide ItemLine, FlagText, CmdFlagNames, KeyText, IsField, NoLf, Seven;
    var flags := FlagText(CmdFlagNames(), it.flags, 4);
    FlagField(it.flags);
    ItemLineIs(it);
    KeyStays(it);
    FieldStays(it.caption);
    FieldStays(it.action);
    FieldStays(it.data);
    FieldStays(it.acs);
    FieldStays(flags);
    FieldStays(it.password);
    SevenStays(KeyText(it), it.caption, it.action, it.data, it.acs, flags, it.password);
  }

  lemma KeyStays(it: Item)
    requires KeyOk(it)
    ensures NoLf(KeyText(it))
  {
  }

  lemma FieldStays(t: string)
    requires IsField(t)
    ensures NoLf(t)
  {
  }

  lemma Joined(a: string, b: string)
    requires NoLf(a) && NoLf(b)
    ensures NoLf(a + (['|'] + b))
  {
  }

  lemma SevenStays(a: string, b: string, c: string, d: string, e: string, f: string, g: string)
    requires NoLf(a) && NoLf(b) && NoLf(c) && NoLf(d) && NoLf(e) && NoLf(f) && NoLf(g)
    ensures NoLf(Seven(a, b, c, d, e, f, g))
  {
    hide NoLf;
    var fg := f + (['|'] + g);
    Joined(f, g);
    var eg := e + (['|'] + fg);
    Joined(e, fg);
    var dg := d + (['|'] + eg);
    Joined(d, eg);
    var cg := c + (['|'] + dg);
    Joined(c, dg);
    var bg := b + (['|'] + cg);
    Joined(b, cg);
    Joined(a, bg);
  }

  lemma ItemsGrow(items: seq<Item>, k: nat)
    requires k < |items|
    ensures ItemsBack(items[..k + 1]) == ItemsBack(items[..k]) + [ItemBack(items[k])]
  {
    hide ItemBack;
    assert items[..k + 1][..k] == items[..k];
  }

  lemma {:induction false} ItemsLoad(s: string, i: nat, items: seq<Item>, k: nat, m: Menu)
    requires k <= |items| && At(s, i, Tail(items, k)) && i + |Tail(items, k)| == |s| && m.items == ItemsBack(items[..k])
    requires forall j :: 0 <= j < |items| ==> ItemOk(items[j])
    ensures LoadFrom(s, i, m) == m.(items := ItemsBack(items))
    decreases |items| - k
  {
    hide ItemLine, ItemOk, ItemBack, WithLine, At, LineEnd;
    if k == |items| {
      assert items[..k] == items;
    } else {
      ItemLineStays(items[k]);
      LineLoads(s, i, ItemLine(items[k]), Tail(items, k + 1), m);
      ItemLoads(m, items[k]);
      ItemsGrow(items, k);
      ItemsLoad(s, i + |ItemLine(items[k])| + 1, items, k + 1, m.(items := ItemsBack(items[..k + 1])));
    }
  }

  /** What comes back of a menu that is saved and loaded under its name. */
  function MenuBack(m: Menu): Menu {
    Menu(m.name, Trim(m.title), Trim(m.prompt), Trim(m.art), Trim(m.fallback), Below(m.flags, 8), Clamped(m.cols),
         ItemsBack(m.items))
  }

  predicate ShortLine(t: string) {
    NoLf(t) && |t| <= LINE_MAX
  }

  /** A directive that is left out changes nothing, as its value would have. */
  lemma OptionalLoads(s: string, i: nat, key: string, v: string, rest: string, m: Menu, n: Menu)
    requires At(s, i, Optional(key, v) + rest) && ShortLine(key + v)
    requires if v == "" then n == m else WithLine(m, Trim(key + v)) == n
    ensures At(s, i + |Optional(key, v)|, rest) && LoadFrom(s, i, m) == LoadFrom(s, i + |Optional(key, v)|, n)
  {
    hide WithLine, Trim, LineEnd, At, LoadFrom;
    if v == "" {
      assert Optional(key, v) + rest == rest;
    } else {
      LineLoads(s, i, key + v, rest, m);
    }
  }

  lemma ShortLines(m: Menu)
    requires MenuOk(m)
    ensures ShortLine("# Menu: " + Named(m)) && ShortLine("@TITLE " + m.title) && ShortLine("@PROMPT " + m.prompt)
    ensures ShortLine("@ART " + m.art) && ShortLine("@FALLBACK " + m.fallback)
  {
  }

  lemma MenuFlagLine(flags: set<nat>)
    ensures var t := FlagText(MenuFlagNames(), flags, 8);
            ShortLine("@FLAGS " + t) && ParsedFlags(MenuFlagNames(), Trim(t)) == Below(flags, 8) &&
            (t == "" <==> Below(flags, 8) == {})
  {
    hide AllNames, Distinct, FlagText, ParsedFlags, Trim, MenuFlagNames, Below;
    MenuNames();
    FlagTextIs(MenuFlagNames(), flags, 8);
    FlagsRoundTrip(MenuFlagNames(), flags);
  }

  lemma NumberIsTrimmed(n: nat)
    requires n <= INT_MAX
    ensures Trim(Decimal(n)) == Decimal(n) && |Decimal(n)| <= 10 && NoLf(Decimal(n))
  {
    IntDigits(n);
    hide Decimal, Pow10;
    TrimIff(Decimal(n));
  }

  lemma ColsLine(cols: int)
    requires cols <= INT_MAX
    ensures var t := Decimal(if cols > 0 then cols else 1);
            ShortLine("@COLS " + t) && Clamped(Atoi(Trim(t))) == Clamped(cols)
  {
    hide Decimal, Atoi, Trim;
    var n := if cols > 0 then cols else 1;
    NumberIsTrimmed(n);
    AtoiDecimal(n, "");
    assert Decimal(n) + "" == Decimal(n);
  }

  lemma TrimNothing()
    ensures Trim("") == ""
  {
  }

  /** The last lines of the head: the fallback menu, the columns and the legend. */
  lemma EndOfHead(s: string, i: nat, x: Menu, rest: string, m: Menu)
    requires MenuOk(x) && m.fallback == ""
    requires At(s, i, Optional("@FALLBACK ", x.fallback) +
                      (L("@COLS " + Decimal(if x.cols > 0 then x.cols else 1)) + (L(Legend()) + rest)))
    ensures var j := i + |Optional("@FALLBACK ", x.fallback)| + |Decimal(if x.cols > 0 then x.cols else 1)| +
                |Legend()| + 8;
            At(s, j, rest) &&
            LoadFrom(s, i, m) == LoadFrom(s, j, m.(fallback := Trim(x.fallback), cols := Clamped(x.cols)))
  {
    hide WithLine, Trim, LineEnd, At, LoadFrom, Decimal, Optional, L, MenuOk;
    MenuFields(x);
    ShortLines(x);
    var cols := Decimal(if x.cols > 0 then x.cols else 1);
    var m1 := m.(fallback := Trim(x.fallback));
    TrimNothing();
    Fallback(m, x.fallback);
    CopyTrimmed(x.fallback, 32);
    OptionalLoads(s, i, "@FALLBACK ", x.fallback, L("@COLS " + cols) + (L(Legend()) + rest), m, m1);
    var i1 := i + |Optional("@FALLBACK ", x.fallback)|;
    ColsLine(x.cols);
    Cols(m1, cols);
    LineLoads(s, i1, "@COLS " + cols, L(Legend()) + rest, m1);
    var m2 := m1.(cols := Clamped(x.cols));
    CommentLine(m2, Legend());
    LineLoads(s, i1 + |cols| + 7, Legend(), rest, m2);
  }

  lemma MenuFields(m: Menu)
    requires MenuOk(m)
    ensures |m.title| < 128 && |m.prompt| < 64 && |m.art| < 64 && |m.fallback| < 32 && m.cols <= INT_MAX
  {
  }

  /** The middle of the head: flags, prompt and art file. */
  lemma MiddleOfHead(s: string, i: nat, x: Menu, rest: string, m: Menu)
    requires MenuOk(x) && m.flags == {} && m.art == ""
    requires At(s, i, Optional("@FLAGS ", FlagText(MenuFlagNames(), x.flags, 8)) +
                      (L("@PROMPT " + x.prompt) + (Optional("@ART ", x.art) + rest)))
    ensures var j := i + |Optional("@FLAGS ", FlagText(MenuFlagNames(), x.flags, 8))| + |x.prompt| + 9 +
                |Optional("@ART ", x.art)|;
            At(s, j, rest) &&
            LoadFrom(s, i, m) ==
            LoadFrom(s, j, m.(flags := Below(x.flags, 8), prompt := Trim(x.prompt), art := Trim(x.art)))
  {
    hide WithLine, Trim, LineEnd, At, LoadFrom, Optional, L, MenuOk, FlagText, ParsedFlags, MenuFlagNames, Below;
    MenuFields(x);
    ShortLines(x);
    var flags := FlagText(MenuFlagNames(), x.flags, 8);
    MenuFlagLine(x.flags);
    var m1 := m.(flags := Below(x.flags, 8));
    Flags(m, flags);
    OptionalLoads(s, i, "@FLAGS ", flags, L("@PROMPT " + x.prompt) + (Optional("@ART ", x.art) + rest), m, m1);
    var i1 := i + |Optional("@FLAGS ", flags)|;
    Prompt(m1, x.prompt);
    CopyTrimmed(x.prompt, 64);
    LineLoads(s, i1, "@PROMPT " + x.prompt, Optional("@ART ", x.art) + rest, m1);
    var m2 := m1.(prompt := Trim(x.prompt));
    TrimNothing();
    Art(m2, x.art);
    CopyTrimmed(x.art, 64);
    OptionalLoads(s, i1 + |x.prompt| + 9, "@ART ", x.art, rest, m2, m2.(art := Trim(x.art)));
  }

  lemma StartOfHead(s: string, x: Menu, rest: string, m: Menu)
    requires MenuOk(x) && At(s, 0, L("# Menu: " + Named(x)) + (L("@TITLE " + x.title) + rest))
    ensures var j := |Named(x)| + |x.title| + 17;
            At(s, j, rest) && LoadFrom(s, 0, m) == LoadFrom(s, j, m.(title := Trim(x.title)))
  {
    hide WithLine, Trim, LineEnd, At, LoadFrom, L, MenuOk, Named;
    MenuFields(x);
    ShortLines(x);
    CommentLine(m, "# Menu: " + Named(x));
    LineLoads(s, 0, "# Menu: " + Named(x), L("@TITLE " + x.title) + rest, m);
    Title(m, x.title);
    CopyTrimmed(x.title, 128);
    LineLoads(s, |Named(x)| + 9, "@TITLE " + x.title, rest, m);
  }

  lemma FileParts(x: Menu)
    ensures var tail := Tail(x.items, 0);
            FileOf(x) ==
            L("# Menu: " + Named(x)) + (L("@TITLE " + x.title) +
            (Optional("@FLAGS ", FlagText(MenuFlagNames(), x.flags, 8)) + (L("@PROMPT " + x.prompt) +
            (Optional("@ART ", x.art) + (Optional("@FALLBACK ", x.fallback) +
            (L("@COLS " + Decimal(if x.cols > 0 then x.cols else 1)) + (L(Legend()) + tail)))))))
  {
    hide L, Named, Optional, FlagText, MenuFlagNames, Decimal, ItemLines, Tail;
    var tail := Tail(x.items, 0);
    TailIsLines(x.items);
    var c := L("@COLS " + Decimal(if x.cols > 0 then x.cols else 1));
    var b, a := Optional("@FALLBACK ", x.fallback), Optional("@ART ", x.art);
    var p, f := L("@PROMPT " + x.prompt), Optional("@FLAGS ", FlagText(MenuFlagNames(), x.flags, 8));
    var t, n := L("@TITLE " + x.title), L("# Menu: " + Named(x));
    Assoc(n, t + (f + (p + (a + (b + (c + L(Legend())))))), tail);
    Assoc(t, f + (p + (a + (b + (c + L(Legend()))))), tail);
    Assoc(f, p + (a + (b + (c + L(Legend())))), tail);
    Assoc(p, a + (b + (c + L(Legend()))), tail);
    Assoc(a, b + (c + L(Legend())), tail);
    Assoc(b, c + L(Legend()), tail);
    Assoc(c, L(Legend()), tail);
  }

  lemma TailIsLines(items: seq<Item>)
    ensures ItemLines(items) == Tail(items, 0)
  {
    hide ItemLine;
    LinesAreTail(items, 0);
    assert items[..0] == [];
    assert "" + Tail(items, 0) == Tail(items, 0);
  }

  /** A menu whose fields stay on their lines is loaded from its file with every field
      trimmed, its named flags and clamped columns, and its items in order. */
  lemma LoadSaved(x: Menu)
    requires MenuOk(x)
    ensures LoadFrom(FileOf(x), 0, Default(x.name)) == MenuBack(x)
  {
    hide WithLine, Trim, LineEnd, At, LoadFrom, Optional, L, FlagText, MenuFlagNames, Below, Decimal, Named, FileOf,
      Tail, ItemsBack, ItemOk, NoLf;
    var s := FileOf(x);
    FileParts(x);
    Whole(s);
    var tail := Tail(x.items, 0);
    var c := L("@COLS " + Decimal(if x.cols > 0 then x.cols else 1));
    var b, a := Optional("@FALLBACK ", x.fallback), Optional("@ART ", x.art);
    var p, f := L("@PROMPT " + x.prompt), Optional("@FLAGS ", FlagText(MenuFlagNames(), x.flags, 8));
    LineLengths(x);
    var m0 := Default(x.name);
    StartOfHead(s, x, f + (p + (a + (b + (c + (L(Legend()) + tail))))), m0);
    var j := |Named(x)| + |x.title| + 17;
    var m1 := m0.(title := Trim(x.title));
    MiddleOfHead(s, j, x, b + (c + (L(Legend()) + tail)), m1);
    var k := j + |f| + |x.prompt| + 9 + |a|;
    var m2 := m1.(flags := Below(x.flags, 8), prompt := Trim(x.prompt), art := Trim(x.art));
    EndOfHead(s, k, x, tail, m2);
    var m3 := m2.(fallback := Trim(x.fallback), cols := Clamped(x.cols));
    NoItems(x.items);
    ItemsLoad(s, k + |b| + |Decimal(if x.cols > 0 then x.cols else 1)| + |Legend()| + 8, x.items, 0, m3);
  }

  lemma NoItems(items: seq<Item>)
    ensures ItemsBack(items[..0]) == []
  {
  }

  lemma Whole(s: string)
    ensures At(s, 0, s)
  {
    assert s[0..|s|] == s;
  }

  lemma LineLengths(x: Menu)
    ensures |L("# Menu: " + Named(x))| == |Named(x)| + 9 && |L("@TITLE " + x.title)| == |x.title| + 8
    ensures |L("@PROMPT " + x.prompt)| == |x.prompt| + 9 && |L(Legend())| == |Legend()| + 1
    ensures |L("@COLS " + Decimal(if x.cols > 0 then x.cols else 1))| == |Decimal(if x.cols > 0 then x.cols else 1)| + 7
  {
    hide Named, Decimal;
  }

  /* ---------- when a menu comes back ---------- */

  predicate ItemTidy(it: Item) {
    Trimmed(it.caption) && Trimmed(it.action) && Trimmed(it.data) && Trimmed(it.acs) && Trimmed(it.password) &&
    forall k :: k in it.flags ==> k < 4
  }

  predicate ItemsTidy(items: seq<Item>) {
    forall k :: 0 <= k < |items| ==> ItemTidy(items[k])
  }

  predicate MenuTidy(m: Menu) {
    Trimmed(m.title) && Trimmed(m.prompt) && Trimmed(m.art) && Trimmed(m.fallback) && 1 <= m.cols <= 4 &&
    (forall k :: k in m.flags ==> k < 8) && ItemsTidy(m.items)
  }

  lemma BelowIff(flags: set<nat>, n: nat)
    ensures Below(flags, n) == flags <==> forall k :: k in flags ==> k < n
  {
    if Below(flags, n) == flags {
      forall k | k in flags ensures k < n {
        assert k in Below(flags, n);
      }
    }
  }

  lemma ItemBackIff(it: Item)
    ensures ItemBack(it) == it <==> ItemTidy(it)
  {
    hide Trim, Below, Trimmed;
    TrimIff(it.caption);
    TrimIff(it.action);
    TrimIff(it.data);
    TrimIff(it.acs);
    TrimIff(it.password);
    BelowIff(it.flags, 4);
  }

  lemma {:induction false} ItemsBackIff(items: seq<Item>)
    ensures |ItemsBack(items)| == |items| && (ItemsBack(items) == items <==> ItemsTidy(items))
    decreases |items|
  {
    hide ItemBack, ItemTidy;
    if items != [] {
      var n := |items| - 1;
      ItemsBackIff(items[..n]);
      ItemBackIff(items[n]);
      assert items == items[..n] + [items[n]];
      assert ItemsBack(items)[..n] == ItemsBack(items[..n]) && ItemsBack(items)[n] == ItemBack(items[n]);
      TidySnoc(items);
    }
  }

  lemma TidySnoc(items: seq<Item>)
    requires items != []
    ensures ItemsTidy(items) <==> ItemsTidy(items[..|items| - 1]) && ItemTidy(items[|items| - 1])
  {
    hide ItemTidy;
    var front := items[..|items| - 1];
    assert forall k :: 0 <= k < |front| ==> items[k] == front[k];
  }

  /** Saving and loading give back the menu itself exactly if its fields and those of its
      items have no white space at their ends, its columns are from one to four, and all
      flags have names. */
  lemma ComesBackIff(m: Menu)
    requires MenuOk(m)
    ensures LoadFrom(FileOf(m), 0, Default(m.name)) == m <==> MenuTidy(m)
  {
    hide MenuOk, LoadFrom, FileOf, Trim, Trimmed, Below, ItemsBack, ItemsTidy;
    LoadSaved(m);
    TrimIff(m.title);
    TrimIff(m.prompt);
    TrimIff(m.art);
    TrimIff(m.fallback);
    BelowIff(m.flags, 8);
    ItemsBackIff(m.items);
  }

  lemma PromptIsCut()
    ensures Trim("Selection: ") == "Selection:"
  {
    BlankCut("Selection:");
    assert "Selection:" + [' '] == "Selection: ";
  }

  lemma BlankCut(s: string)
    requires s != "" && !IsSpace(s[0]) && !IsSpace(s[|s| - 1])
    ensures Trim(s + [' ']) == s
  {
    WordKept(s);
    assert (s + [' '])[..|s|] == s;
    assert TrimEnd(s + [' ']) == s;
    TrimsAtEnd(s + [' ']);
  }

  lemma TitleIsKept()
    ensures Trim("Mutineer Menu") == "Mutineer Menu"
  {
    TrimIff("Mutineer Menu");
  }

  /** The prompt that a menu has when its file names none ends in a blank, and so does
      not come back. */
  lemma DefaultPromptIsCut(name: string)
    requires NoLf(name) && |name| < 32
    ensures var m := Default(name); LoadFrom(FileOf(m), 0, m) == m.(prompt := "Selection:")
  {
    hide LoadFrom, FileOf, Trim;
    LoadSaved(Default(name));
    PromptIsCut();
    TitleIsKept();
    TrimNothing();
  }
}
