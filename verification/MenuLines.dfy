/** What the lines of a menu file mean, field by field: item lines of any number of
    parts, lists of flags and directives in any case, as they are written by hand. */
module MenuLines {
  import opened CStrings
  import opened TextFiles
  import opened MenuFile
  import opened MenuFlags
  import opened MenuLaws
  import opened Wrappers

  /* ---------- trimming ---------- */

  lemma {:induction false} SkipsBlanks(s: string, t: string, i: nat)
    requires i <= |s| && AllSpaces(s)
    ensures SkipSpaces(s + t, i) == |s| + SkipSpaces(t, 0)
    decreases |s| - i
  {
    if i < |s| {
      assert (s + t)[i] == s[i];
      SkipsBlanks(s, t, i + 1);
    } else {
      SkipsShifted(s, t, 0);
    }
  }

  lemma {:induction false} SkipsShifted(s: string, t: string, i: nat)
    requires i <= |t|
    ensures SkipSpaces(s + t, |s| + i) == |s| + SkipSpaces(t, i)
    decreases |t| - i
  {
    if i < |t| && IsSpace(t[i]) {
      SkipsShifted(s, t, i + 1);
    }
  }

  /** Blanks on either side are cut off, and nothing else. */
  lemma TrimMeans(left: string, core: string, right: string)
    requires AllSpaces(left) && AllSpaces(right) && Trimmed(core)
    ensures Trim(left + (core + right)) == core
  {
    hide TrimEnd, SkipSpaces;
    TrimEndAppends(left, core + right);
    TrimEndAppends(core, right);
    if core == "" {
      assert core + right == right;
      TrimSpaces(right);
      TrimSpaces(left);
      AllBlank(left, right);
    } else {
      WordKept(core);
      if right == "" {
        assert core + right == core;
      }
      assert !AllSpaces(core + right) by {
        assert (core + right)[0] == core[0];
      }
      TrimsCore(left, core, right);
    }
  }

  lemma AllBlank(left: string, right: string)
    requires AllSpaces(left) && AllSpaces(right)
    ensures Trim(left + ("" + right)) == ""
  {
    assert "" + right == right;
    TrimSpaces(left + right);
  }

  lemma TrimsCore(left: string, core: string, right: string)
    requires AllSpaces(left) && core != "" && Trimmed(core) && TrimEnd(left + (core + right)) == left + core
    ensures Trim(left + (core + right)) == core
  {
    hide TrimEnd;
    SkipsBlanks(left, core, 0);
    assert (left + core)[|left|..] == core;
  }

  /* ---------- item lines ---------- */

  /** Fields with bars between them. */
  function Joined(fs: seq<string>): string
    requires fs != []
  {
    if |fs| == 1 then fs[0] else fs[0] + (['|'] + Joined(fs[1..]))
  }

  predicate AllFields(fs: seq<string>) {
    forall k :: 0 <= k < |fs| ==> IsField(fs[k])
  }

  lemma {:induction false} PartsOfFields(fs: seq<string>, s: string, i: nat, room: nat)
    requires fs != [] && AllFields(fs) && |fs| <= room && i <= |s| && s[i..] == Joined(fs)
    ensures Parts(s, i, room) == fs
    decreases |fs|
  {
    hide Parts, IsField;
    if |fs| == 1 {
      FinalPart(s, i, fs[0], room);
    } else {
      NextPart(s, i, fs[0], Joined(fs[1..]), room);
      PartsOfFields(fs[1..], s, i + |fs[0]| + 1, room - 1);
      assert [fs[0]] + fs[1..] == fs;
    }
  }

  /** The fields of a line that is trimmed at its end. */
  function CutLast(fs: seq<string>): (r: seq<string>)
    requires fs != []
    ensures |r| == |fs|
  {
    fs[..|fs| - 1] + [TrimEnd(fs[|fs| - 1])]
  }

  /** The fields of a line that is trimmed at its beginning. */
  function CutFirst(fs: seq<string>): (r: seq<string>)
    requires fs != []
    ensures |r| == |fs|
  {
    [fs[0][SkipSpaces(fs[0], 0)..]] + fs[1..]
  }

  lemma {:induction false} TrimEndJoined(fs: seq<string>)
    requires fs != []
    ensures TrimEnd(Joined(fs)) == Joined(CutLast(fs))
    decreases |fs|
  {
    hide TrimEnd;
    if |fs| > 1 {
      TrimEndJoined(fs[1..]);
      BarKept(fs[0], Joined(fs[1..]));
      assert CutLast(fs)[1..] == CutLast(fs[1..]);
    }
  }

  lemma TrimJoined(fs: seq<string>)
    requires |fs| >= 2
    ensures Trim(Joined(fs)) == Joined(CutFirst(CutLast(fs)))
  {
    hide TrimEnd, SkipSpaces;
    TrimEndJoined(fs);
    LeadJoined(CutLast(fs));
  }

  lemma LeadJoined(fs: seq<string>)
    requires |fs| >= 2
    ensures var s := Joined(fs); s[SkipSpaces(s, 0)..] == Joined(CutFirst(fs))
  {
    var f, rest := fs[0], ['|'] + Joined(fs[1..]);
    var k := SkipSpaces(f, 0);
    SkipsToBar(f, rest, 0);
    assert (f + rest)[k..] == f[k..] + rest;
    assert CutFirst(fs)[1..] == fs[1..];
  }

  lemma {:induction false} SkipsToBar(f: string, rest: string, i: nat)
    requires i <= |f| && rest != "" && !IsSpace(rest[0])
    ensures SkipSpaces(f + rest, i) == SkipSpaces(f, i)
    decreases |f| - i
  {
    if i < |f| && IsSpace(f[i]) {
      SkipsToBar(f, rest, i + 1);
    }
  }

  /** Cutting white space off the line changes no trimmed field. */
  lemma FieldsStayTrimmed(fs: seq<string>, k: nat)
    requires k < |fs| && AllFields(fs)
    ensures var gs := CutFirst(CutLast(fs)); AllFields(gs) && Trim(gs[k]) == Trim(fs[k])
  {
    hide TrimEnd, Trim, SkipSpaces;
    var ls := CutLast(fs);
    FieldTrimEnd(fs[|fs| - 1]);
    TrimEndTwice(fs[|fs| - 1]);
    TrimLead(ls[0]);
  }

  lemma TrimLead(f: string)
    ensures var g := f[SkipSpaces(f, 0)..]; Trim(g) == Trim(f) && (IsField(f) ==> IsField(g))
  {
    hide TrimEnd;
    var k := SkipSpaces(f, 0);
    SpacesSkipped(f, 0);
    assert f == f[..k] + f[k..];
    TrimEndAppends(f[..k], f[k..]);
    TrimEndOfLead(f, k);
  }

  lemma {:induction false} SpacesSkipped(s: string, i: nat)
    requires i <= |s|
    ensures forall j :: i <= j < SkipSpaces(s, i) ==> IsSpace(s[j])
    decreases |s| - i
  {
    if i < |s| && IsSpace(s[i]) {
      SpacesSkipped(s, i + 1);
    }
  }

  lemma TrimEndOfLead(f: string, k: nat)
    requires k == SkipSpaces(f, 0) && AllSpaces(f[..k]) && f == f[..k] + f[k..]
    requires TrimEnd(f) == if AllSpaces(f[k..]) then TrimEnd(f[..k]) else f[..k] + TrimEnd(f[k..])
    ensures Trim(f[k..]) == Trim(f)
  {
    hide TrimEnd;
    if AllSpaces(f[k..]) {
      TrimSpaces(f[k..]);
      TrimSpaces(f[..k]);
    } else {
      SkipsBlanks(f[..k], TrimEnd(f[k..]), 0);
      var t := f[..k] + TrimEnd(f[k..]);
      assert t[k + SkipSpaces(TrimEnd(f[k..]), 0)..] == TrimEnd(f[k..])[SkipSpaces(TrimEnd(f[k..]), 0)..];
    }
  }

  /** A line of fields with bars between them loads as an item if it has three fields or
      more and the first is not blank.  The fields are trimmed and cut to their buffers:
      key, caption, action; the fourth of four is the access string, and of five or more
      the data, with the access string, the flags and the password behind it. */
  lemma FieldsLoad(m: Menu, fs: seq<string>)
    requires 2 <= |fs| <= 8 && AllFields(fs)
    requires Trim(fs[0]) != "" ==> Trim(fs[0])[0] != '#' && Trim(fs[0])[0] != '@'
    ensures var r, key := WithLine(m, Trim(Joined(fs))), Trim(fs[0]);
            if |fs| == 2 || key == "" then r == m
            else
              |r.items| == |m.items| + 1 && r == m.(items := m.items + [r.items[|m.items|]]) &&
              var it := r.items[|m.items|];
              (if |key| == 1 then it.key == ToUpper(key[0]) && it.keyStr == ""
               else it.key == '\0' && it.keyStr == Upper(Copy(key, 8))) &&
              it.caption == Copy(Trim(fs[1]), 128) && it.action == Copy(Trim(fs[2]), 64) &&
              it.data == (if |fs| >= 5 then Copy(Trim(fs[3]), 256) else "") &&
              it.acs == (if |fs| == 3 then "" else if |fs| == 4 then Copy(Trim(fs[3]), 64) else Copy(Trim(fs[4]), 64)) &&
              it.flags == ParsedFlags(CmdFlagNames(), if |fs| >= 6 then Trim(fs[5]) else "") &&
              it.password == (if |fs| >= 7 then Copy(Trim(fs[6]), 32) else "")
  {
    hide Trim, Parts, ParsedFlags, CmdFlagNames, Upper, SkipSpaces, CutFirst, CutLast, IsField, Joined;
    var gs := CutFirst(CutLast(fs));
    TrimJoined(fs);
    var line := Joined(gs);
    assert line[0..] == line;
    forall k | 0 <= k < |fs| ensures AllFields(gs) && Trim(gs[k]) == Trim(fs[k]) {
      FieldsStayTrimmed(fs, k);
    }
    PartsOfFields(gs, line, 0, 8);
    LineBegins(fs);
    hide AllFields;
    TrimmedParts(fs, gs);
  }

  lemma TrimmedParts(fs: seq<string>, gs: seq<string>)
    requires |fs| == |gs| && forall k :: 0 <= k < |fs| ==> Trim(gs[k]) == Trim(fs[k])
    ensures forall k :: 0 <= k < 8 ==> Part(gs, k) == if k < |fs| then Trim(fs[k]) else ""
  {
    hide Trim;
  }

  /** The line begins with its key, or with the first bar. */
  lemma LineBegins(fs: seq<string>)
    requires |fs| >= 2
    ensures var line := Joined(CutFirst(CutLast(fs)));
            line != "" && line[0] == if Trim(fs[0]) == "" then '|' else Trim(fs[0])[0]
  {
    hide TrimEnd;
    var f := fs[0];
    var k := SkipSpaces(f, 0);
    var g := f[k..];
    assert CutLast(fs)[0] == f;
    TrimLead(f);
    if g == "" {
      TrimSpaces("");
    } else {
      TrimsAtEnd(g);
    }
  }

  /** A line without bars is no item. */
  lemma NoBarNoItem(line: string)
    requires IsField(line)
    ensures ItemFrom(line) == None
  {
    hide Trim;
    assert line[0..] == line;
    PartsOfFields([line], line, 0, 8);
  }

  /* ---------- lists of flags ---------- */

  /** The same letter, in upper or lower case, or the same character. */
  predicate SameLetter(c: char, d: char) {
    c == d || ('a' <= c <= 'z' && d as int == c as int - 32) || ('a' <= d <= 'z' && c as int == d as int - 32)
  }

  predicate SameLetters(s: string, t: string) {
    |s| == |t| && forall i :: 0 <= i < |s| ==> SameLetter(s[i], t[i])
  }

  lemma SameCaseIff(s: string, t: string)
    ensures SameCase(s, t) <==> SameLetters(s, t)
  {
    assert forall c: char, d: char :: ToUpper(c) == ToUpper(d) <==> SameLetter(c, d);
  }

  /** A word of a list, with blanks around it. */
  datatype Padded = Padded(left: string, word: string, right: string)

  function PaddedText(w: Padded): string {
    w.left + (w.word + w.right)
  }

  predicate LegalWord(w: Padded) {
    AllSpaces(w.left) && AllSpaces(w.right) && Trimmed(w.word) && forall i :: 0 <= i < |w.word| ==> w.word[i] != ','
  }

  /** Words with commas between them. */
  function ListText(ws: seq<Padded>): string
    requires ws != []
  {
    var n := |ws| - 1;
    if n == 0 then PaddedText(ws[0]) else ListText(ws[..n]) + ([','] + PaddedText(ws[n]))
  }

  predicate Listed(ws: seq<Padded>, name: string) {
    exists j :: 0 <= j < |ws| && SameLetters(ws[j].word, name)
  }

  lemma {:induction false} BitIs(names: seq<string>, w: string, k: nat)
    requires Distinct(names) && k <= |names|
    ensures BitOf(names, w, k) == set b | k <= b < |names| && SameLetters(w, names[b])
    decreases |names| - k
  {
    hide SameCase, SameLetters;
    if k < |names| {
      SameCaseIff(w, names[k]);
      BitIs(names, w, k + 1);
      if SameLetters(w, names[k]) {
        forall b | k < b < |names| ensures !SameLetters(w, names[b]) {
          NotBoth(names, w, k, b);
        }
      }
    }
  }

  lemma NotBoth(names: seq<string>, w: string, j: nat, k: nat)
    requires Distinct(names) && j < k < |names| && SameLetters(w, names[j])
    ensures !SameLetters(w, names[k])
  {
    SameCaseIff(w, names[j]);
    SameCaseIff(w, names[k]);
    assert !SameCase(names[k], names[j]);
  }

  lemma PaddedHasNoComma(w: Padded)
    requires LegalWord(w)
    ensures forall i :: 0 <= i < |PaddedText(w)| ==> PaddedText(w)[i] != ','
  {
  }

  /** A list of flags gives the flags whose names it has, in any case and with any blanks;
      other words give none. */
  lemma {:induction false} ListParses(names: seq<string>, ws: seq<Padded>)
    requires Distinct(names) && ws != [] && forall j :: 0 <= j < |ws| ==> LegalWord(ws[j])
    ensures FlagsFrom(names, ListText(ws), 0) == set b | 0 <= b < |names| && Listed(ws, names[b])
    decreases |ws|
  {
    hide FlagsFrom, Trim, BitOf, Distinct, SameLetters, LegalWord, PaddedText;
    var n := |ws| - 1;
    var w := ws[n];
    BitIs(names, w.word, 0);
    PaddedHasNoComma(w);
    WordTrims(w);
    if n == 0 {
      assert PaddedText(w)[0..] == PaddedText(w);
      LastWord(names, PaddedText(w), 0, PaddedText(w));
    } else {
      ListParses(names, ws[..n]);
      WordAdds(names, ListText(ws[..n]), PaddedText(w), 0);
      assert forall j :: 0 <= j < n ==> ws[..n][j] == ws[j];
    }
  }

  lemma WordTrims(w: Padded)
    requires LegalWord(w)
    ensures Trim(PaddedText(w)) == w.word
  {
    TrimMeans(w.left, w.word, w.right);
  }

  /** The names of the flags, by their bits. */
  lemma FlagBits()
    ensures var m := MenuFlagNames();
            m[0] == "clrscr" && m[1] == "nocenter" && m[2] == "notitle" && m[3] == "pause" && m[4] == "autotime" &&
            m[5] == "noprompt" && m[6] == "lightbar" && m[7] == "hotkeys"
    ensures var c := CmdFlagNames(); c[0] == "hidden" && c[1] == "unhidden" && c[2] == "password" && c[3] == "sysoplog"
  {
  }

  /** The flags of a menu and of a command, from lists of at most 255 characters. */
  lemma FlagListsParse(ws: seq<Padded>)
    requires ws != [] && |ListText(ws)| <= 255 && forall j :: 0 <= j < |ws| ==> LegalWord(ws[j])
    ensures ParsedFlags(MenuFlagNames(), ListText(ws)) == set b | 0 <= b < 8 && Listed(ws, MenuFlagNames()[b])
    ensures ParsedFlags(CmdFlagNames(), ListText(ws)) == set b | 0 <= b < 4 && Listed(ws, CmdFlagNames()[b])
  {
    hide FlagsFrom, MenuFlagNames, CmdFlagNames, AllNames, Distinct, ListText, Listed;
    MenuNames();
    CmdNames();
    ListParses(MenuFlagNames(), ws);
    ListParses(CmdFlagNames(), ws);
  }

  /* ---------- directives ---------- */

  /** A directive is known by its word in any case, and its value is cut to its buffer. */
  lemma DirectiveSets(m: Menu, word: string, val: string)
    ensures SameLetters(word, "TITLE") ==> Directive(m, word, val) == m.(title := Copy(val, 128))
    ensures SameLetters(word, "FLAGS") ==> Directive(m, word, val) == m.(flags := ParsedFlags(MenuFlagNames(), val))
    ensures SameLetters(word, "PROMPT") ==> Directive(m, word, val) == m.(prompt := Copy(val, 64))
    ensures SameLetters(word, "ART") ==> Directive(m, word, val) == m.(art := Copy(val, 64))
    ensures SameLetters(word, "FALLBACK") ==> Directive(m, word, val) == m.(fallback := Copy(val, 32))
    ensures SameLetters(word, "COLS") ==>
              Directive(m, word, val) ==
              m.(cols := if Atoi(val) < 1 then 1 else if Atoi(val) > 4 then 4 else Atoi(val))
    ensures (forall w :: w in ["TITLE", "FLAGS", "PROMPT", "ART", "FALLBACK", "COLS"] ==> !SameLetters(word, w)) ==>
              Directive(m, word, val) == m
  {
    hide ParsedFlags, MenuFlagNames, Atoi, SameLetters;
    SameCaseIff(word, "TITLE");
    SameCaseIff(word, "FLAGS");
    SameCaseIff(word, "PROMPT");
    SameCaseIff(word, "ART");
    SameCaseIff(word, "FALLBACK");
    SameCaseIff(word, "COLS");
    OneDirective(word);
  }

  lemma OneDirective(word: string)
    ensures SameLetters(word, "FLAGS") ==> !SameLetters(word, "TITLE")
  {
    if SameLetters(word, "FLAGS") {
      assert SameLetter(word[0], "FLAGS"[0]) && !SameLetter(word[0], "TITLE"[0]);
    }
  }

  /** Of a longer list the first 255 characters are read. */
  lemma LongListIsCut(names: seq<string>, list: string)
    requires |list| > 255
    ensures ParsedFlags(names, list) == ParsedFlags(names, list[..255])
  {
  }

  /* ---------- a whole file ---------- */

  /** A menu whose file is empty. */
  lemma EmptyFileLoads(name: string)
    ensures LoadFrom("", 0, Default(name)) == Menu(name, "Mutineer Menu", "Selection: ", "", "", {}, 1, [])
  {
  }

  /** A saved file begins with the name of the menu, or "menu" for none. */
  lemma SavedBegins(m: Menu)
    ensures "# Menu: " + (if m.name == "" then "menu" else m.name) + "\n@TITLE " <= FileOf(m)
  {
    hide FlagText, MenuFlagNames, Legend, ItemLines, Optional;
    HeadBegins(m);
    PrefixOf(Head(m), ItemLines(m.items));
  }

  lemma HeadBegins(m: Menu)
    ensures "# Menu: " + (if m.name == "" then "menu" else m.name) + "\n@TITLE " <= Head(m)
  {
    hide FlagText, MenuFlagNames, Legend, Optional;
    var name := if m.name == "" then "menu" else m.name;
    var more := Optional("@FLAGS ", FlagText(MenuFlagNames(), m.flags, 8)) +
      (L("@PROMPT " + m.prompt) + (Optional("@ART ", m.art) + (Optional("@FALLBACK ", m.fallback) +
      (L("@COLS " + Decimal(if m.cols > 0 then m.cols else 1)) + L(Legend())))));
    assert Head(m) == L("# Menu: " + name) + (L("@TITLE " + m.title) + more);
    FirstLines(name, m.title, more);
  }

  lemma FirstLines(name: string, title: string, more: string)
    ensures "# Menu: " + name + "\n@TITLE " <= L("# Menu: " + name) + (L("@TITLE " + title) + more)
  {
    assert "# Menu: " + name + "\n@TITLE " == "# Menu: " + name + "\n" + "@TITLE ";
    PrefixOf("@TITLE ", title + "\n");
    assert "@TITLE " + title + "\n" == "@TITLE " + (title + "\n");
    PrefixOf(L("@TITLE " + title), more);
    assert "@TITLE " <= L("@TITLE " + title) + more;
  }

  lemma PrefixOf(a: string, b: string)
    ensures a <= a + b
  {
  }

  /** An item line begins with the key of the item, and a bar. */
  lemma ItemBegins(it: Item)
    ensures (if it.key != '\0' then [it.key] else it.keyStr) + "|" <= ItemLine(it)
  {
    hide FlagText, CmdFlagNames;
  }
}
