/** Menu files: a menu is saved as directives and item lines of fields between bars,
    and loaded line by line. */
module MenuFile {
  import opened CStrings
  import opened Bytes
  import opened TextFiles
  import opened Wrappers

  const MAX_PARTS := 8
  const TMP_CAP := 256

  /** `key` is NUL when the item has a longer key, `keyStr`; flags are sets of bit numbers. */
  datatype Item = Item(
    key: char, keyStr: string, caption: string, action: string, data: string, acs: string, flags: set<nat>,
    password: string)

  datatype Menu = Menu(
    name: string, title: string, prompt: string, art: string, fallback: string, flags: set<nat>, cols: int,
    items: seq<Item>)

  /** The comment over the item lines. */
  function Legend(): (s: string)
    ensures |s| == 45 && s[0] == '#' && NoLf(s)
  {
    "# key|label|action" + "|data|acs|cmdflags|password"
  }

  /** The names of the menu flags, in the order of their bits. */
  function MenuFlagNames(): (names: seq<string>)
    ensures |names| == 8
  {
    ["clrscr", "nocenter", "notitle", "pause", "autotime", "noprompt", "lightbar", "hotkeys"]
  }

  function CmdFlagNames(): (names: seq<string>)
    ensures |names| == 4
  {
    ["hidden", "unhidden", "password", "sysoplog"]
  }

  /* ---------- strings ---------- */

  function TrimEnd(s: string): (t: string)
    ensures |t| <= |s| && t == s[..|t|]
    ensures t != "" ==> !IsSpace(t[|t| - 1])
  {
    if s != "" && IsSpace(s[|s| - 1]) then TrimEnd(s[..|s| - 1]) else s
  }

  /** str_trim */
  function Trim(s: string): string {
    TrimEnd(s)[SkipSpaces(TrimEnd(s), 0)..]
  }

  /** strcasecmp is 0 */
  predicate SameCase(s: string, t: string) {
    |s| == |t| && forall i :: 0 <= i < |s| ==> ToUpper(s[i]) == ToUpper(t[i])
  }

  /** The first index at or after `i` where `c` stands, or the length. */
  function IndexOf(s: string, c: char, i: nat): (j: nat)
    requires i <= |s|
    ensures i <= j <= |s|
    ensures j < |s| ==> s[j] == c
    ensures forall k :: i <= k < j ==> s[k] != c
    decreases |s| - i
  {
    if i < |s| && s[i] != c then IndexOf(s, c, i + 1) else i
  }

  /* ---------- flags ---------- */

  /** The bits at or above `k` that a word names: one or none. */
  function BitOf(names: seq<string>, word: string, k: nat): set<nat>
    decreases |names| - k
  {
    if k >= |names| then {}
    else if SameCase(word, names[k]) then {k}
    else BitOf(names, word, k + 1)
  }

  /** The flags of the words between commas, from `i` on. */
  function FlagsFrom(names: seq<string>, s: string, i: nat): set<nat>
    requires i <= |s|
    decreases |s| - i
  {
    var e := IndexOf(s, ',', i);
    BitOf(names, Trim(s[i..e]), 0) + if e == |s| then {} else FlagsFrom(names, s, e + 1)
  }

  function ParsedFlags(names: seq<string>, s: string): set<nat> {
    FlagsFrom(names, Copy(s, TMP_CAP), 0)
  }

  /** The names of the flags below `k`, with commas between them. */
  function FlagText(names: seq<string>, flags: set<nat>, k: nat): string
    requires k <= |names|
  {
    if k == 0 then ""
    else
      var front := FlagText(names, flags, k - 1);
      if k - 1 !in flags then front
      else if front == "" then names[k - 1]
      else front + ([','] + names[k - 1])
  }

  method FormatFlags(names: seq<string>, flags: set<nat>) returns (out: string)
    requires forall k :: 0 <= k < |names| ==> names[k] != ""
    ensures out == FlagText(names, flags, |names|)
  {
    out := "";
    var first := true;
    for k := 0 to |names|
      invariant out == FlagText(names, flags, k) && (first <==> out == "")
    {
      if k in flags {
        if !first {
          out := out + [','];
          Assoc(FlagText(names, flags, k), [','], names[k]);
        }
        out := out + names[k];
        first := false;
      }
    }
  }

  lemma EmptyWord(names: seq<string>, k: nat)
    requires forall j :: 0 <= j < |names| ==> names[j] != ""
    ensures BitOf(names, "", k) == {}
    decreases |names| - k
  {
  }

  lemma EmptyPiece(names: seq<string>, s: string, i: nat)
    requires forall j :: 0 <= j < |names| ==> names[j] != ""
    requires i < |s| && s[i] == ','
    ensures FlagsFrom(names, s, i) == FlagsFrom(names, s, i + 1)
  {
    assert s[i..i] == "" && Trim("") == "";
    EmptyWord(names, 0);
  }

  lemma NoPiece(names: seq<string>, s: string)
    requires forall j :: 0 <= j < |names| ==> names[j] != ""
    ensures FlagsFrom(names, s, |s|) == {}
  {
    assert s[|s|..|s|] == "" && Trim("") == "";
    EmptyWord(names, 0);
  }

  lemma OnePiece(names: seq<string>, s: string, i: nat)
    requires i <= |s|
    ensures var e := IndexOf(s, ',', i);
            FlagsFrom(names, s, i) ==
            BitOf(names, Trim(s[i..e]), 0) + if e == |s| then {} else FlagsFrom(names, s, e + 1)
  {
  }

  method SkipCommas(names: seq<string>, s: string, start: nat) returns (i: nat)
    requires forall j :: 0 <= j < |names| ==> names[j] != ""
    requires start <= |s|
    ensures start <= i <= |s| && FlagsFrom(names, s, i) == FlagsFrom(names, s, start)
  {
    i := start;
    while i < |s| && s[i] == ','
      invariant start <= i <= |s| && FlagsFrom(names, s, i) == FlagsFrom(names, s, start)
    {
      EmptyPiece(names, s, i);
      hide FlagsFrom;
      i := i + 1;
    }
  }

  /** parse_menu_flags and parse_cmd_flags: strtok skips commas and takes a word. */
  method ParseFlags(names: seq<string>, str: string) returns (flags: set<nat>)
    requires forall j :: 0 <= j < |names| ==> names[j] != ""
    ensures flags == ParsedFlags(names, str)
  {
    hide Trim, BitOf, FlagsFrom;
    var tmp := Copy(str, TMP_CAP);
    flags := {};
    NoPiece(names, tmp);
    var i := SkipCommas(names, tmp, 0);
    ghost var all := FlagsFrom(names, tmp, 0);
    while i < |tmp|
      invariant i <= |tmp| && flags + FlagsFrom(names, tmp, i) == all
    {
      OnePiece(names, tmp, i);
      var e := IndexOf(tmp, ',', i);
      flags := flags + BitOf(names, Trim(tmp[i..e]), 0);
      if e == |tmp| {
        return;
      }
      i := SkipCommas(names, tmp, e + 1);
    }
  }

  /* ---------- item lines ---------- */

  /** The parts between bars, at most `room` of them. */
  function Parts(s: string, i: nat, room: nat): (ps: seq<string>)
    requires i <= |s| && room > 0
    ensures 1 <= |ps| <= room
    decreases |s| - i
  {
    var e := IndexOf(s, '|', i);
    if e == |s| || room == 1 then [if room == 1 then s[i..] else s[i..e]]
    else [s[i..e]] + Parts(s, e + 1, room - 1)
  }

  method SplitParts(s: string) returns (parts: seq<string>)
    ensures parts == Parts(s, 0, MAX_PARTS)
  {
    hide Parts;
    parts := [];
    var i := 0;
    ghost var all := Parts(s, 0, MAX_PARTS);
    while |parts| < MAX_PARTS - 1
      invariant i <= |s| && |parts| <= MAX_PARTS - 1
      invariant parts + Parts(s, i, MAX_PARTS - |parts|) == all
      decreases MAX_PARTS - |parts|
    {
      var e := IndexOf(s, '|', i);
      if e == |s| {
        break;
      }
      FirstPart(s, i, MAX_PARTS - |parts|);
      Assoc(parts, [s[i..e]], Parts(s, e + 1, MAX_PARTS - |parts| - 1));
      parts := parts + [s[i..e]];
      i := e + 1;
    }
    LastPart(s, i, MAX_PARTS - |parts|);
    parts := parts + [s[i..]];
  }

  lemma FirstPart(s: string, i: nat, room: nat)
    requires i <= |s| && room > 1 && IndexOf(s, '|', i) < |s|
    ensures var e := IndexOf(s, '|', i); Parts(s, i, room) == [s[i..e]] + Parts(s, e + 1, room - 1)
  {
  }

  lemma LastPart(s: string, i: nat, room: nat)
    requires i <= |s| && room > 0 && (room == 1 || IndexOf(s, '|', i) == |s|)
    ensures Parts(s, i, room) == [s[i..]]
  {
    assert s[i..|s|] == s[i..];
  }

  /** An item of trimmed fields; no key, no item. */
  function ItemOf(key: string, caption: string, action: string, data: string, acs: string, cmdFlags: string,
    password: string): Option<Item>
  {
    if key == "" then None
    else Some(Item(
      if |key| > 1 then '\0' else ToUpper(key[0]),
      if |key| > 1 then Upper(Copy(key, 8)) else "",
      Copy(caption, 128), Copy(action, 64), Copy(data, 256), Copy(acs, 64), ParsedFlags(CmdFlagNames(), cmdFlags),
      Copy(password, 32)))
  }

  /** A part, trimmed, or nothing when the line has not so many. */
  function Part(ps: seq<string>, k: nat): string {
    if k < |ps| then Trim(ps[k]) else ""
  }

  /** parse_line: four parts are the old form, without data. */
  function ItemFrom(line: string): Option<Item> {
    var ps := Parts(line, 0, MAX_PARTS);
    if |ps| < 3 then None
    else if |ps| == 4 then ItemOf(Part(ps, 0), Part(ps, 1), Part(ps, 2), "", Part(ps, 3), "", "")
    else ItemOf(Part(ps, 0), Part(ps, 1), Part(ps, 2), Part(ps, 3), Part(ps, 4), Part(ps, 5), Part(ps, 6))
  }

  lemma NamesNotEmpty()
    ensures forall k :: 0 <= k < |MenuFlagNames()| ==> MenuFlagNames()[k] != ""
    ensures forall k :: 0 <= k < |CmdFlagNames()| ==> CmdFlagNames()[k] != ""
  {
  }

  method ParseLine(line: string) returns (item: Option<Item>)
    ensures item == ItemFrom(line)
  {
    hide Trim, FlagsFrom, Parts, MenuFlagNames, CmdFlagNames, Upper;
    var parts := SplitParts(line);
    var n := |parts|;
    if n < 3 {
      return None;
    }
    var key, caption, action := Trim(parts[0]), Trim(parts[1]), Trim(parts[2]);
    var data, acs, cmdFlags, password := "", "", "", "";
    if n == 4 {
      acs := Trim(parts[3]);
    } else if n >= 5 {
      data, acs := Trim(parts[3]), Trim(parts[4]);
      if n > 5 {
        cmdFlags := Trim(parts[5]);
      }
      if n > 6 {
        password := Trim(parts[6]);
      }
    }
    if key == "" {
      return None;
    }
    var it := Item('\0', "", "", "", "", "", {}, "");
    if |key| > 1 {
      it := it.(keyStr := Upper(Copy(key, 8)));
    } else {
      it := it.(key := ToUpper(key[0]));
    }
    NamesNotEmpty();
    var flags := ParseFlags(CmdFlagNames(), cmdFlags);
    it := it.(caption := Copy(caption, 128), action := Copy(action, 64), data := Copy(data, 256));
    it := it.(acs := Copy(acs, 64), flags := flags, password := Copy(password, 32));
    item := Some(it);
  }

  /* ---------- loading ---------- */

  function Clamped(n: int): int {
    if n < 1 then 1 else if n > 4 then 4 else n
  }

  /** A directive: its word, and its value behind the first blank. */
  function Directive(m: Menu, word: string, val: string): Menu {
    if SameCase(word, "TITLE") then m.(title := Copy(val, 128))
    else if SameCase(word, "FLAGS") then m.(flags := ParsedFlags(MenuFlagNames(), val))
    else if SameCase(word, "PROMPT") then m.(prompt := Copy(val, 64))
    else if SameCase(word, "ART") then m.(art := Copy(val, 64))
    else if SameCase(word, "FALLBACK") then m.(fallback := Copy(val, 32))
    else if SameCase(word, "COLS") then m.(cols := Clamped(Atoi(val)))
    else m
  }

  /** What one trimmed line adds to the menu. */
  function WithLine(m: Menu, line: string): Menu {
    if line == "" || line[0] == '#' then m
    else if line[0] == '@' then
      var b := IndexOf(line, ' ', 1);
      Directive(m, line[1..b], if b < |line| then Trim(line[b + 1..]) else "")
    else
      var it := ItemFrom(line);
      if it.None? then m else m.(items := m.items + [it.value])
  }

  function LoadFrom(file: string, i: nat, m: Menu): Menu
    requires i <= |file|
    decreases |file| - i
  {
    if i == |file| then m
    else LoadFrom(file, NextLine(file, i), WithLine(m, Trim(file[i..NextLine(file, i)])))
  }

  /** A menu before its file is read. */
  function Default(name: string): Menu {
    Menu(name, "Mutineer Menu", "Selection: ", "", "", {}, 1, [])
  }

  method LoadLine(m: Menu, line: string) returns (r: Menu)
    ensures r == WithLine(m, line)
  {
    hide Trim, ItemFrom, ParsedFlags, MenuFlagNames, SameCase, Atoi;
    r := m;
    if line == "" {
      return;
    }
    if line[0] == '#' {
      return;
    }
    if line[0] == '@' {
      var b := IndexOf(line, ' ', 1);
      var val := "";
      if b < |line| {
        val := Trim(line[b + 1..]);
      }
      r := LoadDirective(m, line[1..b], val);
    } else {
      var it := ParseLine(line);
      if it.Some? {
        r := r.(items := r.items + [it.value]);
      }
    }
  }

  method LoadDirective(m: Menu, word: string, val: string) returns (r: Menu)
    ensures r == Directive(m, word, val)
  {
    hide SameCase, Atoi, ParsedFlags, MenuFlagNames;
    r := m;
    if SameCase(word, "TITLE") {
      r := r.(title := Copy(val, 128));
    } else if SameCase(word, "FLAGS") {
      NamesNotEmpty();
      var flags := ParseFlags(MenuFlagNames(), val);
      r := r.(flags := flags);
    } else if SameCase(word, "PROMPT") {
      r := r.(prompt := Copy(val, 64));
    } else if SameCase(word, "ART") {
      r := r.(art := Copy(val, 64));
    } else if SameCase(word, "FALLBACK") {
      r := r.(fallback := Copy(val, 32));
    } else if SameCase(word, "COLS") {
      r := r.(cols := Atoi(val));
      if r.cols < 1 {
        r := r.(cols := 1);
      }
      if r.cols > 4 {
        r := r.(cols := 4);
      }
    }
  }

  /** menu_load; `name` is taken from the path. */
  method MenuLoad(name: string, file: string) returns (m: Menu)
    ensures m == LoadFrom(file, 0, Default(name))
  {
    hide WithLine, Trim, LineEnd;
    m := Default(name);
    var i := 0;
    while i < |file|
      invariant i <= |file| && LoadFrom(file, i, m) == LoadFrom(file, 0, Default(name))
      decreases |file| - i
    {
      var line := Trim(file[i..NextLine(file, i)]);
      i := NextLine(file, i);
      m := LoadLine(m, line);
    }
  }

  /* ---------- saving ---------- */

  function Named(m: Menu): string {
    if m.name != "" then m.name else "menu"
  }

  function KeyText(it: Item): string {
    if it.key != '\0' then [it.key] else it.keyStr
  }

  function ItemLine(it: Item): string {
    KeyText(it) + (['|'] + (it.caption + (['|'] + (it.action + (['|'] + (it.data + (['|'] + (it.acs + (['|'] +
    (FlagText(CmdFlagNames(), it.flags, 4) + (['|'] + it.password)))))))))))
  }

  function ItemLines(items: seq<Item>): string {
    if items == [] then "" else ItemLines(items[..|items| - 1]) + L(ItemLine(items[|items| - 1]))
  }

  /** A directive that is left out when it has no value. */
  function Optional(key: string, val: string): string {
    if val == "" then "" else L(key + val)
  }

  function Head(m: Menu): string {
    L("# Menu: " + Named(m)) + (L("@TITLE " + m.title) + (Optional("@FLAGS ", FlagText(MenuFlagNames(), m.flags, 8)) +
    (L("@PROMPT " + m.prompt) + (Optional("@ART ", m.art) + (Optional("@FALLBACK ", m.fallback) +
    (L("@COLS " + Decimal(if m.cols > 0 then m.cols else 1)) + L(Legend())))))))
  }

  function FileOf(m: Menu): string {
    Head(m) + ItemLines(m.items)
  }

  method SaveItem(it: Item) returns (line: string)
    ensures line == ItemLine(it)
  {
    hide FlagText;
    NamesNotEmpty();
    var keyDisp := if it.key != '\0' then [it.key] else it.keyStr;
    var cmdFlags := FormatFlags(CmdFlagNames(), it.flags);
    line := cmdFlags + (['|'] + it.password);
    line := it.action + (['|'] + (it.data + (['|'] + (it.acs + (['|'] + line)))));
    line := keyDisp + (['|'] + (it.caption + (['|'] + line)));
  }

  method SaveHead(m: Menu) returns (f: string)
    ensures f == Head(m)
  {
    hide FlagText, L, Decimal, Named;
    NamesNotEmpty();
    var flags := FormatFlags(MenuFlagNames(), m.flags);
    f := L("@COLS " + Decimal(if m.cols > 0 then m.cols else 1)) + L(Legend());
    f := Optional("@ART ", m.art) + (Optional("@FALLBACK ", m.fallback) + f);
    f := Optional("@FLAGS ", flags) + (L("@PROMPT " + m.prompt) + f);
    f := L("# Menu: " + Named(m)) + (L("@TITLE " + m.title) + f);
  }

  /** menu_save */
  method MenuSave(m: Menu) returns (f: string)
    ensures f == FileOf(m)
  {
    hide Head, ItemLine, L;
    f := SaveHead(m);
    ghost var head := f;
    assert head + "" == head;
    for i := 0 to |m.items|
      invariant f == head + ItemLines(m.items[..i])
    {
      var line := SaveItem(m.items[i]);
      assert m.items[..i + 1][..i] == m.items[..i];
      Assoc(head, ItemLines(m.items[..i]), L(line));
      f := f + L(line);
    }
    assert m.items[..|m.items|] == m.items;
  }
}
