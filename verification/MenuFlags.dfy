/** The flags of menus and items come back from their names. */
module MenuFlags {
  import opened CStrings
  import opened MenuFile

  predicate IsLetter(c: char) {
    'a' <= c <= 'z'
  }

  /** A name of up to eight letters. */
  predicate IsName(s: string) {
    0 < |s| <= 8 && forall i :: 0 <= i < |s| ==> IsLetter(s[i])
  }

  /** Names that strcasecmp tells apart. */
  predicate Distinct(names: seq<string>) {
    forall j, k :: 0 <= j < k < |names| ==> !SameCase(names[k], names[j])
  }

  predicate AllNames(names: seq<string>) {
    forall k :: 0 <= k < |names| ==> IsName(names[k])
  }

  lemma Differ(s: string, t: string, i: nat)
    requires i < |s| && i < |t| && ToUpper(s[i]) != ToUpper(t[i])
    ensures !SameCase(s, t)
  {
  }

  lemma DistinctSnoc(names: seq<string>, w: string)
    requires Distinct(names) && forall j :: 0 <= j < |names| ==> !SameCase(w, names[j])
    ensures Distinct(names + [w])
  {
    hide SameCase;
  }

  lemma NamesSnoc(names: seq<string>, w: string)
    requires AllNames(names) && IsName(w)
    ensures AllNames(names + [w])
  {
    hide IsName;
  }

  lemma FirstMenuNames()
    ensures AllNames(FirstNames()) && Distinct(FirstNames())
  {
    FirstAreNames();
    hide AllNames;
    Differ("autotime", "nocenter", 0);
  }

  lemma FirstAreNames()
    ensures AllNames(FirstNames())
  {
  }

  /** The first five of the names. */
  function FirstNames(): seq<string> {
    ["clrscr", "nocenter", "notitle", "pause", "autotime"]
  }

  lemma MenuNames()
    ensures AllNames(MenuFlagNames()) && Distinct(MenuFlagNames()) && |MenuFlagNames()| == 8
  {
    hide AllNames, Distinct;
    FirstMenuNames();
    var five := FirstNames();
    assert |five| == 5;
    NopromptIsNew();
    LightbarIsNew();
    HotkeysIsNew();
    DistinctSnoc(five, "noprompt");
    NamesSnoc(five, "noprompt");
    var six := five + ["noprompt"];
    DistinctSnoc(six, "lightbar");
    NamesSnoc(six, "lightbar");
    var seven := six + ["lightbar"];
    DistinctSnoc(seven, "hotkeys");
    NamesSnoc(seven, "hotkeys");
    assert MenuFlagNames() == seven + ["hotkeys"];
  }

  lemma NopromptIsNew()
    ensures IsName("noprompt") && forall j :: 0 <= j < 5 ==> !SameCase("noprompt", FirstNames()[j])
  {
    Differ("noprompt", "nocenter", 2);
    Differ("noprompt", "autotime", 0);
  }

  lemma LightbarIsNew()
    ensures IsName("lightbar") && forall j :: 0 <= j < 6 ==> !SameCase("lightbar", (FirstNames() + ["noprompt"])[j])
  {
    Differ("lightbar", "nocenter", 0);
    Differ("lightbar", "autotime", 0);
    Differ("lightbar", "noprompt", 0);
  }

  lemma HotkeysIsNew()
    ensures IsName("hotkeys")
    ensures forall j :: 0 <= j < 7 ==> !SameCase("hotkeys", (FirstNames() + ["noprompt"] + ["lightbar"])[j])
  {
    Differ("hotkeys", "notitle", 0);
  }

  lemma CmdNames()
    ensures AllNames(CmdFlagNames()) && Distinct(CmdFlagNames()) && |CmdFlagNames()| == 4
  {
    CmdNamesAre();
    Differ("password", "unhidden", 0);
    Differ("sysoplog", "unhidden", 0);
    Differ("sysoplog", "password", 0);
    hide AllNames;
  }

  lemma CmdNamesAre()
    ensures AllNames(CmdFlagNames())
  {
  }

  /* ---------- trimming ---------- */

  lemma TrimName(s: string)
    requires s != "" ==> !IsSpace(s[0]) && !IsSpace(s[|s| - 1])
    ensures Trim(s) == s
  {
  }

  /** What is written for flags: letters and commas, with no blanks around. */
  predicate FlagChars(s: string) {
    forall i :: 0 <= i < |s| ==> IsLetter(s[i]) || s[i] == ','
  }

  lemma {:induction false} FlagTextIs(names: seq<string>, flags: set<nat>, k: nat)
    requires AllNames(names) && k <= |names|
    ensures FlagChars(FlagText(names, flags, k)) && |FlagText(names, flags, k)| <= 9 * k
  {
    if k > 0 {
      FlagTextIs(names, flags, k - 1);
      assert IsName(names[k - 1]);
    }
  }

  /* ---------- words ---------- */

  lemma SameAsItself(s: string)
    ensures SameCase(s, s)
  {
  }

  lemma {:induction false} WordBit(names: seq<string>, b: nat, k: nat)
    requires Distinct(names) && k <= b < |names|
    ensures BitOf(names, names[b], k) == {b}
    decreases b - k
  {
    SameAsItself(names[b]);
    if k < b {
      WordBit(names, b, k + 1);
    }
  }

  lemma {:induction false} IndexInFront(a: string, x: string, i: nat)
    requires i <= |a| && x != "" && x[0] == ','
    ensures IndexOf(a + x, ',', i) == IndexOf(a, ',', i)
    decreases |a| - i
  {
    if i < |a| && a[i] != ',' {
      IndexInFront(a, x, i + 1);
    }
  }

  lemma LastWord(names: seq<string>, s: string, i: nat, w: string)
    requires i <= |s| && s[i..] == w && forall k :: 0 <= k < |w| ==> w[k] != ','
    ensures FlagsFrom(names, s, i) == BitOf(names, Trim(w), 0)
  {
    var e := IndexOf(s, ',', i);
    assert forall k :: i <= k < |s| ==> s[k] == s[i..][k - i];
    assert s[i..|s|] == w;
  }

  /** A word behind a comma adds its bit. */
  lemma {:induction false} WordAdds(names: seq<string>, a: string, w: string, i: nat)
    requires i <= |a| && forall k :: 0 <= k < |w| ==> w[k] != ','
    ensures FlagsFrom(names, a + ([','] + w), i) == FlagsFrom(names, a, i) + BitOf(names, Trim(w), 0)
    decreases |a| - i
  {
    hide Trim, BitOf;
    var s, e := a + ([','] + w), IndexOf(a, ',', i);
    IndexInFront(a, [','] + w, i);
    assert s[i..e] == a[i..e];
    if e < |a| {
      WordAdds(names, a, w, e + 1);
    } else {
      assert s[e + 1..] == w;
      LastWord(names, s, e + 1, w);
    }
  }

  lemma NameIsWord(names: seq<string>, k: nat)
    requires AllNames(names) && k < |names|
    ensures Trim(names[k]) == names[k] && names[k] != "" && forall i :: 0 <= i < |names[k]| ==> names[k][i] != ','
  {
    assert IsName(names[k]);
    TrimName(names[k]);
  }

  /** The flags that have names. */
  function Below(flags: set<nat>, n: nat): set<nat> {
    set k | k in flags && k < n
  }

  lemma BelowGrows(flags: set<nat>, n: nat)
    ensures Below(flags, n + 1) == if n in flags then Below(flags, n) + {n} else Below(flags, n)
  {
  }

  lemma {:induction false} FlagsBack(names: seq<string>, flags: set<nat>, k: nat)
    requires AllNames(names) && Distinct(names) && k <= |names|
    ensures FlagsFrom(names, FlagText(names, flags, k), 0) == Below(flags, k)
    ensures FlagText(names, flags, k) == "" <==> Below(flags, k) == {}
  {
    hide FlagsFrom, Below, AllNames, Distinct;
    if k == 0 {
      NoFlags(names, flags);
    } else {
      var front := FlagText(names, flags, k - 1);
      FlagsBack(names, flags, k - 1);
      BelowGrows(flags, k - 1);
      NameAdds(names, front, k - 1);
    }
  }

  /** One more name behind those that are written adds its flag. */
  lemma NameAdds(names: seq<string>, front: string, b: nat)
    requires AllNames(names) && Distinct(names) && b < |names|
    ensures names[b] != ""
    ensures FlagsFrom(names, if front == "" then names[b] else front + ([','] + names[b]), 0) ==
            FlagsFrom(names, front, 0) + {b}
  {
    hide FlagsFrom, AllNames, Distinct, BitOf, Trim;
    var w := names[b];
    NameIsWord(names, b);
    WordBit(names, b, 0);
    if front != "" {
      WordAdds(names, front, w, 0);
    } else {
      assert w[0..] == w;
      LastWord(names, w, 0, w);
      NoFlags(names, {});
    }
  }

  lemma NoFlags(names: seq<string>, flags: set<nat>)
    requires AllNames(names)
    ensures FlagsFrom(names, "", 0) == {} && Below(flags, 0) == {}
  {
    hide Trim, BitOf;
    NoneNamed(names, 0);
    TrimName("");
    assert ""[0..0] == "";
  }

  lemma {:induction false} NoneNamed(names: seq<string>, k: nat)
    requires AllNames(names)
    ensures BitOf(names, "", k) == {}
    decreases |names| - k
  {
    if k < |names| {
      assert IsName(names[k]);
      NoneNamed(names, k + 1);
    }
  }

  /** Written and read back, the flags that have names are the same and no others are there. */
  lemma FlagsRoundTrip(names: seq<string>, flags: set<nat>)
    requires AllNames(names) && Distinct(names) && |names| <= 8
    ensures var t := FlagText(names, flags, |names|);
            ParsedFlags(names, Trim(t)) == Below(flags, |names|) && (t == "" <==> Below(flags, |names|) == {})
  {
    hide FlagsFrom, Trim, FlagText, AllNames, Distinct, Below;
    var t := FlagText(names, flags, |names|);
    FlagTextIs(names, flags, |names|);
    FlagsBack(names, flags, |names|);
    TrimName(t);
    assert Copy(t, TMP_CAP) == t;
  }
}
