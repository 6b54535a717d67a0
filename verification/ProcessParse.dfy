/** The two template parsers as loops over the command. */
module ProcessParse {
  import opened CStrings
  import opened Process
  import opened Wrappers

  /** A token read so far, and how the rest of it was read. */
  function Prefixed(text: string, t: Token): Token {
    if t.Token? then Token(text + t.text, t.next) else t
  }

  lemma PrefixedSnoc(text: string, c: char, t: Token)
    ensures Prefixed(text + [c], t) == Prefixed(text, Prepend(c, t))
  {
    if t.Token? {
      assert text + [c] + t.text == text + ([c] + t.text);
    }
  }

  /** Arguments split off so far, and how the rest was split. */
  function After(done: seq<string>, rest: Argv): Argv {
    if rest.Args? then Args(done + rest.args) else rest
  }

  lemma AfterSnoc(done: seq<string>, arg: string, rest: Argv)
    ensures After(done + [arg], rest) == After(done, Cons(arg, rest))
  {
    if rest.Args? {
      assert done + [arg] + rest.args == done + ([arg] + rest.args);
    }
  }

  lemma TokenStep(s: string, i: nat, quote: Quote, room: nat)
    requires i < |s| && (quote.Within? || !IsSpace(s[i]))
    ensures var k := if s[i] == BACKSLASH && i + 1 < |s| then i + 1 else i;
            TokenFrom(s, i, quote, room) ==
            if quote.Unquoted? && (s[i] == '\'' || s[i] == '"') then TokenFrom(s, i + 1, Within(s[i]), room)
            else if quote == Within(s[i]) then TokenFrom(s, i + 1, Unquoted, room)
            else if room == 0 then TooLong
            else Prepend(s[k], TokenFrom(s, k + 1, quote, room - 1))
  {
  }

  lemma TokenEnds(s: string, i: nat, quote: Quote, room: nat)
    requires i <= |s| && (i == |s| || (quote.Unquoted? && IsSpace(s[i])))
    ensures TokenFrom(s, i, quote, room) == if quote.Within? then Unclosed else Token("", i)
  {
  }

  /** The inner loop: fills the 1024-byte token buffer. */
  method ReadToken(s: string, start: nat) returns (t: Token)
    requires start <= |s|
    ensures t == TokenFrom(s, start, Unquoted, TOKEN_CAP - 1)
  {
    hide TokenFrom;
    var p, text, quote := start, "", Unquoted;
    ghost var goal := TokenFrom(s, start, Unquoted, TOKEN_CAP - 1);
    while p < |s| && (quote.Within? || !IsSpace(s[p]))
      invariant start <= p <= |s| && |text| <= TOKEN_CAP - 1
      invariant Prefixed(text, TokenFrom(s, p, quote, TOKEN_CAP - 1 - |text|)) == goal
      decreases |s| - p
    {
      TokenStep(s, p, quote, TOKEN_CAP - 1 - |text|);
      if quote.Unquoted? && (s[p] == '\'' || s[p] == '"') {
        quote := Within(s[p]);
        p := p + 1;
        continue;
      }
      if quote == Within(s[p]) {
        quote := Unquoted;
        p := p + 1;
        continue;
      }
      if |text| + 1 >= TOKEN_CAP {
        return TooLong;
      }
      ghost var at := p;
      if s[p] == BACKSLASH && p + 1 < |s| {
        p := p + 1;
      }
      PrefixedSnoc(text, s[p], TokenFrom(s, p + 1, quote, TOKEN_CAP - 2 - |text|));
      text := text + [s[p]];
      p := p + 1;
    }
    TokenEnds(s, p, quote, TOKEN_CAP - 1 - |text|);
    if quote.Within? {
      return Unclosed;
    }
    assert text + "" == text;
    t := Token(text, p);
  }

  /** replace_marker, and replace_percent_f with the marker "%f" */
  method ReplaceMarker(token: string, marker: string, value: string) returns (out: string)
    ensures out == ReplaceFirst(token, marker, value)
  {
    var j := 0;
    while j <= |token| && !At(token, j, marker)
      invariant j <= |token| + 1
      invariant j <= |token| ==> Find(token, marker, j) == Find(token, marker, 0)
      invariant j == |token| + 1 ==> Find(token, marker, 0) == j
      decreases |token| + 1 - j
    {
      j := j + 1;
    }
    if j > |token| {
      return token;
    }
    out := token[..j] + value + token[j + |marker|..];
  }

  lemma ReplaceEachSnoc(args: seq<string>, arg: string, marker: string, value: string)
    ensures ReplaceEach(args + [arg], marker, value) ==
            ReplaceEach(args, marker, value) + [ReplaceFirst(arg, marker, value)]
    ensures AnyHas(args + [arg], marker) == (AnyHas(args, marker) || Contains(arg, marker))
  {
    assert (args + [arg])[..|args|] == args;
  }

  /** The arguments pushed so far: the split ones, with the marker replaced if there
      is a value for it. */
  function Pushed(done: seq<string>, marker: string, value: Option<string>): seq<string> {
    if value.None? then done else ReplaceEach(done, marker, value.value)
  }

  lemma PushedSnoc(done: seq<string>, arg: string, marker: string, value: Option<string>)
    ensures Pushed(done + [arg], marker, value) ==
            Pushed(done, marker, value) + [if value.None? then arg else ReplaceFirst(arg, marker, value.value)]
  {
    if value.Some? {
      ReplaceEachSnoc(done, arg, marker, value.value);
    }
  }

  method SkipBlanks(s: string, from: nat) returns (p: nat)
    requires from <= |s|
    ensures p == SkipSpaces(s, from)
  {
    p := from;
    while p < |s| && IsSpace(s[p])
      invariant from <= p <= |s| && SkipSpaces(s, p) == SkipSpaces(s, from)
    {
      p := p + 1;
    }
  }

  lemma NothingYet(marker: string, value: Option<string>, all: Argv)
    ensures Pushed([], marker, value) == [] && !AnyHas([], marker) && After([], all) == all
  {
    if all.Args? {
      assert [] + all.args == all.args;
    }
  }

  lemma AfterAll(done: seq<string>)
    ensures After(done, Args([])) == Args(done)
  {
    assert done + [] == done;
  }

  lemma AfterRefusal(done: seq<string>, why: Refusal)
    ensures After(done, Refused(why)) == Refused(why)
  {
  }

  /** One argument: its marker is replaced if there is a value for it. */
  method PushOne(token: string, marker: string, value: Option<string>, argv: ArgVector) returns (has: bool)
    requires argv.Valid()
    modifies argv, argv.slots
    ensures argv.Valid() && (argv.slots == old(argv.slots) || fresh(argv.slots))
    ensures argv.Contents() ==
            old(argv.Contents()) + [if value.None? then token else ReplaceFirst(token, marker, value.value)]
    ensures has == (value.Some? && Contains(token, marker))
  {
    var arg := token;
    has := value.Some? && Contains(token, marker);
    if has {
      arg := ReplaceMarker(token, marker, value.value);
    }
    NoMarker(token, marker, if value.Some? then value.value else "");
    argv.Push(arg);
  }

  /** The loop that both parsers share: splits, replaces and pushes, argument by argument. */
  method PushArguments(s: string, marker: string, value: Option<string>, argv: ArgVector)
    returns (why: Option<Refusal>, saw: bool, ghost split: Argv)
    requires argv.Valid() && argv.Contents() == []
    modifies argv, argv.slots
    ensures argv.Valid() && (argv.slots == old(argv.slots) || fresh(argv.slots))
    ensures split == SplitFrom(s, 0)
    ensures why.Some? <==> split.Refused?
    ensures why.Some? ==> split == Refused(why.value)
    ensures split.Args? ==> argv.Contents() == Pushed(split.args, marker, value)
    ensures split.Args? && value.Some? ==> saw == AnyHas(split.args, marker)
  {
    hide SplitFrom, TokenFrom, Contains, ReplaceFirst, Pushed, ReplaceEach, AnyHas, After, Cons;
    var p := 0;
    ghost var done: seq<string> := [];
    split, why, saw := SplitFrom(s, 0), None, false;
    NothingYet(marker, value, split);
    while p < |s|
      invariant p <= |s| && argv.Valid() && (argv.slots == old(argv.slots) || fresh(argv.slots))
      invariant After(done, SplitFrom(s, p)) == split && why.None?
      invariant argv.Contents() == Pushed(done, marker, value)
      invariant value.Some? ==> saw == AnyHas(done, marker)
      decreases |s| - p
    {
      ghost var from := p;
      p := SkipBlanks(s, p);
      SplitUnfolds(s, from);
      AfterAll(done);
      if p == |s| {
        return;
      }
      var t := ReadToken(s, p);
      AfterRefusal(done, ArgumentTooLong);
      AfterRefusal(done, UnterminatedQuote);
      if t == TooLong {
        return Some(ArgumentTooLong), saw, split;
      }
      if t == Unclosed {
        return Some(UnterminatedQuote), saw, split;
      }
      var has := PushOne(t.text, marker, value, argv);
      saw := saw || has;
      AfterSnoc(done, t.text, SplitFrom(s, t.next));
      PushedSnoc(done, t.text, marker, value);
      ReplaceEachSnoc(done, t.text, marker, "");
      done := done + [t.text];
      p := t.next;
    }
    SplitUnfolds(s, |s|);
    AfterAll(done);
  }

  lemma NoMarker(token: string, marker: string, value: string)
    ensures !Contains(token, marker) ==> ReplaceFirst(token, marker, value) == token
  {
  }

  lemma SplitUnfolds(s: string, i: nat)
    requires i <= |s|
    ensures var j := SkipSpaces(s, i);
            if j == |s| then SplitFrom(s, i) == Args([])
            else
              var t := TokenFrom(s, j, Unquoted, TOKEN_CAP - 1);
              (t.TooLong? ==> SplitFrom(s, i) == Refused(ArgumentTooLong)) &&
              (t.Unclosed? ==> SplitFrom(s, i) == Refused(UnterminatedQuote)) &&
              (t.Token? ==> j < t.next <= |s| && SplitFrom(s, i) == Cons(t.text, SplitFrom(s, t.next)))
  {
  }

  method BbsArgvParseTemplate(command: string, filepath: Option<string>) returns (r: Argv, argv: ArgVector)
    ensures r == WithFile(Split(command), filepath)
    ensures r.Args? ==> argv.Valid() && argv.Contents() == r.args
  {
    argv := new ArgVector();
    if command == "" {
      return Refused(EmptyCommand), argv;
    }
    var meta := CommandContainsShellMeta(command);
    if meta {
      return Refused(ShellMeta), argv;
    }
    hide MetaFrom, SplitFrom, ReplaceEach, AnyHas;
    var why, saw, split := PushArguments(command, "%f", filepath, argv);
    if why.Some? {
      return Refused(why.value), argv;
    }
    if filepath.Some? && !saw {
      argv.Push(filepath.value);
    }
    ghost var more := if filepath.Some? && !saw then [filepath.value] else [];
    assert argv.Contents() == Pushed(split.args, "%f", filepath) + more;
    var args := Values(argv);
    if argv.argc == 0 {
      return Refused(EmptyCommand), argv;
    }
    r := Args(args);
  }

  method BbsArgvParseDoorTemplate(command: string, dropdir: Option<string>) returns (r: Argv, argv: ArgVector)
    ensures r == WithDropdir(Split(command), dropdir)
    ensures r.Args? ==> argv.Valid() && argv.Contents() == r.args
  {
    argv := new ArgVector();
    if command == "" {
      return Refused(EmptyCommand), argv;
    }
    var meta := CommandContainsShellMeta(command);
    if meta {
      return Refused(ShellMeta), argv;
    }
    hide MetaFrom, SplitFrom, AnyHas;
    var why, saw, split := PushArguments(command, "%D", dropdir, argv);
    if why.Some? {
      return Refused(why.value), argv;
    }
    var args := Values(argv);
    if argv.argc == 0 {
      return Refused(EmptyCommand), argv;
    }
    r := Args(args);
  }

  /** What the caller sees in the vector. */
  method Values(argv: ArgVector) returns (args: seq<string>)
    requires argv.Valid()
    ensures args == argv.Contents()
  {
    args := [];
    for i := 0 to argv.argc
      invariant args == argv.Contents()[..i]
    {
      args := args + [argv.slots[i].s];
    }
    assert argv.Contents()[..argv.argc] == argv.Contents();
  }
}
