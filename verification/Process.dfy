/** Command templates: the metacharacter filter, the tokenizer with quotes and
    backslashes, and the markers replaced after splitting. */
module Process {
  import opened CStrings
  import opened Wrappers

  const TOKEN_CAP := 1024
  const BACKSLASH := '\\'

  datatype Refusal = EmptyCommand | ShellMeta | ArgumentTooLong | UnterminatedQuote

  datatype Argv = Refused(why: Refusal) | Args(args: seq<string>)

  /* ---------- the filter ---------- */

  /** The character at `i` is a shell operator, or begins one. */
  predicate MetaAt(s: string, i: nat)
    requires i < |s|
  {
    s[i] == '`' || s[i] == ';' || s[i] == '<' || s[i] == '>' || s[i] == '|' ||
    (i + 1 < |s| && ((s[i] == '$' && s[i + 1] == '(') || (s[i] == '&' && s[i + 1] == '&')))
  }

  /** A backslash takes the character after it with it. */
  predicate Escapes(s: string, i: nat)
    requires i < |s|
  {
    s[i] == BACKSLASH && i + 1 < |s|
  }

  predicate MetaFrom(s: string, i: nat)
    requires i <= |s|
    decreases |s| - i
  {
    i < |s| && if Escapes(s, i) then MetaFrom(s, i + 2) else MetaAt(s, i) || MetaFrom(s, i + 1)
  }

  method CommandContainsShellMeta(command: string) returns (found: bool)
    ensures found == MetaFrom(command, 0)
  {
    var p := 0;
    while p < |command|
      invariant p <= |command| && MetaFrom(command, p) == MetaFrom(command, 0)
    {
      if Escapes(command, p) {
        p := p + 2;
      } else if MetaAt(command, p) {
        return true;
      } else {
        p := p + 1;
      }
    }
    found := false;
  }

  /* ---------- splitting ---------- */

  datatype Quote = Unquoted | Within(mark: char)

  datatype Token = TooLong | Unclosed | Token(text: string, next: nat)

  function Prepend(c: char, t: Token): Token {
    if t.Token? then Token([c] + t.text, t.next) else t
  }

  /** The rest of a token from `i` on, with room for `room` more characters. */
  function TokenFrom(s: string, i: nat, quote: Quote, room: nat): (t: Token)
    requires i <= |s|
    ensures t.Token? ==> i <= t.next <= |s| && |t.text| <= room
    ensures t.Token? && i < |s| && (quote.Within? || !IsSpace(s[i])) ==> i < t.next
    decreases |s| - i
  {
    if i == |s| || (quote.Unquoted? && IsSpace(s[i])) then
      if quote.Within? then Unclosed else Token("", i)
    else if quote.Unquoted? && (s[i] == '\'' || s[i] == '"') then TokenFrom(s, i + 1, Within(s[i]), room)
    else if quote == Within(s[i]) then TokenFrom(s, i + 1, Unquoted, room)
    else if room == 0 then TooLong
    else
      var j := if Escapes(s, i) then i + 1 else i;
      Prepend(s[j], TokenFrom(s, j + 1, quote, room - 1))
  }

  function Cons(arg: string, rest: Argv): Argv {
    if rest.Args? then Args([arg] + rest.args) else rest
  }

  /** The arguments from `i` on, before any marker is replaced. */
  function SplitFrom(s: string, i: nat): Argv
    requires i <= |s|
    decreases |s| - i
  {
    var j := SkipSpaces(s, i);
    if j == |s| then Args([])
    else
      match TokenFrom(s, j, Unquoted, TOKEN_CAP - 1)
      case TooLong => Refused(ArgumentTooLong)
      case Unclosed => Refused(UnterminatedQuote)
      case Token(text, next) => Cons(text, SplitFrom(s, next))
  }

  /** A command is refused before it is split if it is empty or holds a shell operator. */
  function Split(command: string): Argv {
    if command == "" then Refused(EmptyCommand)
    else if MetaFrom(command, 0) then Refused(ShellMeta)
    else SplitFrom(command, 0)
  }

  /* ---------- markers ---------- */

  function ReplaceFirst(token: string, marker: string, value: string): string {
    var j := Find(token, marker, 0);
    if j > |token| then token else token[..j] + value + token[j + |marker|..]
  }

  function ReplaceEach(args: seq<string>, marker: string, value: string): (r: seq<string>)
    ensures |r| == |args|
  {
    if args == [] then []
    else ReplaceEach(args[..|args| - 1], marker, value) + [ReplaceFirst(args[|args| - 1], marker, value)]
  }

  predicate AnyHas(args: seq<string>, marker: string) {
    args != [] && (AnyHas(args[..|args| - 1], marker) || Contains(args[|args| - 1], marker))
  }

  /** What bbs_argv_parse_template makes of the split command. */
  function WithFile(split: Argv, filepath: Option<string>): Argv {
    if split.Refused? then split
    else
      var args :=
        if filepath.None? then split.args
        else ReplaceEach(split.args, "%f", filepath.value) + if AnyHas(split.args, "%f") then [] else [filepath.value];
      if args == [] then Refused(EmptyCommand) else Args(args)
  }

  /** What bbs_argv_parse_door_template makes of it: nothing is ever appended. */
  function WithDropdir(split: Argv, dropdir: Option<string>): Argv {
    if split.Refused? then split
    else if split.args == [] then Refused(EmptyCommand)
    else if dropdir.None? then split
    else Args(ReplaceEach(split.args, "%D", dropdir.value))
  }

  /* ---------- the argument vector ---------- */

  datatype Slot = NULL | Arg(s: string)

  /** A growing, NULL-terminated array of strings. */
  class ArgVector {
    var slots: array<Slot>
    var argc: nat

    ghost predicate Valid()
      reads this, slots
    {
      (slots.Length == 0 ==> argc == 0) && (slots.Length > 0 ==> argc < slots.Length && slots[argc] == NULL) &&
      forall i :: 0 <= i < argc ==> slots[i].Arg?
    }

    ghost function Contents(): (c: seq<string>)
      requires Valid()
      reads this, slots
      ensures |c| == argc
    {
      seq(argc, i requires 0 <= i < argc reads this, slots requires Valid() && argc <= slots.Length => slots[i].s)
    }

    constructor ()
      ensures Valid() && Contents() == [] && fresh(slots)
    {
      slots := new Slot[0];
      argc := 0;
    }

    /** argv_push: the array doubles when the value and its NULL would not fit. */
    method Push(value: string)
      requires Valid()
      modifies this, slots
      ensures Valid() && Contents() == old(Contents()) + [value]
      ensures argc < slots.Length && slots[argc] == NULL && slots[argc - 1] == Arg(value)
      ensures slots == old(slots) || fresh(slots)
      ensures slots.Length == if old(argc) + 2 <= old(slots.Length) then old(slots.Length)
                              else if old(slots.Length) == 0 then 8 else 2 * old(slots.Length)
    {
      if argc + 2 > slots.Length {
        var more := new Slot[if slots.Length == 0 then 8 else slots.Length * 2](_ => NULL);
        for i := 0 to argc
          invariant argc == old(argc) && slots == old(slots) && fresh(more) && argc + 2 <= more.Length
          invariant forall k :: 0 <= k < slots.Length ==> slots[k] == old(slots[k])
          invariant forall k :: 0 <= k < i ==> more[k] == slots[k]
        {
          more[i] := slots[i];
        }
        slots := more;
      }
      slots[argc] := Arg(value);
      argc := argc + 1;
      slots[argc] := NULL;
    }
  }
}
