/** What the template parsers promise: arguments written with quotes and
    backslashes come back, and markers never change how a command splits. */
module ProcessLaws {
  import opened CStrings
  import opened Bytes
  import opened Process
  import opened ProcessParse
  import opened Wrappers

  /* ---------- which commands are refused ---------- */

  /** How many backslashes stand right before `i`. */
  function BackslashesBefore(s: string, i: nat): nat
    requires i <= |s|
  {
    if i > 0 && s[i - 1] == '\\' then 1 + BackslashesBefore(s, i - 1) else 0
  }

  /** One of the operators `` ` ``, `;`, `<`, `>`, `|`, `$(` and `&&` stands at `i`, and
      the backslashes before it pair up. */
  predicate OperatorAt(s: string, i: nat)
    requires i < |s|
  {
    BackslashesBefore(s, i) % 2 == 0 &&
    (s[i] in {'`', ';', '<', '>', '|'} || (i + 1 < |s| && (s[i..i + 2] == "$(" || s[i..i + 2] == "&&")))
  }

  lemma {:induction false} MetaMeans(s: string, i: nat)
    requires i <= |s| && BackslashesBefore(s, i) % 2 == 0
    ensures MetaFrom(s, i) <==> exists k :: i <= k < |s| && OperatorAt(s, k)
    decreases |s| - i
  {
    hide OperatorAt;
    if i < |s| {
      var next := if Escapes(s, i) then i + 2 else i + 1;
      MetaMeansHere(s, i);
      if next < |s| {
        MetaMeans(s, next);
      }
      if exists k :: i <= k < |s| && OperatorAt(s, k) {
        var k :| i <= k < |s| && OperatorAt(s, k);
        assert MetaFrom(s, i);
      }
    }
  }

  lemma MetaMeansHere(s: string, i: nat)
    requires i < |s| && BackslashesBefore(s, i) % 2 == 0
    ensures Escapes(s, i) ==> !OperatorAt(s, i) && !OperatorAt(s, i + 1) && BackslashesBefore(s, i + 2) % 2 == 0
    ensures !Escapes(s, i) ==> MetaAt(s, i) == OperatorAt(s, i)
    ensures !Escapes(s, i) ==> BackslashesBefore(s, i + 1) % 2 == 0 || i + 1 == |s|
  {
  }

  /** A command that is not empty is refused by the filter if and only if an operator
      stands in it, whether inside quotes or outside, with an even run of backslashes,
      which may be none, right before it; a path or a directory makes no difference. */
  lemma RefusedIff(command: string, value: Option<string>)
    requires command != ""
    ensures var meta := exists i :: 0 <= i < |command| && OperatorAt(command, i);
            (Split(command) == Refused(ShellMeta) <==> meta) &&
            (WithFile(Split(command), value) == Refused(ShellMeta) <==> meta) &&
            (WithDropdir(Split(command), value) == Refused(ShellMeta) <==> meta)
  {
    hide OperatorAt, MetaFrom;
    MetaMeans(command, 0);
    NeverMeta(command, 0);
  }

  /** Splitting itself never gives this refusal. */
  lemma {:induction false} NeverMeta(s: string, i: nat)
    requires i <= |s|
    ensures SplitFrom(s, i) != Refused(ShellMeta)
    decreases |s| - i
  {
    hide TokenFrom;
    SplitUnfolds(s, i);
    var j := SkipSpaces(s, i);
    if j < |s| {
      var t := TokenFrom(s, j, Unquoted, TOKEN_CAP - 1);
      if t.Token? {
        NeverMeta(s, t.next);
      }
    }
  }

  /* ---------- how a command is split ---------- */

  /** A character as it is written: itself, or behind a backslash. */
  datatype Unit = Plain(c: char) | Slashed(c: char)

  /** Part of an argument: a character outside quotes, or a stretch between two marks. */
  datatype Piece = Bare(u: Unit) | Quoted(mark: char, us: seq<Unit>)

  /** An argument as it is written, with the blanks before it. */
  datatype Word = Word(blanks: string, pieces: seq<Piece>)

  function UnitText(u: Unit): string {
    if u.Plain? then [u.c] else ['\\', u.c]
  }

  function UnitsText(us: seq<Unit>): string {
    if us == [] then "" else UnitText(us[0]) + UnitsText(us[1..])
  }

  function Chars(us: seq<Unit>): (s: string)
    ensures |s| == |us|
  {
    if us == [] then "" else [us[0].c] + Chars(us[1..])
  }

  function PieceText(p: Piece): string {
    if p.Bare? then UnitText(p.u) else [p.mark] + (UnitsText(p.us) + [p.mark])
  }

  function PiecesText(ps: seq<Piece>): string {
    if ps == [] then "" else PieceText(ps[0]) + PiecesText(ps[1..])
  }

  function PieceMeaning(p: Piece): string {
    if p.Bare? then [p.u.c] else Chars(p.us)
  }

  /** The argument that is meant. */
  function Meaning(ps: seq<Piece>): string {
    if ps == [] then "" else PieceMeaning(ps[0]) + Meaning(ps[1..])
  }

  function Meanings(words: seq<Word>): seq<string> {
    if words == [] then [] else [Meaning(words[0].pieces)] + Meanings(words[1..])
  }

  /** The words, and `rest` behind them. */
  function CommandOf(words: seq<Word>, rest: string): string {
    if words == [] then rest else words[0].blanks + (PiecesText(words[0].pieces) + CommandOf(words[1..], rest))
  }

  predicate LegalUnits(us: seq<Unit>, mark: char) {
    forall k :: 0 <= k < |us| ==> us[k].Slashed? || (us[k].c != mark && us[k].c != '\\')
  }

  predicate LegalPiece(p: Piece) {
    match p
    case Bare(u) => u.Slashed? || (!IsSpace(u.c) && u.c != '\'' && u.c != '"' && u.c != '\\')
    case Quoted(mark, us) => (mark == '\'' || mark == '"') && LegalUnits(us, mark)
  }

  predicate LegalPieces(ps: seq<Piece>) {
    forall k :: 0 <= k < |ps| ==> LegalPiece(ps[k])
  }

  /** Each word has a piece, and blanks before it, but for the first one, which may do without. */
  predicate LegalWords(words: seq<Word>) {
    forall k :: 0 <= k < |words| ==>
      words[k].pieces != [] && LegalPieces(words[k].pieces) && AllSpaces(words[k].blanks) &&
      (k > 0 ==> words[k].blanks != "")
  }

  /** A word ends before it. */
  predicate EndsWord(rest: string) {
    rest == "" || IsSpace(rest[0])
  }

  lemma PrefixedNothing(t: Token)
    ensures Prefixed("", t) == t
  {
    if t.Token? {
      assert "" + t.text == t.text;
    }
  }

  lemma PrefixedTwice(a: string, b: string, t: Token)
    ensures Prefixed(a, Prefixed(b, t)) == Prefixed(a + b, t)
  {
    if t.Token? {
      Assoc(a, b, t.text);
    }
  }

  /** What is read of a token from `i` on is `text`, up to `e`. */
  predicate Reads(s: string, i: nat, quote: Quote, text: string, e: nat, to: Quote, room: nat)
    requires i <= |s| && e <= |s|
  {
    TokenFrom(s, i, quote, room) ==
    if |text| > room then TooLong else Prefixed(text, TokenFrom(s, e, to, room - |text|))
  }

  lemma ReadsNothing(s: string, i: nat, quote: Quote, room: nat)
    requires i <= |s|
    ensures Reads(s, i, quote, "", i, quote, room)
  {
    PrefixedNothing(TokenFrom(s, i, quote, room));
  }

  lemma ReadsOn(s: string, i: nat, q: Quote, a: string, j: nat, r: Quote, b: string, e: nat, to: Quote, room: nat)
    requires i <= |s| && j <= |s| && e <= |s| && Reads(s, i, q, a, j, r, room)
    requires |a| <= room ==> Reads(s, j, r, b, e, to, room - |a|)
    ensures Reads(s, i, q, a + b, e, to, room)
  {
    hide TokenFrom;
    if |a + b| <= room {
      PrefixedTwice(a, b, TokenFrom(s, e, to, room - |a + b|));
    }
  }

  predicate IsMark(c: char) {
    c == '\'' || c == '"'
  }

  lemma UnitReads(s: string, i: nat, u: Unit, quote: Quote, room: nat)
    requires At(s, i, UnitText(u)) && (quote.Within? ==> IsMark(quote.mark))
    requires u.Plain? ==> u.c != '\\' && if quote.Within? then u.c != quote.mark else !IsSpace(u.c) && !IsMark(u.c)
    ensures Reads(s, i, quote, [u.c], i + |UnitText(u)|, quote, room)
  {
    var n := |UnitText(u)|;
    assert s[i..i + n][n - 1] == UnitText(u)[n - 1] && s[i..i + n][0] == UnitText(u)[0];
  }

  lemma {:induction false} UnitsRead(s: string, i: nat, us: seq<Unit>, mark: char, room: nat)
    requires At(s, i, UnitsText(us)) && IsMark(mark) && LegalUnits(us, mark)
    ensures Reads(s, i, Within(mark), Chars(us), i + |UnitsText(us)|, Within(mark), room)
    decreases |us|
  {
    hide At, Reads, UnitText;
    var q := Within(mark);
    AtFits(s, i, UnitsText(us));
    if us == [] {
      ReadsNothing(s, i, q, room);
    } else {
      var j := i + |UnitText(us[0])|;
      AtSplit(s, i, UnitText(us[0]), UnitsText(us[1..]));
      UnitReads(s, i, us[0], q, room);
      if room > 0 {
        UnitsRead(s, j, us[1..], mark, room - 1);
      }
      ReadsOn(s, i, q, [us[0].c], j, q, Chars(us[1..]), i + |UnitsText(us)|, q, room);
    }
  }

  lemma MarkReads(s: string, i: nat, mark: char, quote: Quote, room: nat)
    requires i < |s| && s[i] == mark && IsMark(mark) && (quote.Unquoted? || quote == Within(mark))
    ensures Reads(s, i, quote, "", i + 1, if quote.Unquoted? then Within(mark) else Unquoted, room)
  {
    PrefixedNothing(TokenFrom(s, i + 1, if quote.Unquoted? then Within(mark) else Unquoted, room));
  }

  lemma QuotedReads(s: string, i: nat, mark: char, us: seq<Unit>, room: nat)
    requires At(s, i, [mark] + (UnitsText(us) + [mark])) && IsMark(mark) && LegalUnits(us, mark)
    ensures Reads(s, i, Unquoted, Chars(us), i + |UnitsText(us)| + 2, Unquoted, room)
  {
    hide At, Reads, UnitsText, IsMark, LegalUnits;
    var e := i + 1 + |UnitsText(us)|;
    AtHead(s, i, mark, UnitsText(us) + [mark]);
    AtSplit(s, i + 1, UnitsText(us), [mark]);
    AtHeadOf(s, e, [mark]);
    MarkReads(s, i, mark, Unquoted, room);
    UnitsRead(s, i + 1, us, mark, room);
    ReadsOn(s, i, Unquoted, "", i + 1, Within(mark), Chars(us), e, Within(mark), room);
    assert "" + Chars(us) == Chars(us) && Chars(us) + "" == Chars(us);
    if |us| <= room {
      MarkReads(s, e, mark, Within(mark), room - |us|);
    }
    ReadsOn(s, i, Unquoted, Chars(us), e, Within(mark), "", e + 1, Unquoted, room);
  }

  lemma PieceReads(s: string, i: nat, p: Piece, room: nat)
    requires At(s, i, PieceText(p)) && LegalPiece(p)
    ensures Reads(s, i, Unquoted, PieceMeaning(p), i + |PieceText(p)|, Unquoted, room)
  {
    hide Reads, At, UnitText, UnitsText, LegalUnits;
    if p.Bare? {
      UnitReads(s, i, p.u, Unquoted, room);
    } else {
      QuotedReads(s, i, p.mark, p.us, room);
    }
  }

  lemma {:induction false} PiecesRead(s: string, i: nat, ps: seq<Piece>, room: nat)
    requires At(s, i, PiecesText(ps)) && LegalPieces(ps)
    ensures Reads(s, i, Unquoted, Meaning(ps), i + |PiecesText(ps)|, Unquoted, room)
    decreases |ps|
  {
    hide At, Reads, PieceText, LegalPiece, PieceMeaning;
    AtFits(s, i, PiecesText(ps));
    if ps == [] {
      ReadsNothing(s, i, Unquoted, room);
    } else {
      var a, j := PieceMeaning(ps[0]), i + |PieceText(ps[0])|;
      AtSplit(s, i, PieceText(ps[0]), PiecesText(ps[1..]));
      PieceReads(s, i, ps[0], room);
      if |a| <= room {
        PiecesRead(s, j, ps[1..], room - |a|);
      }
      ReadsOn(s, i, Unquoted, a, j, Unquoted, Meaning(ps[1..]), i + |PiecesText(ps)|, Unquoted, room);
    }
  }

  /** The word at `i` is split off, or it is too long for its buffer. */
  lemma WordSplits(s: string, i: nat, w: Word, rest: string)
    requires At(s, i, w.blanks + (PiecesText(w.pieces) + rest))
    requires i + |w.blanks| + |PiecesText(w.pieces)| + |rest| == |s|
    requires w.pieces != [] && LegalPieces(w.pieces) && AllSpaces(w.blanks) && EndsWord(rest)
    ensures var e := i + |w.blanks| + |PiecesText(w.pieces)|;
            At(s, e, rest) &&
            SplitFrom(s, i) ==
            if |Meaning(w.pieces)| < 1024 then Cons(Meaning(w.pieces), SplitFrom(s, e)) else Refused(ArgumentTooLong)
  {
    hide PiecesText, LegalPieces, Meaning, SplitFrom, TokenFrom, AllSpaces;
    var j, e := i + |w.blanks|, i + |w.blanks| + |PiecesText(w.pieces)|;
    AtSplit(s, i, w.blanks, PiecesText(w.pieces) + rest);
    AtSplit(s, j, PiecesText(w.pieces), rest);
    PieceBegins(s, j, w.pieces);
    SkipsExactly(s, i, w.blanks);
    PiecesRead(s, j, w.pieces, 1023);
    SplitUnfolds(s, i);
    TokenIs(s, j, Meaning(w.pieces), e, rest);
  }

  lemma TokenIs(s: string, j: nat, text: string, e: nat, rest: string)
    requires j <= |s| && At(s, e, rest) && e + |rest| == |s| && EndsWord(rest)
    requires Reads(s, j, Unquoted, text, e, Unquoted, 1023)
    ensures TokenFrom(s, j, Unquoted, 1023) == if |text| < 1024 then Token(text, e) else TooLong
  {
    hide TokenFrom, At, EndsWord;
    if |text| < 1024 {
      WordEnds(s, e, rest, 1023 - |text|);
      assert text + "" == text;
    }
  }

  lemma WordEnds(s: string, e: nat, rest: string, room: nat)
    requires At(s, e, rest) && e + |rest| == |s| && EndsWord(rest)
    ensures TokenFrom(s, e, Unquoted, room) == Token("", e)
  {
    if rest != "" {
      AtHeadOf(s, e, rest);
    }
  }

  lemma PieceBegins(s: string, i: nat, ps: seq<Piece>)
    requires At(s, i, PiecesText(ps)) && ps != [] && LegalPieces(ps)
    ensures i < |s| && !IsSpace(s[i])
  {
    AtSplit(s, i, PieceText(ps[0]), PiecesText(ps[1..]));
    AtHeadOf(s, i, PieceText(ps[0]));
    assert LegalPiece(ps[0]);
  }

  predicate AllShort(args: seq<string>) {
    forall i :: 0 <= i < |args| ==> |args[i]| < 1024
  }

  lemma RestEndsWord(words: seq<Word>, rest: string)
    requires LegalWords(words) && words != [] && EndsWord(rest)
    ensures LegalWords(words[1..]) && EndsWord(CommandOf(words[1..], rest))
  {
    if |words| > 1 {
      assert AllSpaces(words[1].blanks) && words[1].blanks != "";
      assert words[1..][0] == words[1];
    }
  }

  /** Any words, with any blanks before them, are split into what they mean, and the
      rest is split behind them; if one of them is too long the command is refused. */
  lemma {:induction false} WordsSplit(s: string, i: nat, words: seq<Word>, rest: string)
    requires At(s, i, CommandOf(words, rest)) && i + |CommandOf(words, rest)| == |s|
    requires LegalWords(words) && EndsWord(rest)
    ensures |rest| <= |s| && At(s, |s| - |rest|, rest)
    ensures SplitFrom(s, i) ==
            if AllShort(Meanings(words)) then After(Meanings(words), SplitFrom(s, |s| - |rest|))
            else Refused(ArgumentTooLong)
    decreases |words|
  {
    hide At, SplitFrom, PiecesText, Meaning, LegalPieces, EndsWord;
    if words == [] {
      NothingBefore(SplitFrom(s, i));
    } else {
      var w, more := words[0], CommandOf(words[1..], rest);
      RestEndsWord(words, rest);
      WordSplits(s, i, w, more);
      WordsSplit(s, i + |w.blanks| + |PiecesText(w.pieces)|, words[1..], rest);
      MeaningsBehind(Meaning(w.pieces), Meanings(words[1..]), SplitFrom(s, |s| - |rest|));
    }
  }

  lemma NothingBefore(split: Argv)
    ensures After([], split) == split && AllShort([])
  {
    if split.Args? {
      assert [] + split.args == split.args;
    }
  }

  lemma MeaningsBehind(arg: string, args: seq<string>, split: Argv)
    ensures AllShort([arg] + args) == (|arg| < 1024 && AllShort(args))
    ensures After([arg] + args, split) == Cons(arg, After(args, split))
  {
    assert AllShort([arg] + args) ==> forall k :: 0 <= k < |args| ==> args[k] == ([arg] + args)[k + 1];
    assert AllShort([arg] + args) ==> ([arg] + args)[0] == arg;
    if split.Args? {
      assert [arg] + args + split.args == [arg] + (args + split.args);
    }
  }

  /** Words in any mixture of bare characters, quotes of both kinds and backslashes are
      split into the arguments they mean if and only if each has at most 1023 characters. */
  lemma CommandSplitsIff(words: seq<Word>, tail: string)
    requires LegalWords(words) && AllSpaces(tail)
    ensures SplitFrom(CommandOf(words, tail), 0) ==
            if AllShort(Meanings(words)) then Args(Meanings(words)) else Refused(ArgumentTooLong)
  {
    hide SplitFrom, CommandOf, Meanings, LegalWords;
    var s := CommandOf(words, tail);
    AtWhole(s);
    WordsSplit(s, 0, words, tail);
    BlanksSplit(s, |s| - |tail|, tail);
    AfterAll(Meanings(words));
  }

  lemma BlanksSplit(s: string, i: nat, tail: string)
    requires At(s, i, tail) && i + |tail| == |s| && AllSpaces(tail)
    ensures SplitFrom(s, i) == Args([])
  {
    SkipsExactly(s, i, tail);
  }

  /** Quotes that are not closed refuse the command, unless something before is too long. */
  lemma OpenQuoteRefuses(words: seq<Word>, blanks: string, ps: seq<Piece>, mark: char, us: seq<Unit>)
    requires LegalWords(words) && AllShort(Meanings(words)) && AllSpaces(blanks) && blanks != ""
    requires LegalPieces(ps) && IsMark(mark) && LegalUnits(us, mark) && |Meaning(ps)| + |us| < 1024
    ensures SplitFrom(CommandOf(words, blanks + (PiecesText(ps) + ([mark] + UnitsText(us)))), 0) ==
            Refused(UnterminatedQuote)
  {
    hide SplitFrom, CommandOf, Meanings, LegalWords, LegalPieces, PiecesText, UnitsText, LegalUnits, Meaning, IsMark,
      AllSpaces, AllShort;
    var open := PiecesText(ps) + ([mark] + UnitsText(us));
    var s := CommandOf(words, blanks + open);
    AtWhole(s);
    BlanksEndWord(blanks, open);
    WordsSplit(s, 0, words, blanks + open);
    var i := |s| - |blanks + open|;
    OpenSplits(s, i, blanks, ps, mark, us);
    AfterRefusal(Meanings(words), UnterminatedQuote);
  }

  lemma BlanksEndWord(blanks: string, open: string)
    requires AllSpaces(blanks) && blanks != ""
    ensures EndsWord(blanks + open)
  {
    assert (blanks + open)[0] == blanks[0];
  }

  lemma OpenSplits(s: string, i: nat, blanks: string, ps: seq<Piece>, mark: char, us: seq<Unit>)
    requires At(s, i, blanks + (PiecesText(ps) + ([mark] + UnitsText(us))))
    requires i + |blanks| + |PiecesText(ps)| + 1 + |UnitsText(us)| == |s|
    requires AllSpaces(blanks) && LegalPieces(ps) && IsMark(mark) && LegalUnits(us, mark) && |Meaning(ps)| + |us| < 1024
    ensures SplitFrom(s, i) == Refused(UnterminatedQuote)
  {
    hide At, Reads, TokenFrom, PiecesText, LegalPieces, Meaning, UnitsText, LegalUnits, AllSpaces, SplitFrom;
    var j := i + |blanks|;
    var m := j + |PiecesText(ps)|;
    var room := 1023 - |Meaning(ps)|;
    AtSplit(s, i, blanks, PiecesText(ps) + ([mark] + UnitsText(us)));
    AtSplit(s, j, PiecesText(ps), [mark] + UnitsText(us));
    AtHead(s, m, mark, UnitsText(us));
    if ps == [] {
      NoPieces();
    } else {
      PieceBegins(s, j, ps);
    }
    MarkIsNoSpace(mark);
    SkipsExactly(s, i, blanks);
    PiecesRead(s, j, ps, 1023);
    MarkReads(s, m, mark, Unquoted, room);
    UnitsRead(s, m + 1, us, mark, room);
    NeverClosed(s, j, Meaning(ps), m, Chars(us), mark, room);
    SplitUnfolds(s, i);
  }

  lemma NoPieces()
    ensures PiecesText([]) == "" && Meaning([]) == ""
  {
  }

  lemma MarkIsNoSpace(mark: char)
    requires IsMark(mark)
    ensures !IsSpace(mark)
  {
  }

  lemma NeverClosed(s: string, j: nat, a: string, m: nat, b: string, mark: char, room: nat)
    requires j <= m < |s| && |a| + room == 1023 && |b| <= room
    requires Reads(s, j, Unquoted, a, m, Unquoted, 1023) && Reads(s, m, Unquoted, "", m + 1, Within(mark), room)
    requires Reads(s, m + 1, Within(mark), b, |s|, Within(mark), room)
    ensures TokenFrom(s, j, Unquoted, 1023) == Unclosed
  {
    assert TokenFrom(s, |s|, Within(mark), room - |b|) == Unclosed;
  }

  /** A backslash that ends the command stands for itself. */
  lemma LastBackslash(s: string, room: nat)
    requires s != "" && s[|s| - 1] == '\\' && room > 0
    ensures TokenFrom(s, |s| - 1, Unquoted, room) == Token("\\", |s|)
  {
    assert TokenFrom(s, |s|, Unquoted, room - 1) == Token("", |s|);
  }

  /* ---------- writing arguments into a command ---------- */

  /** Characters that a backslash must protect even within double quotes. */
  predicate Special(c: char) {
    c in {'\\', '"', '`', ';', '<', '>', '|', '$', '&'}
  }

  function Escaped(arg: string): seq<Unit> {
    if arg == "" then [] else [if Special(arg[0]) then Slashed(arg[0]) else Plain(arg[0])] + Escaped(arg[1..])
  }

  /** Each argument in double quotes, behind a blank. */
  function Written(args: seq<string>): seq<Word> {
    if args == [] then [] else [Word(" ", [Quoted('"', Escaped(args[0]))])] + Written(args[1..])
  }

  function CommandLine(args: seq<string>): string {
    CommandOf(Written(args), "")
  }

  lemma {:induction false} EscapedMeans(arg: string)
    ensures Chars(Escaped(arg)) == arg && LegalUnits(Escaped(arg), '"')
  {
    hide Special;
    if arg != "" {
      EscapedMeans(arg[1..]);
      assert [arg[0]] + arg[1..] == arg;
      SpecialMarks();
      var us := Escaped(arg);
      assert forall k :: 0 < k < |us| ==> us[k] == us[1..][k - 1];
    }
  }

  lemma SpecialMarks()
    ensures Special('"') && Special('\\') && !Special(' ')
  {
  }

  lemma {:induction false} WrittenMeans(args: seq<string>)
    ensures Meanings(Written(args)) == args && LegalWords(Written(args))
  {
    hide Escaped, LegalUnits;
    if args != [] {
      WrittenMeans(args[1..]);
      QuotedMeans(args[0]);
      assert [args[0]] + args[1..] == args;
      WordBefore(Word(" ", [Quoted('"', Escaped(args[0]))]), Written(args[1..]));
    }
  }

  lemma QuotedMeans(arg: string)
    ensures var p := Quoted('"', Escaped(arg)); Meaning([p]) == arg && LegalPieces([p])
  {
    EscapedMeans(arg);
    assert arg + "" == arg;
  }

  lemma WordBefore(w: Word, words: seq<Word>)
    requires w.blanks == " " && w.pieces != [] && LegalPieces(w.pieces) && LegalWords(words)
    requires words != [] ==> words[0].blanks != ""
    ensures LegalWords([w] + words) && Meanings([w] + words) == [Meaning(w.pieces)] + Meanings(words)
  {
    hide LegalPieces, Meaning;
    assert ([w] + words)[1..] == words;
  }

  lemma {:induction false} EscapedPasses(s: string, i: nat, arg: string)
    requires At(s, i, UnitsText(Escaped(arg)))
    ensures MetaFrom(s, i) == MetaFrom(s, i + |UnitsText(Escaped(arg))|)
    decreases |arg|
  {
    hide At, UnitText, MetaFrom;
    if arg != "" {
      var us := Escaped(arg);
      assert us[1..] == Escaped(arg[1..]);
      AtSplit(s, i, UnitText(us[0]), UnitsText(us[1..]));
      UnitPasses(s, i, us[0]);
      EscapedPasses(s, i + |UnitText(us[0])|, arg[1..]);
    }
  }

  lemma UnitPasses(s: string, i: nat, u: Unit)
    requires At(s, i, UnitText(u)) && u.Plain? == !Special(u.c)
    ensures MetaFrom(s, i) == MetaFrom(s, i + |UnitText(u)|)
  {
    var n := |UnitText(u)|;
    assert s[i..i + n][n - 1] == UnitText(u)[n - 1] && s[i..i + n][0] == UnitText(u)[0];
  }

  lemma {:induction false} CommandPasses(s: string, i: nat, args: seq<string>)
    requires At(s, i, CommandLine(args)) && i + |CommandLine(args)| == |s|
    ensures !MetaFrom(s, i)
    decreases |args|
  {
    hide At, Escaped, UnitsText, MetaFrom, CommandLine;
    if args == [] {
      NothingPasses(s, i);
    } else {
      LineParts(args);
      LinePasses(s, i, args[0], CommandLine(args[1..]));
      CommandPasses(s, i + 3 + |UnitsText(Escaped(args[0]))|, args[1..]);
    }
  }

  lemma NothingPasses(s: string, i: nat)
    requires i + |CommandLine([])| == |s|
    ensures !MetaFrom(s, i)
  {
  }

  lemma LinePasses(s: string, i: nat, arg: string, rest: string)
    requires At(s, i, [' '] + (['"'] + (UnitsText(Escaped(arg)) + ['"']) + rest))
    ensures var e := i + 3 + |UnitsText(Escaped(arg))|;
            At(s, e, rest) && e <= |s| && MetaFrom(s, i) == MetaFrom(s, e)
  {
    hide At, Escaped, UnitsText, MetaFrom;
    var t := UnitsText(Escaped(arg));
    LineStands(s, i, t, rest);
    AtFits(s, i + 3 + |t|, rest);
    PlainPasses(s, i, ' ');
    PlainPasses(s, i + 1, '"');
    EscapedPasses(s, i + 2, arg);
    PlainPasses(s, i + 2 + |t|, '"');
  }

  lemma LineStands(s: string, i: nat, t: string, rest: string)
    requires At(s, i, [' '] + (['"'] + (t + ['"']) + rest))
    ensures At(s, i, [' ']) && At(s, i + 1, ['"']) && At(s, i + 2, t) && At(s, i + 2 + |t|, ['"'])
    ensures At(s, i + 3 + |t|, rest)
  {
    hide At;
    var quoted := ['"'] + (t + ['"']);
    AtSplit(s, i, [' '], quoted + rest);
    AtSplit(s, i + 1, quoted, rest);
    AtSplit(s, i + 1, ['"'], t + ['"']);
    AtSplit(s, i + 2, t, ['"']);
  }

  lemma LineParts(args: seq<string>)
    requires args != []
    ensures CommandLine(args) == [' '] + (['"'] + (UnitsText(Escaped(args[0])) + ['"']) + CommandLine(args[1..]))
  {
    hide Escaped, UnitsText;
    assert Written(args)[1..] == Written(args[1..]);
    OnePiece(Quoted('"', Escaped(args[0])));
  }

  lemma OnePiece(p: Piece)
    ensures PiecesText([p]) == PieceText(p)
  {
    assert PiecesText([p][1..]) == "";
    assert PieceText(p) + "" == PieceText(p);
  }

  lemma PlainPasses(s: string, i: nat, c: char)
    requires At(s, i, [c]) && (c == ' ' || c == '"')
    ensures i < |s| && MetaFrom(s, i) == MetaFrom(s, i + 1)
  {
    AtHeadOf(s, i, [c]);
  }

  /** Any list of arguments, quoted and escaped into one command, passes the filter and
      comes back if and only if each has at most 1023 characters; otherwise the whole
      command is refused. */
  lemma CommandComesBackIff(args: seq<string>)
    requires args != []
    ensures Split(CommandLine(args)) == if AllShort(args) then Args(args) else Refused(ArgumentTooLong)
    ensures AllShort(args) ==> WithFile(Split(CommandLine(args)), None) == Args(args)
    ensures AllShort(args) ==> WithDropdir(Split(CommandLine(args)), None) == Args(args)
  {
    hide AllShort, At, SplitFrom, MetaFrom, Written;
    var s := CommandLine(args);
    AtWhole(s);
    WrittenMeans(args);
    CommandSplitsIff(Written(args), "");
    CommandPasses(s, 0, args);
    LineParts(args);
  }

  /* ---------- substitution commutes with splitting ---------- */

  predicate Has(token: string, marker: string) {
    exists i {:trigger At(token, i, marker)} :: 0 <= i <= |token| && At(token, i, marker)
  }

  predicate FirstAt(token: string, marker: string, k: nat) {
    At(token, k, marker) && forall j :: 0 <= j < k ==> !At(token, j, marker)
  }

  /** `to` is `from` with the value in the place of its first marker, and unchanged if it
      has no marker. */
  predicate Substituted(from: string, to: string, marker: string, value: string) {
    if Has(from, marker) then
      exists k :: 0 <= k <= |from| && FirstAt(from, marker, k) && to == from[..k] + value + from[k + |marker|..]
    else to == from
  }

  lemma HasIff(token: string, marker: string)
    ensures Contains(token, marker) <==> Has(token, marker)
  {
    var j := Find(token, marker, 0);
    assert j <= |token| ==> At(token, j, marker);
  }

  lemma ReplacesFirst(token: string, marker: string, value: string)
    ensures Substituted(token, ReplaceFirst(token, marker, value), marker, value)
  {
    HasIff(token, marker);
    var j := Find(token, marker, 0);
    if j <= |token| {
      assert FirstAt(token, marker, j);
    }
  }

  predicate AnyMarked(args: seq<string>, marker: string) {
    exists k :: 0 <= k < |args| && Has(args[k], marker)
  }

  lemma {:induction false} AnyHasIff(args: seq<string>, marker: string)
    ensures AnyHas(args, marker) <==> AnyMarked(args, marker)
    decreases |args|
  {
    hide Has, Contains;
    if args != [] {
      var n := |args| - 1;
      AnyHasIff(args[..n], marker);
      HasIff(args[n], marker);
      assert forall k :: 0 <= k < n ==> args[..n][k] == args[k];
    }
  }

  lemma {:induction false} EachSubstituted(args: seq<string>, marker: string, value: string, k: nat)
    requires k < |args|
    ensures Substituted(args[k], ReplaceEach(args, marker, value)[k], marker, value)
    decreases |args|
  {
    hide Substituted, ReplaceFirst;
    if k < |args| - 1 {
      EachSubstituted(args[..|args| - 1], marker, value, k);
    } else {
      ReplacesFirst(args[k], marker, value);
    }
  }

  /** Whenever the command splits on its own, with a path it splits into the same
      arguments, each with the path in the place of its first %f, and the path as one
      more argument exactly when no argument had a marker. */
  lemma FileSubstitution(command: string, path: string)
    requires WithFile(Split(command), None).Args?
    ensures var plain, r := WithFile(Split(command), None).args, WithFile(Split(command), Some(path));
            r.Args? && |r.args| == |plain| + (if AnyMarked(plain, "%f") then 0 else 1) &&
            (forall k :: 0 <= k < |plain| ==> Substituted(plain[k], r.args[k], "%f", path)) &&
            (!AnyMarked(plain, "%f") ==> r.args[|plain|] == path)
  {
    var plain := Split(command).args;
    AnyHasIff(plain, "%f");
    hide Split, Substituted, AnyMarked;
    forall k | 0 <= k < |plain| ensures Substituted(plain[k], ReplaceEach(plain, "%f", path)[k], "%f", path) {
      EachSubstituted(plain, "%f", path, k);
    }
  }

  /** The door form puts the directory in the place of %D in the same way and never appends. */
  lemma DropdirSubstitution(command: string, dir: string)
    requires WithDropdir(Split(command), None).Args?
    ensures var plain, r := WithDropdir(Split(command), None).args, WithDropdir(Split(command), Some(dir));
            r.Args? && |r.args| == |plain| &&
            forall k :: 0 <= k < |plain| ==> Substituted(plain[k], r.args[k], "%D", dir)
  {
    var plain := Split(command).args;
    hide Split, Substituted;
    forall k | 0 <= k < |plain| ensures Substituted(plain[k], ReplaceEach(plain, "%D", dir)[k], "%D", dir) {
      EachSubstituted(plain, "%D", dir, k);
    }
  }

  /** With a path a command of blanks is the path alone; otherwise a path makes no
      difference to whether the command is accepted.  No command at all is refused. */
  lemma AcceptedWithPath(command: string, path: string)
    ensures Split("") == WithFile(Split(""), Some(path)) == Refused(EmptyCommand)
    ensures Split(command) == Args([]) ==> WithFile(Split(command), None) == Refused(EmptyCommand)
    ensures WithFile(Split(command), Some(path)).Args? <==> Split(command).Args?
    ensures WithFile(Split(command), None).Args? <==> Split(command).Args? && Split(command).args != []
    ensures Split(command) == Args([]) ==> WithFile(Split(command), Some(path)) == Args([path])
  {
    if Split(command).Args? && AnyHas(Split(command).args, "%f") {
      assert |ReplaceEach(Split(command).args, "%f", path)| > 0;
    }
  }
}
