/** What acs_check tests of a written expression, and how it compares with the
    parser that is right about it. */
module AcsCompare {
  import opened CStrings
  import opened Acs
  import opened AcsFlat
  import opened AcsGrammar

  /* ---------- what is tested of any written expression ---------- */

  /** The words that the flat scan meets, and whether it ends at a parenthesis. */
  datatype Seen = Seen(words: seq<string>, closed: bool)

  /** A stretch without delimiters, tested 63 characters at a time. */
  predicate WordPasses(w: string, u: User) {
    w == "" ||
    var n := if |w| < TOKEN_MAX then |w| else TOKEN_MAX;
    Passes(Upper(w[..n]), u) && WordPasses(w[n..], u)
  }

  predicate AllPass(words: seq<string>, u: User) {
    words == [] || (WordPasses(words[0], u) && AllPass(words[1..], u))
  }

  function Before(word: string, seen: Seen): Seen {
    Seen([word] + seen.words, seen.closed)
  }

  /** What is tested of `d` when `glue` stands right before it: `!` and `(` become part
      of the word behind them unless a blank parts them, and the first `)` ends the scan. */
  function Tested(d: Doc, glue: string): Seen {
    match d
    case Name(ws, raw) => if ws == "" then Seen([glue + raw], false) else Seen([glue, raw], false)
    case Bang(ws, x) => if ws == "" then Tested(x, glue + ['!']) else Before(glue, Tested(x, ['!']))
    case Group(ws, x, _) =>
      if ws == "" then Tested(x, glue + ['(']).(closed := true)
      else Before(glue, Tested(x, ['('])).(closed := true)
    case Amp(l, _, r) => Both(Tested(l, glue), Tested(r, ""))
    case Bar(l, _, r) => Both(Tested(l, glue), Tested(r, ""))
  }

  function Both(a: Seen, b: Seen): Seen {
    if a.closed then a else Seen(a.words + b.words, b.closed)
  }

  lemma {:induction false} AllPassAdds(a: seq<string>, b: seq<string>, u: User)
    ensures AllPass(a + b, u) == (AllPass(a, u) && AllPass(b, u))
  {
    hide WordPasses;
    if a == [] {
      assert a + b == b;
    } else {
      assert (a + b)[1..] == a[1..] + b;
      AllPassAdds(a[1..], b, u);
    }
  }

  predicate NoDelimiters(w: string) {
    forall k :: 0 <= k < |w| ==> !EndsAtom(w[k])
  }

  /** Separators before `j` are all skipped. */
  lemma {:induction false} SkipsSeparators(s: string, i: nat, j: nat)
    requires i <= j <= |s| && forall k :: i <= k < j ==> Separates(s[k])
    ensures SkipSeparators(s, i) == SkipSeparators(s, j)
    decreases j - i
  {
    if i < j {
      SkipsSeparators(s, i + 1, j);
    }
  }

  lemma {:induction false} FlatEndExactly(s: string, i: nat, raw: string, room: nat)
    requires At(s, i, raw) && Delimited(s, i + |raw|) && |raw| <= room
    requires forall k :: 0 <= k < |raw| ==> !EndsAtom(raw[k])
    ensures FlatEnd(s, i, room) == i + |raw|
    decreases |raw|
  {
    if raw != "" {
      assert raw == raw[..1] + raw[1..];
      AtSplit(s, i, raw[..1], raw[1..]);
      assert s[i] == s[i..i + |raw|][0] == raw[0];
      FlatEndExactly(s, i + 1, raw[1..], room - 1);
    }
  }

  /** A word of any length, up to a delimiter, is tested as a whole. */
  lemma {:induction false} WordTested(s: string, i: nat, w: string, u: User)
    requires At(s, i, w) && NoDelimiters(w) && Delimited(s, i + |w|)
    ensures FlatFrom(s, i, u) == (WordPasses(w, u) && FlatFrom(s, i + |w|, u))
    decreases |w|
  {
    hide Passes, Upper, At, Delimited;
    if w != "" {
      var n := if |w| < TOKEN_MAX then |w| else TOKEN_MAX;
      assert w == w[..n] + w[n..];
      AtSplit(s, i, w[..n], w[n..]);
      WordBegins(s, i, w, n);
      WordTested(s, i + n, w[n..], u);
    }
  }

  lemma WordBegins(s: string, i: nat, w: string, n: nat)
    requires At(s, i, w) && w != "" && NoDelimiters(w) && Delimited(s, i + |w|)
    requires n == if |w| < TOKEN_MAX then |w| else TOKEN_MAX
    ensures SkipSeparators(s, i) == i && FlatEnd(s, i, TOKEN_MAX) == i + n && s[i..i + n] == w[..n]
  {
    AtHeadOf(s, i, w);
    assert w == w[..n] + w[n..];
    AtSplit(s, i, w[..n], w[n..]);
    if n == |w| {
      FlatEndExactly(s, i, w, TOKEN_MAX);
    } else {
      FlatEndFull(s, i, w[..n]);
    }
  }

  lemma {:induction false} FlatEndFull(s: string, i: nat, w: string)
    requires At(s, i, w) && NoDelimiters(w)
    ensures FlatEnd(s, i, |w|) == i + |w|
    decreases |w|
  {
    if w != "" {
      AtHead(s, i, w[0], w[1..]);
      assert w == [w[0]] + w[1..];
      FlatEndFull(s, i + 1, w[1..]);
    }
  }

  lemma SpacesTested(s: string, i: nat, ws: string, u: User)
    requires At(s, i, ws) && AllSpaces(ws)
    ensures FlatFrom(s, i, u) == FlatFrom(s, i + |ws|, u)
  {
    SpacesStand(s, i, ws);
    hide At, AllSpaces, Passes, Upper, FlatEnd, Separates;
    SkipsSeparators(s, i, i + |ws|);
  }

  lemma SpacesStand(s: string, i: nat, ws: string)
    requires At(s, i, ws) && AllSpaces(ws)
    ensures i + |ws| <= |s| && forall k :: i <= k < i + |ws| ==> Separates(s[k])
  {
    forall k | i <= k < i + |ws| ensures Separates(s[k]) {
      assert s[k] == s[i..i + |ws|][k - i] == ws[k - i];
    }
  }

  lemma OperatorSeparates(s: string, i: nat, j: nat, c: char, u: User)
    requires OperatorAt(s, i, c, j) && (c == '&' || c == '|')
    ensures FlatFrom(s, i, u) == FlatFrom(s, j, u)
  {
    SpacesBefore(s, i);
    SkipsSeparators(s, i, j);
  }

  lemma {:induction false} SpacesBefore(s: string, i: nat)
    requires i <= |s|
    ensures forall k :: i <= k < SkipSpaces(s, i) ==> IsSpace(s[k])
    decreases |s| - i
  {
    if i < |s| && IsSpace(s[i]) {
      SpacesBefore(s, i + 1);
    }
  }

  /** A word that blanks end. */
  lemma BlanksEnd(s: string, i: nat, w: string, ws: string, u: User)
    requires At(s, i, w) && NoDelimiters(w) && At(s, i + |w|, ws) && AllSpaces(ws) && ws != ""
    ensures FlatFrom(s, i, u) == (WordPasses(w, u) && FlatFrom(s, i + |w| + |ws|, u))
  {
    hide FlatFrom, WordPasses, At;
    AtHeadOf(s, i + |w|, ws);
    WordTested(s, i, w, u);
    SpacesTested(s, i + |w|, ws, u);
  }

  lemma NameTested(s: string, i: nat, glue: string, d: Doc, u: User)
    requires d.Name? && WellFormed(d) && NoDelimiters(glue) && At(s, i, glue) && At(s, i + |glue|, Text(d))
    requires Delimited(s, i + |glue| + |Text(d)|)
    ensures FlatFrom(s, i, u) == (AllPass(Tested(d, glue).words, u) && FlatFrom(s, i + |glue| + |Text(d)|, u))
  {
    hide FlatFrom, AllPass, At, Delimited, AllSpaces;
    AtSplit(s, i + |glue|, d.ws, d.raw);
    if d.ws == "" {
      GluedTested(s, i, glue, d.raw, u);
    } else {
      PartedTested(s, i, glue, d.ws, d.raw, u);
    }
  }

  lemma GluedTested(s: string, i: nat, glue: string, raw: string, u: User)
    requires NoDelimiters(glue) && NoDelimiters(raw) && At(s, i, glue) && At(s, i + |glue|, raw)
    requires Delimited(s, i + |glue| + |raw|)
    ensures FlatFrom(s, i, u) == (AllPass([glue + raw], u) && FlatFrom(s, i + |glue| + |raw|, u))
  {
    hide FlatFrom, WordPasses, At, Delimited, AllPass;
    AtJoin(s, i, glue, raw);
    WordTested(s, i, glue + raw, u);
    OneWord(glue + raw, u);
  }

  lemma PartedTested(s: string, i: nat, glue: string, ws: string, raw: string, u: User)
    requires NoDelimiters(glue) && NoDelimiters(raw) && ws != "" && AllSpaces(ws)
    requires At(s, i, glue) && At(s, i + |glue|, ws) && At(s, i + |glue| + |ws|, raw)
    requires Delimited(s, i + |glue| + |ws| + |raw|)
    ensures FlatFrom(s, i, u) == (AllPass([glue, raw], u) && FlatFrom(s, i + |glue| + |ws| + |raw|, u))
  {
    hide FlatFrom, WordPasses, At, Delimited, AllSpaces, AllPass, NoDelimiters;
    BlanksEnd(s, i, glue, ws, u);
    WordTested(s, i + |glue| + |ws|, raw, u);
    OneWord(raw, u);
    assert [glue, raw] == [glue] + [raw];
    FirstWord(glue, [raw], u);
  }

  lemma OneWord(w: string, u: User)
    ensures AllPass([w], u) == WordPasses(w, u)
  {
    hide WordPasses;
    assert [w][1..] == [];
  }

  lemma FirstWord(w: string, rest: seq<string>, u: User)
    ensures AllPass([w] + rest, u) == (WordPasses(w, u) && AllPass(rest, u))
  {
    hide WordPasses;
    assert ([w] + rest)[1..] == rest;
  }

  /** The character `c`, before a term: part of the glue, or the start of a new word. */
  lemma LeadIn(s: string, i: nat, glue: string, ws: string, c: char, u: User)
    requires NoDelimiters(glue) && At(s, i, glue) && At(s, i + |glue|, ws + [c]) && AllSpaces(ws) && !EndsAtom(c)
    ensures ws == "" ==> At(s, i, glue + [c]) && NoDelimiters(glue + [c])
    ensures ws != "" ==> At(s, i + |glue| + |ws|, [c]) && NoDelimiters([c])
    ensures ws != "" ==> FlatFrom(s, i, u) == (WordPasses(glue, u) && FlatFrom(s, i + |glue| + |ws|, u))
  {
    hide At, AllSpaces, FlatFrom, WordPasses;
    AtSplit(s, i + |glue|, ws, [c]);
    if ws == "" {
      AtJoin(s, i, glue, [c]);
    } else {
      BlanksEnd(s, i, glue, ws, u);
    }
  }

  /** The first `)` ends the scan with success. */
  lemma CloseEnds(s: string, e: nat, close: string, u: User)
    requires OperatorAt(s, e, ')', e + |close| + 1)
    ensures FlatFrom(s, e, u)
  {
    SpacesBefore(s, e);
    SkipsSeparators(s, e, e + |close|);
  }

  lemma ParenthesisDelimits(s: string, e: nat, right: nat)
    requires OperatorAt(s, e, ')', right)
    ensures Delimited(s, e)
  {
  }

  /** acs_check is true of a written expression exactly if every word it tests passes
      and, unless a parenthesis has ended the scan, what follows passes too. */
  lemma {:induction false} FlatTests(s: string, i: nat, glue: string, d: Doc, u: User)
    requires WellFormed(d) && NoDelimiters(glue) && At(s, i, glue) && At(s, i + |glue|, Text(d))
    requires Delimited(s, i + |glue| + |Text(d)|)
    ensures FlatFrom(s, i, u) ==
            (AllPass(Tested(d, glue).words, u) && (Tested(d, glue).closed || FlatFrom(s, i + |glue| + |Text(d)|, u)))
    decreases d
  {
    hide FlatFrom, WordPasses, AllPass, At, Delimited, AllSpaces, OperatorAt, LegalAtom, NoDelimiters;
    var p := i + |glue|;
    match d
    case Name(_, _) =>
      NameTested(s, i, glue, d, u);
    case Bang(ws, x) =>
      AtSplit(s, p, ws + ['!'], Text(x));
      LeadIn(s, i, glue, ws, '!', u);
      FlatTests(s, if ws == "" then i else p + |ws|, if ws == "" then glue + ['!'] else ['!'], x, u);
      FirstWord(glue, Tested(x, ['!']).words, u);
    case Group(ws, x, close) =>
      GroupStands(s, p, ws, Text(x), close);
      AtSplit(s, p, ws + ['('], Text(x) + (close + [')']));
      var e := p + |ws| + 1 + |Text(x)|;
      ParenthesisDelimits(s, e, e + |close| + 1);
      CloseEnds(s, e, close, u);
      LeadIn(s, i, glue, ws, '(', u);
      FlatTests(s, if ws == "" then i else p + |ws|, if ws == "" then glue + ['('] else ['('], x, u);
      FirstWord(glue, Tested(x, ['(']).words, u);
    case Amp(l, ws, r) =>
      SidesTested(s, i, glue, d, u);
    case Bar(l, ws, r) =>
      SidesTested(s, i, glue, d, u);
  }

  lemma {:induction false} SidesTested(s: string, i: nat, glue: string, d: Doc, u: User)
    requires (d.Amp? || d.Bar?) && WellFormed(d) && NoDelimiters(glue) && At(s, i, glue) && At(s, i + |glue|, Text(d))
    requires Delimited(s, i + |glue| + |Text(d)|)
    ensures FlatFrom(s, i, u) ==
            (AllPass(Tested(d, glue).words, u) && (Tested(d, glue).closed || FlatFrom(s, i + |glue| + |Text(d)|, u)))
    decreases d, 0
  {
    hide FlatFrom, WordPasses, AllPass, At, Delimited, AllSpaces, OperatorAt, LegalAtom, Text;
    PartsStand(s, i + |glue|, d);
    var e := i + |glue| + |Text(d.l)|;
    var j := e + |d.ws| + 1;
    OperatorSeparates(s, e, j, if d.Amp? then '&' else '|', u);
    FlatTests(s, i, glue, d.l, u);
    NothingAt(s, j, Text(d.r));
    FlatTests(s, j, "", d.r, u);
    AllPassAdds(Tested(d.l, glue).words, Tested(d.r, "").words, u);
  }

  lemma NothingAt(s: string, i: nat, t: string)
    requires At(s, i, t)
    ensures i <= |s| && At(s, i, "")
  {
  }

  /** acs_check on a whole written expression: every word it meets passes. */
  lemma CheckTests(d: Doc, u: User)
    requires WellFormed(d)
    ensures FlatFrom(Text(d), 0, u) == AllPass(Tested(d, "").words, u)
  {
    var s := Text(d);
    assert s[0..|s|] == s;
    FlatTests(s, 0, "", d, u);
  }

  /* ---------- parentheses and negation ---------- */

  /** A word that begins with a parenthesis or a negation asks for nothing. */
  lemma GluedPasses(w: string, u: User)
    requires w != "" && (w[0] == '(' || w[0] == '!') && |w| <= TOKEN_MAX
    ensures WordPasses(w, u)
  {
    assert w[..|w|] == w;
  }

  /** Whoever asks is let in by a text that begins with `(`, up to 62 characters without
      delimiters and `)`, whatever follows. */
  lemma ClosedAtOnce(s: string, g: string, u: User)
    requires g != "" && g[0] == '(' && |g| <= TOKEN_MAX && NoDelimiters(g) && g + [')'] <= s
    ensures FlatFrom(s, 0, u)
  {
    hide WordPasses, Passes;
    assert s[..|g|] == (g + [')'])[..|g|] == g && s[|g|] == (g + [')'])[|g|];
    WordTested(s, 0, g, u);
    GluedPasses(g, u);
  }

  /** So what stands in a group and behind it is not asked for, as in "(S255)&FB". */
  lemma GroupEndsTheScan(raw: string, ws: string, r: Doc, truth: Truth, u: User)
    requires LegalAtom(raw) && |raw| < TOKEN_MAX && AllSpaces(ws) && WellFormed(r) && Level(r) >= 1
    ensures var s := Text(Amp(Group("", Name("", raw), ""), ws, r));
            FlatFrom(s, 0, u) && Allows(s, truth) == (truth(Upper(raw)) && Denotes(Meaning(r), truth))
  {
    hide WordPasses, FlatFrom, Allows, Text, LegalAtom, Upper;
    var d := Amp(Group("", Name("", raw), ""), ws, r);
    CheckTests(d, u);
    assert "" + ['('] == ['('];
    assert Tested(Name("", raw), ['(']) == Seen([['('] + raw], false);
    assert Tested(Group("", Name("", raw), ""), "") == Seen([['('] + raw], true);
    assert Tested(d, "") == Seen([['('] + raw], true);
    assert Meaning(Name("", raw)) == Atom(raw) && Meaning(d.l) == Atom(raw);
    OneWord(['('] + raw, u);
    GluedPasses(['('] + raw, u);
    EvaluatesToMeaning(d, "", truth);
    assert Text(d) + "" == Text(d);
  }

  /** And a negated atom asks for nothing. */
  lemma NegationAsksNothing(raw: string, truth: Truth, u: User)
    requires LegalAtom(raw) && |raw| < TOKEN_MAX
    ensures var s := Text(Bang("", Name("", raw)));
            FlatFrom(s, 0, u) && Allows(s, truth) == !truth(Upper(raw))
  {
    hide WordPasses, FlatFrom, Allows, Text, LegalAtom, Upper;
    var d := Bang("", Name("", raw));
    CheckTests(d, u);
    assert "" + ['!'] == ['!'];
    assert Tested(Name("", raw), ['!']) == Seen([['!'] + raw], false);
    OneWord(['!'] + raw, u);
    GluedPasses(['!'] + raw, u);
    EvaluatesToMeaning(d, "", truth);
    assert Text(d) + "" == Text(d);
  }

  /* ---------- comparison with the parser ---------- */

  /** The tokens both evaluators know: S#, SL#, F?, +X and R? with a known letter. */
  predicate Shared(tok: string) {
    || (CharAt(tok, 0) == 'S' && (IsDigit(CharAt(tok, 1)) || CharAt(tok, 1) == 'L'))
    || (CharAt(tok, 0) == 'F' && 'A' <= CharAt(tok, 1) <= 'Z' && |tok| == 2)
    || (CharAt(tok, 0) == '+' && 'A' <= CharAt(tok, 1) <= 'Z')
    || (CharAt(tok, 0) == 'R' && |tok| == 2 && tok[1] in AC_LETTERS)
  }

  /** A session in which eval_term gives the shared tokens the user's values. */
  ghost predicate SessionOf(truth: Truth, u: User) {
    forall tok :: Shared(tok) ==>
      truth(tok) ==
        if tok[0] == 'S' then u.level >= Atoi(if IsDigit(tok[1]) then tok[1..] else tok[2..])
        else if tok[0] == 'R' then tok[1] in u.acFlags
        else tok[1] in u.arFlags
  }

  lemma SharedAgree(tok: string, truth: Truth, u: User)
    requires Shared(tok) && SessionOf(truth, u)
    ensures Passes(tok, u) == truth(tok)
  {
  }

  /** Written without `!` and parentheses, from short tokens known to both. */
  predicate Flat(d: Doc) {
    match d
    case Name(_, raw) => |raw| <= TOKEN_MAX && Shared(Upper(raw))
    case Bang(_, _) => false
    case Group(_, _, _) => false
    case Amp(l, _, r) => Flat(l) && Flat(r)
    case Bar(l, _, r) => Flat(l) && Flat(r)
  }

  predicate EveryAtomHolds(d: Doc, truth: Truth) {
    match d
    case Name(_, raw) => truth(TokenOf(raw))
    case Bang(_, x) => EveryAtomHolds(x, truth)
    case Group(_, x, _) => EveryAtomHolds(x, truth)
    case Amp(l, _, r) => EveryAtomHolds(l, truth) && EveryAtomHolds(r, truth)
    case Bar(l, _, r) => EveryAtomHolds(l, truth) && EveryAtomHolds(r, truth)
  }

  predicate BarFree(d: Doc) {
    match d
    case Name(_, _) => true
    case Bang(_, x) => BarFree(x)
    case Group(_, x, _) => BarFree(x)
    case Amp(l, _, r) => BarFree(l) && BarFree(r)
    case Bar(_, _, _) => false
  }

  /** Of a flat text every atom is tested, as a word of its own. */
  lemma {:induction false} FlatWords(d: Doc, truth: Truth, u: User)
    requires WellFormed(d) && Flat(d) && SessionOf(truth, u)
    ensures !Tested(d, "").closed && AllPass(Tested(d, "").words, u) == EveryAtomHolds(d, truth)
  {
    hide SessionOf, Shared, Passes, AllPass, LegalAtom, AllSpaces, WordPasses;
    match d
    case Name(ws, raw) =>
      NameWord(d, truth, u);
    case Amp(l, _, r) =>
      FlatWords(l, truth, u);
      FlatWords(r, truth, u);
      AllPassAdds(Tested(l, "").words, Tested(r, "").words, u);
    case Bar(l, _, r) =>
      FlatWords(l, truth, u);
      FlatWords(r, truth, u);
      AllPassAdds(Tested(l, "").words, Tested(r, "").words, u);
  }

  lemma NameWord(d: Doc, truth: Truth, u: User)
    requires d.Name? && WellFormed(d) && Flat(d) && SessionOf(truth, u)
    ensures AllPass(Tested(d, "").words, u) == truth(TokenOf(d.raw))
  {
    hide SessionOf, Shared, Passes;
    SharedAgree(Upper(d.raw), truth, u);
    ShortWord(d.raw, u);
    hide WordPasses, AllPass, Upper;
    assert "" + d.raw == d.raw;
    FirstWord("", [d.raw], u);
    OneWord(d.raw, u);
    assert [""] + [d.raw] == ["", d.raw];
  }

  lemma ShortWord(w: string, u: User)
    requires |w| <= TOKEN_MAX
    ensures WordPasses(w, u) == (w == "" || Passes(Upper(w), u)) && WordPasses("", u)
  {
    hide Passes, Upper;
    assert w[..|w|] == w && w[|w|..] == "";
  }

  /** The flat checker tests every atom of a flat text, whatever joins them. */
  lemma FlatChecksAll(d: Doc, truth: Truth, u: User)
    requires WellFormed(d) && Flat(d) && SessionOf(truth, u)
    ensures FlatFrom(Text(d), 0, u) == EveryAtomHolds(d, truth)
  {
    hide SessionOf, Flat, WellFormed, FlatFrom, Text;
    CheckTests(d, u);
    FlatWords(d, truth, u);
  }

  lemma {:induction false} AtomsAndDenotation(d: Doc, truth: Truth)
    requires Flat(d)
    ensures EveryAtomHolds(d, truth) ==> Denotes(Meaning(d), truth)
    ensures BarFree(d) ==> (EveryAtomHolds(d, truth) <==> Denotes(Meaning(d), truth))
  {
    match d
    case Name(_, _) =>
    case Amp(l, _, r) => AtomsAndDenotation(l, truth); AtomsAndDenotation(r, truth);
    case Bar(l, _, r) => AtomsAndDenotation(l, truth); AtomsAndDenotation(r, truth);
  }

  /** On flat texts the flat checker never lets in anyone the parser keeps out,
      and without `|` the two give the same answer. */
  lemma CheckAgainstAllows(d: Doc, truth: Truth, u: User)
    requires WellFormed(d) && Flat(d) && SessionOf(truth, u)
    ensures FlatFrom(Text(d), 0, u) == EveryAtomHolds(d, truth)
    ensures Allows(Text(d), truth) == Denotes(Meaning(d), truth)
    ensures FlatFrom(Text(d), 0, u) ==> Allows(Text(d), truth)
    ensures BarFree(d) ==> (FlatFrom(Text(d), 0, u) <==> Allows(Text(d), truth))
  {
    hide SessionOf, WellFormed, FlatFrom, Text, Allows;
    FlatChecksAll(d, truth, u);
    AtomsAndDenotation(d, truth);
    EvaluatesToMeaning(d, "", truth);
    assert Text(d) + "" == Text(d);
  }

  /** Nothing is asked of anyone by an empty string. */
  lemma EmptyAllows(truth: Truth, u: User)
    ensures Allows("", truth) && FlatFrom("", 0, u)
  {
  }

  /** The letters of the AC flags. */
  lemma AcLetters(c: char)
    ensures c in AC_LETTERS <==> c in "LCVUA*PEKM1234"
  {
  }

  /** What acs_check asks of a token in upper case: a level of S and of SL, an AR flag of F
      and one letter and of + and a letter, an AC flag of R and one of its letters, and
      nothing of any other. */
  lemma TokensTested(tok: string, u: User)
    ensures |tok| >= 2 && tok[0] == 'S' && '0' <= tok[1] <= '9' ==> Passes(tok, u) == (u.level >= Atoi(tok[1..]))
    ensures |tok| >= 2 && tok[..2] == "SL" ==> Passes(tok, u) == (u.level >= Atoi(tok[2..]))
    ensures |tok| == 2 && tok[0] == 'F' && 'A' <= tok[1] <= 'Z' ==> Passes(tok, u) == (tok[1] in u.arFlags)
    ensures |tok| >= 2 && tok[0] == '+' && 'A' <= tok[1] <= 'Z' ==> Passes(tok, u) == (tok[1] in u.arFlags)
    ensures |tok| == 2 && tok[0] == 'R' && tok[1] in "LCVUA*PEKM1234" ==> Passes(tok, u) == (tok[1] in u.acFlags)
    ensures !Shared(tok) ==> Passes(tok, u)
    ensures Shared(tok) ==> tok[0] in "SF+R" && |tok| >= 2
  {
    hide Atoi;
    if |tok| >= 2 {
      assert tok[..2] == [tok[0], tok[1]];
      AcLetters(tok[1]);
    }
  }

  /* ---------- when the two agree on alternatives ---------- */

  /** The least level that is asked for, if any is. */
  datatype Bound = AnyLevel | AtLeast(level: int)

  /** What a conjunction of shared tokens asks for: a level, AR flags and AC flags. */
  datatype Asks = Asks(bound: Bound, ar: set<char>, ac: set<char>)

  predicate Meets(u: User, a: Asks) {
    (a.bound.AtLeast? ==> u.level >= a.bound.level) && a.ar <= u.arFlags && a.ac <= u.acFlags
  }

  function AskedBy(tok: string): Asks
    requires Shared(tok)
  {
    if tok[0] == 'S' then Asks(AtLeast(Atoi(if IsDigit(tok[1]) then tok[1..] else tok[2..])), {}, {})
    else if tok[0] == 'R' then Asks(AnyLevel, {}, {tok[1]})
    else Asks(AnyLevel, {tok[1]}, {})
  }

  function Higher(a: Bound, b: Bound): Bound {
    if a == AnyLevel || (b.AtLeast? && b.level > a.level) then b else a
  }

  function Together(a: Asks, b: Asks): Asks {
    Asks(Higher(a.bound, b.bound), a.ar + b.ar, a.ac + b.ac)
  }

  /** What all atoms of a flat text ask for together: the highest level and all the flags. */
  function AllAsked(d: Doc): Asks
    requires Flat(d)
  {
    match d
    case Name(_, raw) => AskedBy(Upper(raw))
    case Amp(l, _, r) => Together(AllAsked(l), AllAsked(r))
    case Bar(l, _, r) => Together(AllAsked(l), AllAsked(r))
  }

  /** What each alternative asks for. */
  function Alternatives(d: Doc): (alts: seq<Asks>)
    requires Flat(d)
    ensures |alts| >= 1
  {
    if d.Bar? then Alternatives(d.l) + Alternatives(d.r) else [AllAsked(d)]
  }

  /** All alternatives ask for the same flags and the same highest level. */
  predicate SameAlternatives(d: Doc)
    requires Flat(d)
  {
    forall j, k :: 0 <= j < |Alternatives(d)| && 0 <= k < |Alternatives(d)| ==> Alternatives(d)[j] == Alternatives(d)[k]
  }

  /** The session that gives the shared tokens the user's values. */
  ghost function SessionFor(u: User): Truth {
    (tok: string) =>
      Shared(tok) &&
      if tok[0] == 'S' then u.level >= Atoi(if IsDigit(tok[1]) then tok[1..] else tok[2..])
      else if tok[0] == 'R' then tok[1] in u.acFlags
      else tok[1] in u.arFlags
  }

  lemma SessionExists(u: User)
    ensures SessionOf(SessionFor(u), u)
  {
  }

  lemma MeetsBoth(u: User, a: Asks, b: Asks)
    ensures Meets(u, Together(a, b)) == (Meets(u, a) && Meets(u, b))
  {
  }

  lemma TokenAsks(tok: string, truth: Truth, u: User)
    requires Shared(tok) && SessionOf(truth, u)
    ensures truth(tok) == Meets(u, AskedBy(tok))
  {
    hide Atoi;
  }

  lemma {:induction false} AtomsAsk(d: Doc, truth: Truth, u: User)
    requires Flat(d) && SessionOf(truth, u)
    ensures EveryAtomHolds(d, truth) == Meets(u, AllAsked(d))
  {
    hide SessionOf, Shared, Meets, AskedBy, Together, Upper;
    match d
    case Name(_, raw) => TokenAsks(Upper(raw), truth, u);
    case Amp(l, _, r) =>
      AtomsAsk(l, truth, u);
      AtomsAsk(r, truth, u);
      MeetsBoth(u, AllAsked(l), AllAsked(r));
    case Bar(l, _, r) =>
      AtomsAsk(l, truth, u);
      AtomsAsk(r, truth, u);
      MeetsBoth(u, AllAsked(l), AllAsked(r));
  }

  lemma {:induction false} AlternativeIsBarFree(d: Doc)
    requires WellFormed(d) && Flat(d) && Level(d) >= 1
    ensures BarFree(d)
  {
    hide LegalAtom, Shared;
    if d.Amp? {
      AlternativeIsBarFree(d.l);
      AlternativeIsBarFree(d.r);
    }
  }

  predicate MeetsAll(u: User, alts: seq<Asks>) {
    forall k :: 0 <= k < |alts| ==> Meets(u, alts[k])
  }

  predicate MeetsSome(u: User, alts: seq<Asks>) {
    exists k :: 0 <= k < |alts| && Meets(u, alts[k])
  }

  lemma OneAlternative(u: User, a: Asks)
    ensures MeetsAll(u, [a]) == MeetsSome(u, [a]) == Meets(u, a)
  {
    hide Meets;
    assert [a][0] == a;
  }

  lemma MoreAlternatives(u: User, a: seq<Asks>, b: seq<Asks>)
    ensures MeetsAll(u, a + b) == (MeetsAll(u, a) && MeetsAll(u, b))
    ensures MeetsSome(u, a + b) == (MeetsSome(u, a) || MeetsSome(u, b))
  {
    hide Meets;
    assert forall k :: 0 <= k < |a| ==> (a + b)[k] == a[k];
    assert forall k :: 0 <= k < |b| ==> (a + b)[|a| + k] == b[k];
  }

  /** The atoms hold for whoever meets all alternatives, and the expression denotes
      true for whoever meets one. */
  lemma {:induction false} AlternativesMean(d: Doc, truth: Truth, u: User)
    requires Flat(d) && WellFormed(d) && SessionOf(truth, u)
    ensures EveryAtomHolds(d, truth) == MeetsAll(u, Alternatives(d))
    ensures Denotes(Meaning(d), truth) == MeetsSome(u, Alternatives(d))
  {
    hide SessionOf, Shared, Meets, MeetsAll, MeetsSome, AllAsked, LegalAtom, AllSpaces;
    if d.Bar? {
      AlternativesMean(d.l, truth, u);
      AlternativesMean(d.r, truth, u);
      MoreAlternatives(u, Alternatives(d.l), Alternatives(d.r));
    } else {
      AtomsAsk(d, truth, u);
      AlternativeIsBarFree(d);
      AtomsAndDenotation(d, truth);
      OneAlternative(u, AllAsked(d));
    }
  }

  /** acs_check lets in whoever meets all alternatives, the parser whoever meets one. */
  lemma AgreeFor(d: Doc, truth: Truth, u: User)
    requires WellFormed(d) && Flat(d) && SessionOf(truth, u)
    ensures FlatFrom(Text(d), 0, u) == MeetsAll(u, Alternatives(d))
    ensures Allows(Text(d), truth) == MeetsSome(u, Alternatives(d))
  {
    hide SessionOf, WellFormed, Flat, FlatFrom, Text, Allows, MeetsAll, MeetsSome;
    AlternativesMean(d, truth, u);
    CheckAgainstAllows(d, truth, u);
  }

  /** On texts of shared tokens without `!` and parentheses acs_check and the parser agree
      for every user and session if and only if every alternative asks for the same flags
      and the same highest level. */
  lemma AgreeIff(d: Doc)
    requires WellFormed(d) && Flat(d)
    ensures (forall truth: Truth, u: User :: SessionOf(truth, u) ==>
              FlatFrom(Text(d), 0, u) == Allows(Text(d), truth)) <==>
            SameAlternatives(d)
  {
    hide SessionOf, WellFormed, Flat, FlatFrom, Text, Allows, MeetsAll, MeetsSome, SameAlternatives;
    if SameAlternatives(d) {
      forall truth: Truth, u: User | SessionOf(truth, u) ensures FlatFrom(Text(d), 0, u) == Allows(Text(d), truth) {
        AgreeFor(d, truth, u);
        AllOrNone(d, u);
      }
    } else {
      var u := Disagreeing(d);
      SessionExists(u);
      AgreeFor(d, SessionFor(u), u);
    }
  }

  lemma AllOrNone(d: Doc, u: User)
    requires Flat(d) && SameAlternatives(d)
    ensures MeetsAll(u, Alternatives(d)) == MeetsSome(u, Alternatives(d))
  {
    hide Flat, Meets;
    var alts := Alternatives(d);
    assert forall k :: 0 <= k < |alts| ==> alts[k] == alts[0];
    if Meets(u, alts[0]) {
      assert MeetsSome(u, alts);
    }
  }

  /** The user who has exactly what `a` asks for, with a level below what `b` asks for
      if `a` asks for none. */
  function JustMeeting(a: Asks, b: Asks): (u: User)
    ensures Meets(u, a)
    ensures Meets(u, b) ==> b.ar <= a.ar && b.ac <= a.ac
    ensures Meets(u, b) && b.bound.AtLeast? ==> a.bound.AtLeast? && b.bound.level <= a.bound.level
  {
    User(if a.bound.AtLeast? then a.bound.level else if b.bound.AtLeast? then b.bound.level - 1 else 0, a.ar, a.ac)
  }

  lemma Parted(a: Asks, b: Asks) returns (u: User)
    requires a != b
    ensures Meets(u, a) != Meets(u, b)
  {
    u := JustMeeting(a, b);
    if Meets(u, b) {
      u := JustMeeting(b, a);
    }
  }

  /** A user who meets one alternative and not another. */
  lemma Disagreeing(d: Doc) returns (u: User)
    requires Flat(d) && !SameAlternatives(d)
    ensures !MeetsAll(u, Alternatives(d)) && MeetsSome(u, Alternatives(d))
  {
    hide Flat, Alternatives, Meets;
    var alts := Alternatives(d);
    var j, k :| 0 <= j < |alts| && 0 <= k < |alts| && alts[j] != alts[k];
    u := Parted(alts[j], alts[k]);
  }

  /** The token that asks for flag `c`. */
  function FlagName(c: char): Doc {
    Name("", ['F', c])
  }

  lemma FlagAtom(c: char, truth: Truth, u: User)
    requires SessionOf(truth, u) && 'A' <= c <= 'Z'
    ensures WellFormed(FlagName(c)) && Flat(FlagName(c))
    ensures EveryAtomHolds(FlagName(c), truth) == Denotes(Meaning(FlagName(c)), truth) == (c in u.arFlags)
  {
    assert ['F', c][1..] == [c] && [c][1..] == "";
    assert Upper([c]) == [c];
    assert Shared(['F', c]);
  }

  /** Outside that form they differ: acs_check requires every alternative of "FA|FB" ... */
  lemma AlternativesAreAllRequired(truth: Truth, u: User)
    requires SessionOf(truth, u) && 'A' in u.arFlags && 'B' !in u.arFlags
    ensures var s := Text(Bar(FlagName('A'), "", FlagName('B')));
            Allows(s, truth) && !FlatFrom(s, 0, u)
  {
    hide SessionOf, Allows, FlatFrom, LegalAtom, Text, Shared, Upper, TokenOf, FlagName;
    var d := Bar(FlagName('A'), "", FlagName('B'));
    FlagAtom('A', truth, u);
    FlagAtom('B', truth, u);
    CheckAgainstAllows(d, truth, u);
    EvaluatesToMeaning(d, "", truth);
    assert Text(d) + "" == Text(d);
  }

  /** ... and passes over "!FA", as over a token that asks for a download level. */
  lemma NegationIsPassedOver(truth: Truth, u: User)
    requires SessionOf(truth, u) && 'A' in u.arFlags
    ensures var s := Text(Bang("", FlagName('A')));
            !Allows(s, truth) && FlatFrom(s, 0, u)
    ensures forall tok :: CharAt(tok, 0) == 'D' ==> Passes(tok, u)
  {
    FlagAtom('A', truth, u);
    NegationAsksNothing(['F', 'A'], truth, u);
  }
}
