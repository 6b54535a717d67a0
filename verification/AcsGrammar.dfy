/** The written form of access control expressions, with any blanks and any
    redundant parentheses, and the agreement of the cursor parser with it. */
module AcsGrammar {
  import opened CStrings
  import opened Acs

  /** A written expression: `ws` is the blank space before the token that follows. */
  datatype Doc =
    | Name(ws: string, raw: string)
    | Bang(ws: string, d: Doc)
    | Group(ws: string, d: Doc, close: string)
    | Amp(l: Doc, ws: string, r: Doc)
    | Bar(l: Doc, ws: string, r: Doc)

  function Level(d: Doc): nat {
    match d
    case Bar(_, _, _) => 0
    case Amp(_, _, _) => 1
    case _ => 2
  }

  /** `!` binds tighter than `&`, which binds tighter than `|`. */
  predicate WellFormed(d: Doc) {
    match d
    case Name(ws, raw) => AllSpaces(ws) && LegalAtom(raw)
    case Bang(ws, x) => AllSpaces(ws) && WellFormed(x) && Level(x) == 2
    case Group(ws, x, close) => AllSpaces(ws) && AllSpaces(close) && WellFormed(x)
    case Amp(l, ws, r) => AllSpaces(ws) && WellFormed(l) && WellFormed(r) && Level(l) >= 1 && Level(r) >= 1
    case Bar(l, ws, r) => AllSpaces(ws) && WellFormed(l) && WellFormed(r)
  }

  predicate LegalAtom(raw: string) {
    raw != "" && raw[0] != '!' && raw[0] != '(' && forall i :: 0 <= i < |raw| ==> !EndsAtom(raw[i])
  }

  function Text(d: Doc): string {
    match d
    case Name(ws, raw) => ws + raw
    case Bang(ws, x) => ws + ['!'] + Text(x)
    case Group(ws, x, close) => ws + ['('] + (Text(x) + (close + [')']))
    case Amp(l, ws, r) => Text(l) + (ws + ['&'] + Text(r))
    case Bar(l, ws, r) => Text(l) + (ws + ['|'] + Text(r))
  }

  /** The expression a writer means. */
  function Meaning(d: Doc): Expr {
    match d
    case Name(_, raw) => Atom(raw)
    case Bang(_, x) => Not(Meaning(x))
    case Group(_, x, _) => Meaning(x)
    case Amp(l, _, r) => And(Meaning(l), Meaning(r))
    case Bar(l, _, r) => Or(Meaning(l), Meaning(r))
  }

  /** What the left-to-right loops read a conjunction (disjunction) as, after `acc`:
      both operators are associative, so only the grouping differs from `Meaning`. */
  function Conjoined(acc: Expr, d: Doc): Expr
    decreases d, 1
  {
    match d
    case Amp(l, _, r) => Conjoined(Conjoined(acc, l), r)
    case Name(_, _) => And(acc, Shape(d))
    case Bang(_, _) => And(acc, Shape(d))
    case Group(_, _, _) => And(acc, Shape(d))
    case Bar(_, _, _) => And(acc, Shape(d))
  }

  function Disjoined(acc: Expr, d: Doc): Expr
    decreases d, 1
  {
    match d
    case Bar(l, _, r) => Disjoined(Disjoined(acc, l), r)
    case Name(_, _) => Or(acc, Shape(d))
    case Bang(_, _) => Or(acc, Shape(d))
    case Group(_, _, _) => Or(acc, Shape(d))
    case Amp(_, _, _) => Or(acc, Shape(d))
  }

  function Shape(d: Doc): Expr
    decreases d, 0
  {
    match d
    case Name(_, raw) => Atom(raw)
    case Bang(_, x) => Not(Shape(x))
    case Group(_, x, _) => Shape(x)
    case Amp(l, _, r) => Conjoined(Shape(l), r)
    case Bar(l, _, r) => Disjoined(Shape(l), r)
  }

  lemma {:induction false} ConjoinedMeans(acc: Expr, d: Doc, truth: Truth)
    ensures Denotes(Conjoined(acc, d), truth) == (Denotes(acc, truth) && Denotes(Meaning(d), truth))
    decreases d, 1
  {
    if d.Amp? {
      ConjoinedMeans(acc, d.l, truth);
      ConjoinedMeans(Conjoined(acc, d.l), d.r, truth);
    } else {
      ShapeMeans(d, truth);
    }
  }

  lemma {:induction false} DisjoinedMeans(acc: Expr, d: Doc, truth: Truth)
    ensures Denotes(Disjoined(acc, d), truth) == (Denotes(acc, truth) || Denotes(Meaning(d), truth))
    decreases d, 1
  {
    if d.Bar? {
      DisjoinedMeans(acc, d.l, truth);
      DisjoinedMeans(Disjoined(acc, d.l), d.r, truth);
    } else {
      ShapeMeans(d, truth);
    }
  }

  lemma {:induction false} ShapeMeans(d: Doc, truth: Truth)
    ensures Denotes(Shape(d), truth) == Denotes(Meaning(d), truth)
    decreases d, 0
  {
    match d
    case Name(_, _) =>
    case Bang(_, x) => ShapeMeans(x, truth);
    case Group(_, x, _) => ShapeMeans(x, truth);
    case Amp(l, _, r) => ShapeMeans(l, truth); ConjoinedMeans(Shape(l), r, truth);
    case Bar(l, _, r) => ShapeMeans(l, truth); DisjoinedMeans(Shape(l), r, truth);
  }

  /* ---------- the parser reads back what was written ---------- */

  /** After `e` an atom has ended: the text stops or a delimiter stands there. */
  predicate Delimited(s: string, e: nat) {
    e <= |s| && (e < |s| ==> EndsAtom(s[e]))
  }

  lemma {:induction false} AtomEndExactly(s: string, i: nat, raw: string)
    requires At(s, i, raw) && Delimited(s, i + |raw|)
    requires forall k :: 0 <= k < |raw| ==> !EndsAtom(raw[k])
    ensures AtomEnd(s, i) == i + |raw|
    decreases |raw|
  {
    if raw != "" {
      assert raw == raw[..1] + raw[1..];
      AtSplit(s, i, raw[..1], raw[1..]);
      assert s[i] == s[i..i + |raw|][0] == raw[0];
      AtomEndExactly(s, i + 1, raw[1..]);
    }
  }

  /** The blanks `ws` and then the character `c` stand at `i`. */
  lemma SkipsTo(s: string, i: nat, ws: string, c: char, rest: string)
    requires At(s, i, ws + [c] + rest) && AllSpaces(ws) && !IsSpace(c)
    ensures SkipSpaces(s, i) == i + |ws| < |s| && s[i + |ws|] == c
    ensures At(s, i + |ws| + 1, rest)
  {
    AtSplit(s, i, ws + [c], rest);
    AtSplit(s, i, ws, [c]);
    assert s[i + |ws|] == s[i + |ws|..i + |ws| + 1][0] == c;
    SkipsExactly(s, i, ws);
  }

  /** After `e` no further conjunct follows. */
  predicate FactorEnds(s: string, e: nat) {
    e <= |s| && var j := SkipSpaces(s, e); j < |s| ==> s[j] == '|' || s[j] == ')'
  }

  lemma EndsDelimited(s: string, e: nat)
    requires FactorEnds(s, e)
    ensures Delimited(s, e)
  {
    assert e < |s| && !IsSpace(s[e]) ==> SkipSpaces(s, e) == e;
  }

  /** The operator `c`, after blanks, stands at `i`; its right operand begins at the result. */
  predicate OperatorAt(s: string, i: nat, c: char, right: nat) {
    i < right <= |s| && SkipSpaces(s, i) == right - 1 && s[right - 1] == c
  }

  lemma OperatorStands(s: string, i: nat, left: string, ws: string, c: char, right: string)
    requires At(s, i, left + (ws + [c] + right)) && AllSpaces(ws) && EndsAtom(c) && !IsSpace(c)
    ensures At(s, i, left) && Delimited(s, i + |left|)
    ensures var j := i + |left| + |ws| + 1; OperatorAt(s, i + |left|, c, j) && At(s, j, right)
  {
    var e := i + |left|;
    AtSplit(s, i, left, ws + [c] + right);
    SkipsTo(s, e, ws, c, right);
    assert e < |s| && !IsSpace(s[e]) ==> SkipSpaces(s, e) == e;
  }

  /** Where the parts of a written conjunction or disjunction stand. */
  lemma PartsStand(s: string, i: nat, d: Doc)
    requires (d.Amp? || d.Bar?) && WellFormed(d) && At(s, i, Text(d))
    ensures At(s, i, Text(d.l)) && Delimited(s, i + |Text(d.l)|)
    ensures var j := i + |Text(d.l)| + |d.ws| + 1;
            OperatorAt(s, i + |Text(d.l)|, if d.Amp? then '&' else '|', j) &&
            At(s, j, Text(d.r)) && i + |Text(d)| == j + |Text(d.r)|
  {
    hide At, AllSpaces, SkipSpaces, Delimited, OperatorAt;
    OperatorStands(s, i, Text(d.l), d.ws, if d.Amp? then '&' else '|', Text(d.r));
  }

  /** The token that is looked up for an atom: its first 63 characters, in upper case. */
  lemma TokenIs(raw: string)
    ensures TokenOf(raw) == if |raw| <= 63 then Upper(raw) else Upper(raw[..63])
    ensures forall c :: 'a' <= c <= 'z' ==> Upper([c]) == [(c as int - 32) as char]
    ensures forall c :: !('a' <= c <= 'z') ==> Upper([c]) == [c]
  {
    forall c ensures Upper([c]) == [ToUpper(c)] {
      assert [c][1..] == "";
    }
  }

  /** Where the parts of a parenthesised expression stand. */
  lemma GroupStands(s: string, i: nat, ws: string, body: string, close: string)
    requires At(s, i, ws + ['('] + (body + (close + [')']))) && AllSpaces(ws) && AllSpaces(close)
    ensures var e := i + |ws| + 1 + |body|;
            OperatorAt(s, i, '(', i + |ws| + 1) && At(s, i + |ws| + 1, body) &&
            OperatorAt(s, e, ')', e + |close| + 1)
  {
    hide At, AllSpaces, SkipSpaces;
    SkipsTo(s, i, ws, '(', body + (close + [')']));
    AtSplit(s, i + |ws| + 1, body, close + [')']);
    assert close + [')'] + "" == close + [')'];
    SkipsTo(s, i + |ws| + 1 + |body|, close, ')', "");
  }

  lemma AtomReads(s: string, i: nat, ws: string, raw: string)
    requires At(s, i, ws + raw) && AllSpaces(ws) && LegalAtom(raw) && Delimited(s, i + |ws| + |raw|)
    ensures TermAt(s, i) == Read(Atom(raw), i + |ws| + |raw|)
  {
    assert ws + raw == ws + [raw[0]] + raw[1..];
    SkipsTo(s, i, ws, raw[0], raw[1..]);
    AtSplit(s, i, ws, raw);
    AtomEndExactly(s, i + |ws|, raw);
  }

  lemma {:induction false} TermReads(s: string, i: nat, d: Doc)
    requires WellFormed(d) && Level(d) == 2 && At(s, i, Text(d)) && Delimited(s, i + |Text(d)|)
    ensures TermAt(s, i) == Read(Shape(d), i + |Text(d)|)
    decreases d, 1
  {
    hide At, AllSpaces, SkipSpaces, AtomEnd, ExprAt, FactorAt;
    match d
    case Name(ws, raw) =>
      AtomReads(s, i, ws, raw);
    case Bang(ws, x) =>
      SkipsTo(s, i, ws, '!', Text(x));
      TermReads(s, i + |ws| + 1, x);
    case Group(ws, x, close) =>
      GroupStands(s, i, ws, Text(x), close);
      GroupReads(s, i, d);
  }

  lemma {:induction false} GroupReads(s: string, i: nat, d: Doc)
    requires d.Group? && WellFormed(d) && At(s, i + |d.ws| + 1, Text(d.d))
    requires var e := i + |d.ws| + 1 + |Text(d.d)|;
             OperatorAt(s, i, '(', i + |d.ws| + 1) && OperatorAt(s, e, ')', e + |d.close| + 1)
    ensures TermAt(s, i) == Read(Shape(d.d), i + |d.ws| + 1 + |Text(d.d)| + |d.close| + 1)
    decreases d, 0
  {
    hide At, Text, AllSpaces, SkipSpaces, FactorAt, FactorRest;
    var e := i + |d.ws| + 1 + |Text(d.d)|;
    ExprReads(s, i + |d.ws| + 1, d.d);
    ExprSkips(Shape(d.d), s, e);
  }

  lemma {:induction false} FactorReads(s: string, i: nat, d: Doc)
    requires WellFormed(d) && Level(d) >= 1 && At(s, i, Text(d)) && Delimited(s, i + |Text(d)|)
    ensures FactorAt(s, i) == FactorRest(Shape(d), s, i + |Text(d)|)
    decreases d, 3
  {
    hide At, Text, AllSpaces, TermAt, SkipSpaces;
    if d.Amp? {
      PartsStand(s, i, d);
      FactorReads(s, i, d.l);
      var e := i + |Text(d.l)|;
      FactorGoesOn(Shape(d.l), s, e, e + |d.ws| + 1, d.r);
    } else {
      TermReads(s, i, d);
    }
  }

  lemma {:induction false} FactorGoesOn(acc: Expr, s: string, i: nat, j: nat, d: Doc)
    requires WellFormed(d) && Level(d) >= 1 && OperatorAt(s, i, '&', j)
    requires At(s, j, Text(d)) && Delimited(s, j + |Text(d)|)
    ensures FactorRest(acc, s, i) == FactorRest(Conjoined(acc, d), s, j + |Text(d)|)
    decreases d, 2
  {
    hide At, Text, AllSpaces, TermAt, SkipSpaces;
    if d.Amp? {
      PartsStand(s, j, d);
      FactorGoesOn(acc, s, i, j, d.l);
      var e := j + |Text(d.l)|;
      FactorGoesOn(Conjoined(acc, d.l), s, e, e + |d.ws| + 1, d.r);
    } else {
      TermReads(s, j, d);
    }
  }

  lemma {:induction false} ExprReads(s: string, i: nat, d: Doc)
    requires WellFormed(d) && At(s, i, Text(d)) && FactorEnds(s, i + |Text(d)|)
    ensures ExprAt(s, i) == ExprRest(Shape(d), s, i + |Text(d)|)
    decreases d, 5
  {
    hide At, Text, AllSpaces, TermAt, SkipSpaces;
    if d.Bar? {
      PartsStand(s, i, d);
      ExprReads(s, i, d.l);
      var e := i + |Text(d.l)|;
      ExprGoesOn(Shape(d.l), s, e, e + |d.ws| + 1, d.r);
    } else {
      EndsDelimited(s, i + |Text(d)|);
      FactorReads(s, i, d);
      ExprSkips(Shape(d), s, i + |Text(d)|);
    }
  }

  lemma {:induction false} ExprGoesOn(acc: Expr, s: string, i: nat, j: nat, d: Doc)
    requires WellFormed(d) && OperatorAt(s, i, '|', j)
    requires At(s, j, Text(d)) && FactorEnds(s, j + |Text(d)|)
    ensures ExprRest(acc, s, i) == ExprRest(Disjoined(acc, d), s, j + |Text(d)|)
    decreases d, 4
  {
    hide At, Text, AllSpaces, TermAt, SkipSpaces;
    if d.Bar? {
      PartsStand(s, j, d);
      ExprGoesOn(acc, s, i, j, d.l);
      var e := j + |Text(d.l)|;
      ExprGoesOn(Disjoined(acc, d.l), s, e, e + |d.ws| + 1, d.r);
    } else {
      EndsDelimited(s, j + |Text(d)|);
      FactorReads(s, j, d);
      ExprSkips(Or(acc, Shape(d)), s, j + |Text(d)|);
    }
  }

  /** Running the evaluator over any written form of an expression, with any
      trailing blanks, gives the expression's denotation and consumes it all. */
  lemma EvaluatesToMeaning(d: Doc, trailing: string, truth: Truth)
    requires WellFormed(d) && AllSpaces(trailing)
    ensures var s := Text(d) + trailing;
            ExprAt(s, 0).next == |s| &&
            Denotes(ExprAt(s, 0).expr, truth) == Denotes(Meaning(d), truth) &&
            Allows(s, truth) == Denotes(Meaning(d), truth)
  {
    var s := Text(d) + trailing;
    assert s[|Text(d)|..|s|] == trailing;
    SkipsExactly(s, |Text(d)|, trailing);
    ExprReads(s, 0, d);
    ShapeMeans(d, truth);
    TextNotEmpty(d);
  }

  lemma {:induction false} TextNotEmpty(d: Doc)
    requires WellFormed(d)
    ensures Text(d) != ""
  {
  }

  /* ---------- printing with as few parentheses as possible ---------- */

  /** An expression that can be written: every place where a term is due has one. */
  predicate Writable(e: Expr) {
    match e
    case Nothing => false
    case Atom(raw) => LegalAtom(raw)
    case Not(x) => Writable(x)
    case And(l, r) => Writable(l) && Writable(r)
    case Or(l, r) => Writable(l) && Writable(r)
  }

  function Minimal(e: Expr, level: nat): Doc
    requires Writable(e)
  {
    match e
    case Atom(raw) => Name("", raw)
    case Not(x) => Bang("", Minimal(x, 2))
    case And(l, r) => Wrapped(Amp(Minimal(l, 1), "", Minimal(r, 1)), level)
    case Or(l, r) => Wrapped(Bar(Minimal(l, 0), "", Minimal(r, 0)), level)
  }

  function Wrapped(d: Doc, level: nat): Doc {
    if Level(d) >= level then d else Group("", d, "")
  }

  function Groups(d: Doc): nat {
    match d
    case Name(_, _) => 0
    case Bang(_, x) => Groups(x)
    case Group(_, x, _) => 1 + Groups(x)
    case Amp(l, _, r) => Groups(l) + Groups(r)
    case Bar(l, _, r) => Groups(l) + Groups(r)
  }

  lemma {:induction false} MinimalIsWellFormed(e: Expr, level: nat)
    requires Writable(e) && level <= 2
    ensures WellFormed(Minimal(e, level)) && Level(Minimal(e, level)) >= level
    ensures Meaning(Minimal(e, level)) == e
  {
    match e
    case Atom(_) =>
    case Not(x) => MinimalIsWellFormed(x, 2);
    case And(l, r) => MinimalIsWellFormed(l, 1); MinimalIsWellFormed(r, 1);
    case Or(l, r) => MinimalIsWellFormed(l, 0); MinimalIsWellFormed(r, 0);
  }

  /** No written form of the same expression has fewer parentheses. */
  lemma {:induction false} MinimalIsMinimal(d: Doc, level: nat)
    requires WellFormed(d) && level <= Level(d)
    ensures Writable(Meaning(d)) && Groups(Minimal(Meaning(d), level)) <= Groups(d)
  {
    match d
    case Name(_, _) =>
    case Bang(_, x) => MinimalIsMinimal(x, 2);
    case Group(_, x, _) => MinimalIsMinimal(x, 0);
    case Amp(l, _, r) => MinimalIsMinimal(l, 1); MinimalIsMinimal(r, 1);
    case Bar(l, _, r) => MinimalIsMinimal(l, 0); MinimalIsMinimal(r, 0);
  }

  /** Printing an expression with minimal parentheses and running the evaluator
      over the text gives the expression's denotation. */
  lemma PrintThenEvaluate(e: Expr, truth: Truth)
    requires Writable(e)
    ensures var s := Text(Minimal(e, 0));
            ExprAt(s, 0).next == |s| && Allows(s, truth) == Denotes(e, truth)
  {
    MinimalIsWellFormed(e, 0);
    EvaluatesToMeaning(Minimal(e, 0), "", truth);
    assert Text(Minimal(e, 0)) + "" == Text(Minimal(e, 0));
  }
}
