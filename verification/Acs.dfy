/** Access control strings: the cursor parser that evaluates while it parses
    (eval_term, eval_factor, eval_expr, acs_allows) and the flat checker of the
    stand-alone tools (acs_check). */
module Acs {
  import opened CStrings

  const TOKEN_MAX := 63

  /** What a token stands for, given the session: an upper-case token to a truth value. */
  type Truth = string -> bool

  /* ---------- what the cursor parser computes ---------- */

  predicate EndsAtom(c: char) {
    IsSpace(c) || c == '&' || c == '|' || c == ')'
  }

  function AtomEnd(s: string, i: nat): (j: nat)
    requires i <= |s|
    ensures i <= j <= |s|
    ensures j < |s| ==> EndsAtom(s[j])
    decreases |s| - i
  {
    if i < |s| && !EndsAtom(s[i]) then AtomEnd(s, i + 1) else i
  }

  /** The 64-byte token buffer: cut to 63 characters, then upper-cased. */
  function TokenOf(raw: string): string {
    Upper(if |raw| > TOKEN_MAX then raw[..TOKEN_MAX] else raw)
  }

  /** The expression that a stretch of text was read as.  `Nothing` is a place
      where a term was due and none stood. */
  datatype Expr =
    | Nothing
    | Atom(raw: string)
    | Not(e: Expr)
    | And(l: Expr, r: Expr)
    | Or(l: Expr, r: Expr)

  predicate Denotes(e: Expr, truth: Truth) {
    match e
    case Nothing => false
    case Atom(raw) => truth(TokenOf(raw))
    case Not(x) => !Denotes(x, truth)
    case And(l, r) => Denotes(l, truth) && Denotes(r, truth)
    case Or(l, r) => Denotes(l, truth) || Denotes(r, truth)
  }

  /** An expression and the cursor after it. */
  datatype Read = Read(expr: Expr, next: nat)

  function TermAt(s: string, i: nat): (r: Read)
    requires i <= |s|
    ensures i <= r.next <= |s|
    decreases |s| - i, 0
  {
    var j := SkipSpaces(s, i);
    if j < |s| && s[j] == '!' then
      var t := TermAt(s, j + 1);
      Read(Not(t.expr), t.next)
    else if j < |s| && s[j] == '(' then
      var t := ExprAt(s, j + 1);
      var k := SkipSpaces(s, t.next);
      Read(t.expr, if k < |s| && s[k] == ')' then k + 1 else k)
    else
      var k := AtomEnd(s, j);
      Read(if k > j then Atom(s[j..k]) else Nothing, k)
  }

  function FactorRest(left: Expr, s: string, i: nat): (r: Read)
    requires i <= |s|
    ensures i <= r.next <= |s|
    decreases |s| - i, 1
  {
    var j := SkipSpaces(s, i);
    if j < |s| && s[j] == '&' then
      var t := TermAt(s, j + 1);
      FactorRest(And(left, t.expr), s, t.next)
    else
      Read(left, j)
  }

  function FactorAt(s: string, i: nat): (r: Read)
    requires i <= |s|
    ensures i <= r.next <= |s|
    decreases |s| - i, 2
  {
    var t := TermAt(s, i);
    FactorRest(t.expr, s, t.next)
  }

  function ExprRest(left: Expr, s: string, i: nat): (r: Read)
    requires i <= |s|
    ensures i <= r.next <= |s|
    decreases |s| - i, 3
  {
    var j := SkipSpaces(s, i);
    if j < |s| && s[j] == '|' then
      var t := FactorAt(s, j + 1);
      ExprRest(Or(left, t.expr), s, t.next)
    else
      Read(left, j)
  }

  function ExprAt(s: string, i: nat): (r: Read)
    requires i <= |s|
    ensures i <= r.next <= |s|
    decreases |s| - i, 4
  {
    var t := FactorAt(s, i);
    ExprRest(t.expr, s, t.next)
  }

  predicate Allows(s: string, truth: Truth) {
    s == "" || Denotes(ExprAt(s, 0).expr, truth)
  }

  /** Leading blanks make no difference to the rest of a factor. */
  lemma FactorSkips(left: Expr, s: string, i: nat)
    requires i <= |s|
    ensures FactorRest(left, s, SkipSpaces(s, i)) == FactorRest(left, s, i)
  {
    assert SkipSpaces(s, SkipSpaces(s, i)) == SkipSpaces(s, i);
  }

  /** Leading blanks make no difference to the rest of an expression. */
  lemma ExprSkips(left: Expr, s: string, i: nat)
    requires i <= |s|
    ensures ExprRest(left, s, SkipSpaces(s, i)) == ExprRest(left, s, i)
  {
    assert SkipSpaces(s, SkipSpaces(s, i)) == SkipSpaces(s, i);
  }

  lemma ConnectivesDenote(l: Expr, r: Expr, truth: Truth)
    ensures Denotes(And(l, r), truth) <==> Denotes(l, truth) && Denotes(r, truth)
    ensures Denotes(Or(l, r), truth) <==> Denotes(l, truth) || Denotes(r, truth)
  {
  }

  /* ---------- the parser object, which evaluates as it reads ---------- */

  /** The shared cursor.  Every method terminates on every text, returns the
      truth of what it read and leaves the cursor at or after where it was. */
  class Parser {
    const text: string
    const truth: Truth
    var pos: nat

    ghost predicate Valid()
      reads this
    {
      pos <= |text|
    }

    constructor (text: string, truth: Truth)
      ensures Valid() && this.text == text && this.truth == truth && pos == 0
    {
      this.text := text;
      this.truth := truth;
      pos := 0;
    }

    method SkipWs()
      requires Valid()
      modifies this
      ensures Valid() && pos == SkipSpaces(text, old(pos))
    {
      while pos < |text| && IsSpace(text[pos])
        invariant Valid() && SkipSpaces(text, pos) == SkipSpaces(text, old(pos))
      {
        pos := pos + 1;
      }
    }

    method EvalTerm() returns (v: bool)
      requires Valid()
      modifies this
      ensures Valid() && old(pos) <= pos
      ensures v == Denotes(TermAt(text, old(pos)).expr, truth) && pos == TermAt(text, old(pos)).next
      decreases |text| - pos, 0
    {
      SkipWs();
      if pos < |text| && text[pos] == '!' {
        pos := pos + 1;
        v := EvalTerm();
        return !v;
      }
      if pos < |text| && text[pos] == '(' {
        pos := pos + 1;
        v := EvalExpr();
        SkipWs();
        if pos < |text| && text[pos] == ')' {
          pos := pos + 1;
        }
        return;
      }
      var start := pos;
      while pos < |text| && !EndsAtom(text[pos])
        invariant Valid() && start <= pos && AtomEnd(text, pos) == AtomEnd(text, start)
      {
        pos := pos + 1;
      }
      v := pos > start && truth(TokenOf(text[start..pos]));
    }

    method EvalFactor() returns (left: bool)
      requires Valid()
      modifies this
      ensures Valid() && old(pos) <= pos
      ensures left == Denotes(FactorAt(text, old(pos)).expr, truth) && pos == FactorAt(text, old(pos)).next
      decreases |text| - pos, 2
    {
      hide TermAt, ExprAt, ExprRest, Denotes;
      ghost var goal := FactorAt(text, pos);
      ghost var read := TermAt(text, pos).expr;
      left := EvalTerm();
      FactorSkips(read, text, pos);
      SkipWs();
      while pos < |text| && text[pos] == '&'
        invariant Valid() && old(pos) <= pos
        invariant pos < |text| ==> !IsSpace(text[pos])
        invariant left == Denotes(read, truth)
        invariant goal == FactorRest(read, text, pos)
        decreases |text| - pos
      {
        pos := pos + 1;
        ghost var next := TermAt(text, pos).expr;
        var right := EvalTerm();
        ConnectivesDenote(read, next, truth);
        left, read := left && right, And(read, next);
        FactorSkips(read, text, pos);
        SkipWs();
      }
    }

    method EvalExpr() returns (left: bool)
      requires Valid()
      modifies this
      ensures Valid() && old(pos) <= pos
      ensures left == Denotes(ExprAt(text, old(pos)).expr, truth) && pos == ExprAt(text, old(pos)).next
      decreases |text| - pos, 4
    {
      hide TermAt, FactorAt, FactorRest, Denotes;
      ghost var goal := ExprAt(text, pos);
      ghost var read := FactorAt(text, pos).expr;
      left := EvalFactor();
      ExprSkips(read, text, pos);
      SkipWs();
      while pos < |text| && text[pos] == '|'
        invariant Valid() && old(pos) <= pos
        invariant pos < |text| ==> !IsSpace(text[pos])
        invariant left == Denotes(read, truth)
        invariant goal == ExprRest(read, text, pos)
        decreases |text| - pos
      {
        pos := pos + 1;
        ghost var next := FactorAt(text, pos).expr;
        var right := EvalFactor();
        ConnectivesDenote(read, next, truth);
        left, read := left || right, Or(read, next);
        ExprSkips(read, text, pos);
        SkipWs();
      }
    }
  }

  method AcsAllows(truth: Truth, acs: string) returns (ok: bool)
    ensures ok == Allows(acs, truth)
  {
    if acs == "" {
      return true;
    }
    var p := new Parser(acs, truth);
    ok := p.EvalExpr();
  }
}
