/** acs_check, the checker of the stand-alone tools. */
module AcsFlat {
  import opened CStrings
  import opened Acs

  /** The caller's arguments; flag words are the sets of their letters. */
  datatype User = User(level: int, arFlags: set<char>, acFlags: set<char>)

  /** The letters that ac_flag_from_char maps to a flag. */
  const AC_LETTERS := {'L', 'C', 'V', 'U', 'A', '*', 'P', 'E', 'K', 'M', '1', '2', '3', '4'}

  /** tok[i], which is the NUL at the end of the token */
  function CharAt(tok: string, i: nat): char {
    if i < |tok| then tok[i] else '\0'
  }

  /** acs_check does not fail on this token. */
  predicate Passes(tok: string, u: User) {
    if CharAt(tok, 0) == 'S' && IsDigit(CharAt(tok, 1)) then
      u.level >= Atoi(tok[1..])
    else if CharAt(tok, 0) == 'S' && CharAt(tok, 1) == 'L' then
      u.level >= Atoi(tok[2..])
    else if CharAt(tok, 0) == 'F' && 'A' <= CharAt(tok, 1) <= 'Z' && |tok| == 2 then
      tok[1] in u.arFlags
    else if CharAt(tok, 0) == '+' && 'A' <= CharAt(tok, 1) <= 'Z' then
      tok[1] in u.arFlags
    else if CharAt(tok, 0) == 'R' && |tok| == 2 then
      tok[1] in AC_LETTERS ==> tok[1] in u.acFlags
    else
      true
  }

  predicate Separates(c: char) {
    IsSpace(c) || c == '&' || c == '|'
  }

  function SkipSeparators(s: string, i: nat): (j: nat)
    requires i <= |s|
    ensures i <= j <= |s|
    ensures j < |s| ==> !Separates(s[j])
    decreases |s| - i
  {
    if i < |s| && Separates(s[i]) then SkipSeparators(s, i + 1) else i
  }

  /** Where a token that started at `i` ends: at a delimiter, or after 63 characters. */
  function FlatEnd(s: string, i: nat, room: nat): (j: nat)
    requires i <= |s|
    ensures i <= j <= |s|
    decreases room
  {
    if room > 0 && i < |s| && !EndsAtom(s[i]) then FlatEnd(s, i + 1, room - 1) else i
  }

  predicate FlatFrom(s: string, i: nat, u: User)
    requires i <= |s|
    decreases |s| - i
  {
    var j := SkipSeparators(s, i);
    var k := FlatEnd(s, j, TOKEN_MAX);
    k == j || (Passes(Upper(s[j..k]), u) && FlatFrom(s, k, u))
  }

  /** The inner loop, which fills the 64-byte token buffer. */
  method ReadToken(acs: string, start: nat) returns (tok: string, p: nat)
    requires start <= |acs|
    ensures p == FlatEnd(acs, start, TOKEN_MAX) && tok == Upper(acs[start..p])
  {
    hide EndsAtom, Upper, ToUpper;
    p, tok := start, "";
    UpperNone(acs, start);
    while p < |acs| && !EndsAtom(acs[p]) && |tok| < TOKEN_MAX
      invariant start <= p <= |acs| && |tok| == p - start <= TOKEN_MAX && tok == Upper(acs[start..p])
      invariant FlatEnd(acs, p, TOKEN_MAX - |tok|) == FlatEnd(acs, start, TOKEN_MAX)
      decreases |acs| - p
    {
      UpperNext(acs, start, p);
      tok := tok + [ToUpper(acs[p])];
      p := p + 1;
    }
  }

  method AcsCheck(acs: string, u: User) returns (ok: bool)
    ensures ok == FlatFrom(acs, 0, u)
  {
    var p := 0;
    while p < |acs|
      invariant p <= |acs| && FlatFrom(acs, p, u) == FlatFrom(acs, 0, u)
      decreases |acs| - p
    {
      ghost var from := p;
      while p < |acs| && Separates(acs[p])
        invariant from <= p <= |acs| && SkipSeparators(acs, p) == SkipSeparators(acs, from)
      {
        p := p + 1;
      }
      if p == |acs| {
        break;
      }
      var tok, q := ReadToken(acs, p);
      UpperLength(acs[p..q]);
      p := q;
      if tok == "" {
        break;
      }
      if !Passes(tok, u) {
        return false;
      }
    }
    ok := true;
  }

  lemma UpperNone(s: string, i: nat)
    requires i <= |s|
    ensures Upper(s[i..i]) == ""
  {
  }

  lemma UpperNext(s: string, i: nat, p: nat)
    requires i <= p < |s|
    ensures Upper(s[i..p + 1]) == Upper(s[i..p]) + [ToUpper(s[p])]
  {
    hide Upper, ToUpper;
    UpperSnoc(s[i..p], s[p]);
    assert s[i..p + 1] == s[i..p] + [s[p]];
  }

  lemma UpperLength(s: string)
    ensures |Upper(s)| == |s|
  {
  }

  lemma {:induction false} UpperSnoc(s: string, c: char)
    ensures Upper(s + [c]) == Upper(s) + [ToUpper(c)]
  {
    if s != "" {
      assert (s + [c])[1..] == s[1..] + [c];
      UpperSnoc(s[1..], c);
    } else {
      assert s + [c] == [c];
      assert Upper([c]) == [ToUpper(c)] + Upper([c][1..]);
    }
  }
}
