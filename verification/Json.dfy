/** The flat JSON reader of the door manifests: a key is found by searching for it
    in quotes before a colon, and its value is decoded from there. */
module Json {
  import opened CStrings
  import opened Bytes
  import opened Wrappers

  const BACKSLASH := '\\'
  const QUOTE := '"'
  const SEARCH_CAP := 128

  predicate IsBlank(c: char) {
    c == ' ' || c == '\t' || c == '\n' || c == '\r'
  }

  function SkipBlanks(s: string, i: nat): (j: nat)
    requires i <= |s|
    ensures i <= j <= |s|
    ensures j < |s| ==> !IsBlank(s[j])
    decreases |s| - i
  {
    if i < |s| && IsBlank(s[i]) then SkipBlanks(s, i + 1) else i
  }

  /** What is searched for: the key in quotes, as much of it as fits the buffer. */
  function Search(key: string): string {
    var quoted := [QUOTE] + key + [QUOTE];
    quoted[..Min(|quoted|, SEARCH_CAP - 1)]
  }

  /** The search text stands at `p`, with a colon after it and some blanks. */
  predicate HitAt(s: string, p: nat, search: string) {
    At(s, p, search) && var k := SkipBlanks(s, p + |search|); k < |s| && s[k] == ':'
  }

  /** The first hit at or after `i`, |s| + 1 when there is none. */
  function FirstHit(s: string, search: string, i: nat): (p: nat)
    requires i <= |s|
    ensures i <= p <= |s| + 1
    ensures p <= |s| ==> HitAt(s, p, search)
    decreases |s| - i
  {
    if HitAt(s, i, search) then i
    else if i == |s| then |s| + 1
    else FirstHit(s, search, i + 1)
  }

  /** Where the value of a key begins, |s| + 1 when the key is not found. */
  function ValueOf(s: string, key: string): (v: nat)
    ensures v <= |s| + 1
  {
    var p := FirstHit(s, Search(key), 0);
    if p > |s| then |s| + 1 else SkipBlanks(s, p + |Search(key)|) + 1
  }

  lemma {:induction false} HitSkips(s: string, search: string, i: nat)
    requires i <= |s|
    ensures var p := Find(s, search, i);
            if p > |s| then FirstHit(s, search, i) == |s| + 1 else FirstHit(s, search, i) == FirstHit(s, search, p)
    decreases |s| - i
  {
    if !At(s, i, search) && i < |s| {
      HitSkips(s, search, i + 1);
    }
  }

  method JsonFindKey(json: string, key: string) returns (v: nat)
    ensures v == ValueOf(json, key)
  {
    var search := Search(key);
    hide Search, At, Find;
    var p := 0;
    while p <= |json|
      invariant p <= |json| + 1
      invariant p <= |json| ==> FirstHit(json, search, p) == FirstHit(json, search, 0)
      invariant p == |json| + 1 ==> FirstHit(json, search, 0) == |json| + 1
      decreases |json| + 1 - p
    {
      HitSkips(json, search, p);
      p := Find(json, search, p);
      if p > |json| {
        break;
      }
      var after := p + |search|;
      while after < |json| && IsBlank(json[after])
        invariant p + |search| <= after <= |json| && SkipBlanks(json, after) == SkipBlanks(json, p + |search|)
      {
        after := after + 1;
      }
      if after < |json| && json[after] == ':' {
        return after + 1;
      }
      p := p + 1;
    }
    v := |json| + 1;
  }

  /* ---------- strings ---------- */

  function Unescaped(c: char): char {
    if c == 'n' then '\n' else if c == 't' then '\t' else c
  }

  /** A backslash with a character after it stands for one character. */
  function DecodeFrom(s: string, i: nat): string
    requires i <= |s|
    decreases |s| - i
  {
    if i == |s| || s[i] == QUOTE then ""
    else if s[i] == BACKSLASH && i + 1 < |s| then [Unescaped(s[i + 1])] + DecodeFrom(s, i + 2)
    else [s[i]] + DecodeFrom(s, i + 1)
  }

  /** The string value at `v`, None when no string stands there. */
  function StringAt(s: string, v: nat): Option<string> {
    if v > |s| then None
    else
      var p := SkipBlanks(s, v);
      if p == |s| || s[p] != QUOTE then None else Some(DecodeFrom(s, p + 1))
  }

  /** json_str: at most Length - 1 characters, and a NUL; the rest of `out` is kept. */
  method JsonStr(json: string, key: string, out: array<char>) returns (ok: bool, n: nat)
    requires out.Length > 0
    modifies out
    ensures var v := StringAt(json, ValueOf(json, key));
            ok == v.Some? &&
            (ok ==> n == Min(|v.value|, out.Length - 1) && out[..n] == v.value[..n] && out[n] == '\0')
    ensures !ok ==> n == 0 && out[..] == old(out[..])
  {
    n := 0;
    var p := JsonFindKey(json, key);
    if p > |json| {
      return false, 0;
    }
    ghost var v := p;
    while p < |json| && IsBlank(json[p])
      invariant v <= p <= |json| && SkipBlanks(json, p) == SkipBlanks(json, v)
    {
      p := p + 1;
    }
    if p == |json| || json[p] != QUOTE {
      return false, 0;
    }
    n := DecodeInto(json, p + 1, out);
    ok := true;
  }

  /** The character that stands at `i` of a string, and where the next one stands. */
  function CharAt(s: string, i: nat): char
    requires i < |s|
  {
    if s[i] == BACKSLASH && i + 1 < |s| then Unescaped(s[i + 1]) else s[i]
  }

  function NextChar(s: string, i: nat): nat
    requires i < |s|
  {
    if s[i] == BACKSLASH && i + 1 < |s| then i + 2 else i + 1
  }

  lemma DecodeGoesOn(done: string, s: string, i: nat)
    requires i < |s| && s[i] != QUOTE
    ensures done + DecodeFrom(s, i) == done + [CharAt(s, i)] + DecodeFrom(s, NextChar(s, i))
  {
    Assoc(done, [CharAt(s, i)], DecodeFrom(s, NextChar(s, i)));
  }

  method DecodeInto(json: string, start: nat, out: array<char>) returns (n: nat)
    requires start <= |json| && out.Length > 0
    modifies out
    ensures var all := DecodeFrom(json, start);
            n == Min(|all|, out.Length - 1) && out[..n] == all[..n] && out[n] == '\0'
  {
    var p := start;
    n := 0;
    ghost var all := DecodeFrom(json, start);
    while p < |json| && json[p] != QUOTE && n + 1 < out.Length
      invariant start <= p <= |json| && n < out.Length
      invariant all == out[..n] + DecodeFrom(json, p)
      decreases |json| - p
    {
      DecodeGoesOn(out[..n], json, p);
      hide DecodeFrom;
      ghost var next := NextChar(json, p);
      ghost var done := out[..n];
      var c := json[p];
      if json[p] == BACKSLASH && p + 1 < |json| {
        p := p + 1;
        c := Unescaped(json[p]);
      }
      out[n] := c;
      n := n + 1;
      p := p + 1;
      assert p == next && out[..n] == done + [c];
    }
    DecodeStops(json, p);
    out[n] := '\0';
  }

  lemma DecodeStops(s: string, i: nat)
    requires i <= |s|
    ensures i == |s| || s[i] == QUOTE <==> DecodeFrom(s, i) == ""
  {
  }

  /* ---------- integers and booleans ---------- */

  function IntAt(s: string, v: nat): Option<int> {
    if v > |s| then None
    else
      var p := SkipBlanks(s, v);
      if p < |s| && (IsDigit(s[p]) || s[p] == '-') then Some(Atoi(s[p..])) else None
  }

  function BoolAt(s: string, v: nat): Option<bool> {
    if v > |s| then None
    else
      var p := SkipBlanks(s, v);
      if At(s, p, "true") then Some(true) else if At(s, p, "false") then Some(false) else None
  }

  method JsonInt(json: string, key: string) returns (r: Option<int>)
    ensures r == IntAt(json, ValueOf(json, key))
  {
    var p := JsonFindKey(json, key);
    if p > |json| {
      return None;
    }
    p := SkipBlanks(json, p);
    if p == |json| || (!IsDigit(json[p]) && json[p] != '-') {
      return None;
    }
    r := Some(Atoi(json[p..]));
  }

  method JsonBool(json: string, key: string) returns (r: Option<bool>)
    ensures r == BoolAt(json, ValueOf(json, key))
  {
    var p := JsonFindKey(json, key);
    if p > |json| {
      return None;
    }
    p := SkipBlanks(json, p);
    if At(json, p, "true") {
      return Some(true);
    }
    if At(json, p, "false") {
      return Some(false);
    }
    r := None;
  }

  /* ---------- json_escape ---------- */

  /** What is written for one character; other control characters are dropped. */
  function EscapedChar(c: char): string {
    if c == QUOTE || c == BACKSLASH then [BACKSLASH, c]
    else if c == '\n' then [BACKSLASH, 'n']
    else if c == '\r' then [BACKSLASH, 'r']
    else if c == '\t' then [BACKSLASH, 't']
    else if c >= ' ' then [c]
    else ""
  }

  function EscapedBody(s: string): string {
    if s == "" then "" else EscapedChar(s[0]) + EscapedBody(s[1..])
  }

  lemma EscapedSnoc(s: string, c: char)
    ensures EscapedBody(s + [c]) == EscapedBody(s) + EscapedChar(c)
  {
    if s == "" {
      assert s + [c] == [c];
      assert EscapedBody([c]) == EscapedChar(c) + EscapedBody([c][1..]);
    } else {
      assert (s + [c])[1..] == s[1..] + [c];
      EscapedSnoc(s[1..], c);
    }
  }

  lemma NothingEscaped()
    ensures EscapedBody("") == ""
  {
  }

  method JsonEscape(s: string) returns (f: string)
    ensures f == [QUOTE] + EscapedBody(s) + [QUOTE]
  {
    hide EscapedBody;
    assert EscapedBody("") == "" by {
      NothingEscaped();
    }
    f := [QUOTE];
    for i := 0 to |s|
      invariant f == [QUOTE] + EscapedBody(s[..i])
    {
      var c := s[i];
      EscapedSnoc(s[..i], c);
      assert s[..i + 1] == s[..i] + [c];
      Assoc([QUOTE], EscapedBody(s[..i]), EscapedChar(c));
      if c == QUOTE || c == BACKSLASH {
        f := f + [BACKSLASH, c];
      } else if c == '\n' {
        f := f + [BACKSLASH, 'n'];
      } else if c == '\r' {
        f := f + [BACKSLASH, 'r'];
      } else if c == '\t' {
        f := f + [BACKSLASH, 't'];
      } else if c >= ' ' {
        f := f + [c];
      }
    }
    assert s[..|s|] == s;
    f := f + [QUOTE];
  }
}
