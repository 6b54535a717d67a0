/** The character and string routines of the C library that the modelled code
    calls, in the "C" locale.  A `string` stands for the bytes of a C string
    before its terminating NUL, so "the pointer is at the NUL" is "the index
    equals the length". */
module CStrings {

  /** isspace */
  predicate IsSpace(c: char) {
    c == ' ' || '\t' <= c <= '\r'
  }

  /** isdigit */
  predicate IsDigit(c: char) {
    '0' <= c <= '9'
  }

  /** toupper */
  function ToUpper(c: char): char {
    if 'a' <= c <= 'z' then c - 'a' + 'A' else c
  }

  function Upper(s: string): string {
    if s == "" then "" else [ToUpper(s[0])] + Upper(s[1..])
  }

  predicate AllSpaces(s: string) {
    forall i :: 0 <= i < |s| ==> IsSpace(s[i])
  }

  /** The first index at or after `i` that is not white space. */
  function SkipSpaces(s: string, i: nat): (j: nat)
    requires i <= |s|
    ensures i <= j <= |s|
    ensures j < |s| ==> !IsSpace(s[j])
    decreases |s| - i
  {
    if i < |s| && IsSpace(s[i]) then SkipSpaces(s, i + 1) else i
  }

  /** A run of blanks. */
  function Spaces(n: nat): (s: string)
    ensures |s| == n
    ensures forall i :: 0 <= i < n ==> s[i] == ' '
  {
    if n == 0 then "" else Spaces(n - 1) + [' ']
  }

  /** Without the blanks at the end. */
  function TrimRight(s: string): (t: string)
    ensures |t| <= |s| && t == s[..|t|]
    ensures t != "" ==> t[|t| - 1] != ' '
  {
    if s != "" && s[|s| - 1] == ' ' then TrimRight(s[..|s| - 1]) else s
  }

  /** A copy into a buffer of `cap` characters, as much of it as fits. */
  function Copy(s: string, cap: nat): string
    requires cap > 0
  {
    if |s| < cap then s else s[..cap - 1]
  }

  /** The NUL takes the last character of the buffer. */
  lemma CopyIs(s: string, cap: nat)
    requires cap > 0
    ensures Copy(s, cap) <= s && |Copy(s, cap)| < cap
    ensures |Copy(s, cap)| < |s| ==> |Copy(s, cap)| == cap - 1
  {
  }

  /** The string `t` stands at index `i` of `s`. */
  predicate At(s: string, i: nat, t: string) {
    i + |t| <= |s| && s[i..i + |t|] == t
  }

  /** What stands in a string ends in it. */
  lemma AtFits(s: string, i: nat, t: string)
    requires At(s, i, t)
    ensures i + |t| <= |s|
  {
  }

  lemma AtWhole(s: string)
    ensures At(s, 0, s)
  {
    assert s[0..|s|] == s;
  }

  lemma AtSplit(s: string, i: nat, t: string, u: string)
    requires At(s, i, t + u)
    ensures At(s, i, t) && At(s, i + |t|, u)
  {
    assert s[i..i + |t| + |u|] == t + u;
    assert s[i..i + |t|] == (t + u)[..|t|] == t;
    assert s[i + |t|..i + |t| + |u|] == (t + u)[|t|..] == u;
  }

  lemma AtJoin(s: string, i: nat, t: string, u: string)
    requires At(s, i, t) && At(s, i + |t|, u)
    ensures At(s, i, t + u)
  {
    assert s[i..i + |t| + |u|] == s[i..i + |t|] + s[i + |t|..i + |t| + |u|];
  }

  lemma AtHead(s: string, i: nat, c: char, rest: string)
    requires At(s, i, [c] + rest)
    ensures i < |s| && s[i] == c && At(s, i + 1, rest)
  {
    AtSplit(s, i, [c], rest);
    assert s[i..i + 1][0] == c;
  }

  lemma AtHeadOf(s: string, i: nat, t: string)
    requires At(s, i, t) && t != ""
    ensures i < |s| && s[i] == t[0]
  {
    assert s[i..i + |t|][0] == t[0];
  }

  lemma StillAt(f: string, i: nat, t: string, r: string)
    requires At(f, i, t)
    ensures At(f + r, i, t)
  {
    assert (f + r)[i..i + |t|] == f[i..i + |t|];
  }

  /** A run of blanks followed by something that is not blank is skipped exactly. */
  lemma {:induction false} SkipsExactly(s: string, i: nat, ws: string)
    requires At(s, i, ws) && AllSpaces(ws)
    requires i + |ws| < |s| ==> !IsSpace(s[i + |ws|])
    ensures SkipSpaces(s, i) == i + |ws|
    decreases |ws|
  {
    if ws != [] {
      AtSplit(s, i, ws[..1], ws[1..]);
      assert ws == ws[..1] + ws[1..];
      assert s[i] == s[i..i + |ws|][0] == ws[0];
      SkipsExactly(s, i + 1, ws[1..]);
    }
  }

  /* ---------- decimal numbers: "%d" and atoi ---------- */

  function Digit(d: nat): (c: char)
    requires d < 10
    ensures IsDigit(c)
  {
    '0' + d as char
  }

  function DigitValue(c: char): (d: nat)
    requires IsDigit(c)
    ensures d < 10 && Digit(d) == c
  {
    c as int - '0' as int
  }

  /** "%d" of a number that is not negative */
  function Decimal(n: nat): (s: string)
    ensures |s| >= 1 && forall i :: 0 <= i < |s| ==> IsDigit(s[i])
    decreases n
  {
    if n < 10 then [Digit(n)] else Decimal(n / 10) + [Digit(n % 10)]
  }

  /** The length of the longest prefix of decimal digits. */
  function DigitRun(s: string): (n: nat)
    ensures n <= |s|
    ensures forall i :: 0 <= i < n ==> IsDigit(s[i])
    ensures n < |s| ==> !IsDigit(s[n])
  {
    if s != [] && IsDigit(s[0]) then 1 + DigitRun(s[1..]) else 0
  }

  /** The number that a string of digits denotes. */
  function NumberOf(s: string): nat
    requires forall i :: 0 <= i < |s| ==> IsDigit(s[i])
  {
    if s == [] then 0 else 10 * NumberOf(s[..|s| - 1]) + DigitValue(s[|s| - 1])
  }

  /** atoi, on values that fit an int (anything larger is undefined in C) */
  function Atoi(s: string): int {
    var t := s[SkipSpaces(s, 0)..];
    if t != [] && t[0] == '-' then
      -(NumberOf(t[1..][..DigitRun(t[1..])]) as int)
    else
      var u := if t != [] && t[0] == '+' then t[1..] else t;
      NumberOf(u[..DigitRun(u)])
  }

  lemma {:induction false} NumberOfDecimal(n: nat)
    ensures NumberOf(Decimal(n)) == n
    decreases n
  {
    if n >= 10 {
      NumberOfDecimal(n / 10);
      var s := Decimal(n);
      assert s[..|s| - 1] == Decimal(n / 10);
    } else {
      assert [Digit(n)][..0] == [];
    }
  }

  /** atoi reads back what "%d" printed, whatever follows it that is no digit. */
  lemma AtoiDecimal(n: nat, rest: string)
    requires rest != [] ==> !IsDigit(rest[0])
    ensures Atoi(Decimal(n) + rest) == n
  {
    var d := Decimal(n);
    var s := d + rest;
    assert s[0] == d[0] && IsDigit(d[0]);
    assert SkipSpaces(s, 0) == 0;
    assert s[0..] == s;
    var k := DigitRun(s);
    assert forall i :: 0 <= i < |d| ==> s[i] == d[i];
    assert rest != [] ==> s[|d|] == rest[0];
    assert k == |d|;
    assert s[..k] == d;
    NumberOfDecimal(n);
  }

  /** Blanks and a sign before the digits are read too. */
  lemma AtoiSigned(ws: string, n: nat, rest: string)
    requires AllSpaces(ws) && (rest != [] ==> !IsDigit(rest[0]))
    ensures Atoi(ws + (['-'] + (Decimal(n) + rest))) == 0 - n
    ensures Atoi(ws + (['+'] + (Decimal(n) + rest))) == n
  {
    var d := Decimal(n);
    SignStands(ws, '-', d + rest);
    SignStands(ws, '+', d + rest);
    DigitsRun(d, rest);
    assert (d + rest)[..|d|] == d;
    NumberOfDecimal(n);
  }

  lemma SignStands(ws: string, sign: char, u: string)
    requires AllSpaces(ws) && !IsSpace(sign)
    ensures var s := ws + ([sign] + u); SkipSpaces(s, 0) == |ws| && s[|ws|..] == [sign] + u && ([sign] + u)[1..] == u
  {
    var s := ws + ([sign] + u);
    assert s[0..|ws|] == ws && s[|ws|] == sign;
    SkipsExactly(s, 0, ws);
  }

  lemma {:induction false} DigitsRun(d: string, rest: string)
    requires (forall i :: 0 <= i < |d| ==> IsDigit(d[i])) && (rest != "" ==> !IsDigit(rest[0]))
    ensures DigitRun(d + rest) == |d|
  {
    if d == "" {
      assert d + rest == rest;
    } else {
      assert (d + rest)[1..] == d[1..] + rest;
      DigitsRun(d[1..], rest);
    }
  }

  /** The characters of the "C" locale, by their codes. */
  lemma Codes(c: char)
    ensures IsSpace(c) <==> c as int == 32 || 9 <= c as int <= 13
    ensures IsDigit(c) <==> 48 <= c as int <= 57
    ensures ToUpper(c) as int == if 97 <= c as int <= 122 then c as int - 32 else c as int
  {
  }

  /** A number below 10^k prints in at most k digits. */
  lemma {:induction false} DecimalLength(n: nat, k: nat)
    requires k >= 1 && n < Pow10(k)
    ensures |Decimal(n)| <= k
    decreases k
  {
    if n >= 10 {
      assert k > 1;
      DecimalLength(n / 10, k - 1);
    }
  }

  const INT_MAX := 0x7FFF_FFFF

  /** An int prints in at most ten digits. */
  lemma IntDigits(n: nat)
    requires n <= INT_MAX
    ensures |Decimal(n)| <= 10
  {
    assert Pow10(5) == 100000;
    assert Pow10(10) == 100000 * Pow10(5);
    DecimalLength(n, 10);
  }

  function Pow10(k: nat): nat {
    if k == 0 then 1 else 10 * Pow10(k - 1)
  }

  /* ---------- strstr ---------- */

  /** The first index at or after `i` where `t` stands, or |s| + 1 when there is none. */
  function Find(s: string, t: string, i: nat): (j: nat)
    requires i <= |s|
    ensures i <= j <= |s| + 1
    ensures j <= |s| ==> At(s, j, t)
    ensures forall k :: i <= k < j && k <= |s| ==> !At(s, k, t)
    decreases |s| - i
  {
    if At(s, i, t) then i
    else if i == |s| then |s| + 1
    else Find(s, t, i + 1)
  }

  predicate Contains(s: string, t: string) {
    Find(s, t, 0) <= |s|
  }
}
