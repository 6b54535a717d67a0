/** The base64 codec of the password hashes (section 4 of RFC 4648): the encoder by
    groups of three bytes, the decoder with a 32-bit accumulator that wraps. */
module Base64 {
  import opened Bytes

  const TWO32 := 0x1_0000_0000

  /** The decoder's mark for a character that is no digit. */
  const NO_DIGIT := 128

  /** The character for a digit: A-Z, a-z, 0-9, + and /. */
  function Symbol(d: nat): char
    requires d < 64
  {
    if d < 26 then 'A' + d as char
    else if d < 52 then 'a' + (d - 26) as char
    else if d < 62 then '0' + (d - 52) as char
    else if d == 62 then '+'
    else '/'
  }

  /** The decoder's table. */
  function Rev(c: char): nat {
    if 'A' <= c <= 'Z' then c as int - 'A' as int
    else if 'a' <= c <= 'z' then c as int - 'a' as int + 26
    else if '0' <= c <= '9' then c as int - '0' as int + 52
    else if c == '+' then 62
    else if c == '/' then 63
    else NO_DIGIT
  }

  lemma RevSymbol(d: nat)
    requires d < 64
    ensures Rev(Symbol(d)) == d && Symbol(d) != '='
  {
  }

  /* ---------- encoding ---------- */

  function Byte(x: seq<byte>, i: nat): nat {
    if i < |x| then x[i] else 0
  }

  /** The four characters for the up to three bytes from `i` on. */
  function Group(x: seq<byte>, i: nat): (g: string)
    ensures |g| == 4
  {
    var a, b, c := Byte(x, i), Byte(x, i + 1), Byte(x, i + 2);
    [Symbol(a / 4), Symbol(a % 4 * 16 + b / 16),
     if i + 1 < |x| then Symbol(b % 16 * 4 + c / 64) else '=',
     if i + 2 < |x| then Symbol(c % 64) else '=']
  }

  function Encoded(x: seq<byte>, i: nat): string
    decreases |x| - i
  {
    if i >= |x| then "" else Group(x, i) + Encoded(x, i + 3)
  }

  function Number(a: nat, b: nat, c: nat): nat {
    a * 65536 + b * 256 + c
  }

  /** The bits of three bytes, six at a time, by shifting and masking their number. */
  lemma Digits(a: byte, b: byte, c: byte)
    ensures var v := Number(a, b, c);
            v / 262144 % 64 == a / 4 && v / 4096 % 64 == a % 4 * 16 + b / 16 &&
            v / 64 % 64 == b % 16 * 4 + c / 64 && v % 64 == c % 64
  {
    hide Number;
    Shifts(a, b, c);
    FirstDigits(a, b);
    LastDigits(a, b, c);
  }

  lemma Shifts(a: byte, b: byte, c: byte)
    ensures var v := Number(a, b, c);
            v / 262144 == a / 4 && v / 4096 == a * 16 + b / 16 && v / 64 == a * 1024 + b * 4 + c / 64 &&
            v % 64 == c % 64
  {
    ShiftsByTwo(a * 256 + b, c);
    assert (a * 256 + b) / 16 == a * 16 + b / 16;
  }

  lemma ShiftsByTwo(ab: nat, c: byte)
    ensures var v := ab * 256 + c;
            v / 64 == ab * 4 + c / 64 && v % 64 == c % 64 && v / 4096 == ab / 16 && v / 262144 == ab / 1024
  {
  }

  lemma FirstDigits(a: byte, b: byte)
    ensures a / 4 % 64 == a / 4 && (a * 16 + b / 16) % 64 == a % 4 * 16 + b / 16
  {
    LastSix(a * 16 + b / 16, a / 4, a % 4 * 16 + b / 16);
  }

  lemma LastDigits(a: byte, b: byte, c: byte)
    ensures (a * 1024 + b * 4 + c / 64) % 64 == b % 16 * 4 + c / 64
  {
    LastSix(a * 1024 + b * 4 + c / 64, a * 16 + b / 16, b % 16 * 4 + c / 64);
  }

  lemma LastSix(v: nat, rest: nat, six: nat)
    requires v == rest * 64 + six && six < 64
    ensures v % 64 == six
  {
  }

  method EncodeGroup(x: seq<byte>, i: nat) returns (g: string)
    requires i < |x|
    ensures g == Group(x, i)
  {
    var v: nat := x[i] as int * 65536;
    if i + 1 < |x| {
      v := v + x[i + 1] as int * 256;
    }
    if i + 2 < |x| {
      v := v + x[i + 2] as int;
    }
    assert v == Number(x[i], Byte(x, i + 1), Byte(x, i + 2));
    Digits(x[i], Byte(x, i + 1), Byte(x, i + 2));
    hide Number;
    hide Symbol;
    g := [Symbol(v / 262144 % 64), Symbol(v / 4096 % 64)];
    g := g + [if i + 1 < |x| then Symbol(v / 64 % 64) else '=', if i + 2 < |x| then Symbol(v % 64) else '='];
  }

  /** How long the text of `n` bytes is. */
  function EncodedLength(n: nat): nat {
    (n + 2) / 3 * 4
  }

  lemma GroupLength(n: nat)
    ensures EncodedLength(n) == if n == 0 then 0 else if n < 3 then 4 else 4 + EncodedLength(n - 3)
  {
  }

  lemma {:induction false} LengthOfEncoded(x: seq<byte>, i: nat)
    requires i <= |x|
    ensures |Encoded(x, i)| == EncodedLength(|x| - i)
    decreases |x| - i
  {
    hide Group, EncodedLength;
    GroupLength(|x| - i);
    if i + 3 <= |x| {
      LengthOfEncoded(x, i + 3);
    } else if i < |x| {
      assert Encoded(x, i + 3) == "";
    }
  }

  method PutGroup(out: array<char>, o: nat, g: string)
    requires |g| == 4 && o + 4 <= out.Length
    modifies out
    ensures out[..o + 4] == old(out[..o]) + g
  {
    out[o], out[o + 1], out[o + 2], out[o + 3] := g[0], g[1], g[2], g[3];
  }

  /** b64: -1 if the text and its NUL do not fit `out`. */
  method B64(x: seq<byte>, out: array<char>) returns (r: int)
    modifies out
    ensures r == if EncodedLength(|x|) < out.Length then EncodedLength(|x|) else -1
    ensures r >= 0 ==> out[..r] == Encoded(x, 0) && out[r] == '\0'
  {
    hide Group;
    var o := 0;
    var i := 0;
    LengthOfEncoded(x, 0);
    while i < |x|
      invariant (o == 0 && i == 0) || o < out.Length
      invariant o <= |Encoded(x, 0)| && out.Length >= o && out[..o] + Encoded(x, i) == Encoded(x, 0)
    {
      var g := EncodeGroup(x, i);
      ghost var done := out[..o];
      Assoc(done, g, Encoded(x, i + 3));
      if o + 4 >= out.Length {
        return -1;
      }
      PutGroup(out, o, g);
      o, i := o + 4, i + 3;
    }
    if o >= out.Length {
      return -1;
    }
    out[o] := '\0';
    r := o;
  }

  /* ---------- decoding ---------- */

  /** Bits that wait for the rest of their byte: fewer than eight, an even number. */
  predicate Waiting(bits: nat) {
    bits == 0 || bits == 2 || bits == 4 || bits == 6
  }

  function Pow2(bits: nat): nat
    requires Waiting(bits)
  {
    if bits == 0 then 1 else if bits == 2 then 4 else if bits == 4 then 16 else 64
  }

  /** What a text decodes to when the `bits` bits of the number `p` are waiting. */
  function Decoded(s: string, p: nat, bits: nat): seq<byte>
    requires Waiting(bits) && p < Pow2(bits)
    decreases |s|
  {
    if s == "" || s[0] == '=' then []
    else
      var d := Rev(s[0]);
      if d == NO_DIGIT then Decoded(s[1..], p, bits)
      else if bits == 0 then Decoded(s[1..], d, 6)
      else
        var q := p * 64 + d;
        [q / Pow2(bits - 2)] + Decoded(s[1..], q % Pow2(bits - 2), bits - 2)
  }

  /** The accumulator after one more digit. */
  function Shifted(v: nat, d: nat): (r: nat)
    ensures r < TWO32
  {
    (v * 64 + d) % TWO32
  }

  lemma Low2(w: nat, h: int, q: nat)
    requires q < 256 && w == 256 * h + q
    ensures w % 256 == q
  {
  }

  lemma Low4(w: nat, h: int, q: nat)
    requires q < 1024 && w == 1024 * h + q
    ensures w / 4 % 256 == q / 4 && w % 4 == q % 4
  {
    assert w / 4 == 256 * h + q / 4;
  }

  lemma Low6(w: nat, h: int, q: nat)
    requires q < 4096 && w == 4096 * h + q
    ensures w / 16 % 256 == q / 16 && w % 16 == q % 16
  {
    assert w / 16 == 256 * h + q / 16;
  }

  /** The accumulator, cut into what was above the waiting bits, these, and the digit. */
  lemma Parts(v: nat, d: nat)
    ensures exists k :: Shifted(v, d) == v * 64 + d - k * TWO32
  {
    var x := v * 64 + d;
    assert Shifted(v, d) == x - x / TWO32 * TWO32;
  }

  /** Only the waiting bits of the accumulator matter, so that it may wrap. */
  lemma WrapIsHarmless(v: nat, d: nat, bits: nat)
    requires Waiting(bits) && d < 64
    ensures var p, w := v % Pow2(bits), Shifted(v, d);
            if bits == 0 then w % 64 == d
            else w / Pow2(bits - 2) % 256 == (p * 64 + d) / Pow2(bits - 2) &&
                 w % Pow2(bits - 2) == (p * 64 + d) % Pow2(bits - 2)
  {
    var w := Shifted(v, d);
    Parts(v, d);
    var k :| w == v * 64 + d - k * TWO32;
    hide Shifted;
    if bits == 0 {
      assert w == 64 * (v - k * 0x400_0000) + d;
    } else if bits == 2 {
      assert v == 4 * (v / 4) + v % 4;
      Low2(w, v / 4 - k * 0x100_0000, v % 4 * 64 + d);
    } else if bits == 4 {
      assert v == 16 * (v / 16) + v % 16;
      Low4(w, v / 16 - k * 0x40_0000, v % 16 * 64 + d);
    } else {
      assert v == 64 * (v / 64) + v % 64;
      Low6(w, v / 64 - k * 0x10_0000, v % 64 * 64 + d);
    }
  }

  lemma DecodeStep(s: string, i: nat, v: nat, bits: nat)
    requires i < |s| && s[i] != '=' && Waiting(bits) && v < TWO32
    ensures var d, rest := Rev(s[i]), s[i + 1..];
            if d == NO_DIGIT then Decoded(s[i..], v % Pow2(bits), bits) == Decoded(rest, v % Pow2(bits), bits)
            else if bits == 0 then Decoded(s[i..], v % Pow2(bits), bits) == Decoded(rest, Shifted(v, d) % 64, 6)
            else Decoded(s[i..], v % Pow2(bits), bits) ==
                 [Shifted(v, d) / Pow2(bits - 2) % 256] + Decoded(rest, Shifted(v, d) % Pow2(bits - 2), bits - 2)
  {
    var d := Rev(s[i]);
    assert s[i..][1..] == s[i + 1..] && s[i..][0] == s[i];
    if d != NO_DIGIT {
      WrapIsHarmless(v, d, bits);
      hide Shifted, Rev;
    }
  }

  /** b64dec: -1 if there are more bytes than `out` holds. */
  method B64Dec(s: string, out: array<byte>) returns (r: int)
    modifies out
    ensures var all := Decoded(s, 0, 0);
            if |all| <= out.Length then r == |all| && out[..r] == all else r == -1
  {
    hide Rev;
    var o: nat, v: nat, bits: nat := 0, 0, 0;
    var i := 0;
    ghost var all := Decoded(s, 0, 0);
    assert s[0..] == s;
    while i < |s| && s[i] != '='
      invariant i <= |s| && o <= out.Length && v < TWO32 && Waiting(bits)
      invariant out[..o] + Decoded(s[i..], v % Pow2(bits), bits) == all
    {
      DecodeStep(s, i, v, bits);
      hide Decoded;
      var d := Rev(s[i]);
      if d != NO_DIGIT {
        ghost var done := out[..o];
        v := Shifted(v, d);
        if bits + 6 >= 8 {
          bits := bits - 2;
          Assoc(done, [v / Pow2(bits) % 256], Decoded(s[i + 1..], v % Pow2(bits), bits));
          if o >= out.Length {
            return -1;
          }
          out[o] := v / Pow2(bits) % 256;
          o := o + 1;
          assert out[..o] == done + [v / Pow2(bits) % 256];
        } else {
          bits := bits + 6;
        }
      }
      i := i + 1;
    }
    DecodeEnds(s[i..], v % Pow2(bits), bits);
    r := o;
  }

  lemma DecodeEnds(s: string, p: nat, bits: nat)
    requires Waiting(bits) && p < Pow2(bits) && (s == "" || s[0] == '=')
    ensures Decoded(s, p, bits) == []
  {
  }

  /* ---------- the round trip ---------- */

  lemma DigitDecodes(d: nat, rest: string, p: nat, bits: nat)
    requires d < 64 && Waiting(bits) && p < Pow2(bits)
    ensures var s, q := [Symbol(d)] + rest, p * 64 + d;
            Decoded(s, p, bits) ==
            if bits == 0 then Decoded(rest, d, 6)
            else [q / Pow2(bits - 2)] + Decoded(rest, q % Pow2(bits - 2), bits - 2)
  {
    RevSymbol(d);
    assert ([Symbol(d)] + rest)[1..] == rest;
    hide Symbol, Rev;
  }

  lemma Padding(rest: string, p: nat, bits: nat)
    requires Waiting(bits) && p < Pow2(bits)
    ensures Decoded(['='] + rest, p, bits) == []
  {
  }

  /** The first two characters of a group give its first byte, and keep four bits. */
  lemma FirstByte(a: byte, b: byte, rest: string)
    ensures Decoded([Symbol(a / 4)] + ([Symbol(a % 4 * 16 + b / 16)] + rest), 0, 0) == [a] + Decoded(rest, b / 16, 4)
  {
    hide Symbol, Decoded;
    DigitDecodes(a / 4, [Symbol(a % 4 * 16 + b / 16)] + rest, 0, 0);
    DigitDecodes(a % 4 * 16 + b / 16, rest, a / 4, 6);
    assert (a / 4 * 64 + (a % 4 * 16 + b / 16)) / 16 == a;
    assert (a / 4 * 64 + (a % 4 * 16 + b / 16)) % 16 == b / 16;
  }

  lemma SecondByte(b: byte, c: byte, rest: string)
    ensures Decoded([Symbol(b % 16 * 4 + c / 64)] + rest, b / 16, 4) == [b] + Decoded(rest, c / 64, 2)
  {
    hide Symbol, Decoded;
    DigitDecodes(b % 16 * 4 + c / 64, rest, b / 16, 4);
    assert (b / 16 * 64 + (b % 16 * 4 + c / 64)) / 4 == b;
    assert (b / 16 * 64 + (b % 16 * 4 + c / 64)) % 4 == c / 64;
  }

  lemma ThirdByte(c: byte, rest: string)
    ensures Decoded([Symbol(c % 64)] + rest, c / 64, 2) == [c] + Decoded(rest, 0, 0)
  {
    hide Symbol, Decoded;
    DigitDecodes(c % 64, rest, c / 64, 2);
    assert c / 64 * 64 + c % 64 == c;
  }

  lemma GroupText(x: seq<byte>, i: nat, rest: string)
    ensures var a, b, c := Byte(x, i), Byte(x, i + 1), Byte(x, i + 2);
            Group(x, i) + rest ==
            [Symbol(a / 4)] + ([Symbol(a % 4 * 16 + b / 16)] +
            ([if i + 1 < |x| then Symbol(b % 16 * 4 + c / 64) else '='] +
            ([if i + 2 < |x| then Symbol(c % 64) else '='] + rest)))
  {
    hide Symbol;
  }

  /** What is encoded from `i` on decodes to the bytes from `i` on, for every length. */
  lemma {:induction false} DecodesBack(x: seq<byte>, i: nat)
    requires i <= |x|
    ensures Decoded(Encoded(x, i), 0, 0) == x[i..]
    decreases |x| - i
  {
    hide Symbol, Decoded, Group;
    if i == |x| {
      DecodeEnds("", 0, 0);
    } else {
      var rest := Encoded(x, i + 3);
      var a, b, c := Byte(x, i), Byte(x, i + 1), Byte(x, i + 2);
      GroupText(x, i, rest);
      var t2 := [if i + 2 < |x| then Symbol(c % 64) else '='] + rest;
      var t1 := [if i + 1 < |x| then Symbol(b % 16 * 4 + c / 64) else '='] + t2;
      FirstByte(a, b, t1);
      if i + 1 == |x| {
        Padding(t2, b / 16, 4);
        assert x[i..] == [a];
      } else {
        SecondByte(b, c, t2);
        if i + 2 == |x| {
          Padding(rest, c / 64, 2);
          assert x[i..] == [a, b];
        } else {
          ThirdByte(c, rest);
          DecodesBack(x, i + 3);
          assert x[i..] == [a, b, c] + x[i + 3..];
        }
      }
    }
  }

  /** Decoding undoes encoding, for every length. */
  lemma RoundTrip(x: seq<byte>)
    ensures Decoded(Encoded(x, 0), 0, 0) == x && |Encoded(x, 0)| == EncodedLength(|x|)
  {
    DecodesBack(x, 0);
    LengthOfEncoded(x, 0);
    assert x[0..] == x;
  }

  /* ---------- the alphabet of RFC 4648 ---------- */

  /** The symbols in their order (table 1 of section 4). */
  function Alphabet(d: nat): char
    requires d < 64
  {
    if d < 26 then "ABCDEFGHIJKLMNOPQRSTUVWXYZ"[d]
    else if d < 52 then "abcdefghijklmnopqrstuvwxyz"[d - 26]
    else "0123456789+/"[d - 52]
  }

  lemma SymbolIs(d: nat)
    requires d < 64
    ensures Symbol(d) == Alphabet(d)
  {
  }

  /** Up to three bytes are written as the digits of their number in base 64, the missing
      ones as '='. */
  lemma GroupIsNumber(x: seq<byte>, i: nat)
    requires i < |x|
    ensures var n := 65536 * (x[i] as int) + 256 * (if i + 1 < |x| then x[i + 1] as int else 0) +
                     if i + 2 < |x| then x[i + 2] as int else 0;
            Group(x, i) == [Alphabet(n / 262144), Alphabet(n / 4096 % 64),
                            if i + 1 < |x| then Alphabet(n / 64 % 64) else '=',
                            if i + 2 < |x| then Alphabet(n % 64) else '=']
  {
    hide Symbol, Alphabet, Number;
    var a, b, c := x[i], Byte(x, i + 1), Byte(x, i + 2);
    NumberIs(a, b, c);
    Digits(a, b, c);
    Shifts(a, b, c);
    AllSymbols(a / 4, a % 4 * 16 + b / 16, b % 16 * 4 + c / 64, c % 64);
  }

  lemma NumberIs(a: byte, b: byte, c: byte)
    ensures Number(a, b, c) == 65536 * (a as int) + 256 * (b as int) + c as int
  {
  }

  lemma AllSymbols(p: nat, q: nat, r: nat, s: nat)
    requires p < 64 && q < 64 && r < 64 && s < 64
    ensures Symbol(p) == Alphabet(p) && Symbol(q) == Alphabet(q) && Symbol(r) == Alphabet(r) && Symbol(s) == Alphabet(s)
  {
    hide Symbol, Alphabet;
    SymbolIs(p);
    SymbolIs(q);
    SymbolIs(r);
    SymbolIs(s);
  }
}
