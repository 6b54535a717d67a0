/** The reader of a reply packet, and what it makes of a file that the writer wrote. */
module QwkRead {
  import opened CStrings
  import opened Bytes
  import opened Qwk

  /** What a run of the reader posts, and where in the file it stops: a record that
      does not begin before the end is the end of the file. */
  datatype Import = Import(letters: seq<Letter>, stop: nat)

  predicate IsPadding(c: char) {
    c == ' ' || c == '\0'
  }

  function TrimBody(s: string): (t: string)
    ensures |t| <= |s| && t == s[..|t|]
  {
    if s != "" && IsPadding(s[|s| - 1]) then TrimBody(s[..|s| - 1]) else s
  }

  function ByteOf(c: char): nat {
    c as int % 256
  }

  /** The conference number, least significant byte first. */
  function ConfOf(h: Header): nat
    requires Sized(h)
  {
    ByteOf(h.conf[0]) + 256 * ByteOf(h.conf[1])
  }

  function NumBlocks(h: Header): int {
    Atoi(CStr(h.blocks))
  }

  /** A field without its blanks. */
  function FieldText(f: string): string {
    CStr(TrimRight(f))
  }

  function BodyOf(raw: string): string {
    Take(CStr(TrimBody(Unmarked(raw))), BODY_CAP - 1)
  }

  function LetterOf(h: Header, raw: string): Letter
    requires Sized(h)
  {
    Letter(ConfOf(h), FieldText(h.to), FieldText(h.subject), BodyOf(raw))
  }

  predicate Whole(n: int) {
    1 <= n <= MAX_BLOCKS
  }

  /** Where the body of a message that takes `n` blocks from `i` ends. */
  function EndOf(file: string, i: nat, n: int): (e: nat)
    requires i + BLOCK <= |file| && Whole(n)
    ensures i + BLOCK <= e <= |file|
  {
    Min(i + n * BLOCK, |file|)
  }

  function HeaderAt(file: string, i: nat): (h: Header)
    requires i + BLOCK <= |file|
    ensures Sized(h)
  {
    HeaderFrom(file[i..i + BLOCK])
  }

  /** A message is posted if it is active and in an area the user may post in. */
  function Posted(h: Header, raw: string, may: set<nat>): seq<Letter>
    requires Sized(h)
  {
    if h.active == ACTIVE && ConfOf(h) in may then [LetterOf(h, raw)] else []
  }

  function ReadFrom(file: string, i: nat, may: set<nat>): (r: Import)
    requires i <= |file|
    ensures i <= r.stop <= |file|
    decreases |file| - i
  {
    if |file| - i < BLOCK then Import([], i)
    else
      var h := HeaderAt(file, i);
      var n := NumBlocks(h);
      if !Whole(n) then Import([], i)
      else
        var e := EndOf(file, i, n);
        var rest := ReadFrom(file, e, may);
        Import(Posted(h, file[i + BLOCK..e], may) + rest.letters, rest.stop)
  }

  /* ---------- the reader's loops ---------- */

  lemma UnmarkStep(now: string, was: string, i: nat)
    requires i < |was| && now == Unmarked(was[..i]) + was[i..]
    ensures now[i] == was[i]
    ensures now[i := UnmarkChar(was[i])] == Unmarked(was[..i + 1]) + was[i + 1..]
  {
    assert was[..i + 1][..i] == was[..i];
  }

  method UnmarkLineFeeds(body: array<char>, n: nat)
    requires n <= body.Length
    modifies body
    ensures body[..] == Unmarked(old(body[..n])) + old(body[n..])
  {
    ghost var was := body[..];
    for i := 0 to n
      invariant body[..] == Unmarked(was[..i]) + was[i..]
    {
      ghost var now := body[..];
      UnmarkStep(now, was, i);
      hide Unmarked;
      if body[i] == MARK {
        body[i] := '\n';
      }
      assert body[..] == now[i := UnmarkChar(was[i])];
    }
  }

  lemma TrimStep(s: string, k: nat)
    requires 0 < k <= |s| && IsPadding(s[k - 1])
    ensures TrimBody(s[..k]) == TrimBody(s[..k - 1])
  {
    assert s[..k][..k - 1] == s[..k - 1];
  }

  method TrimEnd(body: array<char>, n: nat) returns (k: nat)
    requires n < body.Length && body[n] == '\0'
    modifies body
    ensures k <= n && body[..k] == TrimBody(old(body[..n])) && body[k] == '\0'
  {
    k := n;
    ghost var was := body[..];
    assert was[..n] == body[..n];
    while k > 0 && (body[k - 1] == ' ' || body[k - 1] == '\0')
      invariant k <= n && body[..k] == was[..k] && body[k] == '\0'
      invariant TrimBody(was[..k]) == TrimBody(was[..n])
    {
      assert body[k - 1] == body[..k][k - 1] == was[..k][k - 1];
      TrimStep(was, k);
      k := k - 1;
      body[k] := '\0';
      assert body[..k] == was[..k];
    }
    assert k > 0 ==> was[..k][k - 1] == body[..k][k - 1];
  }

  /** The bytes of a body, as the C string that is posted. */
  method ReadBody(raw: string) returns (t: string)
    ensures t == BodyOf(raw)
  {
    var n := |raw|;
    var body := new char[n + 1](_ => '\0');
    forall i | 0 <= i < n {
      body[i] := raw[i];
    }
    assert body[..n] == raw;
    assert body[n..] == ['\0'];
    UnmarkLineFeeds(body, n);
    assert body[n] == body[..][n] == '\0';
    assert body[..n] == body[..][..n] == Unmarked(raw);
    var k := TrimEnd(body, n);
    t := Take(CStr(body[..k]), BODY_CAP - 1);
  }

  method TrimField(f: string) returns (t: string)
    ensures t == FieldText(f)
  {
    var k: nat := |f|;
    assert f[..k] == f;
    while k > 0 && f[k - 1] == ' '
      invariant k <= |f| && TrimRight(f[..k]) == TrimRight(f)
    {
      assert f[..k][..k - 1] == f[..k - 1];
      k := k - 1;
    }
    t := CStr(f[..k]);
  }

  lemma ReadMore(file: string, i: nat, may: set<nat>, letters: seq<Letter>)
    requires i + BLOCK <= |file| && Whole(NumBlocks(HeaderAt(file, i)))
    ensures var h := HeaderAt(file, i);
            var e := EndOf(file, i, NumBlocks(h));
            letters + ReadFrom(file, i, may).letters ==
            letters + Posted(h, file[i + BLOCK..e], may) + ReadFrom(file, e, may).letters &&
            ReadFrom(file, i, may).stop == ReadFrom(file, e, may).stop
  {
    var h := HeaderAt(file, i);
    var e := EndOf(file, i, NumBlocks(h));
    Assoc(letters, Posted(h, file[i + BLOCK..e], may), ReadFrom(file, e, may).letters);
  }

  method ReadLetter(h: Header, raw: string, may: set<nat>) returns (ls: seq<Letter>)
    requires Sized(h)
    ensures ls == Posted(h, raw, may)
  {
    var body := ReadBody(raw);
    if h.active != ACTIVE {
      return [];
    }
    var to := TrimField(h.to);
    var subject := TrimField(h.subject);
    ls := [];
    if ConfOf(h) in may {
      ls := [Letter(ConfOf(h), to, subject, body)];
    }
  }

  /** The loop of qwk_import_rep; `may` are the areas the user may post in. */
  method ImportRep(file: string, may: set<nat>) returns (letters: seq<Letter>, stop: nat)
    ensures Import(letters, stop) == ReadFrom(file, Min(BLOCK, |file|), may)
  {
    hide HeaderFrom, NumBlocks, Posted;
    letters := [];
    var i := Min(BLOCK, |file|);
    ghost var all := ReadFrom(file, i, may);
    while |file| - i >= BLOCK
      invariant i <= |file| && letters + ReadFrom(file, i, may).letters == all.letters
      invariant ReadFrom(file, i, may).stop == all.stop
    {
      var h := HeaderAt(file, i);
      var n := NumBlocks(h);
      if n < 1 || n > MAX_BLOCKS {
        break;
      }
      ReadMore(file, i, may, letters);
      var e := EndOf(file, i, n);
      var ls := ReadLetter(h, file[i + BLOCK..e], may);
      letters := letters + ls;
      i := e;
    }
    stop := i;
  }
}
