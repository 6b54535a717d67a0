/** What the writer writes the reader reads back, message by message to the end of
    the file, and the index points at the records. */
module QwkLaws {
  import opened CStrings
  import opened Bytes
  import opened Qwk
  import opened QwkRead

  predicate NoNul(s: string) {
    forall i :: 0 <= i < |s| ==> s[i] != '\0'
  }

  /** What a message is in memory: C strings, the body in a buffer of 2048. */
  predicate InMemory(m: Message) {
    NoNul(m.toName) && NoNul(m.subject) && NoNul(m.body) && |m.body| < BODY_CAP
  }

  predicate AllInMemory(posts: seq<Post>) {
    forall i :: 0 <= i < |posts| ==> InMemory(posts[i].m)
  }

  /** What comes back of a message, whatever its fields are. */
  function Returned(p: Post): Letter {
    Letter(p.area % 65536, TrimRight(Take(Addressee(p.m), 25)), TrimRight(Take(p.m.subject, 25)),
           TrimRight(Unmarked(p.m.body)))
  }

  /** The messages from the `k`-th on that come back to areas the user may post in. */
  function AllReturned(posts: seq<Post>, k: nat, may: set<nat>): seq<Letter>
    requires k <= |posts|
    decreases |posts| - k
  {
    if k == |posts| then []
    else (if Returned(posts[k]).area in may then [Returned(posts[k])] else []) + AllReturned(posts, k + 1, may)
  }

  /* ---------- fields ---------- */

  lemma {:induction false} CStrOf(s: string)
    requires NoNul(s)
    ensures CStr(s) == s
  {
    if s != "" {
      CStrOf(s[1..]);
      assert s == [s[0]] + s[1..];
    }
  }

  lemma {:induction false} TrimSpaces(s: string, n: nat)
    ensures TrimRight(s + Spaces(n)) == TrimRight(s)
    decreases n
  {
    if n == 0 {
      assert s + Spaces(0) == s;
    } else {
      assert (s + Spaces(n))[..|s + Spaces(n)| - 1] == s + Spaces(n - 1);
      TrimSpaces(s, n - 1);
    }
  }

  lemma FieldReturns(src: string, len: nat)
    requires NoNul(src)
    ensures FieldText(PadField(src, len)) == TrimRight(Take(src, len))
  {
    TrimSpaces(Take(src, len), len - Min(|src|, len));
    CStrOf(TrimRight(Take(src, len)));
  }

  lemma NumberReturns(n: nat)
    requires 1 <= n <= MAX_BLOCKS
    ensures Atoi(CStr(PadField(NumStr(n), 6))) == n
  {
    hide Decimal, Atoi, CStr;
    var d := Decimal(n);
    assert n < Pow10(4);
    DecimalLength(n, 4);
    assert NumStr(n) == d && Take(d, 6) == d;
    CStrOf(d + Spaces(6 - |d|));
    AtoiDecimal(n, Spaces(6 - |d|));
  }

  lemma ConfReturns(h: Header, area: nat)
    requires Sized(h) && h.conf == TwoBytes(area)
    ensures ConfOf(h) == area % 65536
  {
    LowAndHigh(area);
    hide LowByte, ByteOf;
  }

  lemma LowAndHigh(n: nat)
    ensures ByteOf(LowByte(n)) + 256 * ByteOf(LowByte(n / 256)) == n % 65536
  {
    var low := n % 256 + 256 * (n / 256 % 256);
    assert n == n / 256 / 256 * 65536 + low;
    LastWord(n, n / 256 / 256, low);
  }

  lemma LastWord(n: nat, rest: nat, low: nat)
    requires n == rest * 65536 + low && low < 65536
    ensures n % 65536 == low
  {
  }

  /* ---------- bodies ---------- */

  lemma {:induction false} UnmarkedMarked(s: string)
    ensures Unmarked(Marked(s)) == Unmarked(s)
  {
    if s != "" {
      var n := |s| - 1;
      UnmarkedMarked(s[..n]);
      assert Marked(s)[..n] == Marked(s[..n]);
    }
  }

  lemma {:induction false} UnmarkedSpaces(s: string, n: nat)
    ensures Unmarked(s + Spaces(n)) == Unmarked(s) + Spaces(n)
    decreases n
  {
    if n == 0 {
      assert s + Spaces(0) == s;
    } else {
      assert (s + Spaces(n))[..|s + Spaces(n)| - 1] == s + Spaces(n - 1);
      UnmarkedSpaces(s, n - 1);
    }
  }

  lemma {:induction false} UnmarkedNoNul(s: string)
    requires NoNul(s)
    ensures NoNul(Unmarked(s))
  {
    if s != "" {
      UnmarkedNoNul(s[..|s| - 1]);
    }
  }

  lemma {:induction false} TrimBodyIs(s: string)
    requires NoNul(s)
    ensures TrimBody(s) == TrimRight(s)
  {
    if s != "" {
      TrimBodyIs(s[..|s| - 1]);
    }
  }

  lemma SpacesNoNul(s: string, n: nat)
    requires NoNul(s)
    ensures NoNul(s + Spaces(n))
  {
  }

  lemma BodyReturns(m: Message)
    requires InMemory(m)
    ensures BodyOf(BodyText(m)) == TrimRight(Unmarked(m.body))
  {
    hide Unmarked, Marked, TrimRight, TrimBody, CStr, NoNul, Spaces, BlocksOf;
    var n := BLOCK * BlocksOf(m) - BLOCK - |m.body|;
    var u := Unmarked(m.body);
    UnmarkedSpaces(Marked(m.body), n);
    UnmarkedMarked(m.body);
    UnmarkedNoNul(m.body);
    SpacesNoNul(u, n);
    TrimBodyIs(u + Spaces(n));
    TrimSpaces(u, n);
    TrimmedNoNul(u);
    CStrOf(TrimRight(u));
  }

  lemma TrimmedNoNul(s: string)
    requires NoNul(s)
    ensures NoNul(TrimRight(s))
  {
  }

  /* ---------- one record ---------- */

  lemma FewBlocks(m: Message)
    requires InMemory(m)
    ensures 1 <= BlocksOf(m) <= 17
  {
  }

  lemma HeaderReturns(p: Post, me: int)
    requires InMemory(p.m)
    ensures var h := HeaderOf(p, me);
            NumBlocks(h) == BlocksOf(p.m) && ConfOf(h) == p.area % 65536 && h.active == ACTIVE &&
            FieldText(h.to) == Returned(p).to && FieldText(h.subject) == Returned(p).subject
  {
    hide PadField, NumStr, FieldText, CStr, TwoBytes, TrimRight, Take, BlocksOf;
    FewBlocks(p.m);
    NumberReturns(BlocksOf(p.m));
    ConfReturns(HeaderOf(p, me), p.area);
    AddresseeNoNul(p.m);
    FieldReturns(Addressee(p.m), 25);
    FieldReturns(p.m.subject, 25);
  }

  lemma AddresseeNoNul(m: Message)
    requires InMemory(m)
    ensures NoNul(Addressee(m))
  {
  }

  lemma RecordStands(file: string, i: nat, p: Post, me: int)
    requires At(file, i, Record(p, me))
    ensures i + BLOCK * BlocksOf(p.m) <= |file| && BlocksOf(p.m) >= 1
    ensures HeaderAt(file, i) == HeaderOf(p, me)
    ensures file[i + BLOCK..i + BLOCK * BlocksOf(p.m)] == BodyText(p.m)
  {
    hide HeaderText, HeaderFrom, BodyText, HeaderOf, BlocksOf;
    HeaderComesBack(HeaderOf(p, me));
    AtSplit(file, i, HeaderText(HeaderOf(p, me)), BodyText(p.m));
  }

  lemma ReadsWhole(file: string, i: nat, n: nat, may: set<nat>)
    requires 1 <= n <= MAX_BLOCKS && i + BLOCK * n <= |file| && NumBlocks(HeaderAt(file, i)) == n
    ensures var rest := ReadFrom(file, i + BLOCK * n, may);
            ReadFrom(file, i, may) ==
            Import(Posted(HeaderAt(file, i), file[i + BLOCK..i + BLOCK * n], may) + rest.letters, rest.stop)
  {
    hide HeaderAt, NumBlocks, Posted;
  }

  lemma PostedIs(h: Header, body: string, p: Post, may: set<nat>)
    requires Sized(h) && ConfOf(h) == Returned(p).area && h.active == ACTIVE && BodyOf(body) == Returned(p).body
    requires FieldText(h.to) == Returned(p).to && FieldText(h.subject) == Returned(p).subject
    ensures Posted(h, body, may) == if Returned(p).area in may then [Returned(p)] else []
  {
    hide ConfOf, FieldText, BodyOf, Returned;
  }

  /** Reading at a record that the writer wrote gives its message and goes on behind it. */
  lemma RecordReads(file: string, i: nat, p: Post, me: int, may: set<nat>)
    requires At(file, i, Record(p, me)) && InMemory(p.m)
    ensures var e := i + BLOCK * BlocksOf(p.m);
            e <= |file| &&
            ReadFrom(file, i, may) ==
            Import((if Returned(p).area in may then [Returned(p)] else []) + ReadFrom(file, e, may).letters,
                   ReadFrom(file, e, may).stop)
  {
    hide At, Record, HeaderOf, HeaderAt, NumBlocks, ConfOf, FieldText, BodyOf, BodyText, BlocksOf, TrimRight, Posted,
      ReadFrom;
    RecordStands(file, i, p, me);
    HeaderReturns(p, me);
    FewBlocks(p.m);
    BodyReturns(p.m);
    ReadsWhole(file, i, BlocksOf(p.m), may);
    PostedIs(HeaderOf(p, me), BodyText(p.m), p, may);
  }

  /* ---------- the whole file ---------- */

  lemma {:induction false} FileLength(posts: seq<Post>, me: int)
    ensures |FileOf(posts, me)| == BLOCK * Blocks(posts)
  {
    hide Record, HeaderBlock;
    if posts != [] {
      FileLength(posts[..|posts| - 1], me);
    }
  }

  /** The `k`-th record stands where the blocks of the messages before it end. */
  lemma {:induction false} RecordAt(posts: seq<Post>, k: nat, me: int)
    requires k < |posts|
    ensures At(FileOf(posts, me), BLOCK * Blocks(posts[..k]), Record(posts[k], me))
    decreases |posts|
  {
    hide Record, Blocks;
    var front := posts[..|posts| - 1];
    FileLength(front, me);
    var f, r := FileOf(front, me), Record(posts[|posts| - 1], me);
    assert FileOf(posts, me) == f + r;
    hide FileOf;
    if k == |front| {
      assert (f + r)[|f|..|f| + |r|] == r;
    } else {
      RecordAt(front, k, me);
      assert front[..k] == posts[..k];
      StillAt(f, BLOCK * Blocks(posts[..k]), Record(posts[k], me), r);
    }
  }

  lemma BlocksGrow(posts: seq<Post>, k: nat)
    requires k < |posts|
    ensures Blocks(posts[..k + 1]) == Blocks(posts[..k]) + BlocksOf(posts[k].m)
  {
    assert posts[..k + 1][..k] == posts[..k];
  }

  lemma {:induction false} ReadsFrom(posts: seq<Post>, k: nat, me: int, may: set<nat>)
    requires AllInMemory(posts) && k <= |posts|
    ensures var file := FileOf(posts, me);
            BLOCK * Blocks(posts[..k]) <= |file| &&
            ReadFrom(file, BLOCK * Blocks(posts[..k]), may) == Import(AllReturned(posts, k, may), |file|)
    decreases |posts| - k
  {
    hide FileOf, Record, Blocks, Returned, At, ReadFrom;
    FileLength(posts, me);
    var file := FileOf(posts, me);
    if k == |posts| {
      assert posts[..k] == posts;
      NothingToRead(file, may);
    } else {
      RecordAt(posts, k, me);
      RecordReads(file, BLOCK * Blocks(posts[..k]), posts[k], me, may);
      BlocksGrow(posts, k);
      ReadsFrom(posts, k + 1, me, may);
    }
  }

  lemma NothingToRead(file: string, may: set<nat>)
    ensures ReadFrom(file, |file|, may) == Import([], |file|)
  {
  }

  /** A packet is read to the end of the file, and gives back every message in order. */
  lemma PacketReads(posts: seq<Post>, me: int, may: set<nat>)
    requires AllInMemory(posts)
    ensures var file := FileOf(posts, me);
            |file| >= BLOCK && ReadFrom(file, BLOCK, may) == Import(AllReturned(posts, 0, may), |file|)
  {
    hide ReadFrom, Returned, Record;
    ReadsFrom(posts, 0, me, may);
    assert posts[..0] == [];
  }

  /** Neither too long nor with blanks at the end. */
  predicate Tidy(s: string, len: nat) {
    |s| <= len && (s != "" ==> s[|s| - 1] != ' ')
  }

  lemma TidyReturns(s: string, len: nat)
    ensures TrimRight(Take(s, len)) == s <==> Tidy(s, len)
  {
    if Tidy(s, len) {
      assert Take(s, len) == s;
    }
  }

  lemma {:induction false} UnmarkedSame(s: string)
    ensures Unmarked(s) == s <==> forall i :: 0 <= i < |s| ==> s[i] != MARK
  {
    if s != "" {
      var n := |s| - 1;
      UnmarkedSame(s[..n]);
      assert s == s[..n] + [s[n]];
      assert Unmarked(s) == s ==> Unmarked(s)[..n] == s[..n] && Unmarked(s)[n] == s[n];
    }
  }

  /** A message comes back unchanged exactly when its area number fits two bytes, its
      addressee is named, addressee and subject fit their fields, and neither they nor
      the body end in blanks, and the body has no byte 227. */
  lemma ComesBackIff(p: Post)
    ensures Returned(p) == Letter(p.area, p.m.toName, p.m.subject, p.m.body) <==>
            p.area < 65536 && p.m.toName != "" && Tidy(p.m.toName, 25) && Tidy(p.m.subject, 25) &&
            Tidy(p.m.body, |p.m.body|) && forall i :: 0 <= i < |p.m.body| ==> p.m.body[i] != MARK
  {
    TidyReturns(Addressee(p.m), 25);
    TidyReturns(p.m.subject, 25);
    UnmarkedSame(p.m.body);
    var u := Unmarked(p.m.body);
    assert p.m.toName == "" ==> Addressee(p.m) == "All";
    NamedAll();
    assert TrimRight(u) == p.m.body ==> TrimRight(u) == u;
  }

  lemma NamedAll()
    ensures TrimRight(Take("All", 25)) == "All"
  {
  }

  /** Every entry of the index, times 128, is the offset in the file of its message's record. */
  lemma IndexPointsAtRecords(posts: seq<Post>, k: nat, me: int)
    requires k < |posts|
    ensures var e, file := Entries(posts)[k], FileOf(posts, me);
            e.conf == posts[k].area && At(file, 128 * e.block, Record(posts[k], me))
  {
    hide FileOf, Record, At;
    EntryIs(posts, k);
    RecordAt(posts, k, me);
  }

  lemma {:induction false} EntryIs(posts: seq<Post>, k: nat)
    requires k < |posts|
    ensures Entries(posts)[k] == NdxEntry(posts[k].area, Blocks(posts[..k]))
    decreases |posts|
  {
    var front := posts[..|posts| - 1];
    if k < |front| {
      EntryIs(front, k);
      assert front[..k] == posts[..k];
    }
  }
}
