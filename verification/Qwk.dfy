/** QWK packets: MESSAGES.DAT in blocks of 128 bytes with its index, and the reader
    of a reply packet.  A file is the string of its bytes. */
module Qwk {
  import opened CStrings
  import opened Bytes

  const BLOCK := 128
  const MAX_BLOCKS := 1000
  const MAX_NDX := 4096
  const MAX_AREAS := 64
  const BODY_CAP := 2048
  const NUMSTR_CAP := 8
  const ACTIVE: char := 225 as char

  /** What stands for a line feed in a body. */
  const MARK: char := 227 as char

  datatype Message = Message(
    id: nat, toUser: int, replyTo: nat, created: string, toName: string, fromName: string,
    handle: string, subject: string, body: string)

  datatype Area = Area(id: nat, readable: bool, messages: seq<Message>)

  datatype Post = Post(area: nat, m: Message)

  /** What the reader hands to the message base. */
  datatype Letter = Letter(area: nat, to: string, subject: string, body: string)

  datatype NdxEntry = NdxEntry(conf: nat, block: nat)

  datatype Header = Header(
    status: char, msgnum: string, date: string, time: string, to: string, from: string, subject: string,
    password: string, refnum: string, blocks: string, active: char, conf: string, logical: string, nettag: char)

  /** The text of a C buffer: what stands before its first NUL. */
  function CStr(s: string): string {
    if s == "" || s[0] == '\0' then "" else [s[0]] + CStr(s[1..])
  }

  function Take(s: string, n: nat): string {
    s[..Min(|s|, n)]
  }

  /** pad_field */
  function PadField(src: string, len: nat): (s: string)
    ensures |s| == len
  {
    Take(src, len) + Spaces(len - Min(|src|, len))
  }

  /* ---------- the header record ---------- */

  predicate Sized(h: Header) {
    |h.msgnum| == 7 && |h.date| == 8 && |h.time| == 5 && |h.to| == 25 && |h.from| == 25 && |h.subject| == 25 &&
    |h.password| == 12 && |h.refnum| == 8 && |h.blocks| == 6 && |h.conf| == 2 && |h.logical| == 2
  }

  /** The fields from `subject` on. */
  function HeaderEnd(h: Header): string {
    h.subject + (h.password + (h.refnum + (h.blocks + ([h.active] + (h.conf + (h.logical + [h.nettag]))))))
  }

  /** The bytes of the record, field after field. */
  function HeaderText(h: Header): string {
    [h.status] + (h.msgnum + (h.date + (h.time + (h.to + (h.from + HeaderEnd(h))))))
  }

  /** The record that 128 bytes hold. */
  function HeaderFrom(t: string): Header
    requires |t| == BLOCK
  {
    Header(t[0], t[1..8], t[8..16], t[16..21], t[21..46], t[46..71], t[71..96], t[96..108], t[108..116],
           t[116..122], t[122], t[123..125], t[125..127], t[127])
  }

  lemma FrontFields(h: Header, t: string)
    requires Sized(h) && At(t, 0, HeaderText(h))
    ensures At(t, 0, [h.status]) && At(t, 1, h.msgnum) && At(t, 8, h.date) && At(t, 16, h.time) &&
            At(t, 21, h.to) && At(t, 46, h.from) && At(t, 71, HeaderEnd(h))
  {
    hide At, HeaderEnd;
    var e := HeaderEnd(h);
    AtSplit(t, 0, [h.status], h.msgnum + (h.date + (h.time + (h.to + (h.from + e)))));
    AtSplit(t, 1, h.msgnum, h.date + (h.time + (h.to + (h.from + e))));
    AtSplit(t, 8, h.date, h.time + (h.to + (h.from + e)));
    AtSplit(t, 16, h.time, h.to + (h.from + e));
    AtSplit(t, 21, h.to, h.from + e);
    AtSplit(t, 46, h.from, e);
  }

  lemma EndFields(h: Header, t: string)
    requires Sized(h) && At(t, 71, HeaderEnd(h))
    ensures At(t, 71, h.subject) && At(t, 96, h.password) && At(t, 108, h.refnum) && At(t, 116, h.blocks) &&
            At(t, 122, [h.active]) && At(t, 123, h.conf) && At(t, 125, h.logical) && At(t, 127, [h.nettag])
  {
    hide At;
    AtSplit(t, 71, h.subject,
            h.password + (h.refnum + (h.blocks + ([h.active] + (h.conf + (h.logical + [h.nettag]))))));
    AtSplit(t, 96, h.password, h.refnum + (h.blocks + ([h.active] + (h.conf + (h.logical + [h.nettag])))));
    AtSplit(t, 108, h.refnum, h.blocks + ([h.active] + (h.conf + (h.logical + [h.nettag]))));
    AtSplit(t, 116, h.blocks, [h.active] + (h.conf + (h.logical + [h.nettag])));
    AtSplit(t, 122, [h.active], h.conf + (h.logical + [h.nettag]));
    AtSplit(t, 123, h.conf, h.logical + [h.nettag]);
    AtSplit(t, 125, h.logical, [h.nettag]);
  }

  lemma OneChar(t: string, i: nat, c: char)
    requires At(t, i, [c])
    ensures i < |t| && t[i] == c
  {
    assert t[i..i + 1][0] == c;
  }

  lemma HeaderComesBack(h: Header)
    requires Sized(h)
    ensures |HeaderText(h)| == BLOCK && HeaderFrom(HeaderText(h)) == h
  {
    hide HeaderEnd;
    var t := HeaderText(h);
    HeaderIsOneBlock(h);
    assert t[0..BLOCK] == t;
    assert At(t, 0, t);
    FrontFields(h, t);
    EndFields(h, t);
    hide HeaderText;
    OneChar(t, 0, h.status);
    OneChar(t, 122, h.active);
    OneChar(t, 127, h.nettag);
  }

  lemma HeaderIsOneBlock(h: Header)
    requires Sized(h)
    ensures |HeaderText(h)| == BLOCK
  {
  }

  /* ---------- one message ---------- */

  /** "%d" in a buffer of eight. */
  function NumStr(n: nat): string {
    Take(Decimal(n), NUMSTR_CAP - 1)
  }

  function LowByte(n: nat): char {
    (n % 256) as char
  }

  function TwoBytes(n: nat): string {
    [LowByte(n), LowByte(n / 256)]
  }

  /** How many blocks a message takes: its record and its body, rounded up. */
  function BlocksOf(m: Message): (n: nat)
    ensures BLOCK * (n - 1) < BLOCK + |m.body| <= BLOCK * n
  {
    (BLOCK + |m.body| + BLOCK - 1) / BLOCK
  }

  function StatusOf(m: Message, me: int): char {
    if m.toUser > 0 then (if m.toUser == me then '+' else '*') else ' '
  }

  /** MM-DD-YY out of YYYY-MM-DD HH:MM. */
  function DateOf(c: string): string {
    if |c| >= 10 then [c[5], c[6], '-', c[8], c[9], '-', c[2], c[3]] else Spaces(8)
  }

  function TimeOf(c: string): string {
    if |c| >= 16 then [c[11], c[12], ':', c[14], c[15]] else Spaces(5)
  }

  function Addressee(m: Message): string {
    if m.toName != "" then m.toName else "All"
  }

  function Sender(m: Message): string {
    if m.fromName != "" then m.fromName else m.handle
  }

  function HeaderOf(p: Post, me: int): (h: Header)
    ensures Sized(h)
  {
    var m := p.m;
    Header(StatusOf(m, me), PadField(NumStr(m.id), 7), DateOf(m.created), TimeOf(m.created),
           PadField(Addressee(m), 25), PadField(Sender(m), 25), PadField(m.subject, 25), PadField("", 12),
           PadField(NumStr(m.replyTo), 8), PadField(NumStr(BlocksOf(m)), 6), ACTIVE, TwoBytes(p.area), TwoBytes(m.id),
           ' ')
  }

  function MarkChar(c: char): char {
    if c == '\n' then MARK else c
  }

  function UnmarkChar(c: char): char {
    if c == MARK then '\n' else c
  }

  /** Line feeds become byte 227. */
  function Marked(s: string): (t: string)
    ensures |t| == |s|
  {
    if s == "" then "" else Marked(s[..|s| - 1]) + [MarkChar(s[|s| - 1])]
  }

  /** Byte 227 becomes a line feed. */
  function Unmarked(s: string): (t: string)
    ensures |t| == |s|
  {
    if s == "" then "" else Unmarked(s[..|s| - 1]) + [UnmarkChar(s[|s| - 1])]
  }

  function BodyText(m: Message): (t: string)
    ensures |t| == BLOCK * BlocksOf(m) - BLOCK
  {
    Marked(m.body) + Spaces(BLOCK * BlocksOf(m) - BLOCK - |m.body|)
  }

  function Record(p: Post, me: int): (t: string)
    ensures |t| == BLOCK * BlocksOf(p.m)
  {
    HeaderIsOneBlock(HeaderOf(p, me));
    HeaderText(HeaderOf(p, me)) + BodyText(p.m)
  }

  /* ---------- the whole file and its index ---------- */

  function HeaderBlock(): (t: string)
    ensures |t| == BLOCK
  {
    PadField("Produced by Mutineer BBS", BLOCK)
  }

  function FileOf(posts: seq<Post>, me: int): string {
    if posts == [] then HeaderBlock() else FileOf(posts[..|posts| - 1], me) + Record(posts[|posts| - 1], me)
  }

  /** How many blocks the file has. */
  function Blocks(posts: seq<Post>): nat {
    if posts == [] then 1 else Blocks(posts[..|posts| - 1]) + BlocksOf(posts[|posts| - 1].m)
  }

  /** The index of every message: its area and the block it begins at. */
  function Entries(posts: seq<Post>): (es: seq<NdxEntry>)
    ensures |es| == |posts|
  {
    if posts == [] then []
    else
      var front := posts[..|posts| - 1];
      Entries(front) + [NdxEntry(posts[|front|].area, Blocks(front))]
  }

  /** The index of the messages to the user. */
  function Personal(posts: seq<Post>, me: int): seq<NdxEntry> {
    if posts == [] then []
    else
      var front := posts[..|posts| - 1];
      Personal(front, me) +
      if posts[|front|].m.toUser == me then [NdxEntry(posts[|front|].area, Blocks(front))] else []
  }

  /** The first entries, as many as the index can hold. */
  function Indexed(es: seq<NdxEntry>): seq<NdxEntry> {
    es[..Min(|es|, MAX_NDX)]
  }

  function AreaPosts(area: nat, ms: seq<Message>): (ps: seq<Post>)
    ensures |ps| == |ms|
  {
    if ms == [] then [] else AreaPosts(area, ms[..|ms| - 1]) + [Post(area, ms[|ms| - 1])]
  }

  /** Every new message of every area the user may read, in the order of the areas. */
  function PostsOf(areas: seq<Area>): seq<Post> {
    if areas == [] then []
    else
      var a := areas[|areas| - 1];
      PostsOf(areas[..|areas| - 1]) + if a.readable then AreaPosts(a.id, a.messages) else []
  }

  /** The areas that have messages in the packet. */
  function AreasUsed(areas: seq<Area>): (used: seq<nat>)
    ensures |used| <= |areas|
  {
    if areas == [] then []
    else
      var a := areas[|areas| - 1];
      AreasUsed(areas[..|areas| - 1]) + if a.readable && a.messages != [] then [a.id] else []
  }

  /* ---------- the writer ---------- */

  method MakeHeader(p: Post, me: int) returns (h: Header)
    ensures h == HeaderOf(p, me)
  {
    hide PadField, NumStr, Spaces, TwoBytes;
    var m := p.m;
    h := Header(' ', Spaces(7), Spaces(8), Spaces(5), Spaces(25), Spaces(25), Spaces(25), Spaces(12), Spaces(8),
                Spaces(6), ' ', Spaces(2), Spaces(2), ' ');
    if m.toUser > 0 {
      h := h.(status := if m.toUser == me then '+' else '*');
    }
    h := h.(msgnum := PadField(NumStr(m.id), 7));
    if |m.created| >= 10 {
      var c := m.created;
      h := h.(date := [c[5], c[6], '-', c[8], c[9], '-', c[2], c[3]]);
      if |m.created| >= 16 {
        h := h.(time := [c[11], c[12], ':', c[14], c[15]]);
      }
    }
    h := h.(to := PadField(Addressee(m), 25), from := PadField(Sender(m), 25));
    h := h.(subject := PadField(m.subject, 25), password := PadField("", 12));
    h := h.(refnum := PadField(NumStr(m.replyTo), 8), blocks := PadField(NumStr(BlocksOf(m)), 6));
    h := h.(active := ACTIVE, conf := TwoBytes(p.area), logical := TwoBytes(m.id), nettag := ' ');
  }

  lemma MarkStep(now: string, was: string, i: nat)
    requires i < |was| && now == Marked(was[..i]) + was[i..]
    ensures now[i] == was[i]
    ensures now[i := MarkChar(was[i])] == Marked(was[..i + 1]) + was[i + 1..]
  {
    assert was[..i + 1][..i] == was[..i];
  }

  method MarkLineFeeds(block: array<char>, n: nat)
    requires n <= block.Length
    modifies block
    ensures block[..] == Marked(old(block[..n])) + old(block[n..])
  {
    ghost var was := block[..];
    for i := 0 to n
      invariant block[..] == Marked(was[..i]) + was[i..]
    {
      ghost var now := block[..];
      MarkStep(now, was, i);
      hide Marked;
      if block[i] == '\n' {
        block[i] := MARK;
      }
      assert block[..] == now[i := MarkChar(was[i])];
    }
  }

  /** The body in blocks of its own, filled up with blanks. */
  method MakeBody(m: Message) returns (t: string)
    ensures t == BodyText(m)
  {
    hide Marked, BlocksOf;
    var remaining := BLOCK * BlocksOf(m) - BLOCK;
    var n := |m.body|;
    var block := new char[remaining](_ => ' ');
    forall i | 0 <= i < n {
      block[i] := m.body[i];
    }
    assert block[..n] == m.body;
    assert block[n..] == Spaces(remaining - n);
    MarkLineFeeds(block, n);
    t := block[..];
  }

  lemma RecordParts(p: Post, me: int)
    ensures Record(p, me) == HeaderText(HeaderOf(p, me)) + BodyText(p.m)
  {
  }

  lemma PostSnoc(posts: seq<Post>, p: Post, me: int)
    ensures FileOf(posts + [p], me) == FileOf(posts, me) + Record(p, me)
    ensures Blocks(posts + [p]) == Blocks(posts) + BlocksOf(p.m)
    ensures Entries(posts + [p]) == Entries(posts) + [NdxEntry(p.area, Blocks(posts))]
  {
    assert (posts + [p])[..|posts|] == posts;
  }

  lemma IndexedSnoc(entries: seq<NdxEntry>, e: NdxEntry)
    ensures Indexed(entries + [e]) == Indexed(entries) + if |Indexed(entries)| < MAX_NDX then [e] else []
  {
  }

  lemma PersonalSnoc(posts: seq<Post>, p: Post, me: int)
    ensures Personal(posts + [p], me) ==
            Personal(posts, me) + if p.m.toUser == me then [NdxEntry(p.area, Blocks(posts))] else []
  {
    assert (posts + [p])[..|posts|] == posts;
  }

  lemma AreaPostSnoc(before: seq<Post>, a: Area, k: nat)
    requires k < |a.messages|
    ensures before + AreaPosts(a.id, a.messages[..k + 1]) ==
            before + AreaPosts(a.id, a.messages[..k]) + [Post(a.id, a.messages[k])]
  {
    assert a.messages[..k + 1][..k] == a.messages[..k];
  }

  lemma AreaSnoc(areas: seq<Area>, a: nat)
    requires a < |areas|
    ensures PostsOf(areas[..a + 1]) ==
            if areas[a].readable then PostsOf(areas[..a]) + AreaPosts(areas[a].id, areas[a].messages)
            else PostsOf(areas[..a])
    ensures AreasUsed(areas[..a + 1]) ==
            if areas[a].readable && areas[a].messages != [] then AreasUsed(areas[..a]) + [areas[a].id]
            else AreasUsed(areas[..a])
  {
    assert areas[..a + 1][..a] == areas[..a];
  }

  /** The packet being written. */
  class MessagesDat {
    var file: string
    var currentBlock: nat
    var msgCount: nat
    var ndx: seq<NdxEntry>
    var personal: seq<NdxEntry>
    var areasUsed: seq<nat>

    /** The file and the index hold these messages and no others. */
    ghost predicate Holds(posts: seq<Post>, me: int)
      reads `file, `currentBlock, `msgCount, `ndx, `personal
    {
      file == FileOf(posts, me) && currentBlock == Blocks(posts) && msgCount == |posts| &&
      ndx == Indexed(Entries(posts)) && personal == Indexed(Personal(posts, me))
    }

    constructor (me: int)
      ensures Holds([], me) && areasUsed == []
    {
      file, currentBlock, msgCount := HeaderBlock(), 1, 0;
      ndx, personal, areasUsed := [], [], [];
    }

    method WriteMessage(p: Post, me: int, ghost posts: seq<Post>)
      requires Holds(posts, me)
      modifies this
      ensures Holds(posts + [p], me) && areasUsed == old(areasUsed)
    {
      hide Record, HeaderText, BodyText, HeaderOf, BlocksOf, FileOf, Blocks, Entries, Personal, Indexed;
      PostSnoc(posts, p, me);
      IndexedSnoc(Entries(posts), NdxEntry(p.area, Blocks(posts)));
      IndexedSnoc(Personal(posts, me), NdxEntry(p.area, Blocks(posts)));
      assert Personal(posts, me) + [] == Personal(posts, me);
      PersonalSnoc(posts, p, me);
      var h := MakeHeader(p, me);
      if |ndx| < MAX_NDX {
        ndx := ndx + [NdxEntry(p.area, currentBlock)];
      }
      if p.m.toUser == me && |personal| < MAX_NDX {
        personal := personal + [NdxEntry(p.area, currentBlock)];
      }
      var body := MakeBody(p.m);
      RecordParts(p, me);
      Assoc(file, HeaderText(h), body);
      file := file + HeaderText(h);
      file := file + body;
      currentBlock := currentBlock + BlocksOf(p.m);
      msgCount := msgCount + 1;
    }

    method WriteArea(a: Area, me: int, ghost before: seq<Post>)
      requires Holds(before, me)
      modifies this
      ensures Holds(before + AreaPosts(a.id, a.messages), me) && areasUsed == old(areasUsed)
    {
      hide Holds;
      assert before + [] == before;
      for k := 0 to |a.messages|
        invariant Holds(before + AreaPosts(a.id, a.messages[..k]), me) && areasUsed == old(areasUsed)
      {
        AreaPostSnoc(before, a, k);
        WriteMessage(Post(a.id, a.messages[k]), me, before + AreaPosts(a.id, a.messages[..k]));
      }
      assert a.messages[..|a.messages|] == a.messages;
    }

    /** write_messages_dat_with_ndx */
    method Write(areas: seq<Area>, me: int)
      requires |areas| <= MAX_AREAS
      requires Holds([], me) && areasUsed == []
      modifies this
      ensures Holds(PostsOf(areas), me) && areasUsed == AreasUsed(areas)
    {
      hide Holds;
      for a := 0 to |areas|
        invariant Holds(PostsOf(areas[..a]), me) && areasUsed == AreasUsed(areas[..a])
      {
        AreaSnoc(areas, a);
        if areas[a].readable {
          ghost var before := PostsOf(areas[..a]);
          WriteArea(areas[a], me, before);
          if areas[a].messages != [] && |areasUsed| < MAX_AREAS {
            areasUsed := areasUsed + [areas[a].id];
          }
        }
      }
      assert areas[..|areas|] == areas;
    }
  }
}
