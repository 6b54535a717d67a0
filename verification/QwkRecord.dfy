/** What stands in the 128 bytes of a message record, byte by byte, and in the blocks
    of its body. */
module QwkRecord {
  import opened CStrings
  import opened Bytes
  import opened Qwk
  import opened QwkRead
  import opened QwkLaws

  /** The text stands in the `n` bytes from `i` on, cut to them or filled up with blanks. */
  predicate Field(r: string, i: nat, n: nat, text: string) {
    i + n <= |r| && forall k :: 0 <= k < n ==> r[i + k] == if k < |text| then text[k] else ' '
  }

  lemma PadFieldAt(text: string, n: nat)
    ensures Field(PadField(text, n), 0, n, text)
  {
  }

  lemma FieldIn(r: string, i: nat, n: nat, text: string, f: string)
    requires i + n <= |r| && r[i..i + n] == f && Field(f, 0, n, text)
    ensures Field(r, i, n, text)
  {
    assert forall k :: 0 <= k < n ==> f[k] == r[i + k];
  }

  /** The record begins with the fields of its header, each in its place. */
  lemma RecordFields(p: Post, me: int)
    ensures var r, h := Record(p, me), HeaderOf(p, me);
            |r| >= 128 && r[0] == h.status && r[1..8] == h.msgnum && r[8..16] == h.date && r[16..21] == h.time &&
            r[21..46] == h.to && r[46..71] == h.from && r[71..96] == h.subject && r[96..108] == h.password &&
            r[108..116] == h.refnum && r[116..122] == h.blocks && r[122] == h.active && r[123..125] == h.conf &&
            r[125..127] == h.logical && r[127] == h.nettag && r[128..] == BodyText(p.m)
  {
    hide HeaderText, HeaderFrom, HeaderOf, BodyText;
    var h := HeaderOf(p, me);
    var t, b := HeaderText(h), BodyText(p.m);
    HeaderComesBack(h);
    RecordParts(p, me);
    assert Record(p, me)[..128] == t && Record(p, me)[128..] == b;
    var r := Record(p, me);
    TextFields(h, t);
    SliceIn(r, 0, 128, 1, 8);
    SliceIn(r, 0, 128, 8, 16);
    SliceIn(r, 0, 128, 16, 21);
    SliceIn(r, 0, 128, 21, 46);
    SliceIn(r, 0, 128, 46, 71);
    SliceIn(r, 0, 128, 71, 96);
    SliceIn(r, 0, 128, 96, 108);
    SliceIn(r, 0, 128, 108, 116);
    SliceIn(r, 0, 128, 116, 122);
    SliceIn(r, 0, 128, 123, 125);
    SliceIn(r, 0, 128, 125, 127);
    assert r[0..128] == t;
    assert r[0] == t[0] && r[122] == t[122] && r[127] == t[127];
  }

  lemma TextFields(h: Header, t: string)
    requires |t| == 128 && HeaderFrom(t) == h
    ensures t[0] == h.status && t[1..8] == h.msgnum && t[8..16] == h.date && t[16..21] == h.time &&
            t[21..46] == h.to && t[46..71] == h.from && t[71..96] == h.subject && t[96..108] == h.password &&
            t[108..116] == h.refnum && t[116..122] == h.blocks && t[122] == h.active && t[123..125] == h.conf &&
            t[125..127] == h.logical && t[127] == h.nettag
  {
  }

  /** A part of a part. */
  lemma SliceIn(s: string, a: nat, b: nat, i: nat, j: nat)
    requires a <= b <= |s| && i <= j <= b - a
    ensures s[a..b][i..j] == s[a + i..a + j]
  {
    var t, u := s[a..b][i..j], s[a + i..a + j];
    assert forall k :: 0 <= k < |t| ==> t[k] == u[k];
  }

  /** The texts of a record: who it is to and from, its subject and what follows it. */
  lemma RecordTexts(p: Post, me: int)
    ensures var r := Record(p, me);
            Field(r, 21, 25, if p.m.toName == "" then "All" else p.m.toName) &&
            Field(r, 46, 25, if p.m.fromName == "" then p.m.handle else p.m.fromName) &&
            Field(r, 71, 25, p.m.subject) && Field(r, 96, 12, "")
  {
    hide Record, PadField, Field;
    RecordFields(p, me);
    var r := Record(p, me);
    PadFieldAt(Addressee(p.m), 25);
    PadFieldAt(Sender(p.m), 25);
    PadFieldAt(p.m.subject, 25);
    PadFieldAt("", 12);
    FieldIn(r, 21, 25, Addressee(p.m), PadField(Addressee(p.m), 25));
    FieldIn(r, 46, 25, Sender(p.m), PadField(Sender(p.m), 25));
    FieldIn(r, 71, 25, p.m.subject, PadField(p.m.subject, 25));
    FieldIn(r, 96, 12, "", PadField("", 12));
  }

  /** The bytes of a record that are marks: private to the reader, private to another or
      public, active, and the two numbers of two bytes with the low one first. */
  lemma RecordMarks(p: Post, me: int)
    ensures var r := Record(p, me);
            |r| >= 128 && (r[0] == '+' <==> p.m.toUser > 0 && p.m.toUser == me) &&
            (r[0] == '*' <==> p.m.toUser > 0 && p.m.toUser != me) && (r[0] == ' ' <==> p.m.toUser <= 0) &&
            r[122] as int == 225 && r[127] == ' ' &&
            r[123] as int < 256 && r[124] as int < 256 && r[123] as int + 256 * r[124] as int == p.area % 65536 &&
            r[125] as int < 256 && r[126] as int < 256 && r[125] as int + 256 * r[126] as int == p.m.id % 65536
  {
    hide Record, PadField, NumStr, DateOf, TimeOf, BlocksOf;
    RecordFields(p, me);
    var r := Record(p, me);
    LowAndHigh(p.area);
    LowAndHigh(p.m.id);
    assert r[123..125][0] == r[123] && r[123..125][1] == r[124];
    assert r[125..127][0] == r[125] && r[125..127][1] == r[126];
  }

  lemma NumberField(n: nat, len: nat)
    requires len >= 7
    ensures Atoi(PadField(NumStr(n), len)) == n <==> n < 10_000_000
  {
    hide Decimal, Atoi;
    var d := Decimal(n);
    assert Pow10(4) == 10000;
    assert Pow10(7) == 1000 * Pow10(4);
    if n < 10_000_000 {
      DecimalLength(n, 7);
      assert d[..|d|] == d;
      AtoiDecimal(n, Spaces(len - |d|));
    } else {
      LongDecimal(n, 7);
      assert NumStr(n) == d[..7] && Take(d[..7], len) == d[..7];
      FirstDigits(d, 7, Spaces(len - 7));
      DigitsBelow(d[..7]);
    }
  }

  lemma {:induction false} LongDecimal(n: nat, k: nat)
    requires k >= 1 && n >= Pow10(k)
    ensures |Decimal(n)| > k
    decreases k
  {
    if k > 1 {
      LongDecimal(n / 10, k - 1);
    }
  }

  lemma FirstDigits(d: string, k: nat, rest: string)
    requires k <= |d| && k >= 1 && (forall i :: 0 <= i < |d| ==> IsDigit(d[i])) && (rest != "" ==> !IsDigit(rest[0]))
    ensures Atoi(d[..k] + rest) == NumberOf(d[..k])
  {
    var s := d[..k] + rest;
    assert s[0] == d[0] && IsDigit(s[0]);
    assert SkipSpaces(s, 0) == 0 && s[0..] == s;
    DigitsRun(d[..k], rest);
    assert s[..k] == d[..k];
  }

  lemma {:induction false} DigitsBelow(d: string)
    requires forall i :: 0 <= i < |d| ==> IsDigit(d[i])
    ensures NumberOf(d) < Pow10(|d|)
  {
    if d != "" {
      DigitsBelow(d[..|d| - 1]);
    }
  }

  /** The numbers of a record: the message's and that of the one it answers read back if
      and only if they have at most seven digits, and so does the number of its blocks,
      which are as many as header and body take. */
  lemma RecordNumbers(p: Post, me: int)
    ensures var r := Record(p, me);
            |r| >= 128 && (Atoi(r[1..8]) == p.m.id <==> p.m.id < 10_000_000) &&
            (Atoi(r[108..116]) == p.m.replyTo <==> p.m.replyTo < 10_000_000) &&
            128 + |p.m.body| <= |r| < 256 + |p.m.body| && |r| % 128 == 0 &&
            (|r| < 128 * 1_000_000 ==> 128 * Atoi(r[116..122]) == |r|)
  {
    hide Record, PadField, NumStr, Atoi, DateOf, TimeOf, BlocksOf;
    RecordFields(p, me);
    NumberField(p.m.id, 7);
    NumberField(p.m.replyTo, 8);
    var r, n := Record(p, me), BlocksOf(p.m);
    assert |r| == 128 * n;
    if n < 1_000_000 {
      BlockField(n);
    }
  }

  lemma BlockField(n: nat)
    requires n < 1_000_000
    ensures Atoi(PadField(NumStr(n), 6)) == n
  {
    hide Decimal, Atoi;
    var d := Decimal(n);
    assert Pow10(3) == 1000;
    assert Pow10(6) == 1000 * Pow10(3);
    DecimalLength(n, 6);
    assert d[..|d|] == d;
    AtoiDecimal(n, Spaces(6 - |d|));
  }

  /* ---------- date and time ---------- */

  /** A number below 100 in two digits. */
  function Two(n: nat): string
    requires n < 100
  {
    [Digit(n / 10), Digit(n % 10)]
  }

  /** YYYY-MM-DD */
  function DayText(year: nat, month: nat, day: nat): string
    requires year < 10000 && month < 100 && day < 100
  {
    Two(year / 100) + Two(year % 100) + "-" + Two(month) + "-" + Two(day)
  }

  /** A message created on a day, at a time, is dated by month, day and the last two
      digits of the year, and by hour and minute. */
  lemma RecordDates(p: Post, me: int, year: nat, month: nat, day: nat, gap: char, hour: nat, minute: nat, rest: string)
    requires year < 10000 && month < 100 && day < 100 && hour < 100 && minute < 100
    requires p.m.created == DayText(year, month, day) + ([gap] + (Two(hour) + (":" + (Two(minute) + rest))))
    ensures var r := Record(p, me);
            |r| >= 128 && r[8..16] == Two(month) + "-" + Two(day) + "-" + Two(year % 100) &&
            r[16..21] == Two(hour) + ":" + Two(minute)
  {
    hide Record, Digit;
    RecordFields(p, me);
    DayStands(p.m.created, year, month, day, [gap] + (Two(hour) + (":" + (Two(minute) + rest))));
    TimeStands(p.m.created, DayText(year, month, day), gap, hour, minute, rest);
  }

  lemma DayStands(c: string, year: nat, month: nat, day: nat, rest: string)
    requires year < 10000 && month < 100 && day < 100 && c == DayText(year, month, day) + rest
    ensures |c| >= 10 && c[2] == Two(year % 100)[0] && c[3] == Two(year % 100)[1] && c[5] == Two(month)[0] &&
            c[6] == Two(month)[1] && c[8] == Two(day)[0] && c[9] == Two(day)[1]
  {
    hide Digit;
    var t := DayText(year, month, day);
    assert forall k :: 0 <= k < |t| ==> c[k] == t[k];
  }

  lemma TimeStands(c: string, front: string, gap: char, hour: nat, minute: nat, rest: string)
    requires hour < 100 && minute < 100 && |front| == 10
    requires c == front + ([gap] + (Two(hour) + (":" + (Two(minute) + rest))))
    ensures |c| >= 16 && c[11] == Two(hour)[0] && c[12] == Two(hour)[1] && c[14] == Two(minute)[0] &&
            c[15] == Two(minute)[1]
  {
    hide Digit;
    var t := [gap] + (Two(hour) + (":" + (Two(minute) + rest)));
    assert forall k :: 0 <= k < |t| ==> c[10 + k] == t[k];
  }

  /** Without a day there is no date, and without a time no time. */
  lemma RecordUndated(p: Post, me: int)
    ensures var r := Record(p, me);
            |r| >= 128 && (|p.m.created| < 10 ==> Field(r, 8, 8, "")) && (|p.m.created| < 16 ==> Field(r, 16, 5, ""))
  {
    hide Record;
    RecordFields(p, me);
    var r := Record(p, me);
    if |p.m.created| < 10 {
      FieldIn(r, 8, 8, "", Spaces(8));
    }
    if |p.m.created| < 16 {
      FieldIn(r, 16, 5, "", Spaces(5));
    }
  }

  /* ---------- bodies ---------- */

  lemma {:induction false} MarkedAt(s: string, k: nat)
    requires k < |s|
    ensures Marked(s)[k] == if s[k] == '\n' then 227 as char else s[k]
    decreases |s|
  {
    if k < |s| - 1 {
      MarkedAt(s[..|s| - 1], k);
    }
  }

  lemma {:induction false} UnmarkedAt(s: string, k: nat)
    requires k < |s|
    ensures Unmarked(s)[k] == if s[k] as int == 227 then '\n' else s[k]
    decreases |s|
  {
    if k < |s| - 1 {
      UnmarkedAt(s[..|s| - 1], k);
    }
  }

  /** Behind the header stands the body, with byte 227 for its line feeds, and blanks. */
  lemma RecordBody(p: Post, me: int, k: nat)
    requires 128 + k < |Record(p, me)|
    ensures Record(p, me)[128 + k] ==
            if k < |p.m.body| then (if p.m.body[k] == '\n' then 227 as char else p.m.body[k]) else ' '
  {
    hide Record, Marked;
    RecordFields(p, me);
    assert Record(p, me)[128 + k] == Record(p, me)[128..][k];
    if k < |p.m.body| {
      MarkedAt(p.m.body, k);
    }
  }

  /* ---------- the reader, on any file ---------- */

  /** The text before the blanks and NULs at its end is kept, up to its first NUL, with a
      line feed for every byte 227, and cut to 2047 characters. */
  lemma BodyMeans(text: string, padding: string)
    requires NoNul(text) && (text != "" ==> text[|text| - 1] != ' ')
    requires forall k :: 0 <= k < |padding| ==> padding[k] == ' ' || padding[k] == '\0'
    ensures BodyOf(text + padding) == if |text| > 2047 then Unmarked(text)[..2047] else Unmarked(text)
  {
    hide Unmarked, TrimBody, CStr, NoNul;
    UnmarkedAdds(text, padding);
    PaddingStays(padding);
    LastUnmarked(text);
    TrimBodyCuts(Unmarked(text), padding);
    UnmarkedNoNul(text);
    CStrOf(Unmarked(text));
  }

  lemma LastUnmarked(text: string)
    requires NoNul(text) && (text != "" ==> text[|text| - 1] != ' ')
    ensures text != "" ==> Unmarked(text)[|text| - 1] != ' ' && Unmarked(text)[|text| - 1] != '\0'
  {
    if text != "" {
      UnmarkedAt(text, |text| - 1);
    }
  }

  /** Behind a NUL nothing is kept. */
  lemma BodyEndsAtNul(text: string, rest: string)
    requires NoNul(text) && exists k :: 0 <= k < |rest| && rest[k] != ' ' && rest[k] != '\0'
    ensures BodyOf(text + ['\0'] + rest) == if |text| > 2047 then Unmarked(text)[..2047] else Unmarked(text)
  {
    hide Unmarked, CStr, TrimBody, NoNul, BodyOf;
    var k :| 0 <= k < |rest| && rest[k] != ' ' && rest[k] != '\0';
    var u := Unmarked(text) + (['\0'] + Unmarked(rest));
    UnmarkedParts(text, rest);
    UnmarkedAt(rest, k);
    PartAt(Unmarked(text), Unmarked(rest), k);
    TrimBodyKeeps(u, |text| + 1 + k);
    UnmarkedNoNul(text);
    CStrOfFront(u, |text| + 1 + k, Unmarked(text), Unmarked(rest));
    BodyIs(text + ['\0'] + rest, Unmarked(text));
  }

  lemma BodyIs(raw: string, text: string)
    requires CStr(TrimBody(Unmarked(raw))) == text
    ensures BodyOf(raw) == if |text| > 2047 then text[..2047] else text
  {
    hide Unmarked, CStr, TrimBody;
  }

  lemma UnmarkedParts(text: string, rest: string)
    ensures Unmarked(text + ['\0'] + rest) == Unmarked(text) + (['\0'] + Unmarked(rest))
  {
    hide Unmarked;
    UnmarkedAdds(text + ['\0'], rest);
    UnmarkedAdds(text, ['\0']);
    UnmarkedNul();
    Assoc(Unmarked(text), ['\0'], Unmarked(rest));
  }

  lemma PartAt(a: string, b: string, k: nat)
    requires k < |b|
    ensures (a + (['\0'] + b))[|a| + 1 + k] == b[k]
  {
  }

  lemma CStrOfFront(u: string, k: nat, a: string, b: string)
    requires u == a + (['\0'] + b) && NoNul(a) && |a| < k < |TrimBody(u)|
    ensures CStr(TrimBody(u)) == a
  {
    hide TrimBody, CStr, NoNul;
    var t := TrimBody(u);
    var n := |t| - |a| - 1;
    assert t == u[..|t|] == a + (['\0'] + b[..n]);
    CStrEnds(a, b[..n]);
  }

  lemma UnmarkedNul()
    ensures Unmarked(['\0']) == ['\0']
  {
    assert ['\0'][..0] == "";
  }

  lemma {:induction false} UnmarkedAdds(a: string, b: string)
    ensures Unmarked(a + b) == Unmarked(a) + Unmarked(b)
    decreases |b|
  {
    if b == "" {
      assert a + b == a;
    } else {
      assert (a + b)[..|a + b| - 1] == a + b[..|b| - 1];
      UnmarkedAdds(a, b[..|b| - 1]);
    }
  }

  lemma {:induction false} PaddingStays(s: string)
    requires forall k :: 0 <= k < |s| ==> s[k] == ' ' || s[k] == '\0'
    ensures Unmarked(s) == s
    decreases |s|
  {
    if s != "" {
      PaddingStays(s[..|s| - 1]);
      assert s == s[..|s| - 1] + [s[|s| - 1]];
    }
  }

  lemma {:induction false} TrimBodyCuts(s: string, padding: string)
    requires s != "" ==> s[|s| - 1] != ' ' && s[|s| - 1] != '\0'
    requires forall k :: 0 <= k < |padding| ==> padding[k] == ' ' || padding[k] == '\0'
    ensures TrimBody(s + padding) == s
    decreases |padding|
  {
    if padding == "" {
      assert s + padding == s;
    } else {
      assert (s + padding)[..|s + padding| - 1] == s + padding[..|padding| - 1];
      TrimBodyCuts(s, padding[..|padding| - 1]);
    }
  }

  lemma {:induction false} TrimBodyKeeps(s: string, k: nat)
    requires k < |s| && s[k] != ' ' && s[k] != '\0'
    ensures |TrimBody(s)| > k
    decreases |s|
  {
    if k < |s| - 1 {
      TrimBodyKeeps(s[..|s| - 1], k);
    }
  }

  lemma {:induction false} CStrEnds(a: string, rest: string)
    requires NoNul(a)
    ensures CStr(a + (['\0'] + rest)) == a
  {
    if a == "" {
      assert a + (['\0'] + rest) == ['\0'] + rest;
    } else {
      assert (a + (['\0'] + rest))[1..] == a[1..] + (['\0'] + rest);
      CStrEnds(a[1..], rest);
      assert [a[0]] + a[1..] == a;
    }
  }

  lemma HeaderParts(t: string)
    requires |t| == 128
    ensures var h := HeaderFrom(t);
            h.to == t[21..46] && h.subject == t[71..96] && h.blocks == t[116..122] && h.active == t[122] &&
            |h.conf| == 2 && h.conf[0] == t[123] && h.conf[1] == t[124]
  {
  }

  /** What the reader makes of a record of any file.  A number of blocks outside 1 to 1000
      ends the file.  The message is posted if its byte 122 is 225 and the user may post in
      the area of bytes 123 and 124, and only then: one with the mark 226 is passed over. */
  lemma RecordIsPosted(file: string, i: nat, may: set<nat>)
    requires i + 128 <= |file| && forall k :: i <= k < |file| ==> (file[k] as int) < 256
    ensures var n := Atoi(CStr(file[i + 116..i + 122]));
            if n < 1 || n > 1000 then ReadFrom(file, i, may) == Import([], i)
            else
              var e := Min(i + 128 * n, |file|);
              var area := file[i + 123] as int + 256 * file[i + 124] as int;
              ReadFrom(file, i, may) ==
              Import((if file[i + 122] as int == 225 && area in may then
                        [Letter(area, CStr(TrimRight(file[i + 21..i + 46])), CStr(TrimRight(file[i + 71..i + 96])),
                                BodyOf(file[i + 128..e]))]
                      else []) + ReadFrom(file, e, may).letters, ReadFrom(file, e, may).stop)
  {
    hide Atoi, CStr, BodyOf, TrimRight, HeaderAt, ReadFrom;
    HeaderBytes(file, i);
    ReadsRecord(file, i, may);
    var h := HeaderAt(file, i);
    assert ConfOf(h) == file[i + 123] as int + 256 * file[i + 124] as int;
  }

  /** The fields that the reader takes of the 128 bytes at `i`. */
  lemma HeaderBytes(file: string, i: nat)
    requires i + 128 <= |file|
    ensures var h := HeaderAt(file, i);
            h.to == file[i + 21..i + 46] && h.subject == file[i + 71..i + 96] && h.blocks == file[i + 116..i + 122] &&
            h.active == file[i + 122] && h.conf[0] == file[i + 123] && h.conf[1] == file[i + 124]
  {
    hide HeaderFrom;
    var t := file[i..i + 128];
    SliceIn(file, i, i + 128, 116, 122);
    SliceIn(file, i, i + 128, 21, 46);
    SliceIn(file, i, i + 128, 71, 96);
    assert t[122] == file[i + 122] && t[123] == file[i + 123] && t[124] == file[i + 124];
    HeaderParts(t);
  }

  lemma ReadsRecord(file: string, i: nat, may: set<nat>)
    requires i + 128 <= |file|
    ensures var h := HeaderAt(file, i);
            var n := Atoi(CStr(h.blocks));
            if n < 1 || n > 1000 then ReadFrom(file, i, may) == Import([], i)
            else
              var e := Min(i + 128 * n, |file|);
              ReadFrom(file, i, may) ==
              Import((if h.active as int == 225 && ConfOf(h) in may then
                        [Letter(ConfOf(h), CStr(TrimRight(h.to)), CStr(TrimRight(h.subject)), BodyOf(file[i + 128..e]))]
                      else []) + ReadFrom(file, e, may).letters, ReadFrom(file, e, may).stop)
  {
    hide Atoi, CStr, BodyOf, TrimRight, HeaderAt, ConfOf;
  }

  /* ---------- which messages are in the packet ---------- */

  /** Every message of an area that may be read is in the packet, in the order of areas
      and messages, and no others are: the first ones of an area stand behind all of the
      areas before it. */
  lemma {:induction false} MessageIsSent(areas: seq<Area>, a: nat, i: nat)
    requires a < |areas| && areas[a].readable && i < |areas[a].messages|
    ensures var k := |PostsOf(areas[..a])| + i;
            k < |PostsOf(areas)| && PostsOf(areas)[k] == Post(areas[a].id, areas[a].messages[i])
    decreases |areas|
  {
    var n := |areas| - 1;
    if a < n {
      MessageIsSent(areas[..n], a, i);
      assert areas[..n][..a] == areas[..a];
    } else {
      PostOfArea(areas[a].id, areas[a].messages, i);
    }
  }

  lemma {:induction false} PostOfArea(id: nat, ms: seq<Message>, k: nat)
    requires k < |ms|
    ensures AreaPosts(id, ms)[k] == Post(id, ms[k])
    decreases |ms|
  {
    if k < |ms| - 1 {
      PostOfArea(id, ms[..|ms| - 1], k);
    }
  }

  function Readable(a: Area): nat {
    if a.readable then |a.messages| else 0
  }

  function Total(areas: seq<Area>): nat {
    if areas == [] then 0 else Total(areas[..|areas| - 1]) + Readable(areas[|areas| - 1])
  }

  lemma {:induction false} PacketSize(areas: seq<Area>)
    ensures |PostsOf(areas)| == Total(areas)
  {
    if areas != [] {
      PacketSize(areas[..|areas| - 1]);
    }
  }

  /** The areas used are those that may be read and have messages. */
  lemma {:induction false} AreaIsUsedIff(areas: seq<Area>, c: nat)
    ensures c in AreasUsed(areas) <==>
            exists a :: 0 <= a < |areas| && areas[a].readable && areas[a].messages != [] && areas[a].id == c
    decreases |areas|
  {
    if areas != [] {
      var n := |areas| - 1;
      AreaIsUsedIff(areas[..n], c);
      assert forall a :: 0 <= a < n ==> areas[..n][a] == areas[a];
    }
  }

  /** The personal index has the messages to the user, in order, and no others. */
  lemma {:induction false} PersonalIsMine(posts: seq<Post>, me: int, k: nat)
    requires k < |posts|
    ensures var j := |Personal(posts[..k], me)|;
            if posts[k].m.toUser == me then
              j < |Personal(posts, me)| && Personal(posts, me)[j] == NdxEntry(posts[k].area, Blocks(posts[..k]))
            else Personal(posts[..k + 1], me) == Personal(posts[..k], me)
    decreases |posts|
  {
    hide Blocks;
    var n := |posts| - 1;
    if k < n {
      PersonalIsMine(posts[..n], me, k);
      assert posts[..n][..k] == posts[..k] && posts[..n][..k + 1] == posts[..k + 1];
    } else {
      assert posts[..k + 1] == posts;
    }
  }
}
