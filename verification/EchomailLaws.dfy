/** What a written echomail file gives when it is read back. */
module EchomailLaws {
  import opened CStrings
  import opened Bytes
  import opened TextFiles
  import opened Echomail

  /** The fields are C strings in their buffers and the numbers are ints. */
  predicate InMemory(el: Echolink, a: Aka, m: Message) {
    |el.echotag| < 64 && |el.origin| < 80 && |Sender(m)| < 64 && |Addressee(m)| < 64 && |m.subject| < 80 &&
    |m.created| < 32 && m.id <= INT_MAX && a.zone <= INT_MAX && a.net <= INT_MAX && a.node <= INT_MAX &&
    a.point <= INT_MAX
  }

  /** No header field breaks its line. */
  predicate SingleLines(el: Echolink, m: Message) {
    OneLine(el.echotag) && OneLine(el.origin) && OneLine(Sender(m)) && OneLine(Addressee(m)) && OneLine(m.subject) &&
    OneLine(m.created)
  }

  /* ---------- lines ---------- */

  lemma LineReads(s: string, i: nat, t: string)
    requires At(s, i, L(t)) && OneLine(t) && |t| < LINE_CAP - 1
    ensures NextLine(s, i) == i + |t| + 1 && TrimNl(s[i..i + |t| + 1]) == t
  {
    LineFits(s, i, t);
    hide LineEnd;
    assert L(t)[..|t|] == t;
  }

  lemma NextHeader(s: string, i: nat, t: string, rest: string, h: Headers)
    requires At(s, i, L(t) + rest) && OneLine(t) && 0 < |t| < LINE_CAP - 1
    ensures At(s, i + |t| + 1, rest) && HeadersFrom(s, i, h) == HeadersFrom(s, i + |t| + 1, WithHeader(h, t))
  {
    hide WithHeader, LineEnd;
    AtSplit(s, i, L(t), rest);
    LineReads(s, i, t);
  }

  lemma StartsWith(line: string, key: string)
    requires key != "" && Starts(line, key)
    ensures line != "" && line[0] == key[0]
  {
    assert line[0..|key|][0] == key[0];
  }

  lemma KeyLine(key: string, v: string)
    ensures Starts(key + v, key) && (key + v)[|key|..] == v
  {
    assert (key + v)[0..|key|] == key;
  }

  /** A line matches no key that begins with another letter. */
  lemma OtherKeys(line: string)
    requires line != ""
    ensures line[0] != 'A' ==> !Starts(line, AreaKey())
    ensures line[0] != 'F' ==> !Starts(line, FromKey())
    ensures line[0] != 'T' ==> !Starts(line, ToKey())
    ensures line[0] != 'S' ==> !Starts(line, SubjectKey())
    ensures line[0] != 'C' ==> !Starts(line, CreatedKey())
  {
    hide AreaKey, FromKey, ToKey, SubjectKey, CreatedKey, Starts;
    if Starts(line, AreaKey()) {
      StartsWith(line, AreaKey());
    }
    if Starts(line, FromKey()) {
      StartsWith(line, FromKey());
    }
    if Starts(line, ToKey()) {
      StartsWith(line, ToKey());
    }
    if Starts(line, SubjectKey()) {
      StartsWith(line, SubjectKey());
    }
    if Starts(line, CreatedKey()) {
      StartsWith(line, CreatedKey());
    }
  }

  lemma TagLine(h: Headers, v: string)
    ensures WithHeader(h, AreaKey() + v) == h.(tag := Copy(v, 64))
  {
    hide AreaKey, FromKey, ToKey, SubjectKey, CreatedKey, Starts;
    KeyLine(AreaKey(), v);
  }

  lemma FromLine(h: Headers, v: string)
    ensures WithHeader(h, FromKey() + v) == h.(from := TrimRight(Copy(BeforeLt(v), 64)))
  {
    hide AreaKey, FromKey, ToKey, SubjectKey, CreatedKey, Starts, BeforeLt, TrimRight;
    KeyLine(FromKey(), v);
    OtherKeys(FromKey() + v);
  }

  lemma ToLine(h: Headers, v: string)
    ensures WithHeader(h, ToKey() + v) == h.(to := Copy(v, 64))
  {
    hide AreaKey, FromKey, ToKey, SubjectKey, CreatedKey, Starts, BeforeLt, TrimRight;
    KeyLine(ToKey(), v);
    OtherKeys(ToKey() + v);
  }

  lemma SubjectLine(h: Headers, v: string)
    ensures WithHeader(h, SubjectKey() + v) == h.(subject := Copy(v, 80))
  {
    hide AreaKey, FromKey, ToKey, SubjectKey, CreatedKey, Starts, BeforeLt, TrimRight;
    KeyLine(SubjectKey(), v);
    OtherKeys(SubjectKey() + v);
  }

  lemma CreatedLine(h: Headers, v: string)
    ensures WithHeader(h, CreatedKey() + v) == h.(created := Copy(v, 32))
  {
    hide AreaKey, FromKey, ToKey, SubjectKey, CreatedKey, Starts, BeforeLt, TrimRight;
    KeyLine(CreatedKey(), v);
    OtherKeys(CreatedKey() + v);
  }

  lemma IgnoredLine(h: Headers, line: string)
    requires line != "" && (line[0] == 'M' || line[0] == 'O')
    ensures WithHeader(h, line) == h
  {
    hide AreaKey, FromKey, ToKey, SubjectKey, CreatedKey, Starts, BeforeLt, TrimRight;
    OtherKeys(line);
  }

  /* ---------- the sender ---------- */

  lemma {:induction false} AddressStops(name: string, a: Aka)
    ensures BeforeLt(name + Address(a)) == if Lt(name) then BeforeLt(name) else name + [' ']
  {
    hide Address, Lt;
    LtFirst(name);
    if name == "" {
      assert name + Address(a) == Address(a);
      BareAddress(a);
    } else {
      assert (name + Address(a))[1..] == name[1..] + Address(a);
      AddressStops(name[1..], a);
      assert name == [name[0]] + name[1..];
    }
  }

  lemma LtFirst(s: string)
    ensures Lt(s) <==> s != "" && (s[0] == '<' || Lt(s[1..]))
  {
    if s != "" {
      assert s == [s[0]] + s[1..];
    }
  }

  /** The text holds a '<'. */
  predicate Lt(s: string) {
    exists i :: 0 <= i < |s| && s[i] == '<'
  }

  lemma BareAddress(a: Aka)
    ensures BeforeLt(Address(a)) == [' ']
  {
    hide Decimal;
    var t := Address(a);
    assert t[0] == ' ' && t[1..][0] == '<';
    assert BeforeLt(t[1..]) == "";
  }

  /** A number, a character that is no digit, and what is behind it. */
  predicate Begins(t: string, n: nat, c: char, rest: string) {
    t == Decimal(n) + ([c] + rest)
  }

  lemma NumberThen(t: string, i: nat, u: string, n: nat, c: char, rest: string)
    requires i <= |t| && t[i..] == u && Begins(u, n, c, rest) && !IsDigit(c)
    ensures var j := i + |Decimal(n)|; j < |t| && Atoi(t[i..]) == n && t[j] == c && t[j + 1..] == rest
  {
    hide Atoi, Decimal;
    AtoiDecimal(n, [c] + rest);
    var d := Decimal(n);
    assert u[|d|] == c && u[|d| + 1..] == rest;
    assert t[i + |d| + 1..] == u[|d| + 1..];
  }

  lemma NumbersThen(t: string, i: nat, zone: string, net: string, node: string, point: string, a: Aka)
    requires i <= |t| && t[i..] == zone && Begins(zone, a.zone, ':', net) && Begins(net, a.net, '/', node)
    requires Begins(node, a.node, '.', point) && Begins(point, a.point, '>', "")
    ensures var z := i + |Decimal(a.zone)|;
            var n := z + 1 + |Decimal(a.net)|;
            var d := n + 1 + |Decimal(a.node)|;
            var p := d + 1 + |Decimal(a.point)|;
            |t| == p + 1 && t[z] == ':' && t[n] == '/' && t[d] == '.' && t[p] == '>' &&
            Atoi(t[i..]) == a.zone && Atoi(t[z + 1..]) == a.net && Atoi(t[n + 1..]) == a.node &&
            Atoi(t[d + 1..]) == a.point
  {
    hide Atoi, Decimal, Begins;
    NumberThen(t, i, zone, a.zone, ':', net);
    var z := i + |Decimal(a.zone)|;
    NumberThen(t, z + 1, net, a.net, '/', node);
    var n := z + 1 + |Decimal(a.net)|;
    NumberThen(t, n + 1, node, a.node, '.', point);
    NumberThen(t, n + 2 + |Decimal(a.node)|, point, a.point, '>', "");
  }

  /** The address is zone:net/node.point between angle brackets behind a blank. */
  lemma AddressReads(a: Aka)
    ensures var t := Address(a);
            var z := 2 + |Decimal(a.zone)|;
            var n := z + 1 + |Decimal(a.net)|;
            var d := n + 1 + |Decimal(a.node)|;
            var p := d + 1 + |Decimal(a.point)|;
            |t| == p + 1 && t[0] == ' ' && t[1] == '<' && t[z] == ':' && t[n] == '/' && t[d] == '.' && t[p] == '>' &&
            Atoi(t[2..]) == a.zone && Atoi(t[z + 1..]) == a.net && Atoi(t[n + 1..]) == a.node &&
            Atoi(t[d + 1..]) == a.point
  {
    hide Atoi, Decimal, Begins, Address, PointPart, NodePart, NetPart, ZonePart;
    AddressParts(a);
    NumbersThen(Address(a), 2, ZonePart(a), NetPart(a), NodePart(a), PointPart(a), a);
  }

  function PointPart(a: Aka): string {
    Decimal(a.point) + (['>'] + "")
  }

  function NodePart(a: Aka): string {
    Decimal(a.node) + (['.'] + PointPart(a))
  }

  function NetPart(a: Aka): string {
    Decimal(a.net) + (['/'] + NodePart(a))
  }

  function ZonePart(a: Aka): string {
    Decimal(a.zone) + ([':'] + NetPart(a))
  }

  lemma AddressParts(a: Aka)
    ensures Begins(ZonePart(a), a.zone, ':', NetPart(a)) && Begins(NetPart(a), a.net, '/', NodePart(a))
    ensures Begins(NodePart(a), a.node, '.', PointPart(a)) && Begins(PointPart(a), a.point, '>', "")
    ensures |Address(a)| >= 2 && Address(a)[0] == ' ' && Address(a)[1] == '<' && Address(a)[2..] == ZonePart(a)
  {
    hide Decimal;
    assert ['>'] + "" == ['>'];
    assert Address(a) == [' ', '<'] + ZonePart(a);
  }

  /** The line that names a message carries its number. */
  lemma IdReads(m: Message)
    ensures "Message-ID: " <= IdLine(m) && Atoi(IdLine(m)[12..]) == m.id
  {
    hide Atoi, Decimal;
    AtoiDecimal(m.id, "");
    assert Decimal(m.id) + "" == Decimal(m.id) && IdLine(m)[12..] == Decimal(m.id);
  }

  lemma TrimBlank(s: string)
    ensures TrimRight(s + [' ']) == TrimRight(s)
  {
    assert (s + [' '])[..|s|] == s;
  }

  /** The name that comes back: what stands before a '<', without blanks at the end. */
  function NameBack(name: string): string {
    TrimRight(BeforeLt(name))
  }

  lemma {:induction false} NoLt(s: string)
    requires !Lt(s)
    ensures BeforeLt(s) == s
  {
    if s != "" {
      assert s[0] != '<';
      assert forall i :: 0 <= i < |s[1..]| ==> s[1..][i] == s[i + 1];
      NoLt(s[1..]);
    }
  }

  lemma CopyAll(s: string, cap: nat)
    requires |s| < cap
    ensures Copy(s, cap) == s
  {
  }

  lemma CopyBlank(s: string, cap: nat)
    requires |s| < cap
    ensures Copy(s + [' '], cap) == if |s| + 1 < cap then s + [' '] else s
  {
  }

  lemma SenderBack(name: string, a: Aka)
    requires |name| < 64
    ensures TrimRight(Copy(BeforeLt(name + Address(a)), 64)) == NameBack(name)
  {
    hide Address, TrimRight, BeforeLt, Copy, Lt;
    AddressStops(name, a);
    if Lt(name) {
      CopyAll(BeforeLt(name), 64);
    } else {
      NoLt(name);
      TrimBlank(name);
      CopyBlank(name, 64);
    }
  }

  /** A sender comes back unchanged exactly if it has no '<' and no blank at its end. */
  lemma NameBackIff(name: string)
    ensures NameBack(name) == name <==> !Lt(name) && (name != "" ==> name[|name| - 1] != ' ')
  {
    if Lt(name) {
      LtCuts(name);
    } else {
      NoLt(name);
    }
  }

  lemma {:induction false} LtCuts(s: string)
    requires Lt(s)
    ensures |BeforeLt(s)| < |s|
  {
    if s[0] != '<' {
      var i :| 0 <= i < |s| && s[i] == '<';
      assert s[1..][i - 1] == '<';
      LtCuts(s[1..]);
    }
  }

  /* ---------- the headers ---------- */

  lemma ShortAddress(a: Aka)
    requires a.zone <= INT_MAX && a.net <= INT_MAX && a.node <= INT_MAX && a.point <= INT_MAX
    ensures |Address(a)| <= 46 && OneLine(Address(a))
  {
    ShortNumber(a.zone);
    ShortNumber(a.net);
    ShortNumber(a.node);
    ShortNumber(a.point);
    hide Decimal;
  }

  lemma ShortNumber(n: nat)
    requires n <= INT_MAX
    ensures |Decimal(n)| <= 10 && OneLine(Decimal(n))
  {
    IntDigits(n);
    hide Decimal, Pow10;
  }

  lemma FirstLines(el: Echolink, a: Aka, m: Message)
    requires InMemory(el, a, m) && SingleLines(el, m)
    ensures OneLine(IdLine(m)) && 0 < |IdLine(m)| < 100 && IdLine(m)[0] == 'M'
    ensures OneLine(FromKey() + (Sender(m) + Address(a))) && |FromKey() + (Sender(m) + Address(a))| < 200
  {
    ShortNumber(m.id);
    ShortAddress(a);
    hide Decimal, Address, FromKey;
  }

  /** The headers as the reader has them after the subject. */
  function Read(el: Echolink, m: Message): Headers {
    Headers(el.echotag, NameBack(Sender(m)), Addressee(m), m.subject, "")
  }

  lemma OneLines(a: string, b: string)
    requires OneLine(a) && OneLine(b)
    ensures OneLine(a + b)
  {
  }

  lemma ReadsTop(s: string, i: nat, el: Echolink, a: Aka, m: Message, rest: string)
    requires InMemory(el, a, m) && SingleLines(el, m)
    requires At(s, i, L(IdLine(m)) + (L(AreaKey() + el.echotag) + (L(FromKey() + (Sender(m) + Address(a))) + rest)))
    ensures var j := i + |IdLine(m)| + |el.echotag| + |Sender(m) + Address(a)| + 15;
            At(s, j, rest) &&
            HeadersFrom(s, i, Headers("", "", "", "", "")) ==
            HeadersFrom(s, j, Headers(el.echotag, NameBack(Sender(m)), "", "", ""))
  {
    hide At, HeadersFrom, WithHeader, IdLine, AreaKey, FromKey, Address, NameBack, L, Sender, OneLine;
    FirstLines(el, a, m);
    var none := Headers("", "", "", "", "");
    var from := FromKey() + (Sender(m) + Address(a));
    NextHeader(s, i, IdLine(m), L(AreaKey() + el.echotag) + (L(from) + rest), none);
    IgnoredLine(none, IdLine(m));
    OneLines(AreaKey(), el.echotag);
    var i1 := i + |IdLine(m)| + 1;
    NextHeader(s, i1, AreaKey() + el.echotag, L(from) + rest, none);
    TagLine(none, el.echotag);
    CopyAll(el.echotag, 64);
    var i2 := i1 + |el.echotag| + 7;
    var h := none.(tag := el.echotag);
    NextHeader(s, i2, from, rest, h);
    FromLine(h, Sender(m) + Address(a));
    SenderBack(Sender(m), a);
  }

  lemma ReadsMiddle(s: string, i: nat, el: Echolink, m: Message, rest: string, h: Headers)
    requires |Addressee(m)| < 64 && |m.subject| < 80 && OneLine(Addressee(m)) && OneLine(m.subject)
    requires At(s, i, L(ToKey() + Addressee(m)) + (L(SubjectKey() + m.subject) + rest))
    ensures var j := i + |Addressee(m)| + |m.subject| + 15;
            At(s, j, rest) && HeadersFrom(s, i, h) == HeadersFrom(s, j, h.(to := Addressee(m), subject := m.subject))
  {
    hide At, HeadersFrom, WithHeader, ToKey, SubjectKey, L, Addressee, OneLine;
    OneLines(ToKey(), Addressee(m));
    OneLines(SubjectKey(), m.subject);
    NextHeader(s, i, ToKey() + Addressee(m), L(SubjectKey() + m.subject) + rest, h);
    ToLine(h, Addressee(m));
    CopyAll(Addressee(m), 64);
    var h1 := h.(to := Addressee(m));
    NextHeader(s, i + |Addressee(m)| + 5, SubjectKey() + m.subject, rest, h1);
    SubjectLine(h1, m.subject);
    CopyAll(m.subject, 80);
  }

  /** The rest of the headers and the empty line. */
  lemma ReadsEnd(s: string, i: nat, el: Echolink, m: Message, h: Headers)
    requires |el.origin| < 80 && |m.created| < 32 && OneLine(el.origin) && OneLine(m.created)
    requires At(s, i, FileEnd(el, m))
    ensures var p := HeadersFrom(s, i, h);
            p.headers == h.(created := m.created) && At(s, p.next, NoCr(m.body) + TEARLINE) &&
            p.next == i + |OriginText(el)| + |m.created| + 11
  {
    hide At, HeadersFrom, WithHeader, CreatedKey, NoCr, OneLine, L;
    var last := L("") + (NoCr(m.body) + TEARLINE);
    var rest := L(CreatedKey() + m.created) + last;
    ReadsOrigin(s, i, el, rest, h);
    var i1 := i + |OriginText(el)|;
    OneLines(CreatedKey(), m.created);
    NextHeader(s, i1, CreatedKey() + m.created, last, h);
    CreatedLine(h, m.created);
    CopyAll(m.created, 32);
    EmptyLine(s, i1 + |m.created| + 10, NoCr(m.body) + TEARLINE, h.(created := m.created));
  }

  lemma ReadsOrigin(s: string, i: nat, el: Echolink, rest: string, h: Headers)
    requires |el.origin| < 80 && OneLine(el.origin) && At(s, i, OriginText(el) + rest)
    ensures At(s, i + |OriginText(el)|, rest) && HeadersFrom(s, i, h) == HeadersFrom(s, i + |OriginText(el)|, h)
  {
    hide At, HeadersFrom, WithHeader;
    if el.origin == "" {
      assert OriginText(el) + rest == rest;
    } else {
      OriginLine(el.origin);
      NextHeader(s, i, "Origin: " + el.origin, rest, h);
      IgnoredLine(h, "Origin: " + el.origin);
    }
  }

  lemma OriginLine(origin: string)
    requires OneLine(origin)
    ensures OneLine("Origin: " + origin) && |"Origin: " + origin| == |origin| + 8 && ("Origin: " + origin)[0] == 'O'
  {
  }

  lemma EmptyLine(s: string, i: nat, rest: string, h: Headers)
    requires At(s, i, L("") + rest)
    ensures HeadersFrom(s, i, h) == Parsed(h, i + 1) && At(s, i + 1, rest)
  {
    hide LineEnd;
    AtSplit(s, i, L(""), rest);
    LineReads(s, i, "");
  }

  /* ---------- the body ---------- */

  /** No line of the body, as the reader cuts it, is dropped. */
  predicate NoneDropped(b: string, i: nat)
    requires i <= |b|
    decreases |b| - i
  {
    i == |b| || (!Dropped(b[i..NextLine(b, i)]) && NoneDropped(b, NextLine(b, i)))
  }

  /** A text that ends in a line feed stands at `o`: the lines are the same. */
  lemma {:induction false} SameLineEnd(s: string, o: nat, b: string, i: nat, room: nat)
    requires At(s, o, b) && i < |b| && b[|b| - 1] == '\n'
    ensures LineEnd(s, o + i, room) == o + LineEnd(b, i, room)
    decreases room
  {
    assert s[o + i] == s[o..o + |b|][i] == b[i];
    if room > 0 && b[i] != '\n' {
      SameLineEnd(s, o, b, i + 1, room - 1);
    }
  }

  lemma SliceAt(s: string, o: nat, b: string, i: nat, j: nat)
    requires At(s, o, b) && i <= j <= |b|
    ensures s[o + i..o + j] == b[i..j]
  {
    assert b == b[..i] + (b[i..j] + b[j..]);
    AtSplit(s, o, b[..i], b[i..j] + b[j..]);
    AtSplit(s, o + i, b[i..j], b[j..]);
  }

  lemma SameLine(s: string, o: nat, b: string, i: nat)
    requires At(s, o, b) && i < |b| && b[|b| - 1] == '\n'
    ensures var j := NextLine(b, i);
            NextLine(s, o + i) == o + j && s[o + i..o + j] == b[i..j]
  {
    SameLineEnd(s, o, b, i, LINE_CAP - 1);
    SliceAt(s, o, b, i, NextLine(b, i));
  }

  /** Only the tearline is left. */
  predicate Torn(s: string, i: nat) {
    At(s, i, TEARLINE[1..]) && i + |TEARLINE| - 1 == |s|
  }

  lemma TearlineEnds(s: string, i: nat, acc: string)
    requires Torn(s, i)
    ensures BodyFrom(s, i, acc) == acc
  {
    var t := TEARLINE[1..|TEARLINE| - 1];
    assert L(t) == TEARLINE[1..];
    LineIs(s, i, t, LINE_CAP - 1);
    assert s[i..i + |L(t)|] == L(t);
    assert L(t)[0..3] == Dash();
    assert Dropped(L(t));
  }

  /** What is read behind `acc` is all that is left of the text exactly when it fits
      and no line of it is dropped; it is never more. */
  lemma {:induction false} BodyReads(s: string, o: nat, b: string, i: nat, acc: string)
    requires At(s, o, b) && b != "" && b[|b| - 1] == '\n' && Torn(s, o + |b|)
    requires i <= |b| && |acc| <= BODY_CAP - 2
    ensures var r := BodyFrom(s, o + i, acc);
            |r| <= |acc| + |b| - i &&
            (r == acc + b[i..] <==> |acc| + |b| - i <= BODY_CAP - 2 && NoneDropped(b, i))
    decreases |b| - i
  {
    hide Dropped, LineEnd, At;
    if i == |b| {
      TearlineEnds(s, o + i, acc);
      assert acc + b[i..] == acc;
    } else if |acc| < BODY_CAP - 2 {
      SameLine(s, o, b, i);
      var j := NextLine(b, i);
      var line := b[i..j];
      assert b[i..] == line + b[j..];
      Assoc(acc, line, b[j..]);
      if Dropped(line) || |acc| + |line| >= BODY_CAP - 1 {
        BodyReads(s, o, b, j, acc);
      } else {
        BodyReads(s, o, b, j, acc + line);
      }
    }
  }

  /* ---------- the whole file ---------- */

  /** The body with its carriage returns removed and one more line feed. */
  function BodyBack(m: Message): string {
    NoCr(m.body) + ['\n']
  }

  lemma BodyStands(s: string, i: nat, m: Message)
    requires At(s, i, NoCr(m.body) + TEARLINE) && i + |NoCr(m.body) + TEARLINE| == |s|
    ensures At(s, i, BodyBack(m)) && Torn(s, i + |BodyBack(m)|)
  {
    var rest := TEARLINE[1..];
    assert TEARLINE == ['\n'] + rest;
    Assoc(NoCr(m.body), ['\n'], rest);
    AtSplit(s, i, BodyBack(m), rest);
  }

  lemma FileParts(el: Echolink, a: Aka, m: Message)
    ensures var s := FileOf(el, a, m);
            At(s, 0, L(Magic())) && At(s, 24, L(IdLine(m)) + (L(AreaKey() + el.echotag) +
            (L(FromKey() + (Sender(m) + Address(a))) +
            (L(ToKey() + Addressee(m)) + (L(SubjectKey() + m.subject) + FileEnd(el, m))))))
    ensures |FileOf(el, a, m)| == 24 + |IdLine(m)| + 1 + |el.echotag| + 7 + |Sender(m) + Address(a)| + 7 +
            |Addressee(m)| + 5 + |m.subject| + 10 + |FileEnd(el, m)|
    ensures |FileEnd(el, m)| == |OriginText(el)| + |m.created| + 11 + |NoCr(m.body) + TEARLINE|
  {
    hide IdLine, AreaKey, FromKey, ToKey, SubjectKey, CreatedKey, Address, Sender, Addressee, NoCr, OriginText, Magic;
    var s := FileOf(el, a, m);
    assert s[0..|s|] == s;
    AtSplit(s, 0, L(Magic()), L(IdLine(m)) + (L(AreaKey() + el.echotag) +
            (L(FromKey() + (Sender(m) + Address(a))) +
            (L(ToKey() + Addressee(m)) + (L(SubjectKey() + m.subject) + FileEnd(el, m))))));
  }

  lemma MagicReads(s: string)
    requires At(s, 0, L(Magic()))
    ensures NextLine(s, 0) == 24 && |s| >= 24 && Starts(s[..24], Magic())
  {
    hide LineEnd, Magic;
    LineReads(s, 0, Magic());
    assert s[..24] == L(Magic());
    assert s[..24][0..23] == Magic();
  }

  lemma HeadersComeBack(el: Echolink, a: Aka, m: Message)
    requires InMemory(el, a, m) && SingleLines(el, m)
    ensures var s := FileOf(el, a, m);
            |s| >= 24 &&
            var p := HeadersFrom(s, 24, Headers("", "", "", "", ""));
            p.headers == Read(el, m).(created := m.created) && At(s, p.next, NoCr(m.body) + TEARLINE) &&
            p.next + |NoCr(m.body) + TEARLINE| == |s|
  {
    hide At, HeadersFrom, IdLine, AreaKey, FromKey, ToKey, SubjectKey, Address, NameBack, Sender, Addressee, L, NoCr,
      FileEnd, FileOf, OriginText, OneLine;
    var s := FileOf(el, a, m);
    FileParts(el, a, m);
    var rest := FileEnd(el, m);
    ReadsTop(s, 24, el, a, m, L(ToKey() + Addressee(m)) + (L(SubjectKey() + m.subject) + rest));
    var i := 24 + |IdLine(m)| + |el.echotag| + |Sender(m) + Address(a)| + 15;
    var h := Headers(el.echotag, NameBack(Sender(m)), "", "", "");
    ReadsMiddle(s, i, el, m, rest, h);
    ReadsEnd(s, i + |Addressee(m)| + |m.subject| + 15, el, m, Read(el, m));
  }

  /** A message whose header fields are single lines, with a tag and a subject, is
      imported with its tag, recipient and subject, its sender up to a '<' and without
      blanks at the end, and with its body exactly if that fits and loses no line. */
  lemma ExportThenImport(el: Echolink, a: Aka, m: Message)
    requires InMemory(el, a, m) && SingleLines(el, m) && el.echotag != "" && m.subject != ""
    ensures var r, name := ImportOf(FileOf(el, a, m)), NameBack(Sender(m));
            r.Imported? && r.tag == el.echotag && r.from == (if name != "" then name else "FidoNet") &&
            r.to == Addressee(m) && r.subject == m.subject &&
            (r.body == BodyBack(m) <==> |BodyBack(m)| <= BODY_CAP - 2 && NoneDropped(BodyBack(m), 0))
  {
    hide At, HeadersFrom, BodyFrom, NoneDropped, NameBack, Sender, FileOf, LineEnd, OneLine, NoCr, Magic, Starts,
      BodyBack;
    var s := FileOf(el, a, m);
    FileParts(el, a, m);
    MagicReads(s);
    HeadersComeBack(el, a, m);
    BodyComesBack(s, HeadersFrom(s, 24, Headers("", "", "", "", "")).next, m);
  }

  lemma BodyComesBack(s: string, i: nat, m: Message)
    requires At(s, i, NoCr(m.body) + TEARLINE) && i + |NoCr(m.body) + TEARLINE| == |s|
    ensures BodyFrom(s, i, "") == BodyBack(m) <==> |BodyBack(m)| <= BODY_CAP - 2 && NoneDropped(BodyBack(m), 0)
  {
    hide At, BodyFrom, NoneDropped, NoCr, Torn;
    BodyStands(s, i, m);
    BodyReads(s, i, BodyBack(m), 0, "");
    assert "" + BodyBack(m)[0..] == BodyBack(m);
  }
}
