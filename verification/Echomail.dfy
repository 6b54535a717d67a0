/** The echomail files: a message is written with its headers, and read back line by
    line through a buffer of 512 into a body of 2048.  A file is a string. */
module Echomail {
  import opened CStrings
  import opened TextFiles

  const BODY_CAP := 2048

  datatype Aka = Aka(zone: nat, net: nat, node: nat, point: nat)

  datatype Echolink = Echolink(echotag: string, origin: string)

  datatype Message = Message(
    id: nat, fromName: string, handle: string, toName: string, subject: string, created: string, body: string)

  datatype Headers = Headers(tag: string, from: string, to: string, subject: string, created: string)

  datatype Parsed = Parsed(headers: Headers, next: nat)

  function Magic(): (s: string)
    ensures |s| == 23
    ensures forall i :: 0 <= i < |s| ==> s[i] != '\n' && s[i] != '\r'
  {
    "MUTINEER-FTN-ECHOMAIL 1"
  }

  function AreaKey(): (s: string)
    ensures |s| == 6 && s[0] == 'A' && OneLine(s)
  {
    "Area: "
  }

  function FromKey(): (s: string)
    ensures |s| == 6 && s[0] == 'F' && OneLine(s)
  {
    "From: "
  }

  function ToKey(): (s: string)
    ensures |s| == 4 && s[0] == 'T' && OneLine(s)
  {
    "To: "
  }

  function SubjectKey(): (s: string)
    ensures |s| == 9 && s[0] == 'S' && OneLine(s)
  {
    "Subject: "
  }

  function CreatedKey(): (s: string)
    ensures |s| == 9 && s[0] == 'C' && OneLine(s)
  {
    "Created: "
  }

  predicate Starts(s: string, t: string) {
    At(s, 0, t)
  }

  /* ---------- the writer ---------- */

  function Sender(m: Message): string {
    if m.fromName != "" then m.fromName else m.handle
  }

  function Addressee(m: Message): string {
    if m.toName != "" then m.toName else "All"
  }

  /** " <zone:net/node.point>" */
  function Address(a: Aka): string {
    [' ', '<'] + (Decimal(a.zone) + ([':'] + (Decimal(a.net) +
    (['/'] + (Decimal(a.node) + (['.'] + (Decimal(a.point) + ['>'])))))))
  }

  /** The body without carriage returns. */
  function NoCr(s: string): string {
    if s == "" then "" else NoCr(s[..|s| - 1]) + if s[|s| - 1] == '\r' then "" else [s[|s| - 1]]
  }

  function IdLine(m: Message): string {
    "Message-ID: " + Decimal(m.id)
  }

  function OriginText(el: Echolink): string {
    if el.origin != "" then L("Origin: " + el.origin) else ""
  }

  const TEARLINE: string := "\n--- Mutineer BBS\n"

  /** What follows the subject. */
  function FileEnd(el: Echolink, m: Message): string {
    OriginText(el) + (L(CreatedKey() + m.created) + (L("") + (NoCr(m.body) + TEARLINE)))
  }

  function FileOf(el: Echolink, a: Aka, m: Message): string {
    L(Magic()) + (L(IdLine(m)) + (L(AreaKey() + el.echotag) + (L(FromKey() + (Sender(m) + Address(a))) +
    (L(ToKey() + Addressee(m)) + (L(SubjectKey() + m.subject) + FileEnd(el, m))))))
  }

  method WriteBody(body: string) returns (f: string)
    ensures f == NoCr(body)
  {
    f := "";
    for i := 0 to |body|
      invariant f == NoCr(body[..i])
    {
      assert body[..i + 1][..i] == body[..i];
      if body[i] != '\r' {
        f := f + [body[i]];
      }
    }
    assert body[..|body|] == body;
  }

  /** write_echomail_file */
  method WriteEchomailFile(el: Echolink, a: Aka, m: Message) returns (f: string)
    ensures f == FileOf(el, a, m)
  {
    hide L, IdLine, Address, NoCr, Decimal, Magic, AreaKey, FromKey, ToKey, SubjectKey, CreatedKey, OriginText;
    var body := WriteBody(m.body);
    var tail := L("") + (body + TEARLINE);
    tail := L(CreatedKey() + m.created) + tail;
    tail := OriginText(el) + tail;
    var head := L(ToKey() + Addressee(m)) + (L(SubjectKey() + m.subject) + tail);
    head := L(AreaKey() + el.echotag) + (L(FromKey() + (Sender(m) + Address(a))) + head);
    f := L(Magic()) + (L(IdLine(m)) + head);
  }

  /* ---------- the reader ---------- */

  function TrimNl(s: string): (t: string)
    ensures |t| <= |s| && t == s[..|t|]
  {
    if s != "" && (s[|s| - 1] == '\n' || s[|s| - 1] == '\r') then TrimNl(s[..|s| - 1]) else s
  }

  /** What stands before the first '<'. */
  function BeforeLt(s: string): (t: string)
    ensures |t| <= |s| && t == s[..|t|]
  {
    if s == "" || s[0] == '<' then ""
    else [s[0]] + BeforeLt(s[1..])
  }

  function WithHeader(h: Headers, line: string): Headers {
    if Starts(line, AreaKey()) then h.(tag := Copy(line[6..], 64))
    else if Starts(line, FromKey()) then h.(from := TrimRight(Copy(BeforeLt(line[6..]), 64)))
    else if Starts(line, ToKey()) then h.(to := Copy(line[4..], 64))
    else if Starts(line, SubjectKey()) then h.(subject := Copy(line[9..], 80))
    else if Starts(line, CreatedKey()) then h.(created := Copy(line[9..], 32))
    else h
  }

  /** The headers from `i` on, to the empty line. */
  function HeadersFrom(s: string, i: nat, h: Headers): (p: Parsed)
    requires i <= |s|
    ensures i <= p.next <= |s|
    decreases |s| - i
  {
    if i == |s| then Parsed(h, i)
    else
      var j := NextLine(s, i);
      var line := TrimNl(s[i..j]);
      if line == "" then Parsed(h, j) else HeadersFrom(s, j, WithHeader(h, line))
  }

  function Dash(): (s: string)
    ensures |s| == 3 && s[0] == s[1] == s[2] == '-'
  {
    "---"
  }

  /** The tearline and the lines that belong to the net. */
  predicate Dropped(line: string) {
    Starts(line, Dash()) || Starts(line, "SEEN-BY:") || Starts(line, [1 as char, 'P', 'A', 'T', 'H', ':'])
  }

  /** The body from `i` on, behind what is read already; what does not fit is left out. */
  function BodyFrom(s: string, i: nat, body: string): string
    requires i <= |s|
    decreases |s| - i
  {
    if i == |s| || |body| >= BODY_CAP - 2 then body
    else
      var j := NextLine(s, i);
      var line := s[i..j];
      if Dropped(line) || |body| + |line| >= BODY_CAP - 1 then BodyFrom(s, j, body)
      else BodyFrom(s, j, body + line)
  }

  method ReadHeaders(s: string, start: nat) returns (h: Headers, i: nat)
    requires start <= |s|
    ensures Parsed(h, i) == HeadersFrom(s, start, Headers("", "", "", "", ""))
  {
    hide WithHeader, TrimNl, LineEnd;
    h, i := Headers("", "", "", "", ""), start;
    while i < |s|
      invariant i <= |s| && HeadersFrom(s, i, h) == HeadersFrom(s, start, Headers("", "", "", "", ""))
      decreases |s| - i
    {
      var j := NextLine(s, i);
      var line := TrimNl(s[i..j]);
      i := j;
      if line == "" {
        return;
      }
      h := WithHeader(h, line);
    }
  }

  method ReadBody(s: string, start: nat) returns (body: string)
    requires start <= |s|
    ensures body == BodyFrom(s, start, "")
  {
    hide Dropped, LineEnd;
    body := "";
    var i := start;
    while i < |s| && |body| < BODY_CAP - 2
      invariant i <= |s| && BodyFrom(s, i, body) == BodyFrom(s, start, "")
      decreases |s| - i
    {
      var j := NextLine(s, i);
      var line := s[i..j];
      i := j;
      if !Dropped(line) {
        if |body| + |line| < BODY_CAP - 1 {
          body := body + line;
        }
      }
    }
  }

  /** What is imported of a file, None when it is rejected. */
  datatype Import = Rejected | Imported(tag: string, from: string, to: string, subject: string, body: string)

  function ImportOf(s: string): Import {
    var e := NextLine(s, 0);
    if !Starts(s[..e], Magic()) then Rejected
    else
      var p := HeadersFrom(s, e, Headers("", "", "", "", ""));
      var h := p.headers;
      if h.tag == "" || h.subject == "" then Rejected
      else Imported(h.tag, if h.from != "" then h.from else "FidoNet", if h.to != "" then h.to else "All",
                    h.subject, BodyFrom(s, p.next, ""))
  }

  /** The parse part of fido_echomail_import. */
  method ParseEchomail(s: string) returns (r: Import)
    ensures r == ImportOf(s)
  {
    hide HeadersFrom, BodyFrom, LineEnd, Starts;
    var e := NextLine(s, 0);
    if !Starts(s[..e], Magic()) {
      return Rejected;
    }
    var h, i := ReadHeaders(s, e);
    var body := ReadBody(s, i);
    if h.tag == "" || h.subject == "" {
      return Rejected;
    }
    r := Imported(h.tag, if h.from != "" then h.from else "FidoNet", if h.to != "" then h.to else "All",
                  h.subject, body);
  }
}
