/** Echomail files as lines: what is imported of any file, whatever system wrote it, and
    the lines that are written. */
module EchomailLines {
  import opened CStrings
  import opened Bytes
  import opened TextFiles
  import opened Echomail
  import opened EchomailLaws

  /** Lines with line feeds. */
  function Text(ls: seq<string>): string {
    if ls == [] then "" else L(ls[0]) + Text(ls[1..])
  }

  /* ---------- headers ---------- */

  /** What stands behind the key in the last line that begins with it, `none` if there is no such line. */
  function Last(ls: seq<string>, key: string, none: string): string {
    if ls == [] then none else Last(ls[1..], key, if key <= ls[0] then ls[0][|key|..] else none)
  }

  /** The part before the first '<'. */
  function NamePart(s: string): (t: string)
    ensures t <= s && forall i :: 0 <= i < |t| ==> t[i] != '<'
    ensures |t| < |s| ==> s[|t|] == '<'
  {
    if s == "" || s[0] == '<' then "" else [s[0]] + NamePart(s[1..])
  }

  function HeadersOf(area: string, from: string, to: string, subject: string, created: string): Headers {
    Headers(Copy(area, 64), TrimRight(Copy(NamePart(from), 64)), Copy(to, 64), Copy(subject, 80), Copy(created, 32))
  }

  function Value(key: string, line: string, none: string): string {
    if key <= line then line[|key|..] else none
  }

  lemma StartsIff(line: string, key: string)
    ensures Starts(line, key) <==> key <= line
  {
    if key <= line {
      assert line[0..|key|] == key;
    }
  }

  lemma {:induction false} SameName(s: string)
    ensures BeforeLt(s) == NamePart(s)
  {
    if s != "" {
      SameName(s[1..]);
    }
  }

  /** A line begins with one key at most. */
  lemma OneKey(line: string)
    ensures "Area: " <= line ==> line[0] == 'A'
    ensures "From: " <= line ==> line[0] == 'F'
    ensures "To: " <= line ==> line[0] == 'T'
    ensures "Subject: " <= line ==> line[0] == 'S'
    ensures "Created: " <= line ==> line[0] == 'C'
  {
  }

  lemma OneHeader(line: string, a: string, f: string, t: string, u: string, c: string)
    ensures WithHeader(HeadersOf(a, f, t, u, c), line) ==
            HeadersOf(Value("Area: ", line, a), Value("From: ", line, f), Value("To: ", line, t),
                      Value("Subject: ", line, u), Value("Created: ", line, c))
  {
    hide TrimRight, Starts;
    StartsIff(line, "Area: ");
    StartsIff(line, "From: ");
    StartsIff(line, "To: ");
    StartsIff(line, "Subject: ");
    StartsIff(line, "Created: ");
    OneKey(line);
    if "From: " <= line {
      SameName(line[6..]);
    }
  }

  predicate HeaderLine(l: string) {
    OneLine(l) && 0 < |l| <= 510
  }

  predicate AllHeaderLines(ls: seq<string>) {
    forall k :: 0 <= k < |ls| ==> HeaderLine(ls[k])
  }

  lemma {:induction false} HeaderLines(s: string, i: nat, ls: seq<string>, rest: string,
    a: string, f: string, t: string, u: string, c: string)
    requires At(s, i, Text(ls) + (L("") + rest)) && AllHeaderLines(ls)
    ensures i + |Text(ls)| + 1 <= |s| && At(s, i + |Text(ls)| + 1, rest)
    ensures HeadersFrom(s, i, HeadersOf(a, f, t, u, c)) ==
            Parsed(HeadersOf(Last(ls, "Area: ", a), Last(ls, "From: ", f), Last(ls, "To: ", t),
                             Last(ls, "Subject: ", u), Last(ls, "Created: ", c)), i + |Text(ls)| + 1)
    decreases |ls|
  {
    hide At, HeadersFrom, WithHeader, HeadersOf, L, HeaderLine;
    if ls == [] {
      assert Text(ls) + (L("") + rest) == L("") + rest;
      BlankLine(s, i, rest, HeadersOf(a, f, t, u, c));
    } else {
      var line, more := ls[0], Text(ls[1..]) + (L("") + rest);
      Assoc(L(line), Text(ls[1..]), L("") + rest);
      LineStands(s, i, line, more, HeadersOf(a, f, t, u, c));
      OneHeader(line, a, f, t, u, c);
      HeaderLines(s, i + |line| + 1, ls[1..], rest, Value("Area: ", line, a), Value("From: ", line, f),
                  Value("To: ", line, t), Value("Subject: ", line, u), Value("Created: ", line, c));
    }
  }

  lemma LineStands(s: string, i: nat, line: string, more: string, h: Headers)
    requires At(s, i, L(line) + more) && HeaderLine(line)
    ensures |L(line)| == |line| + 1 && At(s, i + |line| + 1, more)
    ensures i <= |s| && HeadersFrom(s, i, h) == HeadersFrom(s, i + |line| + 1, WithHeader(h, line))
  {
    hide At, HeadersFrom, WithHeader;
    AtFits(s, i, L(line) + more);
    NextHeader(s, i, line, more, h);
  }

  /** A carriage return before the line feed makes no difference to a header. */
  lemma CrLfHeader(s: string, i: nat, line: string, more: string, h: Headers)
    requires At(s, i, L(line + "\r") + more) && OneLine(line) && 0 < |line| <= 509
    ensures i + |line| + 2 <= |s| && At(s, i + |line| + 2, more)
    ensures HeadersFrom(s, i, h) == HeadersFrom(s, i + |line| + 2, WithHeader(h, line))
  {
    hide WithHeader, LineEnd;
    AtSplit(s, i, L(line + "\r"), more);
    LineFits(s, i, line + "\r");
    TrimsBoth(line);
  }

  lemma TrimsBoth(line: string)
    requires OneLine(line) && line != ""
    ensures TrimNl(L(line + "\r")) == line
  {
    assert L(line + "\r")[..|line| + 1] == line + "\r" && (line + "\r")[..|line|] == line;
    assert TrimNl(line) == line;
    assert TrimNl(line + "\r") == line;
  }

  lemma BlankLine(s: string, i: nat, rest: string, h: Headers)
    requires At(s, i, L("") + rest)
    ensures i + 1 <= |s| && At(s, i + 1, rest) && HeadersFrom(s, i, h) == Parsed(h, i + 1)
  {
    AtSplit(s, i, L(""), rest);
    LineReads(s, i, "");
  }

  /* ---------- the body ---------- */

  /** The lines of a body that are kept, behind `done`: not the tearline, nor the lines of
      the net, nor what would make it longer than 2046 characters. */
  function Kept(bs: seq<string>, done: string): string
    decreases |bs|
  {
    if bs == [] then done
    else
      var line := bs[0] + "\n";
      var netLine := "---" <= line || "SEEN-BY:" <= line || ([1 as char] + "PATH:") <= line;
      Kept(bs[1..], if netLine || |done| + |line| > 2046 then done else done + line)
  }

  lemma {:induction false} NothingFits(bs: seq<string>, done: string)
    requires |done| >= 2046
    ensures Kept(bs, done) == done
    decreases |bs|
  {
    if bs != [] {
      NothingFits(bs[1..], done);
    }
  }

  lemma DroppedIff(line: string)
    ensures Dropped(line) <==> "---" <= line || "SEEN-BY:" <= line || ([1 as char] + "PATH:") <= line
  {
    hide Starts;
    StartsIff(line, "---");
    StartsIff(line, "SEEN-BY:");
    StartsIff(line, [1 as char, 'P', 'A', 'T', 'H', ':']);
    assert [1 as char] + "PATH:" == [1 as char, 'P', 'A', 'T', 'H', ':'];
  }

  predicate BodyLine(l: string) {
    NoLf(l) && |l| <= 510
  }

  predicate AllBodyLines(bs: seq<string>) {
    forall k :: 0 <= k < |bs| ==> BodyLine(bs[k])
  }

  lemma {:induction false} BodyLines(s: string, i: nat, bs: seq<string>, done: string)
    requires At(s, i, Text(bs)) && i + |Text(bs)| == |s| && AllBodyLines(bs)
    ensures BodyFrom(s, i, done) == Kept(bs, done)
    decreases |bs|
  {
    hide At, Dropped, LineEnd;
    if bs == [] {
    } else if |done| >= 2046 {
      NothingFits(bs, done);
    } else {
      var line := bs[0];
      assert BodyLine(line) && L(line) == line + "\n";
      AtSplit(s, i, L(line), Text(bs[1..]));
      LineFits(s, i, line);
      DroppedIff(L(line));
      var netLine := "---" <= L(line) || "SEEN-BY:" <= L(line) || ([1 as char] + "PATH:") <= L(line);
      BodyLines(s, i + |line| + 1, bs[1..], if netLine || |done| + |line| + 1 > 2046 then done else done + L(line));
    }
  }

  /* ---------- a whole file ---------- */

  /** A file of lines is imported if its first line begins with the mark of the format and
      it has an area and a subject: of repeated headers the last counts, the sender is what
      stands before '<' without blanks at its end, and both names have defaults. */
  lemma FileOfLines(first: string, ls: seq<string>, bs: seq<string>)
    requires OneLine(first) && |first| <= 510 && AllHeaderLines(ls) && AllBodyLines(bs)
    ensures var r := ImportOf(L(first) + (Text(ls) + (L("") + Text(bs))));
            var area, subject := Last(ls, "Area: ", ""), Last(ls, "Subject: ", "");
            var from := TrimRight(Copy(NamePart(Last(ls, "From: ", "")), 64));
            var to := Copy(Last(ls, "To: ", ""), 64);
            r == if !("MUTINEER-FTN-ECHOMAIL 1" <= first) || area == "" || subject == "" then Rejected
                 else Imported(Copy(area, 64), if from == "" then "FidoNet" else from, if to == "" then "All" else to,
                               Copy(subject, 80), Kept(bs, ""))
  {
    hide HeadersFrom, BodyFrom, Kept, Last, At, LineEnd, AllHeaderLines, AllBodyLines, OneLine, Text, NamePart,
      TrimRight, Starts, ImportOf, HeadersOf, L, NextLine;
    var rest := Text(ls) + (L("") + Text(bs));
    var s := L(first) + rest;
    AtWhole(s);
    FirstLine(s, first, rest);
    Ends(first, ls, bs);
    LinesRead(s, |first| + 1, ls, bs);
    Imports(s, first, ls, |first| + 1 + |Text(ls)| + 1, Kept(bs, ""));
  }

  lemma LinesRead(s: string, i: nat, ls: seq<string>, bs: seq<string>)
    requires At(s, i, Text(ls) + (L("") + Text(bs))) && i + |Text(ls)| + 1 + |Text(bs)| == |s|
    requires AllHeaderLines(ls) && AllBodyLines(bs)
    ensures var j := i + |Text(ls)| + 1;
            HeadersFrom(s, i, Headers("", "", "", "", "")) ==
            Parsed(HeadersOf(Last(ls, "Area: ", ""), Last(ls, "From: ", ""), Last(ls, "To: ", ""),
                             Last(ls, "Subject: ", ""), Last(ls, "Created: ", "")), j) &&
            BodyFrom(s, j, "") == Kept(bs, "")
  {
    hide HeadersFrom, BodyFrom, Kept, Last, At, AllHeaderLines, AllBodyLines, Text, HeadersOf, L;
    NoHeaders();
    HeaderLines(s, i, ls, Text(bs), "", "", "", "", "");
    BodyLines(s, i + |Text(ls)| + 1, bs, "");
  }

  lemma Imports(s: string, first: string, ls: seq<string>, i: nat, body: string)
    requires |first| + 1 <= |s| && NextLine(s, 0) == |first| + 1 && s[..|first| + 1] == L(first)
    requires HeadersFrom(s, |first| + 1, Headers("", "", "", "", "")) ==
             Parsed(HeadersOf(Last(ls, "Area: ", ""), Last(ls, "From: ", ""), Last(ls, "To: ", ""),
                              Last(ls, "Subject: ", ""), Last(ls, "Created: ", "")), i)
    requires i <= |s| && BodyFrom(s, i, "") == body
    ensures var area, subject := Last(ls, "Area: ", ""), Last(ls, "Subject: ", "");
            var from := TrimRight(Copy(NamePart(Last(ls, "From: ", "")), 64));
            var to := Copy(Last(ls, "To: ", ""), 64);
            ImportOf(s) ==
            if !("MUTINEER-FTN-ECHOMAIL 1" <= first) || area == "" || subject == "" then Rejected
            else Imported(Copy(area, 64), if from == "" then "FidoNet" else from, if to == "" then "All" else to,
                          Copy(subject, 80), body)
  {
    hide HeadersFrom, BodyFrom, Last, NamePart, TrimRight, Starts, NextLine, L;
    StartsIff(L(first), "MUTINEER-FTN-ECHOMAIL 1");
    MarkInLine(first);
  }

  lemma FirstLine(s: string, first: string, rest: string)
    requires s == L(first) + rest && At(s, 0, s) && OneLine(first) && |first| <= 510
    ensures NextLine(s, 0) == |first| + 1 <= |s| && s[..|first| + 1] == L(first) && At(s, |first| + 1, rest)
  {
    hide At, LineEnd;
    AtSplit(s, 0, L(first), rest);
    LineReads(s, 0, first);
  }

  lemma NoHeaders()
    ensures HeadersOf("", "", "", "", "") == Headers("", "", "", "", "")
  {
  }

  lemma MarkInLine(first: string)
    ensures "MUTINEER-FTN-ECHOMAIL 1" <= L(first) <==> "MUTINEER-FTN-ECHOMAIL 1" <= first
  {
    var mark := "MUTINEER-FTN-ECHOMAIL 1";
    if mark <= L(first) {
      assert L(first)[|mark| - 1] == mark[|mark| - 1];
      assert L(first)[..|mark|] == first[..|mark|];
    }
  }

  lemma Ends(first: string, ls: seq<string>, bs: seq<string>)
    ensures |L(first) + (Text(ls) + (L("") + Text(bs)))| == |first| + 1 + |Text(ls)| + 1 + |Text(bs)|
  {
    hide Text;
  }

  /* ---------- the lines that are written ---------- */

  /** What is written of a body: carriage returns are left out, and nothing else. */
  lemma {:induction false} BodyIsWritten(a: string, b: string)
    ensures NoCr(a + b) == NoCr(a) + NoCr(b)
    ensures NoCr("\r") == ""
    decreases |b|
  {
    if b == "" {
      assert a + b == a && NoCr(a) + "" == NoCr(a);
    } else {
      assert (a + b)[..|a + b| - 1] == a + b[..|b| - 1];
      BodyIsWritten(a, b[..|b| - 1]);
    }
  }

  lemma {:induction false} PlainIsWritten(a: string)
    requires forall i :: 0 <= i < |a| ==> a[i] != '\r'
    ensures NoCr(a) == a
  {
    if a != "" {
      PlainIsWritten(a[..|a| - 1]);
      assert a == a[..|a| - 1] + [a[|a| - 1]];
    }
  }

  /** The lines of an echomail file, in their order. */
  lemma LinesWritten(el: Echolink, a: Aka, m: Message)
    ensures FileOf(el, a, m) ==
            Text(["MUTINEER-FTN-ECHOMAIL 1", "Message-ID: " + Decimal(m.id), "Area: " + el.echotag]) +
            (Text(["From: " + ((if m.fromName == "" then m.handle else m.fromName) + Address(a)),
                   "To: " + (if m.toName == "" then "All" else m.toName), "Subject: " + m.subject]) +
             (Text(if el.origin == "" then [] else ["Origin: " + el.origin]) +
              (Text(["Created: " + m.created, ""]) + (NoCr(m.body) + "\n--- Mutineer BBS\n"))))
  {
    hide Address, NoCr, Decimal, L;
    var tail := NoCr(m.body) + "\n--- Mutineer BBS\n";
    var id, area := "Message-ID: " + Decimal(m.id), "Area: " + el.echotag;
    var from := "From: " + ((if m.fromName == "" then m.handle else m.fromName) + Address(a));
    var to, subject := "To: " + (if m.toName == "" then "All" else m.toName), "Subject: " + m.subject;
    var created := "Created: " + m.created;
    ThreeLines("MUTINEER-FTN-ECHOMAIL 1", id, area);
    ThreeLines(from, to, subject);
    TwoLines(created, "", tail);
    OneLineText("Origin: " + el.origin);
    assert TEARLINE == "\n--- Mutineer BBS\n";
    assert FileEnd(el, m) == OriginText(el) + (L(created) + (L("") + tail));
  }

  lemma ThreeLines(a: string, b: string, c: string)
    ensures forall d :: Text([a, b, c]) + d == L(a) + (L(b) + (L(c) + d))
  {
    hide L;
    assert [a, b, c][1..] == [b, c] && [b, c][1..] == [c] && [c][1..] == [];
    assert Text([c]) == L(c) + "";
    assert Text([b, c]) == L(b) + Text([c]);
    forall d ensures Text([a, b, c]) + d == L(a) + (L(b) + (L(c) + d)) {
      assert L(a) + (L(b) + (L(c) + "")) + d == L(a) + (L(b) + (L(c) + d));
    }
  }

  lemma TwoLines(a: string, b: string, d: string)
    ensures Text([a, b]) + d == L(a) + (L(b) + d)
  {
    hide L;
    assert [a, b][1..] == [b] && [b][1..] == [];
    assert Text([b]) == L(b) + "";
    assert L(a) + (L(b) + "") + d == L(a) + (L(b) + d);
  }

  lemma OneLineText(a: string)
    ensures Text([a]) == L(a) && Text([]) == ""
  {
    hide L;
    assert [a][1..] == [] && L(a) + "" == L(a);
  }
}
