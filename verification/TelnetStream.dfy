/** Whole telnet streams: what the byte machine makes of any sequence of data
    runs, option requests and subnegotiations, however it is cut into reads. */
module TelnetStream {
  import opened Bytes
  import opened Telnet

  /** A byte of a subnegotiation, or an escape in it that stands for none. */
  datatype Part = Payload(b: byte) | Lost(code: byte)

  datatype Event =
    | Data(bs: seq<byte>)
    | Request(cmd: byte, opt: byte)
    | Sub(parts: seq<Part>)
    | Command(code: byte)

  /** DO, DONT, WILL and WONT are 251 to 254, SB is 250 and SE 240 (RFC 854). */
  predicate Legal(e: Event) {
    match e
    case Data(_) => true
    case Request(cmd, _) => 251 <= cmd <= 254
    case Sub(parts) => forall k :: 0 <= k < |parts| && parts[k].Lost? ==> parts[k].code != 240 && parts[k].code != 255
    case Command(code) => code < 250
  }

  predicate AllLegal(es: seq<Event>) {
    forall i :: 0 <= i < |es| ==> Legal(es[i])
  }

  /** 255 is sent twice. */
  function Escaped(b: byte): seq<byte> {
    if b == 255 then [255, 255] else [b]
  }

  function Escape(bs: seq<byte>): seq<byte> {
    if bs == [] then [] else Escape(bs[..|bs| - 1]) + Escaped(bs[|bs| - 1])
  }

  function PartWire(p: Part): seq<byte> {
    if p.Payload? then Escaped(p.b) else [255, p.code]
  }

  function PartsWire(ps: seq<Part>): seq<byte> {
    if ps == [] then [] else PartsWire(ps[..|ps| - 1]) + PartWire(ps[|ps| - 1])
  }

  function Wire(e: Event): seq<byte> {
    match e
    case Data(bs) => Escape(bs)
    case Request(cmd, opt) => [255, cmd, opt]
    case Sub(parts) => [255, 250] + PartsWire(parts) + [255, 240]
    case Command(code) => [255, code]
  }

  function WireAll(es: seq<Event>): seq<byte> {
    if es == [] then [] else WireAll(es[..|es| - 1]) + Wire(es[|es| - 1])
  }

  /* ---------- what the stream means ---------- */

  function DataOf(es: seq<Event>): seq<byte> {
    if es == [] then [] else DataOf(es[..|es| - 1]) + DataIn(es[|es| - 1])
  }

  function DataIn(e: Event): seq<byte> {
    if e.Data? then e.bs else []
  }

  function RepliesTo(es: seq<Event>): seq<byte> {
    if es == [] then [] else RepliesTo(es[..|es| - 1]) + ReplyTo(es[|es| - 1])
  }

  function ReplyTo(e: Event): seq<byte> {
    if e.Request? then Reply(e.cmd, e.opt) else []
  }

  /** What a subnegotiation carries. */
  function PayloadOf(ps: seq<Part>): seq<byte> {
    if ps == [] then []
    else PayloadOf(ps[..|ps| - 1]) + if ps[|ps| - 1].Payload? then [ps[|ps| - 1].b] else []
  }

  function Carried(e: Event): seq<byte> {
    if e.Sub? then PayloadOf(e.parts) else []
  }

  /** The part of a payload that fits the 128-byte buffer. */
  function Fitting(payload: seq<byte>): seq<byte> {
    payload[..Min(|payload|, 128)]
  }

  /** A window size that the event announces, 0 when it announces none: section 2 of
      RFC 1073, IAC SB 31 width height IAC SE, each size in two bytes, the high one first. */
  function Announced(e: Event, which: nat): int
    requires which == 1 || which == 3
  {
    var p := Carried(e);
    if |p| >= 5 && p[0] == 31 then 256 * (p[which] as int) + p[which + 1] as int else 0
  }

  /** The last announced size in 1..999, `first` when there is none. */
  function LastSize(es: seq<Event>, which: nat, first: int): int
    requires which == 1 || which == 3
  {
    if es == [] then first
    else
      var w := Announced(es[|es| - 1], which);
      if 0 < w < 1000 then w else LastSize(es[..|es| - 1], which, first)
  }

  /** RFC 1091, IAC SB 24 0 name IAC SE: at most 63 bytes of the name are kept. */
  predicate NamesTerminal(e: Event) {
    var p := Carried(e);
    |p| >= 3 && p[0] == 24 && p[1] == 0
  }

  function LastTerminal(es: seq<Event>, first: seq<byte>): seq<byte> {
    if es == [] then first
    else if NamesTerminal(es[|es| - 1]) then TerminalIn(es[|es| - 1])
    else LastTerminal(es[..|es| - 1], first)
  }

  function TerminalIn(e: Event): seq<byte>
    requires NamesTerminal(e)
  {
    var p := Carried(e);
    p[2..Min(|p|, 65)]
  }

  /* ---------- proofs ---------- */

  lemma {:induction false} RunAppend(o: Outcome, a: seq<byte>, b: seq<byte>)
    ensures Run(o, a + b) == Run(Run(o, a), b)
    decreases |b|
  {
    if b == [] {
      assert a + b == a;
    } else {
      var n := |b| - 1;
      assert (a + b)[..|a + b| - 1] == a + b[..n];
      RunAppend(o, a, b[..n]);
    }
  }

  /** However a stream is cut into reads, the outcome is the same. */
  lemma {:induction false} CutAnywhere(o: Outcome, chunks: seq<seq<byte>>)
    ensures RunChunks(o, chunks) == Run(o, Joined(chunks))
  {
    if chunks != [] {
      var n := |chunks| - 1;
      CutAnywhere(o, chunks[..n]);
      RunAppend(o, Joined(chunks[..n]), chunks[n]);
    }
  }

  function RunChunks(o: Outcome, chunks: seq<seq<byte>>): Outcome {
    if chunks == [] then o else Run(RunChunks(o, chunks[..|chunks| - 1]), chunks[|chunks| - 1])
  }

  function Joined(chunks: seq<seq<byte>>): seq<byte> {
    if chunks == [] then [] else Joined(chunks[..|chunks| - 1]) + chunks[|chunks| - 1]
  }

  lemma RunOne(o: Outcome, b: byte)
    ensures Run(o, [b]) == Step(o, b)
  {
    assert [b][..0] == [];
  }

  lemma RunTwo(o: Outcome, a: byte, b: byte)
    ensures Run(o, [a, b]) == Step(Step(o, a), b)
  {
    assert [a, b][..1] == [a];
    RunOne(o, a);
  }

  lemma {:induction false} RunData(o: Outcome, bs: seq<byte>)
    requires o.tn.st == ST_DATA
    ensures Run(o, Escape(bs)) == o.(data := o.data + bs)
  {
    if bs == [] {
      assert o.data + bs == o.data;
    } else {
      var n := |bs| - 1;
      RunData(o, bs[..n]);
      var p := o.(data := o.data + bs[..n]);
      assert o.data + bs == p.data + [bs[n]];
      if bs[n] == IAC {
        RunAppend(o, Escape(bs[..n]), [IAC, IAC]);
        RunTwo(p, IAC, IAC);
      } else {
        RunAppend(o, Escape(bs[..n]), [bs[n]]);
        RunOne(p, bs[n]);
      }
    }
  }

  lemma FittingGrows(ps: seq<Part>)
    ensures ps == [] ==> Fitting(PayloadOf(ps)) == []
    ensures ps != [] && ps[|ps| - 1].Payload? ==>
              Fitting(PayloadOf(ps)) == Kept(Fitting(PayloadOf(ps[..|ps| - 1])), ps[|ps| - 1].b)
    ensures ps != [] && ps[|ps| - 1].Lost? ==> Fitting(PayloadOf(ps)) == Fitting(PayloadOf(ps[..|ps| - 1]))
  {
    if ps != [] && ps[|ps| - 1].Payload? {
      KeptOne(PayloadOf(ps[..|ps| - 1]), ps[|ps| - 1].b);
    } else if ps != [] {
      assert PayloadOf(ps[..|ps| - 1]) + [] == PayloadOf(ps[..|ps| - 1]);
    }
  }

  lemma KeptOne(bs: seq<byte>, b: byte)
    ensures Fitting(bs + [b]) == Kept(Fitting(bs), b)
  {
  }

  lemma {:induction false} RunPayload(o: Outcome, ps: seq<Part>)
    requires o.tn.st == ST_SB && o.tn.sb == [] && Legal(Sub(ps))
    ensures Run(o, PartsWire(ps)) == o.(tn := o.tn.(sb := Fitting(PayloadOf(ps))))
  {
    hide Processed, Fitting, Kept, PayloadOf;
    FittingGrows(ps);
    if ps != [] {
      var n := |ps| - 1;
      RunPayload(o, ps[..n]);
      RunAppend(o, PartsWire(ps[..n]), PartWire(ps[n]));
      RunPart(o.(tn := o.tn.(sb := Fitting(PayloadOf(ps[..n])))), ps[n]);
    }
  }

  lemma RunPart(p: Outcome, part: Part)
    requires p.tn.st == ST_SB && (part.Lost? ==> part.code != 240 && part.code != 255)
    ensures Run(p, PartWire(part)) == if part.Payload? then p.(tn := p.tn.(sb := Kept(p.tn.sb, part.b))) else p
  {
    hide Processed, Kept;
    if part.Lost? {
      RunTwo(p, 255, part.code);
    } else if part.b == 255 {
      RunTwo(p, 255, 255);
    } else {
      RunOne(p, part.b);
    }
  }

  lemma RunSub(o: Outcome, parts: seq<Part>)
    requires o.tn.st == ST_DATA && Legal(Sub(parts))
    ensures Run(o, Wire(Sub(parts))) == o.(tn := Processed(o.tn.(sb := Fitting(PayloadOf(parts)))))
  {
    hide Processed, PartsWire, PayloadOf, Fitting;
    var p := o.(tn := o.tn.(sb := [], st := ST_SB));
    RunTwo(o, 255, 250);
    RunPayload(p, parts);
    var q := p.(tn := p.tn.(sb := Fitting(PayloadOf(parts))));
    RunTwo(q, 255, 240);
    RunAppend(o, [255, 250], PartsWire(parts));
    RunAppend(o, [255, 250] + PartsWire(parts), [255, 240]);
    var tn := o.tn.(sb := Fitting(PayloadOf(parts)));
    ProcessedKeepsMode(tn);
    ProcessedKeepsMode(tn.(st := ST_SB_IAC));
    ProcessedAnyMode(tn, ST_SB_IAC);
  }

  lemma ProcessedKeepsMode(tn: State)
    ensures Processed(tn).st == tn.st && Processed(tn).sb == tn.sb && Processed(tn).cmd == tn.cmd
  {
  }

  lemma ProcessedAnyMode(tn: State, st: int)
    ensures Processed(tn.(st := st)) == Processed(tn).(st := st)
  {
  }

  lemma LastEvent(o: Outcome, es: seq<Event>)
    requires es != []
    ensures Run(o, WireAll(es)) == Run(Run(o, WireAll(es[..|es| - 1])), Wire(es[|es| - 1]))
  {
    RunAppend(o, WireAll(es[..|es| - 1]), Wire(es[|es| - 1]));
  }

  lemma {:induction false} EventsDeliver(o: Outcome, es: seq<Event>)
    requires o.tn.st == ST_DATA && AllLegal(es)
    ensures var r := Run(o, WireAll(es));
            r.tn.st == ST_DATA && r.data == o.data + DataOf(es) && r.sent == o.sent + RepliesTo(es)
  {
    if es == [] {
      assert o.data + [] == o.data && o.sent + [] == o.sent;
    } else {
      hide Step, Wire, WireAll, Run, DataIn, ReplyTo;
      var n := |es| - 1;
      EventsDeliver(o, es[..n]);
      LastEvent(o, es);
      OneEvent(Run(o, WireAll(es[..n])), es[n]);
      Assoc(o.data, DataOf(es[..n]), DataIn(es[n]));
      Assoc(o.sent, RepliesTo(es[..n]), ReplyTo(es[n]));
    }
  }

  lemma {:induction false} EventsResize(o: Outcome, es: seq<Event>)
    requires o.tn.st == ST_DATA && AllLegal(es)
    ensures var r := Run(o, WireAll(es));
            r.tn.cols == LastSize(es, 1, o.tn.cols) && r.tn.rows == LastSize(es, 3, o.tn.rows) &&
            r.tn.term == LastTerminal(es, o.tn.term)
  {
    if es != [] {
      hide Step, Wire, WireAll, Run, Announced, NamesTerminal, TerminalIn;
      var n := |es| - 1;
      EventsDeliver(o, es[..n]);
      EventsResize(o, es[..n]);
      LastEvent(o, es);
      OneEvent(Run(o, WireAll(es[..n])), es[n]);
    }
  }

  /** What a subnegotiation sets. */
  lemma SubSets(tn: State, parts: seq<Part>)
    requires tn.st == ST_DATA
    ensures var r, e := Processed(tn.(sb := Fitting(PayloadOf(parts)))), Sub(parts);
            r.st == ST_DATA && r.cols == Sized(Announced(e, 1), tn.cols) &&
            r.rows == Sized(Announced(e, 3), tn.rows) &&
            r.term == if NamesTerminal(e) then TerminalIn(e) else tn.term
  {
    hide PayloadOf;
    if NamesTerminal(Sub(parts)) {
      TerminalFits(PayloadOf(parts));
    }
  }

  lemma TerminalFits(payload: seq<byte>)
    requires |payload| >= 2
    ensures var n := Min(|payload|, 65); Fitting(payload)[2..n] == payload[2..n]
  {
    assert forall k :: 0 <= k < |Fitting(payload)| ==> Fitting(payload)[k] == payload[k];
  }

  /** A size in 1 to 999, `current` in the place of any other. */
  function Sized(size: int, current: int): int {
    if 1 <= size <= 999 then size else current
  }

  lemma OneEvent(p: Outcome, e: Event)
    requires p.tn.st == ST_DATA && Legal(e)
    ensures var r := Run(p, Wire(e));
            r.tn.st == ST_DATA &&
            r.data == p.data + DataIn(e) &&
            r.sent == p.sent + ReplyTo(e) &&
            r.tn.cols == Sized(Announced(e, 1), p.tn.cols) &&
            r.tn.rows == Sized(Announced(e, 3), p.tn.rows) &&
            r.tn.term == if NamesTerminal(e) then TerminalIn(e) else p.tn.term
  {
    hide Processed, Fitting, TerminalIn, PayloadOf;
    assert p.data + [] == p.data && p.sent + [] == p.sent;
    match e
    case Data(bs) => RunData(p, bs);
    case Request(cmd, opt) =>
      RunTwo(p, 255, cmd);
      assert [255, cmd, opt][..2] == [255, cmd];
    case Sub(parts) =>
      RunSub(p, parts);
      SubSets(p.tn, parts);
    case Command(code) => RunTwo(p, 255, code);
  }

  /** The whole filter: any legal stream, cut into any reads, from a fresh state. */
  lemma StreamDelivers(tn: State, es: seq<Event>, chunks: seq<seq<byte>>)
    requires tn.st == ST_DATA && Joined(chunks) == WireAll(es) && AllLegal(es)
    ensures var r := RunChunks(Outcome(tn, [], []), chunks);
            r.data == DataOf(es) && r.sent == RepliesTo(es) &&
            r.tn.cols == LastSize(es, 1, tn.cols) && r.tn.rows == LastSize(es, 3, tn.rows) &&
            r.tn.term == LastTerminal(es, tn.term)
  {
    CutAnywhere(Outcome(tn, [], []), chunks);
    EventsDeliver(Outcome(tn, [], []), es);
    EventsResize(Outcome(tn, [], []), es);
  }

  /** On any bytes at all the window stays in 1..999 and the buffer within 128. */
  lemma {:induction false} AlwaysInBounds(o: Outcome, bs: seq<byte>)
    requires InBounds(o.tn)
    ensures InBounds(Run(o, bs).tn)
  {
    if bs != [] {
      AlwaysInBounds(o, bs[..|bs| - 1]);
    }
  }

  predicate InBounds(tn: State) {
    0 < tn.cols < 1000 && 0 < tn.rows < 1000 && |tn.sb| <= SB_CAP && |tn.term| < TERM_CAP &&
    ST_DATA <= tn.st <= ST_SB_IAC
  }

  /** Terminals that announce w by h have that window, whatever was sent before and
      however it was cut. */
  lemma WindowIsSet(tn: State, es: seq<Event>, chunks: seq<seq<byte>>, w: int, h: int)
    requires tn.st == ST_DATA && AllLegal(es) && 1 <= w <= 999 && 1 <= h <= 999
    requires Joined(chunks) == WireAll(es + [Sub(Bytewise([31, w / 256, w % 256, h / 256, h % 256]))])
    ensures var r := RunChunks(Outcome(tn, [], []), chunks);
            r.tn.cols == w && r.tn.rows == h && r.data == DataOf(es) && r.sent == RepliesTo(es)
  {
    hide WireAll, RunChunks, Joined, Bytewise, PayloadOf;
    var size: seq<byte> := [31, w / 256, w % 256, h / 256, h % 256];
    var all := es + [Sub(Bytewise(size))];
    assert all[..|all| - 1] == es;
    BytewiseCarries(size);
    StreamDelivers(tn, all, chunks);
  }

  /** The terminal type is the name that was sent, up to 63 bytes of it. */
  lemma TerminalIsSet(tn: State, es: seq<Event>, chunks: seq<seq<byte>>, name: seq<byte>)
    requires tn.st == ST_DATA && AllLegal(es) && name != []
    requires Joined(chunks) == WireAll(es + [Sub(Bytewise([24, 0] + name))])
    ensures RunChunks(Outcome(tn, [], []), chunks).tn.term == if |name| <= 63 then name else name[..63]
  {
    hide WireAll, RunChunks, Joined, Bytewise, PayloadOf, DataOf, RepliesTo, LastSize, LastTerminal;
    var e := Sub(Bytewise([24, 0] + name));
    BytewiseCarries([24, 0] + name);
    StreamDelivers(tn, es + [e], chunks);
    NamedLast(es, e, name, tn.term);
  }

  lemma NamedLast(es: seq<Event>, e: Event, name: seq<byte>, first: seq<byte>)
    requires Carried(e) == [24, 0] + name && name != []
    ensures LastTerminal(es + [e], first) == if |name| <= 63 then name else name[..63]
  {
    hide Carried;
    var p: seq<byte> := [24, 0] + name;
    assert (es + [e])[..|es|] == es;
    assert p[2..Min(|p|, 65)] == if |name| <= 63 then name else name[..63];
  }

  /** A payload with no stray escapes in it. */
  function Bytewise(bs: seq<byte>): seq<Part> {
    if bs == [] then [] else Bytewise(bs[..|bs| - 1]) + [Payload(bs[|bs| - 1])]
  }

  lemma {:induction false} BytewiseCarries(bs: seq<byte>)
    ensures Legal(Sub(Bytewise(bs))) && PayloadOf(Bytewise(bs)) == bs
  {
    if bs != [] {
      var n := |bs| - 1;
      BytewiseCarries(bs[..n]);
      assert Bytewise(bs)[..|Bytewise(bs)| - 1] == Bytewise(bs[..n]);
    }
  }

  /** Which requests get which answers, in the numbers of RFC 854: DO 253 is answered by
      WILL 251 for echo (1) and suppress-go-ahead (3), WILL by DO for suppress-go-ahead,
      terminal type (24) and window size (31), anything else by a refusal, and refusals
      (254 and 252) by nothing. */
  lemma RequestsAnswered(cmd: byte, opt: byte)
    requires 251 <= cmd <= 254
    ensures cmd == 253 ==> Reply(cmd, opt) == [255, if opt == 1 || opt == 3 then 251 else 252, opt]
    ensures cmd == 251 ==> Reply(cmd, opt) == [255, if opt == 3 || opt == 24 || opt == 31 then 253 else 254, opt]
    ensures cmd == 252 || cmd == 254 ==> Reply(cmd, opt) == []
  {
  }

  /* ---------- two filters that answer each other ---------- */

  /** Two filters: what is on the wire is read by one, and its answer by the other. */
  datatype Pair = Pair(reader: State, other: State, wire: seq<byte>)

  function Turn(p: Pair): Pair {
    var r := Run(Outcome(p.reader, [], []), p.wire);
    Pair(p.other, r.tn, r.sent)
  }

  function Turns(p: Pair, n: nat): Pair {
    if n == 0 then p else Turn(Turns(p, n - 1))
  }

  predicate InData(p: Pair) {
    p.reader.st == ST_DATA && p.other.st == ST_DATA
  }

  lemma TurnReplies(p: Pair, cmd: byte, opt: byte)
    requires InData(p) && Legal(Request(cmd, opt)) && p.wire == [IAC, cmd, opt]
    ensures InData(Turn(p)) && Turn(p).wire == Reply(cmd, opt)
  {
    hide Run, Reply;
    OneEvent(Outcome(p.reader, [], []), Request(cmd, opt));
    assert [] + Reply(cmd, opt) == Reply(cmd, opt);
  }

  /** Suppress-go-ahead, once asked for, is asked for in every answer. */
  lemma {:induction false} GoAheadNeverEnds(p: Pair, n: nat)
    requires InData(p) && (p.wire == [IAC, DO, SGA] || p.wire == [IAC, WILL, SGA])
    ensures var q := Turns(p, n);
            InData(q) && (q.wire == [IAC, DO, SGA] || q.wire == [IAC, WILL, SGA])
    decreases n
  {
    hide Turn;
    if n > 0 {
      GoAheadNeverEnds(p, n - 1);
      var q := Turns(p, n - 1);
      TurnReplies(q, if q.wire == [IAC, DO, SGA] then DO else WILL, SGA);
    }
  }

  /** A refusal is the last word. */
  lemma RefusalEnds(p: Pair, cmd: byte, opt: byte)
    requires InData(p) && p.wire == [IAC, cmd, opt] && (cmd == DONT || cmd == WONT)
    ensures Turn(p).wire == []
  {
    hide Turn;
    TurnReplies(p, cmd, opt);
  }

  lemma OfferEnds(p: Pair, opt: byte)
    requires InData(p) && p.wire == [IAC, WILL, opt] && opt != SGA
    ensures Turn(Turn(Turn(p))).wire == [] || Turn(Turn(p)).wire == []
  {
    hide Turn;
    TurnReplies(p, WILL, opt);
    if opt == NAWS || opt == TTYPE {
      TurnReplies(Turn(p), DO, opt);
      RefusalEnds(Turn(Turn(p)), WONT, opt);
    } else {
      RefusalEnds(Turn(p), DONT, opt);
    }
  }

  lemma DemandEnds(p: Pair, opt: byte)
    requires InData(p) && p.wire == [IAC, DO, opt] && opt != SGA
    ensures Turn(Turn(Turn(p))).wire == [] || Turn(Turn(p)).wire == []
  {
    hide Turn;
    TurnReplies(p, DO, opt);
    if opt == ECHO {
      TurnReplies(Turn(p), WILL, opt);
      RefusalEnds(Turn(Turn(p)), DONT, opt);
    } else {
      RefusalEnds(Turn(p), WONT, opt);
    }
  }

  lemma ThreeTurns(p: Pair)
    ensures Turns(p, 1) == Turn(p) && Turns(p, 2) == Turn(Turn(p)) && Turns(p, 3) == Turn(Turn(Turn(p)))
  {
    hide Turn;
    assert Turns(p, 0) == p;
    assert Turns(p, 1) == Turn(p);
    assert Turns(p, 2) == Turn(Turn(p));
  }

  /** Two filters that answer a request and then each other come to an end, within three
      answers, if and only if the request does not ask for or offer suppress-go-ahead. */
  lemma ExchangeEndsIff(a: State, b: State, cmd: byte, opt: byte)
    requires a.st == ST_DATA && b.st == ST_DATA && Legal(Request(cmd, opt))
    ensures var p := Pair(a, b, [IAC, cmd, opt]);
            ((exists n: nat :: Turns(p, n).wire == []) <==> !(opt == SGA && (cmd == DO || cmd == WILL))) &&
            ((exists n: nat :: Turns(p, n).wire == []) ==> exists n: nat :: n <= 3 && Turns(p, n).wire == [])
  {
    hide Turn, Turns;
    var p := Pair(a, b, [IAC, cmd, opt]);
    ThreeTurns(p);
    if opt == SGA && (cmd == DO || cmd == WILL) {
      forall n: nat ensures Turns(p, n).wire != [] {
        GoAheadNeverEnds(p, n);
      }
    } else if cmd == DONT || cmd == WONT {
      RefusalEnds(p, cmd, opt);
      assert Turns(p, 1).wire == [];
    } else {
      if cmd == WILL {
        OfferEnds(p, opt);
      } else {
        DemandEnds(p, opt);
      }
      assert Turns(p, 2).wire == [] || Turns(p, 3).wire == [];
    }
  }
}
