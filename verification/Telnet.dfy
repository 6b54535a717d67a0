/** The telnet filter: a byte machine that separates user data from the
    negotiation of RFC 854, RFC 1073 (window size) and RFC 1091 (terminal type). */
module Telnet {
  import opened Bytes

  const IAC: byte := 255
  const DONT: byte := 254
  const DO: byte := 253
  const WONT: byte := 252
  const WILL: byte := 251
  const SB: byte := 250
  const SE: byte := 240

  const ECHO: byte := 1
  const SGA: byte := 3
  const TTYPE: byte := 24
  const NAWS: byte := 31
  const TTYPE_IS: byte := 0

  const ST_DATA := 0
  const ST_IAC := 1
  const ST_IAC_CMD := 2
  const ST_SB := 3
  const ST_SB_IAC := 4

  const SB_CAP := 128
  const TERM_CAP := 64

  /** The value of a TelnetState: `sb` is the used part of the subnegotiation buffer. */
  datatype State = State(cols: int, rows: int, st: int, cmd: byte, sb: seq<byte>, term: seq<byte>)

  /** Everything that happened so far: the state, the data delivered and the bytes sent. */
  datatype Outcome = Outcome(tn: State, data: seq<byte>, sent: seq<byte>)

  /** What is answered to `IAC cmd opt`: only what is supported is accepted. */
  function Reply(cmd: byte, opt: byte): seq<byte> {
    if cmd == DO then [IAC, if opt == SGA || opt == ECHO then WILL else WONT, opt]
    else if cmd == WILL then [IAC, if opt == SGA || opt == NAWS || opt == TTYPE then DO else DONT, opt]
    else []
  }

  function Word(hi: byte, lo: byte): int {
    hi as int * 256 + lo as int
  }

  function InRange(size: int, current: int): int {
    if 0 < size < 1000 then size else current
  }

  /** The effect of a complete subnegotiation with payload `tn.sb`. */
  function Processed(tn: State): State {
    var sb := tn.sb;
    if |sb| >= 5 && sb[0] == NAWS then
      tn.(cols := InRange(Word(sb[1], sb[2]), tn.cols), rows := InRange(Word(sb[3], sb[4]), tn.rows))
    else if |sb| >= 3 && sb[0] == TTYPE && sb[1] == TTYPE_IS then
      tn.(term := sb[2..Min(|sb|, TERM_CAP + 1)])
    else
      tn
  }

  function Kept(sb: seq<byte>, b: byte): seq<byte> {
    if |sb| < SB_CAP then sb + [b] else sb
  }

  function Step(o: Outcome, b: byte): Outcome {
    var tn := o.tn;
    if tn.st == ST_DATA then
      if b == IAC then o.(tn := tn.(st := ST_IAC)) else o.(data := o.data + [b])
    else if tn.st == ST_IAC then
      if b == IAC then Outcome(tn.(st := ST_DATA), o.data + [IAC], o.sent)
      else if b == DO || b == DONT || b == WILL || b == WONT then o.(tn := tn.(cmd := b, st := ST_IAC_CMD))
      else if b == SB then o.(tn := tn.(sb := [], st := ST_SB))
      else o.(tn := tn.(st := ST_DATA))
    else if tn.st == ST_IAC_CMD then
      Outcome(tn.(st := ST_DATA), o.data, o.sent + Reply(tn.cmd, b))
    else if tn.st == ST_SB then
      if b == IAC then o.(tn := tn.(st := ST_SB_IAC)) else o.(tn := tn.(sb := Kept(tn.sb, b)))
    else if tn.st == ST_SB_IAC then
      if b == SE then o.(tn := Processed(tn).(st := ST_DATA))
      else if b == IAC then o.(tn := tn.(sb := Kept(tn.sb, IAC), st := ST_SB))
      else o.(tn := tn.(st := ST_SB))
    else
      o.(tn := tn.(st := ST_DATA))
  }

  function Run(o: Outcome, bs: seq<byte>): Outcome {
    if bs == [] then o else Step(Run(o, bs[..|bs| - 1]), bs[|bs| - 1])
  }

  /* ---------- the state object ---------- */

  class TelnetState {
    var cols: int
    var rows: int
    var st: int
    var cmd: byte
    const sbBuf: array<byte>
    var sbLen: nat
    var termType: seq<byte>
    /** What was written to the peer, in order. */
    var sent: seq<byte>

    ghost predicate Valid()
      reads this
    {
      sbBuf.Length == SB_CAP && sbLen <= SB_CAP
    }

    ghost function Value(): State
      requires Valid()
      reads this, sbBuf
    {
      State(cols, rows, st, cmd, sbBuf[..sbLen], termType)
    }

    constructor (cols: int, rows: int)
      ensures Valid() && fresh(sbBuf)
      ensures Value() == State(cols, rows, ST_DATA, 0, [], []) && sent == []
    {
      this.cols, this.rows, st, cmd := cols, rows, ST_DATA, 0;
      sbBuf := new byte[SB_CAP];
      sbLen := 0;
      termType, sent := [], [];
    }

    /** tn_send3 */
    method Send3(a: byte, b: byte, c: byte)
      modifies `sent
      ensures sent == old(sent) + [a, b, c]
    {
      sent := sent + [a, b, c];
    }

    method HandleIacCmd(cmd: byte, opt: byte)
      modifies `sent
      ensures sent == old(sent) + Reply(cmd, opt)
    {
      if cmd == DO {
        if opt == SGA || opt == ECHO {
          Send3(IAC, WILL, opt);
        } else {
          Send3(IAC, WONT, opt);
        }
      } else if cmd == WILL {
        if opt == SGA || opt == NAWS || opt == TTYPE {
          Send3(IAC, DO, opt);
        } else {
          Send3(IAC, DONT, opt);
        }
      }
    }

    method ProcessSb()
      requires Valid()
      modifies `cols, `rows, `termType
      ensures Valid() && Value() == Processed(old(Value()))
    {
      if sbLen < 1 {
        return;
      }
      var opt := sbBuf[0];
      if opt == NAWS {
        if sbLen >= 1 + 4 {
          var w, h := Word(sbBuf[1], sbBuf[2]), Word(sbBuf[3], sbBuf[4]);
          if w > 0 && w < 1000 {
            cols := w;
          }
          if h > 0 && h < 1000 {
            rows := h;
          }
        }
      } else if opt == TTYPE {
        if sbLen >= 3 && sbBuf[1] == TTYPE_IS {
          var n := sbLen - 2;
          if n >= TERM_CAP {
            n := TERM_CAP - 1;
          }
          termType := sbBuf[..sbLen][2..2 + n];
        }
      }
    }

    method KeepSb(b: byte)
      requires Valid()
      modifies `sbLen, sbBuf
      ensures Valid() && sbBuf[..sbLen] == Kept(old(sbBuf[..sbLen]), b)
    {
      if sbLen < sbBuf.Length {
        sbBuf[sbLen] := b;
        sbLen := sbLen + 1;
      }
    }

    /** One turn of the loop of telnet_feed; `data` is what it delivers after `before`. */
    method FeedByte(b: byte, ghost before: seq<byte>) returns (data: seq<byte>)
      requires Valid()
      modifies this, sbBuf
      ensures Valid() && |data| <= 1
      ensures Outcome(Value(), before + data, sent) == Step(Outcome(old(Value()), before, old(sent)), b)
    {
      data := [];
      if st == ST_DATA {
        if b == IAC {
          st := ST_IAC;
        } else {
          data := [b];
        }
      } else if st == ST_IAC {
        if b == IAC {
          data := [IAC];
          st := ST_DATA;
        } else if b == DO || b == DONT || b == WILL || b == WONT {
          cmd := b;
          st := ST_IAC_CMD;
        } else if b == SB {
          sbLen := 0;
          st := ST_SB;
        } else {
          st := ST_DATA;
        }
      } else if st == ST_IAC_CMD {
        HandleIacCmd(cmd, b);
        st := ST_DATA;
      } else if st == ST_SB {
        if b == IAC {
          st := ST_SB_IAC;
        } else {
          KeepSb(b);
        }
      } else if st == ST_SB_IAC {
        if b == SE {
          ProcessSb();
          st := ST_DATA;
        } else if b == IAC {
          KeepSb(IAC);
          st := ST_SB;
        } else {
          st := ST_SB;
        }
      } else {
        st := ST_DATA;
      }
    }

    /** telnet_feed: data beyond the room in `out` is lost, nothing else is. */
    method Feed(input: seq<byte>, out: array<byte>) returns (n: nat)
      requires Valid() && out != sbBuf
      modifies this, sbBuf, out
      ensures Valid()
      ensures var all := Run(Outcome(old(Value()), [], old(sent)), input);
              Value() == all.tn && sent == all.sent &&
              n == Min(|all.data|, out.Length) && out[..n] == all.data[..n]
      ensures out[n..] == old(out[..])[n..]
    {
      hide Step;
      ghost var start := Outcome(Value(), [], sent);
      n := 0;
      ghost var data := [];
      for i := 0 to |input|
        invariant Valid()
        invariant Outcome(Value(), data, sent) == Run(start, input[..i])
        invariant n == Min(|data|, out.Length) && out[..n] == data[..n]
        invariant out[n..] == old(out[..])[n..]
      {
        var more := FeedByte(input[i], data);
        assert input[..i + 1][..i] == input[..i];
        if |more| > 0 && n < out.Length {
          out[n] := more[0];
          n := n + 1;
        }
        data := data + more;
      }
      assert input[..|input|] == input;
    }
  }
}
