/**
 telnet_proto.c: the IAC stream decoder (RFC 854, "TELNET COMMAND STRUCTURE";
 RFC 855 for subnegotiation). The reference decoder works byte by byte; the
 parser class slices runs of plain data out of the received buffer.
 */
module Iac {
  import opened Common

  const IAC: byte := 255
  const DONT: byte := 254
  const DO: byte := 253
  const WONT: byte := 252
  const WILL: byte := 251
  const SB: byte := 250
  const SE: byte := 240

  const OPT_ECHO: byte := 1
  const OPT_SGA: byte := 3
  const OPT_NAWS: byte := 31

  const SB_BUF: nat := 255

  // ----- Reference decoder ---------------------------------------------------------------

  datatype Mode = Data | SawIac | Command | Sub | SubIac

  /**
   `opt` outlives its block: a block without any byte reports the last one seen.
   `sub` holds the bytes kept of the current block, the option byte first.
   */
  datatype Parser = Parser(mode: Mode, cmd: byte, opt: byte, sub: seq<byte>)

  datatype Event = Byte(b: byte) | Negotiation(cmd: byte, opt: byte) | Subnegotiation(opt: byte, payload: seq<byte>)

  const FRESH := Parser(Data, 0, 0, [])

  predicate IsCommand(b: byte) {
    b == WILL || b == WONT || b == DO || b == DONT
  }

  function Payload(sub: seq<byte>): seq<byte> {
    if |sub| > 1 then sub[1..] else []
  }

  function Step(p: Parser, b: byte): (Parser, seq<Event>) {
    match p.mode
    case Data =>
      if b == IAC then (p.(mode := SawIac), []) else (p, [Byte(b)])
    case SawIac =>
      if b == IAC then (p.(mode := Data), [Byte(IAC)])
      else if b == SB then (p.(mode := Sub, sub := []), [])
      else if IsCommand(b) then (p.(mode := Command, cmd := b), [])
      else (p.(mode := Data), [])
    case Command => (p.(mode := Data), [Negotiation(p.cmd, b)])
    case Sub =>
      if b == IAC then (p.(mode := SubIac), [])
      else if p.sub == [] then (p.(opt := b, sub := [b]), [])
      else if |p.sub| < SB_BUF then (p.(sub := p.sub + [b]), [])
      else (p, [])
    case SubIac =>
      if b == SE then (p.(mode := Data), [Subnegotiation(p.opt, Payload(p.sub))])
      else (p.(mode := Sub), [])
  }

  function Decode(p: Parser, xs: seq<byte>): (Parser, seq<Event>)
    decreases |xs|
  {
    if xs == [] then (p, [])
    else
      var (q, es) := Step(p, xs[0]);
      var (r, fs) := Decode(q, xs[1..]);
      (r, es + fs)
  }

  /** Feeding xs and then ys is feeding xs + ys. */
  lemma {:induction false} DecodeAppend(p: Parser, xs: seq<byte>, ys: seq<byte>)
    ensures var (q, es) := Decode(p, xs);
      var (r, fs) := Decode(q, ys);
      Decode(p, xs + ys) == (r, es + fs)
    decreases |xs|
  {
    if xs == [] {
      assert xs + ys == ys;
      assert [] + Decode(p, ys).1 == Decode(p, ys).1;
    } else {
      var (q, es) := Step(p, xs[0]);
      DecodeAppend(q, xs[1..], ys);
      assert (xs + ys)[0] == xs[0] && (xs + ys)[1..] == xs[1..] + ys;
      var (r, fs) := Decode(q, xs[1..]);
      assert es + (fs + Decode(r, ys).1) == (es + fs) + Decode(r, ys).1;
    }
  }

  lemma {:induction false} DecodeOne(p: Parser, b: byte)
    ensures Decode(p, [b]) == Step(p, b)
  {
    var (q, es) := Step(p, b);
    assert [b][1..] == [];
    assert Decode(q, []) == (q, []);
    assert es + [] == es;
  }

  // ----- What a parser never loses -----------------------------------------------------------

  ghost predicate Wellformed(p: Parser) {
    && |p.sub| <= SB_BUF
    && p.opt != IAC && IAC !in p.sub
    && (p.sub != [] ==> p.sub[0] == p.opt)
    && (p.mode == Command ==> IsCommand(p.cmd))
  }

  ghost predicate GoodEvent(e: Event) {
    match e
    case Byte(_) => true
    case Negotiation(cmd, _) => IsCommand(cmd)
    case Subnegotiation(opt, payload) => opt != IAC && IAC !in payload && |payload| <= SB_BUF - 1
  }

  /** Buffers stay in bounds; only the four commands are reported; no reported block contains IAC. */
  lemma {:induction false} DecodeKeepsWellformed(p: Parser, xs: seq<byte>)
    requires Wellformed(p)
    ensures Wellformed(Decode(p, xs).0)
    ensures forall e | e in Decode(p, xs).1 :: GoodEvent(e)
    decreases |xs|
  {
    if xs != [] {
      var (q, es) := Step(p, xs[0]);
      assert Wellformed(q) && forall e | e in es :: GoodEvent(e) by {
        assert forall b | b in Payload(p.sub) :: b in p.sub;
      }
      DecodeKeepsWellformed(q, xs[1..]);
    }
  }

  // ----- The slicing parser ------------------------------------------------------------------------

  /** One callback; a slice refers to a range of the buffer being fed. */
  datatype Call =
    | Slice(start: nat, len: nat)
    | EscapedIac
    | OnOption(cmd: byte, opt: byte)
    | OnSubneg(opt: byte, payload: seq<byte>)

  function DataEvents(bs: seq<byte>): (es: seq<Event>)
    ensures |es| == |bs|
  {
    seq(|bs|, i requires 0 <= i < |bs| => Byte(bs[i]))
  }

  function CallEvents(c: Call, raw: seq<byte>): seq<Event> {
    match c
    case Slice(start, len) => if start + len <= |raw| then DataEvents(raw[start..start + len]) else []
    case EscapedIac => [Byte(IAC)]
    case OnOption(cmd, opt) => [Negotiation(cmd, opt)]
    case OnSubneg(opt, payload) => [Subnegotiation(opt, payload)]
  }

  function Flatten(calls: seq<Call>, raw: seq<byte>): seq<Event> {
    if calls == [] then []
    else Flatten(calls[..|calls| - 1], raw) + CallEvents(calls[|calls| - 1], raw)
  }

  /** Slices are non-empty, in order, each ending before the next begins with a byte between, the last before `end`. */
  ghost predicate Laid(calls: seq<Call>, end: nat) {
    calls == [] ||
    (var c := calls[|calls| - 1];
     var front := calls[..|calls| - 1];
     if c.Slice? then c.len > 0 && c.start + c.len < end && Laid(front, c.start) else Laid(front, end))
  }

  lemma {:induction false} LaidSnoc(calls: seq<Call>, c: Call, raw: seq<byte>, end: nat)
    requires if c.Slice? then c.len > 0 && c.start + c.len < end && Laid(calls, c.start) else Laid(calls, end)
    ensures Laid(calls + [c], end)
    ensures Flatten(calls + [c], raw) == Flatten(calls, raw) + CallEvents(c, raw)
  {
    assert (calls + [c])[..|calls + [c]| - 1] == calls;
  }

  lemma {:induction false} LaidLater(calls: seq<Call>, end: nat, later: nat)
    requires Laid(calls, end) && end <= later
    ensures Laid(calls, later)
  {
    if calls != [] && !calls[|calls| - 1].Slice? {
      LaidLater(calls[..|calls| - 1], end, later);
    }
  }

  /** Spelled out: every slice lies inside, is non-empty, and two slices never touch. */
  ghost predicate Separated(calls: seq<Call>, end: nat) {
    && (forall i | 0 <= i < |calls| && calls[i].Slice? :: calls[i].len > 0 && calls[i].start + calls[i].len < end)
    && (forall i, j | 0 <= i < j < |calls| && calls[i].Slice? && calls[j].Slice? ::
          calls[i].start + calls[i].len < calls[j].start)
  }

  lemma {:induction false} LaidMeansSeparated(calls: seq<Call>, end: nat)
    requires Laid(calls, end)
    ensures Separated(calls, end)
  {
    if calls != [] {
      var c, front := calls[|calls| - 1], calls[..|calls| - 1];
      LaidMeansSeparated(front, if c.Slice? then c.start else end);
      assert forall i | 0 <= i < |front| :: front[i] == calls[i];
    }
  }

  /** After i bytes: `calls` made, the slice [start, start + len) pending, parser in state p. */
  ghost predicate Progress(p0: Parser, raw: seq<byte>, i: nat, calls: seq<Call>, start: nat, len: nat, p: Parser) {
    && i <= |raw|
    && (len > 0 ==> start + len == i && p.mode == Data)
    && Laid(calls, if len > 0 then start else i)
    && p == Decode(p0, raw[..i]).0
    && Flatten(calls, raw) + (if len > 0 then DataEvents(raw[start..i]) else []) == Decode(p0, raw[..i]).1
  }

  lemma {:induction false} DecodeNext(p0: Parser, raw: seq<byte>, i: nat)
    requires i < |raw|
    ensures var (p, es) := Decode(p0, raw[..i]);
      && Decode(p0, raw[..i + 1]).0 == Step(p, raw[i]).0
      && Decode(p0, raw[..i + 1]).1 == es + Step(p, raw[i]).1
  {
    var p := Decode(p0, raw[..i]).0;
    assert raw[..i + 1] == raw[..i] + [raw[i]];
    DecodeAppend(p0, raw[..i], [raw[i]]);
    DecodeOne(p, raw[i]);
  }

  lemma {:induction false} DataEventsGrow(raw: seq<byte>, start: nat, i: nat)
    requires start <= i < |raw|
    ensures DataEvents(raw[start..i + 1]) == DataEvents(raw[start..i]) + [Byte(raw[i])]
  {
  }

  /** A plain byte opens or lengthens the pending slice. */
  lemma {:induction false} SliceGrows(p0: Parser, raw: seq<byte>, i: nat, calls: seq<Call>, start: nat, len: nat, p: Parser)
    requires Progress(p0, raw, i, calls, start, len, p) && i < |raw| && p.mode == Data && raw[i] != IAC
    ensures Progress(p0, raw, i + 1, calls, if len == 0 then i else start, len + 1, p)
  {
    DecodeNext(p0, raw, i);
    var from := if len > 0 then start else i;
    DataEventsGrow(raw, from, i);
    assert DataEvents(raw[i..i]) == [];
    Regroup(Flatten(calls, raw), DataEvents(raw[from..i]), [Byte(raw[i])]);
  }

  function Flushed(calls: seq<Call>, start: nat, len: nat): seq<Call> {
    if len > 0 then calls + [Slice(start, len)] else calls
  }

  function Called(calls: seq<Call>, call: Option<Call>): seq<Call> {
    if call.Some? then calls + [call.value] else calls
  }

  /** Flushing turns the pending slice into a callback. */
  lemma {:induction false} SliceFlushed(p0: Parser, raw: seq<byte>, i: nat, calls: seq<Call>, start: nat, len: nat, p: Parser)
    requires Progress(p0, raw, i, calls, start, len, p)
    ensures Laid(Flushed(calls, start, len), i + 1)
    ensures Flatten(Flushed(calls, start, len), raw) == Decode(p0, raw[..i]).1
  {
    if len > 0 {
      LaidSnoc(calls, Slice(start, len), raw, i + 1);
    } else {
      LaidLater(calls, i, i + 1);
    }
  }

  /** Any other byte flushes, and is consumed without a slice: it leaves a gap before the next one. */
  lemma {:induction false} ControlConsumed(p0: Parser, raw: seq<byte>, i: nat, calls: seq<Call>, start: nat, len: nat, p: Parser, call: Option<Call>)
    requires Progress(p0, raw, i, calls, start, len, p) && i < |raw|
    requires call.None? ==> Step(p, raw[i]).1 == []
    requires call.Some? ==> !call.value.Slice? && Step(p, raw[i]).1 == CallEvents(call.value, [])
    ensures Progress(p0, raw, i + 1, Called(Flushed(calls, start, len), call), 0, 0, Step(p, raw[i]).0)
  {
    SliceFlushed(p0, raw, i, calls, start, len, p);
    DecodeNext(p0, raw, i);
    if call.Some? {
      LaidSnoc(Flushed(calls, start, len), call.value, raw, i + 1);
    }
  }

  lemma {:induction false} NothingFed(p: Parser, raw: seq<byte>)
    ensures Progress(p, raw, 0, [], 0, 0, p)
  {
    assert raw[..0] == [];
  }

  lemma {:induction false} AllFed(p0: Parser, raw: seq<byte>, i: nat, calls: seq<Call>, start: nat, len: nat, p: Parser)
    requires Progress(p0, raw, i, calls, start, len, p) && i == |raw|
    ensures Separated(Flushed(calls, start, len), |raw| + 1)
    ensures p == Decode(p0, raw).0 && Flatten(Flushed(calls, start, len), raw) == Decode(p0, raw).1
  {
    assert raw[..i] == raw;
    SliceFlushed(p0, raw, i, calls, start, len, p);
    LaidMeansSeparated(Flushed(calls, start, len), |raw| + 1);
  }

  class IacParser {
    var mode: Mode
    var cmd: byte
    const sbBuf: array<byte>
    var sbLen: nat
    var sbOpt: byte

    ghost predicate Valid()
      reads this, sbBuf
    {
      sbBuf.Length == SB_BUF && sbLen <= SB_BUF
    }

    /** The abstract parser: the option byte and the kept payload form the block. */
    ghost function View(): Parser
      requires Valid()
      reads this, sbBuf
    {
      Parser(mode, cmd, sbOpt, if sbLen == 0 then [] else [sbOpt] + sbBuf[..sbLen - 1])
    }

    constructor ()
      ensures Valid() && View() == FRESH && fresh(sbBuf)
    {
      mode := Data;
      cmd := 0;
      sbBuf := new byte[SB_BUF](_ => 0);
      sbLen := 0;
      sbOpt := 0;
    }

    /** A byte inside a block: the option first, then payload while the buffer has room. */
    method Keep(b: byte)
      requires Valid() && mode == Sub && b != IAC
      modifies this, sbBuf
      ensures Valid() && View() == Step(old(View()), b).0
    {
      if sbLen == 0 {
        sbOpt := b;
        sbLen := 1;
        assert View().sub == [b];
      } else if sbLen < sbBuf.Length {
        sbBuf[sbLen - 1] := b;
        sbLen := sbLen + 1;
        assert View().sub == old(View()).sub + [b];
      }
    }

    /** One byte that is not plain data; at most one callback. */
    method Control(b: byte) returns (call: Option<Call>)
      requires Valid() && (mode == Data ==> b == IAC)
      modifies this, sbBuf
      ensures Valid() && View() == Step(old(View()), b).0
      ensures call.None? ==> Step(old(View()), b).1 == []
      ensures call.Some? ==> !call.value.Slice? && Step(old(View()), b).1 == CallEvents(call.value, [])
    {
      call := None;
      match mode {
        case Data =>
          mode := SawIac;
        case SawIac =>
          if b == IAC {
            call := Some(EscapedIac);
            mode := Data;
          } else if b == SB {
            sbLen := 0;
            mode := Sub;
          } else if b == WILL || b == WONT || b == DO || b == DONT {
            cmd := b;
            mode := Command;
          } else {
            mode := Data;
          }
        case Command =>
          call := Some(OnOption(cmd, b));
          mode := Data;
        case Sub =>
          if b == IAC {
            mode := SubIac;
          } else {
            Keep(b);
          }
        case SubIac =>
          if b == SE {
            var len := if sbLen > 1 then sbLen - 1 else 0;
            assert sbBuf[..len] == Payload(View().sub);
            call := Some(OnSubneg(sbOpt, sbBuf[..len]));
            mode := Data;
          } else {
            mode := Sub;
          }
      }
    }

    /** One round of the feeding loop. */
    method Consume(ghost p0: Parser, raw: seq<byte>, i: nat, calls: seq<Call>, dataStart: nat, dataLen: nat)
      returns (calls': seq<Call>, start': nat, len': nat)
      requires Valid() && i < |raw| && Progress(p0, raw, i, calls, dataStart, dataLen, View())
      modifies this, sbBuf
      ensures Valid() && Progress(p0, raw, i + 1, calls', start', len', View())
    {
      if mode == Data && raw[i] != IAC {
        SliceGrows(p0, raw, i, calls, dataStart, dataLen, View());
        return calls, if dataLen == 0 then i else dataStart, dataLen + 1;
      }
      ghost var p := View();
      var call := Control(raw[i]);
      ControlConsumed(p0, raw, i, calls, dataStart, dataLen, p, call);
      return Called(Flushed(calls, dataStart, dataLen), call), 0, 0;
    }

    /**
     iac_parser_feed: the callbacks made for one received buffer. Flattened they
     are the reference events, in order; slices are maximal ranges of the buffer.
     */
    method Feed(raw: seq<byte>) returns (calls: seq<Call>)
      requires Valid()
      modifies this, sbBuf
      ensures Valid() && Separated(calls, |raw| + 1)
      ensures View() == Decode(old(View()), raw).0
      ensures Flatten(calls, raw) == Decode(old(View()), raw).1
    {
      ghost var p0 := View();
      calls := [];
      var dataStart, dataLen := 0, 0;
      NothingFed(p0, raw);
      var i := 0;
      while i < |raw|
        invariant 0 <= i <= |raw| && Valid() && Progress(p0, raw, i, calls, dataStart, dataLen, View())
      {
        calls, dataStart, dataLen := Consume(p0, raw, i, calls, dataStart, dataLen);
        i := i + 1;
      }
      AllFed(p0, raw, i, calls, dataStart, dataLen, View());
      calls := Flushed(calls, dataStart, dataLen);
    }
  }
}
