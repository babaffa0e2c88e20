/** Encoding for the IAC decoder, and what survives the trip. */
module IacRoundTrip {
  import opened Common
  import opened Iac

  /** What a telnet peer sends: runs of data, option commands, subnegotiation blocks, two-byte commands such as NOP. */
  datatype Item = Run(bytes: seq<byte>) | Cmd(cmd: byte, opt: byte) | Block(opt: byte, payload: seq<byte>) | Short(code: byte)

  /** RFC 854 / RFC 855: a literal 255 is sent twice. */
  function Double(bs: seq<byte>): seq<byte> {
    if bs == [] then [] else (if bs[0] == IAC then [IAC, IAC] else [bs[0]]) + Double(bs[1..])
  }

  function Encode(item: Item): seq<byte> {
    match item
    case Run(bytes) => Double(bytes)
    case Cmd(cmd, opt) => [IAC, cmd, opt]
    case Block(opt, payload) => [IAC, SB] + Double([opt] + payload) + [IAC, SE]
    case Short(code) => [IAC, code]
  }

  function EncodeAll(items: seq<Item>): seq<byte> {
    if items == [] then [] else Encode(items[0]) + EncodeAll(items[1..])
  }

  /** The bytes other than 255. */
  function Strip(bs: seq<byte>): seq<byte> {
    if bs == [] then [] else (if bs[0] == IAC then [] else [bs[0]]) + Strip(bs[1..])
  }

  function Truncate(bs: seq<byte>, n: nat): seq<byte> {
    bs[..Min(n, |bs|)]
  }

  /** The option the decoder remembers after an item; a block of nothing but 255s leaves the last one. */
  function Remembered(item: Item, last: byte): byte {
    if !item.Block? then last
    else
      var kept := Strip([item.opt] + item.payload);
      if kept == [] then last else kept[0]
  }

  /**
   What the decoder reports: inside a block doubled 255s vanish, the first byte
   left is the option and at most 254 more are the payload.
   */
  function Reported(item: Item, last: byte): seq<Event> {
    match item
    case Run(bytes) => DataEvents(bytes)
    case Cmd(cmd, opt) => [Negotiation(cmd, opt)]
    case Block(opt, payload) =>
      var kept := Strip([opt] + payload);
      [Subnegotiation(Remembered(item, last), if kept == [] then [] else Truncate(kept[1..], SB_BUF - 1))]
    case Short(_) => []
  }

  function ReportedAll(items: seq<Item>, last: byte): seq<Event> {
    if items == [] then [] else Reported(items[0], last) + ReportedAll(items[1..], Remembered(items[0], last))
  }

  /** The code of an item is one of its kind: the four option commands, or neither these nor IAC nor SB. */
  predicate Sendable(item: Item) {
    match item
    case Cmd(cmd, _) => cmd in {WILL, WONT, DO, DONT}
    case Short(code) => code !in {IAC, SB, WILL, WONT, DO, DONT}
    case _ => true
  }

  /** Unchanged by the trip: no 255 in a block, neither as option nor as payload, and a payload that fits. */
  predicate Faithful(item: Item) {
    item.Block? ==> item.opt != IAC && IAC !in item.payload && |item.payload| <= SB_BUF - 1
  }

  /** The one event each item stands for. */
  function Meaning(item: Item): seq<Event> {
    match item
    case Run(bytes) => DataEvents(bytes)
    case Cmd(cmd, opt) => [Negotiation(cmd, opt)]
    case Block(opt, payload) => [Subnegotiation(opt, payload)]
    case Short(_) => []
  }

  lemma {:induction false} StripMembers(bs: seq<byte>)
    ensures |Strip(bs)| <= |bs| && (Strip(bs) == bs <==> IAC !in bs)
  {
    if bs != [] {
      StripMembers(bs[1..]);
      assert bs == [bs[0]] + bs[1..];
      if bs[0] == IAC {
        assert |Strip(bs)| < |bs|;
      }
    }
  }

  lemma {:induction false} DecodeTwo(p: Parser, a: byte, b: byte)
    ensures var (q, es) := Step(p, a);
      Decode(p, [a, b]).0 == Step(q, b).0 && Decode(p, [a, b]).1 == es + Step(q, b).1
  {
    DecodeAppend(p, [a], [b]);
    DecodeOne(p, a);
    DecodeOne(Step(p, a).0, b);
    assert [a] + [b] == [a, b];
  }

  lemma {:induction false} DecodeRun(p: Parser, bytes: seq<byte>)
    requires p.mode == Data
    ensures Decode(p, Double(bytes)).0 == p && Decode(p, Double(bytes)).1 == DataEvents(bytes)
    decreases |bytes|
  {
    if bytes != [] {
      var head := if bytes[0] == IAC then [IAC, IAC] else [bytes[0]];
      DecodeAppend(p, head, Double(bytes[1..]));
      DecodeOne(p, bytes[0]);
      DecodeTwo(p, IAC, IAC);
      DecodeRun(p, bytes[1..]);
      assert DataEvents(bytes) == [Byte(bytes[0])] + DataEvents(bytes[1..]);
    }
  }

  /** The block after one more body byte, doubled on the wire if it is 255. */
  function BodyAfter(p: Parser, b: byte): Parser {
    if b == IAC then p else p.(sub := Truncate(p.sub + [b], SB_BUF), opt := if p.sub == [] then b else p.opt)
  }

  lemma {:induction false} BodyByte(p: Parser, b: byte)
    requires p.mode == Sub && |p.sub| <= SB_BUF
    ensures var head := if b == IAC then [IAC, IAC] else [b];
      Decode(p, head).0 == BodyAfter(p, b) && Decode(p, head).1 == []
  {
    if b == IAC {
      DecodeTwo(p, IAC, IAC);
    } else {
      DecodeOne(p, b);
      assert |p.sub| < SB_BUF ==> Truncate(p.sub + [b], SB_BUF) == p.sub + [b];
    }
  }

  lemma {:induction false} BodyUnfold(p: Parser, bs: seq<byte>)
    requires p.mode == Sub && |p.sub| <= SB_BUF && bs != []
    ensures Decode(p, Double(bs)).0 == Decode(BodyAfter(p, bs[0]), Double(bs[1..])).0
    ensures Decode(p, Double(bs)).1 == Decode(BodyAfter(p, bs[0]), Double(bs[1..])).1
  {
    BodyByte(p, bs[0]);
    DecodeAppend(p, if bs[0] == IAC then [IAC, IAC] else [bs[0]], Double(bs[1..]));
  }

  /** The option and the kept bytes after a whole stripped body. */
  function BodyEnd(p: Parser, kept: seq<byte>): Parser {
    p.(sub := Truncate(p.sub + kept, SB_BUF), opt := if p.sub == [] && kept != [] then kept[0] else p.opt)
  }

  lemma {:induction false} BodyEndUnfold(p: Parser, bs: seq<byte>)
    requires |p.sub| <= SB_BUF && bs != []
    ensures BodyEnd(BodyAfter(p, bs[0]), Strip(bs[1..])) == BodyEnd(p, Strip(bs))
  {
    var b, rest := bs[0], Strip(bs[1..]);
    if b != IAC {
      assert p.sub + Strip(bs) == (p.sub + [b]) + rest;
    } else {
      assert Strip(bs) == rest;
    }
  }

  /** Inside a block the stripped bytes accumulate, up to the buffer size. */
  lemma {:induction false} DecodeBody(p: Parser, bs: seq<byte>)
    requires p.mode == Sub && |p.sub| <= SB_BUF
    ensures Decode(p, Double(bs)).0 == BodyEnd(p, Strip(bs))
    ensures Decode(p, Double(bs)).1 == []
    decreases |bs|
  {
    if bs == [] {
      assert p.sub + [] == p.sub;
    } else {
      BodyUnfold(p, bs);
      DecodeBody(BodyAfter(p, bs[0]), bs[1..]);
      BodyEndUnfold(p, bs);
    }
  }

  lemma {:induction false} PayloadOfKept(kept: seq<byte>)
    requires kept != []
    ensures Payload(Truncate(kept, SB_BUF)) == Truncate(kept[1..], SB_BUF - 1)
  {
  }

  /** The block up to its end marker. */
  lemma {:induction false} DecodeOpening(p: Parser, body: seq<byte>, r: Parser)
    requires p.mode == Data && r == BodyEnd(p.(mode := Sub, sub := []), Strip(body))
    ensures Decode(p, [IAC, SB] + Double(body)).0 == r && Decode(p, [IAC, SB] + Double(body)).1 == []
  {
    DecodeTwo(p, IAC, SB);
    DecodeAppend(p, [IAC, SB], Double(body));
    DecodeBody(p.(mode := Sub, sub := []), body);
  }

  lemma {:induction false} DecodeBlock(p: Parser, opt: byte, payload: seq<byte>)
    requires p.mode == Data
    ensures var item := Block(opt, payload);
      && Decode(p, Encode(item)).0.mode == Data && Decode(p, Encode(item)).0.opt == Remembered(item, p.opt)
      && Decode(p, Encode(item)).1 == Reported(item, p.opt)
  {
    var body := [opt] + payload;
    var kept := Strip(body);
    var r := BodyEnd(p.(mode := Sub, sub := []), kept);
    DecodeOpening(p, body, r);
    DecodeAppend(p, [IAC, SB] + Double(body), [IAC, SE]);
    DecodeTwo(r, IAC, SE);
    assert [] + kept == kept;
    if kept != [] {
      PayloadOfKept(kept);
    }
  }

  lemma {:induction false} DecodeCommand(p: Parser, cmd: byte, opt: byte)
    requires p.mode == Data && cmd in {WILL, WONT, DO, DONT}
    ensures var wire := Encode(Cmd(cmd, opt));
      Decode(p, wire).0 == p.(cmd := cmd) && Decode(p, wire).1 == [Negotiation(cmd, opt)]
  {
    DecodeTwo(p, IAC, cmd);
    DecodeAppend(p, [IAC, cmd], [opt]);
    DecodeOne(Step(Step(p, IAC).0, cmd).0, opt);
    assert [IAC, cmd] + [opt] == Encode(Cmd(cmd, opt));
  }

  /** A two-byte command leaves the decoder as it was and reports nothing. */
  lemma {:induction false} DecodeShort(p: Parser, code: byte)
    requires p.mode == Data && code !in {IAC, SB, WILL, WONT, DO, DONT}
    ensures Decode(p, [IAC, code]) == (p, [])
  {
    DecodeTwo(p, IAC, code);
  }

  /** Inside a block, IAC and any byte but SE leave the decoder as it was and report nothing. */
  lemma {:induction false} DecodeStray(p: Parser, b: byte)
    requires p.mode == Sub && b != SE
    ensures Decode(p, [IAC, b]) == (p, [])
  {
    DecodeTwo(p, IAC, b);
  }

  /** Bytes that leave the decoder as it was can be taken out of any stream. */
  lemma {:induction false} SilentBytes(p: Parser, xs: seq<byte>, silent: seq<byte>, ys: seq<byte>)
    requires var q := Decode(p, xs).0; Decode(q, silent) == (q, [])
    ensures Decode(p, xs + silent + ys) == Decode(p, xs + ys)
  {
    DecodeAppend(p, xs, silent);
    DecodeAppend(p, xs + silent, ys);
    DecodeAppend(p, xs, ys);
    assert Decode(p, xs).1 + [] == Decode(p, xs).1;
  }

  /** A stray escape anywhere in a block is as if it had not been sent. */
  lemma {:induction false} StrayInBlock(p: Parser, xs: seq<byte>, b: byte, ys: seq<byte>)
    requires p.mode == Data && b != SE
    ensures Decode(p, [IAC, SB] + Double(xs) + [IAC, b] + (Double(ys) + [IAC, SE])) == Decode(p, [IAC, SB] + Double(xs) + (Double(ys) + [IAC, SE]))
  {
    var q := BodyEnd(p.(mode := Sub, sub := []), Strip(xs));
    DecodeOpening(p, xs, q);
    DecodeStray(q, b);
    SilentBytes(p, [IAC, SB] + Double(xs), [IAC, b], Double(ys) + [IAC, SE]);
  }

  /** Any item decodes, from the data state and back to it, to what is reported for it. */
  lemma {:induction false} ItemRoundTrip(p: Parser, item: Item)
    requires p.mode == Data && Sendable(item)
    ensures Decode(p, Encode(item)).0.mode == Data && Decode(p, Encode(item)).0.opt == Remembered(item, p.opt)
    ensures Decode(p, Encode(item)).1 == Reported(item, p.opt)
  {
    match item {
      case Run(bytes) => DecodeRun(p, bytes);
      case Cmd(cmd, opt) => DecodeCommand(p, cmd, opt);
      case Block(opt, payload) => DecodeBlock(p, opt, payload);
      case Short(code) => DecodeShort(p, code);
    }
  }

  /** So does any sequence of items. */
  lemma {:induction false} StreamRoundTrip(p: Parser, items: seq<Item>)
    requires p.mode == Data && forall i | i in items :: Sendable(i)
    ensures Decode(p, EncodeAll(items)).0.mode == Data
    ensures Decode(p, EncodeAll(items)).1 == ReportedAll(items, p.opt)
    decreases |items|
  {
    if items != [] {
      assert items[0] in items;
      ItemRoundTrip(p, items[0]);
      StreamRoundTrip(Decode(p, Encode(items[0])).0, items[1..]);
      DecodeAppend(p, Encode(items[0]), EncodeAll(items[1..]));
    }
  }

  /** What is left of a block is the block itself exactly if it is faithful. */
  lemma {:induction false} BlockSurvives(opt: byte, payload: seq<byte>, last: byte)
    requires last != IAC
    ensures Reported(Block(opt, payload), last) == [Subnegotiation(opt, payload)] <==> Faithful(Block(opt, payload))
  {
    var body := [opt] + payload;
    var kept := Strip(body);
    assert body[1..] == payload;
    StripMembers(body);
    StripMembers(payload);
    StripHasNone(body);
    if opt != IAC {
      var rest := Truncate(Strip(payload), SB_BUF - 1);
      StripFirst(opt, payload);
      assert Reported(Block(opt, payload), last)[0] == Subnegotiation(opt, rest);
      if IAC in payload {
        StripShrinks(payload);
        assert |rest| < |payload|;
      }
      assert rest == payload <==> IAC !in payload && |payload| <= SB_BUF - 1;
    } else {
      assert kept != [] ==> kept[0] in kept;
      assert Reported(Block(opt, payload), last)[0].opt != opt;
    }
  }

  lemma {:induction false} StripFirst(opt: byte, payload: seq<byte>)
    requires opt != IAC
    ensures Strip([opt] + payload) == [opt] + Strip(payload) && Strip([opt] + payload)[1..] == Strip(payload)
  {
    assert ([opt] + payload)[1..] == payload;
  }

  lemma {:induction false} StripHasNone(bs: seq<byte>)
    ensures IAC !in Strip(bs)
  {
    if bs != [] {
      StripHasNone(bs[1..]);
    }
  }

  /** One item comes back unchanged exactly if it is faithful, from any state the decoder can be in. */
  lemma {:induction false} ItemSurvives(p: Parser, item: Item)
    requires p.mode == Data && Wellformed(p) && Sendable(item)
    ensures Decode(p, Encode(item)).1 == Meaning(item) <==> Faithful(item)
  {
    ItemRoundTrip(p, item);
    if item.Block? {
      BlockSurvives(item.opt, item.payload, p.opt);
    }
  }

  /** A payload byte 255 is gone; an option 255 gives way to the first payload byte. */
  lemma {:induction false} DoubledBytesAreLost()
    ensures Decode(FRESH, Encode(Block(OPT_NAWS, [IAC, 7]))).1 == [Subnegotiation(OPT_NAWS, [7])]
    ensures Decode(FRESH, Encode(Block(IAC, [1]))).1 == [Subnegotiation(1, [])]
  {
    var a: seq<byte>, b: seq<byte> := [OPT_NAWS] + [IAC, 7], [IAC] + [1];
    DecodeBlock(FRESH, OPT_NAWS, [IAC, 7]);
    DecodeBlock(FRESH, IAC, [1]);
    assert a[1..] == [IAC, 7] && a[1..][1..] == [7] && a[1..][1..][1..] == [];
    assert Strip(a[1..][1..]) == [7];
    assert Strip(a) == [OPT_NAWS, 7];
    assert Strip(a)[1..] == [7];
    assert b[1..] == [1] && b[1..][1..] == [];
    assert Strip(b) == [1];
    assert Strip(b)[1..] == [];
  }

  // ----- Window size (section 2 of RFC 1073) -------------------------------------------------------

  datatype Size = Size(cols: nat, rows: nat)

  /** on_subneg: a NAWS block of at least four bytes carries width and height, high byte first. */
  function NawsSize(e: Event): Option<Size> {
    if e.Subnegotiation? && e.opt == OPT_NAWS && |e.payload| >= 4
    then Some(Size(256 * (e.payload[0] as int) + e.payload[1], 256 * (e.payload[2] as int) + e.payload[3]))
    else None
  }

  function NawsPayload(size: Size): seq<byte>
    requires size.cols < 65536 && size.rows < 65536
  {
    [size.cols / 256, size.cols % 256, size.rows / 256, size.rows % 256]
  }

  /** A window size is recovered exactly if none of its four bytes is 255; otherwise the report is ignored. */
  lemma {:induction false} WindowSizeRecovered(p: Parser, size: Size)
    requires p.mode == Data && size.cols < 65536 && size.rows < 65536
    ensures var events := Decode(p, Encode(Block(OPT_NAWS, NawsPayload(size)))).1;
      && |events| == 1
      && (IAC !in NawsPayload(size) ==> NawsSize(events[0]) == Some(size))
      && (IAC in NawsPayload(size) ==> NawsSize(events[0]) == None)
  {
    var payload := NawsPayload(size);
    DecodeBlock(p, OPT_NAWS, payload);
    StripFirst(OPT_NAWS, payload);
    StripMembers(payload);
    if IAC in payload {
      assert |Strip(payload)| < 4 by {
        StripShrinks(payload);
      }
    }
  }

  lemma {:induction false} StripShrinks(bs: seq<byte>)
    requires IAC in bs
    ensures |Strip(bs)| < |bs|
  {
    StripMembers(bs[1..]);
    assert bs == [bs[0]] + bs[1..];
    if bs[0] != IAC {
      StripShrinks(bs[1..]);
    }
  }

  // ----- Builders --------------------------------------------------------------------------------------

  /** iac_write_will / wont / do / dont into buf[at..]: three bytes, or -1 when they do not fit. */
  method WriteCommand(buf: array<byte>, at: nat, cmd: byte, opt: byte) returns (n: int)
    requires at <= buf.Length && IsCommand(cmd)
    modifies buf
    ensures n == if buf.Length - at >= 3 then 3 else -1
    ensures buf[..at] == old(buf[..at])
    ensures n == 3 ==> buf[at..at + 3] == Encode(Cmd(cmd, opt)) && buf[at + 3..] == old(buf[at + 3..])
    ensures n < 0 ==> buf[..] == old(buf[..])
  {
    if buf.Length - at < 3 {
      return -1;
    }
    buf[at] := IAC;
    buf[at + 1] := cmd;
    buf[at + 2] := opt;
    n := 3;
  }

  /** act_send_negotiations: the offer a client decodes as exactly these three commands. */
  method WriteNegotiations() returns (nego: seq<byte>)
    ensures Decode(FRESH, nego).0.mode == Data
    ensures Decode(FRESH, nego).1 == [Negotiation(WILL, OPT_ECHO), Negotiation(WILL, OPT_SGA), Negotiation(DO, OPT_NAWS)]
  {
    var buf := new byte[16](_ => 0);
    var pos := 0;
    var n := WriteCommand(buf, pos, WILL, OPT_ECHO);
    pos := pos + n;
    n := WriteCommand(buf, pos, WILL, OPT_SGA);
    pos := pos + n;
    ghost var two := buf[..pos];
    n := WriteCommand(buf, pos, DO, OPT_NAWS);
    pos := pos + n;
    nego := buf[..pos];
    ghost var items := [Cmd(WILL, OPT_ECHO), Cmd(WILL, OPT_SGA), Cmd(DO, OPT_NAWS)];
    assert two == buf[..6] == Encode(items[0]) + Encode(items[1]);
    assert nego == two + Encode(items[2]);
    NegotiationStream();
  }

  lemma {:induction false} NegotiationStream()
    ensures var nego := [IAC, WILL, OPT_ECHO] + [IAC, WILL, OPT_SGA] + [IAC, DO, OPT_NAWS];
      && Decode(FRESH, nego).0.mode == Data
      && Decode(FRESH, nego).1 == [Negotiation(WILL, OPT_ECHO), Negotiation(WILL, OPT_SGA), Negotiation(DO, OPT_NAWS)]
  {
    var a, b, c := Cmd(WILL, OPT_ECHO), Cmd(WILL, OPT_SGA), Cmd(DO, OPT_NAWS);
    StreamRoundTrip(FRESH, [a, b, c]);
    assert [a, b, c][1..] == [b, c] && [b, c][1..] == [c] && [c][1..] == [];
    assert EncodeAll([c]) == Encode(c) + [];
    assert EncodeAll([b, c]) == Encode(b) + Encode(c);
    assert EncodeAll([a, b, c]) == Encode(a) + Encode(b) + Encode(c);
    assert ReportedAll([c], 0) == Reported(c, 0) + [];
    assert ReportedAll([b, c], 0) == Reported(b, 0) + Reported(c, 0);
  }
}
