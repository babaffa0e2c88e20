/**
 http_session.c, read_request: accumulate bytes until the parser decides. The
 loop is written over any parser; `HttpProto.Parse`, which the method
 `HttpProto.ParseRequest` computes, is the one the theorems are about.
 */
module HttpRead {
  import opened Common
  import opened HttpProto
  import opened HttpStability

  type Parser = string -> Verdict

  /** What poll and recv report; Got(n): n bytes are ready, of which recv takes what fits. */
  datatype Recv = Got(n: nat) | Interrupted | Timeout | PeerClosed | Failed

  /** Waiting: every report is used up and the request is still open. */
  datatype Outcome = Accepted(req: Request, total: nat) | BadRequest | TooLarge | RequestTimeout | Aborted | Waiting

  predicate IsVerdict(o: Outcome) {
    o.Accepted? || o.BadRequest? || o.TooLarge?
  }

  /** What the client sends, cut to the buffer size. */
  predicate Window(w: string, cap: nat) {
    |w| <= cap && cap > 0
  }

  /** The answer a verdict on `now` bytes leads to. */
  function Judge(v: Verdict, now: nat, cap: nat): Outcome {
    match v
    case Complete(req, total) => Accepted(req, total)
    case Malformed => BadRequest
    case More => if now >= cap then TooLarge else Waiting
  }

  /** The answer one single parse of the whole window would give. */
  function Decide(parse: Parser, w: string, cap: nat): Outcome {
    Judge(parse(w), |w|, cap)
  }

  /** The read loop with `have` bytes received. */
  function ReadLoop(parse: Parser, w: string, cap: nat, have: nat, script: seq<Recv>): Outcome
    requires have <= |w|
    decreases |script|
  {
    if script == [] then Waiting
    else match script[0]
      case Interrupted => ReadLoop(parse, w, cap, have, script[1..])
      case Timeout => RequestTimeout
      case PeerClosed => Aborted
      case Failed => Aborted
      case Got(n) =>
        var now := have + Min(n, |w| - have);
        var o := if now == have then Waiting else Judge(parse(w[..now]), now, cap);
        if o != Waiting then o else ReadLoop(parse, w, cap, now, script[1..])
  }

  /** A verdict on a prefix of w is the verdict on w. */
  ghost predicate Final(parse: Parser, w: string) {
    forall n | 0 <= n <= |w| && parse(w[..n]) != More :: parse(w[..n]) == parse(w)
  }

  /** However the stream is cut, a verdict can only be the one of the whole window. */
  lemma {:induction false} VerdictIsDecided(parse: Parser, w: string, cap: nat, have: nat, script: seq<Recv>)
    requires Window(w, cap) && Final(parse, w)
    requires have <= |w| && IsVerdict(ReadLoop(parse, w, cap, have, script))
    ensures ReadLoop(parse, w, cap, have, script) == Decide(parse, w, cap)
    decreases |script|
  {
    var now := if script[0].Got? then have + Min(script[0].n, |w| - have) else have;
    if now != have && Judge(parse(w[..now]), now, cap) != Waiting {
      assert now == |w| ==> w[..now] == w;
    } else {
      VerdictIsDecided(parse, w, cap, now, script[1..]);
    }
  }

  function Ready(script: seq<Recv>): nat {
    if script == [] then 0 else (if script[0].Got? then script[0].n else 0) + Ready(script[1..])
  }

  predicate Patient(script: seq<Recv>) {
    forall i | 0 <= i < |script| :: script[i].Got? || script[i].Interrupted?
  }

  /** Without failure or timeout the whole of w arrives. */
  predicate Delivers(script: seq<Recv>, w: string) {
    Patient(script) && Ready(script) >= |w|
  }

  lemma {:induction false} DeliveryDecidesFrom(parse: Parser, w: string, cap: nat, have: nat, script: seq<Recv>)
    requires Window(w, cap) && Final(parse, w) && Patient(script)
    requires have <= |w| && have < cap && parse(w[..have]) == More && have + Ready(script) >= |w|
    ensures ReadLoop(parse, w, cap, have, script) == Decide(parse, w, cap)
    decreases |script|
  {
    if script == [] {
      assert w[..have] == w;
    } else {
      var now := if script[0].Got? then have + Min(script[0].n, |w| - have) else have;
      if now != have && Judge(parse(w[..now]), now, cap) != Waiting {
        VerdictIsDecided(parse, w, cap, have, script);
      } else {
        DeliveryDecidesFrom(parse, w, cap, now, script[1..]);
      }
    }
  }

  lemma {:induction false} JudgeTells(v: Verdict, v': Verdict, n: nat, n': nat, cap: nat)
    requires v != More && v != v'
    ensures Judge(v, n, cap) != Judge(v', n', cap)
  {
  }

  /** The loop is blind to the split of the stream exactly if the parser's verdicts are final. */
  lemma {:induction false} BlindExactlyIfFinal(parse: Parser, w: string, cap: nat)
    requires Window(w, cap) && parse("") == More
    ensures (forall script | Delivers(script, w) :: ReadLoop(parse, w, cap, 0, script) == Decide(parse, w, cap)) <==> Final(parse, w)
  {
    assert w[..0] == "";
    if Final(parse, w) {
      forall script | Delivers(script, w) ensures ReadLoop(parse, w, cap, 0, script) == Decide(parse, w, cap) {
        DeliveryDecidesFrom(parse, w, cap, 0, script);
      }
    } else {
      var n :| 0 <= n <= |w| && parse(w[..n]) != More && parse(w[..n]) != parse(w);
      EarlyAnswer(parse, w, cap, n);
    }
  }

  /** A verdict on a prefix is given as soon as exactly that prefix has arrived. */
  lemma {:induction false} EarlyAnswer(parse: Parser, w: string, cap: nat, n: nat)
    requires n <= |w| && parse("") == More && parse(w[..n]) != More && parse(w[..n]) != parse(w)
    ensures var script := [Got(n), Got(|w|)];
      Delivers(script, w) && ReadLoop(parse, w, cap, 0, script) != Decide(parse, w, cap)
  {
    var script := [Got(n), Got(|w|)];
    assert script[1..] == [Got(|w|)] && [Got(|w|)][1..] == [];
    assert Ready(script) == n + Ready(script[1..]);
    assert w[..0] == "";
    JudgeTells(parse(w[..n]), parse(w), n, |w|, cap);
  }

  /** The request parser's verdicts are final exactly on the streams whose length holds. */
  lemma {:induction false} ParseIsFinal(w: string)
    ensures Final(Parse, w) <==> LengthHolds(w)
  {
    if LengthHolds(w) {
      forall n | 0 <= n <= |w| && Parse(w[..n]) != More
        ensures Parse(w[..n]) == Parse(w)
      {
        VerdictOfPrefix(w, n);
      }
    } else {
      UnsettledPrefix(w);
    }
  }

  /** A verdict given at any moment, after any cut of the stream, is the verdict on the whole window. */
  lemma {:induction false} EarlyVerdictsAreRight(w: string, cap: nat, script: seq<Recv>)
    requires Window(w, cap) && LengthHolds(w) && IsVerdict(ReadLoop(Parse, w, cap, 0, script))
    ensures ReadLoop(Parse, w, cap, 0, script) == Decide(Parse, w, cap)
  {
    ParseIsFinal(w);
    VerdictIsDecided(Parse, w, cap, 0, script);
  }

  /** Once everything is delivered, no split of the stream can be seen, exactly if the length holds. */
  lemma {:induction false} SplitsCannotBeSeen(w: string, cap: nat)
    requires Window(w, cap)
    ensures (forall script | Delivers(script, w) :: ReadLoop(Parse, w, cap, 0, script) == Decide(Parse, w, cap)) <==> LengthHolds(w)
  {
    assert Parse("") == More;
    ParseIsFinal(w);
    BlindExactlyIfFinal(Parse, w, cap);
  }

  // ----- What each answer means ---------------------------------------------------------------------

  /** Bytes received after k reports. */
  function Arrived(w: string, script: seq<Recv>, k: nat): (n: nat)
    requires k <= |script|
    ensures n <= |w|
  {
    Min(Ready(script[..k]), |w|)
  }

  /** Report j settles nothing: an interruption, or bytes that leave the request incomplete and fit. */
  predicate Unsettled(parse: Parser, w: string, cap: nat, script: seq<Recv>, j: nat)
    requires j < |script|
  {
    || script[j].Interrupted?
    || (script[j].Got? &&
        var n := Arrived(w, script, j + 1);
        n == Arrived(w, script, j) || (parse(w[..n]) == More && n < cap))
  }

  /** Report j settles the request as o. */
  predicate Settles(parse: Parser, w: string, cap: nat, script: seq<Recv>, j: nat, o: Outcome)
    requires j < |script|
  {
    match script[j]
    case Interrupted => false
    case Timeout => o == RequestTimeout
    case PeerClosed => o == Aborted
    case Failed => o == Aborted
    case Got(_) =>
      var n := Arrived(w, script, j + 1);
      && n > Arrived(w, script, j)
      && match parse(w[..n])
         case Malformed => o == BadRequest
         case Complete(req, total) => o == Accepted(req, total)
         case More => n >= cap && o == TooLarge
  }

  /**
   o is the answer: the first report that settles the request settles it as o;
   if none does, the loop is still waiting.
   */
  ghost predicate Answers(parse: Parser, w: string, cap: nat, script: seq<Recv>, o: Outcome) {
    || (o == Waiting && forall j | 0 <= j < |script| :: Unsettled(parse, w, cap, script, j))
    || exists k | 0 <= k < |script| ::
         Settles(parse, w, cap, script, k, o) && forall j | 0 <= j < k :: Unsettled(parse, w, cap, script, j)
  }

  lemma {:induction false} ReadySnoc(script: seq<Recv>, k: nat)
    requires k < |script|
    ensures Ready(script[..k + 1]) == Ready(script[..k]) + if script[k].Got? then script[k].n else 0
  {
    ReadyAppend(script[..k], [script[k]]);
    assert script[..k + 1] == script[..k] + [script[k]];
    assert [script[k]][1..] == [];
  }

  lemma {:induction false} ReadyAppend(a: seq<Recv>, b: seq<Recv>)
    ensures Ready(a + b) == Ready(a) + Ready(b)
  {
    if a == [] {
      assert a + b == b;
    } else {
      assert (a + b)[1..] == a[1..] + b;
      ReadyAppend(a[1..], b);
    }
  }

  lemma {:induction false} AnswersFrom(parse: Parser, w: string, cap: nat, script: seq<Recv>, k: nat)
    requires k <= |script| && forall j | 0 <= j < k :: Unsettled(parse, w, cap, script, j)
    ensures Answers(parse, w, cap, script, ReadLoop(parse, w, cap, Arrived(w, script, k), script[k..]))
    decreases |script| - k
  {
    if k < |script| {
      ReadySnoc(script, k);
      var have, now := Arrived(w, script, k), Arrived(w, script, k + 1);
      var o := ReadLoop(parse, w, cap, have, script[k..]);
      assert script[k..][0] == script[k] && script[k..][1..] == script[k + 1..];
      if Unsettled(parse, w, cap, script, k) {
        AnswersFrom(parse, w, cap, script, k + 1);
      } else {
        assert Settles(parse, w, cap, script, k, o);
      }
    }
  }

  /** The loop gives the answer, for every parser, every stream and every series of reports. */
  lemma {:induction false} LoopAnswers(parse: Parser, w: string, cap: nat, script: seq<Recv>)
    ensures Answers(parse, w, cap, script, ReadLoop(parse, w, cap, 0, script))
  {
    assert script[..0] == [] && script[0..] == script;
    AnswersFrom(parse, w, cap, script, 0);
  }

  /** There is only one answer. */
  lemma {:induction false} OneAnswer(parse: Parser, w: string, cap: nat, script: seq<Recv>, a: Outcome, b: Outcome)
    requires Answers(parse, w, cap, script, a) && Answers(parse, w, cap, script, b)
    ensures a == b
  {
    forall j | 0 <= j < |script| && Unsettled(parse, w, cap, script, j) ensures !Settles(parse, w, cap, script, j, a) && !Settles(parse, w, cap, script, j, b) {
    }
  }

  /** What was received when an answer was given, answer by answer. */
  lemma {:induction false} AnswersAreEarned(parse: Parser, w: string, cap: nat, script: seq<Recv>)
    requires Window(w, cap)
    ensures var o := ReadLoop(parse, w, cap, 0, script);
      && (o == BadRequest ==> exists k | 0 < k <= |script| :: parse(w[..Arrived(w, script, k)]) == Malformed)
      && (o.Accepted? ==> exists k | 0 < k <= |script| :: parse(w[..Arrived(w, script, k)]) == Complete(o.req, o.total))
      && (o == TooLarge ==> |w| == cap && parse(w) == More && exists k | 0 < k <= |script| :: Arrived(w, script, k) == cap)
      && (o == RequestTimeout ==> Timeout in script)
      && (o == Aborted ==> PeerClosed in script || Failed in script)
  {
    var o := ReadLoop(parse, w, cap, 0, script);
    LoopAnswers(parse, w, cap, script);
    if o != Waiting {
      var k :| 0 <= k < |script| && Settles(parse, w, cap, script, k, o);
      assert 0 < k + 1 <= |script| && script[k] in script;
      assert Arrived(w, script, k + 1) == |w| ==> w[..Arrived(w, script, k + 1)] == w;
    }
  }

  /** After full delivery the answer is decided by one parse of everything, where the length holds. */
  lemma {:induction false} FullDelivery(w: string, cap: nat, script: seq<Recv>)
    requires Window(w, cap) && LengthHolds(w) && Delivers(script, w)
    ensures var o := ReadLoop(Parse, w, cap, 0, script);
      && (o == BadRequest <==> Parse(w) == Malformed)
      && (o.Accepted? <==> Parse(w).Complete?) && (o.Accepted? ==> Parse(w) == Complete(o.req, o.total))
      && (o == TooLarge <==> Parse(w) == More && |w| == cap)
      && (o == Waiting <==> Parse(w) == More && |w| < cap)
  {
    SplitsCannotBeSeen(w, cap);
  }

  /** read_request with room for bufsz bytes; recv is never called without room. */
  method ReadRequest(parse: Parser, stream: string, script: seq<Recv>, bufsz: nat) returns (o: Outcome)
    requires bufsz > 0
    ensures o == ReadLoop(parse, stream[..Min(bufsz, |stream|)], bufsz, 0, script)
    ensures Answers(parse, stream[..Min(bufsz, |stream|)], bufsz, script, o)
  {
    LoopAnswers(parse, stream[..Min(bufsz, |stream|)], bufsz, script);
    ghost var w := stream[..Min(bufsz, |stream|)];
    var buf: string := "";
    var k := 0;
    assert script[0..] == script;
    while k < |script|
      invariant 0 <= k <= |script| && |buf| < bufsz
      invariant buf <= w
      invariant ReadLoop(parse, w, bufsz, 0, script) == ReadLoop(parse, w, bufsz, |buf|, script[k..])
    {
      assert script[k..][0] == script[k] && script[k..][1..] == script[k + 1..];
      match script[k] {
        case Interrupted =>
        case Timeout => return RequestTimeout;
        case PeerClosed => return Aborted;
        case Failed => return Aborted;
        case Got(ready) =>
          var room := bufsz - |buf|;
          var n := Min(ready, Min(room, |stream| - |buf|));
          if n > 0 {
            buf := buf + stream[|buf|..|buf| + n];
            assert buf == w[..|buf|];
            match parse(buf) {
              case Complete(req, total) => return Accepted(req, total);
              case Malformed => return BadRequest;
              case More =>
            }
            if |buf| >= bufsz {
              return TooLarge;
            }
          }
      }
      k := k + 1;
    }
    return Waiting;
  }
}
