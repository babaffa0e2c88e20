/** Runs of the bus in which a waiting stream misses a message: the exceptions of NoLostWakeUp are real. */
module BusRuns {
  import opened Common
  import opened Store
  import opened Bus
  import opened BusInvariants
  import opened BusTheorems
  import Rooms

  /** Some run leads from s to t. */
  ghost predicate Reaches(s: State, t: State) {
    exists steps :: ValidRun(s, steps) && Run(s, steps) == t
  }

  lemma {:induction false} Then(s: State, t: State, u: State)
    requires Reaches(s, t) && Reaches(t, u)
    ensures Reaches(s, u)
  {
    var a :| ValidRun(s, a) && Run(s, a) == t;
    var b :| ValidRun(t, b) && Run(t, b) == u;
    RunAppend(s, a, b);
  }

  lemma {:induction false} OneStep(s: State, step: Step, t: State)
    requires Enabled(s, step) && Next(s, step) == t
    ensures Reaches(s, t)
  {
    var steps := [step];
    assert steps[1..] == [];
    assert ValidRun(t, []) && Run(t, []) == t;
    assert ValidRun(s, steps) && Run(s, steps) == t;
  }

  lemma {:induction false} NoStep(s: State)
    ensures Reaches(s, s)
  {
    assert ValidRun(s, []) && Run(s, []) == s;
  }

  /** Each state leads to the next. */
  ghost predicate Chain(states: seq<State>) {
    states != [] && forall k | 0 <= k < |states| - 1 :: Reaches(states[k], states[k + 1])
  }

  lemma {:induction false} ChainReaches(states: seq<State>)
    requires Chain(states)
    ensures Reaches(states[0], states[|states| - 1])
  {
    var n := |states| - 1;
    if n == 0 {
      NoStep(states[0]);
    } else {
      ChainReaches(states[..n]);
      assert Reaches(states[n - 1], states[n - 1 + 1]);
      Then(states[0], states[n - 1], states[n]);
    }
  }

  function StreamAt(pc: Pc, slot: bool, pipe: nat, ack: set<nat>, reader: Reader): Client {
    Client(true, pipe, Some(0), slot, pc, ack, reader, false)
  }

  function OneStream(msgs: seq<nat>, subs: seq<int>, waiting: set<nat>, fan: Option<Fan>, done: set<nat>, c: Client): State {
    State([Room(msgs, subs, waiting, fan, done)], map[3 := c], Tail(msgs))
  }

  const FRESH := Sse(0, 0, [], [], {}, None, false)
  const START := State([Room([], [], {}, None, {})], map[], 0)

  lemma {:induction false} StartIsInitial()
    ensures Init(START)
  {
  }

  // ----- A post between the tail read and the subscription --------------------------------------------

  const WINDOW_RUN :=
    [OpenSse(3, true, 0), OnClient(3, ReadTail), OnRoom(0, Insert(1)), OnRoom(0, Lock(1)), OnRoom(0, Unlock), Subscribe(3)]

  function WindowStates(): seq<State> {
    var c := StreamAt(AtSubscribe, false, 0, {}, FRESH);
    [ START,
      OneStream([], [], {}, None, {}, StreamAt(AtTail, false, 0, {}, FRESH)),
      OneStream([], [], {}, None, {}, c),
      OneStream([1], [], {1}, None, {}, c),
      OneStream([1], [], {}, Some(Fan(1, 0)), {}, c),
      OneStream([1], [], {}, None, {1}, c),
      OneStream([1], [3], {}, None, {1}, StreamAt(AtPoll, true, 0, {1}, FRESH.(missed := {1})))]
  }

  lemma {:induction false} WindowStep(k: nat)
    requires k < 6
    ensures Enabled(WindowStates()[k], WINDOW_RUN[k])
    ensures Next(WindowStates()[k], WINDOW_RUN[k]) == WindowStates()[k + 1]
  {
    var r := WindowStates()[k].rooms[0];
    if k == 2 {
      assert RoomNext(r, Insert(1)) == Room([1], [], {1}, None, {});
    } else if k == 3 {
      assert RoomNext(r, Lock(1)) == Room([1], [], {}, Some(Fan(1, 0)), {});
    } else if k == 4 {
      assert RoomNext(r, Unlock) == Room([1], [], {}, None, {1});
    } else if k == 5 {
      assert Rooms.Subscribed(r.subs, 3) == [3];
    }
  }

  /** That stream then waits on an empty pipe although the message was never sent. */
  lemma {:induction false} WindowStrandsAMessage(s: State)
    requires s == WindowStates()[6]
    ensures Init(START) && Reaches(START, s)
    ensures WaitsIdle(s, 3) && s.clients[3].reader.sent == [] && s.rooms == [Room([1], [3], {}, None, {1})]
  {
    StartIsInitial();
    var states := WindowStates();
    forall k | 0 <= k < |states| - 1 ensures Reaches(states[k], states[k + 1]) {
      WindowStep(k);
      OneStep(states[k], WINDOW_RUN[k], states[k + 1]);
    }
    ChainReaches(states);
  }

  // ----- A burst of 65 posts, all fanned out before the stream wakes up --------------------------------

  function Upto(n: nat): (ids: seq<nat>)
    ensures |ids| == n
  {
    seq(n, i => i + 1)
  }

  function Posted(n: nat, c: Client): State {
    OneStream(Upto(n), [3], {}, None, Elements(Upto(n)), c)
  }

  /** The stream waits while n messages have been posted. */
  function Waiting(n: nat): State {
    Posted(n, StreamAt(AtPoll, true, n, {}, FRESH))
  }

  /** Message n + 1 is stored and its poster holds the lock. */
  function Storing(n: nat): State {
    OneStream(Upto(n + 1), [3], {}, Some(Fan(n + 1, 0)), Elements(Upto(n)), StreamAt(AtPoll, true, n, {}, FRESH))
  }

  lemma {:induction false} OneMore(n: nat)
    ensures Upto(n) + [n + 1] == Upto(n + 1) && Elements(Upto(n)) + {n + 1} == Elements(Upto(n + 1))
    ensures Tail(Upto(n)) == n
  {
  }

  lemma {:induction false} PostIsStored(n: nat)
    requires n < SSE_BATCH + 1
    ensures Reaches(Waiting(n), Storing(n))
  {
    OneMore(n);
    OneMore(n + 1);
    var s0, s2 := Waiting(n), Storing(n);
    var s1 := OneStream(Upto(n + 1), [3], {n + 1}, None, Elements(Upto(n)), s0.clients[3]);
    assert RoomNext(s0.rooms[0], Insert(n + 1)) == s1.rooms[0];
    assert RoomNext(s1.rooms[0], Lock(n + 1)) == s2.rooms[0];
    OneStep(s0, OnRoom(0, Insert(n + 1)), s1);
    OneStep(s1, OnRoom(0, Lock(n + 1)), s2);
    Then(s0, s1, s2);
  }

  lemma {:induction false} PostIsAnnounced(n: nat)
    requires n < SSE_BATCH + 1
    ensures Reaches(Storing(n), Waiting(n + 1))
  {
    OneMore(n);
    var s0, s2 := Storing(n), Waiting(n + 1);
    var s1 := OneStream(Upto(n + 1), [3], {}, Some(Fan(n + 1, 1)), Elements(Upto(n)), s2.clients[3]);
    OneStep(s0, OnRoom(0, Write), s1);
    OneStep(s1, OnRoom(0, Unlock), s2);
    Then(s0, s1, s2);
  }

  lemma {:induction false} BurstRuns(n: nat)
    requires n <= SSE_BATCH + 1
    ensures Reaches(Waiting(0), Waiting(n))
  {
    if n == 0 {
      NoStep(Waiting(0));
    } else {
      BurstRuns(n - 1);
      PostIsStored(n - 1);
      PostIsAnnounced(n - 1);
      Then(Waiting(0), Waiting(n - 1), Storing(n - 1));
      Then(Waiting(0), Storing(n - 1), Waiting(n));
    }
  }

  /** The stream after sending k of the 64 rows it pulled; n messages are stored. */
  function Sender(n: nat, k: nat): Client
    requires k < n
  {
    StreamAt(Sending, true, 0, Elements(Upto(n)), Sse(0, k, Upto(k), Upto(n - 1)[k..], {}, Some(n - 1), false))
  }

  lemma {:induction false} OneSend(n: nat, k: nat)
    requires k + 1 < n
    ensures Reaches(Posted(n, Sender(n, k)), Posted(n, Sender(n, k + 1)))
  {
    var c := Sender(n, k);
    assert c.reader.batch[0] == k + 1 && c.reader.batch[1..] == Upto(n - 1)[k + 1..];
    assert Upto(k) + [k + 1] == Upto(k + 1);
    assert SentOne(c, true) == Sender(n, k + 1);
    OneStep(Posted(n, c), OnClient(3, Send(true)), Posted(n, Sender(n, k + 1)));
  }

  lemma {:induction false} SendsRun(n: nat, k: nat)
    requires k < n
    ensures Reaches(Posted(n, Sender(n, 0)), Posted(n, Sender(n, k)))
    decreases k
  {
    if k == 0 {
      NoStep(Posted(n, Sender(n, 0)));
    } else {
      SendsRun(n, k - 1);
      OneSend(n, k - 1);
      Then(Posted(n, Sender(n, 0)), Posted(n, Sender(n, k - 1)), Posted(n, Sender(n, k)));
    }
  }

  lemma {:induction false} BurstPull(n: nat)
    requires n == SSE_BATCH + 1
    ensures Pulled(StreamAt(AtPull, true, 0, {}, FRESH), Upto(n)) == Sender(n, 0)
  {
    var msgs := Upto(n);
    RankSplits(msgs, 0);
    assert msgs[0] == 1;
    assert Above(msgs, 0) == msgs;
    assert Since(msgs, 0, SSE_BATCH) == Upto(n - 1) == Upto(n - 1)[0..];
    assert Upto(0) == [];
  }

  /** The 65 wake-up bytes are drained in two reads. */
  lemma {:induction false} BurstIsDrained(n: nat)
    requires n == SSE_BATCH + 1
    ensures Reaches(Waiting(n), Posted(n, StreamAt(AtPull, true, 0, {}, FRESH)))
  {
    var s1 := Posted(n, StreamAt(Draining, true, n, {}, FRESH));
    var s2 := Posted(n, StreamAt(Draining, true, 1, {}, FRESH));
    var s3 := Posted(n, StreamAt(Draining, true, 0, {}, FRESH));
    var s4 := Posted(n, StreamAt(AtPull, true, 0, {}, FRESH));
    OneStep(Waiting(n), OnClient(3, PollReady), s1);
    OneStep(s1, OnClient(3, ReadPipe), s2);
    OneStep(s2, OnClient(3, ReadPipe), s3);
    OneStep(s3, OnClient(3, ReadPipe), s4);
    ChainReaches([Waiting(n), s1, s2, s3, s4]);
  }

  /** The query then returns 64 of the 65 rows. */
  lemma {:induction false} WakeOfBurst(n: nat)
    requires n == SSE_BATCH + 1
    ensures Reaches(Waiting(n), Posted(n, Sender(n, 0)))
  {
    BurstIsDrained(n);
    BurstPull(n);
    var s4 := Posted(n, StreamAt(AtPull, true, 0, {}, FRESH));
    OneStep(s4, OnClient(3, Pull), Posted(n, Sender(n, 0)));
    Then(Waiting(n), s4, Posted(n, Sender(n, 0)));
  }

  lemma {:induction false} OpeningRuns()
    ensures Reaches(START, Waiting(0))
  {
    assert Upto(0) == [];
    assert Elements(Upto(0)) == {};
    var s1 := OneStream([], [], {}, None, {}, StreamAt(AtTail, false, 0, {}, FRESH));
    var s2 := OneStream([], [], {}, None, {}, StreamAt(AtSubscribe, false, 0, {}, FRESH));
    assert Rooms.Subscribed([], 3) == [3];
    OneStep(START, OpenSse(3, true, 0), s1);
    OneStep(s1, OnClient(3, ReadTail), s2);
    OneStep(s2, Subscribe(3), Waiting(0));
    ChainReaches([START, s1, s2, Waiting(0)]);
  }

  lemma {:induction false} BatchEnds(n: nat)
    requires n > 0
    ensures Reaches(Posted(n, Sender(n, n - 1)), Posted(n, Sender(n, n - 1).(pc := AtPoll)))
  {
    var c := Sender(n, n - 1);
    assert c.reader.batch == [];
    OneStep(Posted(n, c), OnClient(3, Batched), Posted(n, c.(pc := AtPoll)));
  }

  /** After a full pull the 65th message is stranded: the stream waits on an empty pipe, no post is in flight. */
  lemma {:induction false} FullPullStrandsAMessage(n: nat, s: State)
    requires n == SSE_BATCH + 1 && s == Posted(n, Sender(n, n - 1).(pc := AtPoll))
    ensures Init(START) && Reaches(START, s)
    ensures WaitsIdle(s, 3) && s.clients[3].reader.sent == Upto(n - 1)
    ensures s.rooms == [Room(Upto(n), [3], {}, None, Elements(Upto(n)))]
  {
    StartIsInitial();
    OpeningRuns();
    BurstRuns(n);
    WakeOfBurst(n);
    SendsRun(n, n - 1);
    BatchEnds(n);
    ChainReaches([START, Waiting(0), Waiting(n), Posted(n, Sender(n, 0)), Posted(n, Sender(n, n - 1)), s]);
  }

  // ----- A full room, and one stream more ---------------------------------------------------------------

  const FULL: nat := Rooms.MAX_SUBSCRIBERS

  /** n streams have joined an empty room, named 0 to n - 1. */
  ghost predicate Joined(s: State, n: nat) {
    && s.lastId == 0 && |s.rooms| == 1
    && s.rooms[0] == Room([], s.rooms[0].subs, {}, None, {})
    && |s.rooms[0].subs| == n && (forall i | 0 <= i < n :: 0 <= s.rooms[0].subs[i] < n)
    && forall sid | sid in s.clients :: sid < n
  }

  /** The state after one stream more has joined, or was refused. */
  function AfterJoin(s: State, sid: nat): State
    requires |s.rooms| == 1
  {
    var accepted := |s.rooms[0].subs| < FULL;
    State([s.rooms[0].(subs := Rooms.Subscribed(s.rooms[0].subs, sid))],
          s.clients[sid := StreamAt(AtPoll, accepted, 0, {}, FRESH)], s.lastId)
  }

  lemma {:induction false} JoinRuns(s: State, n: nat)
    requires Joined(s, n) && n <= FULL
    ensures Reaches(s, AfterJoin(s, n))
    ensures n < FULL ==> Joined(AfterJoin(s, n), n + 1)
  {
    var s1 := s.(clients := s.clients[n := StreamAt(AtTail, false, 0, {}, FRESH)]);
    var s2 := s.(clients := s.clients[n := StreamAt(AtSubscribe, false, 0, {}, FRESH)]);
    var s3 := AfterJoin(s, n);
    assert s1.clients[n := StreamAt(AtSubscribe, false, 0, {}, FRESH)] == s2.clients;
    assert s2.clients[n := s3.clients[n]] == s3.clients;
    assert s.rooms[0 := s3.rooms[0]] == s3.rooms;
    OneStep(s, OpenSse(n, true, 0), s1);
    OneStep(s1, OnClient(n, ReadTail), s2);
    OneStep(s2, Subscribe(n), s3);
    ChainReaches([s, s1, s2, s3]);
  }

  lemma {:induction false} FillRoom(n: nat) returns (s: State)
    requires n <= FULL
    ensures Reaches(START, s) && Joined(s, n)
  {
    if n == 0 {
      NoStep(START);
      s := START;
    } else {
      var t := FillRoom(n - 1);
      JoinRuns(t, n - 1);
      s := AfterJoin(t, n - 1);
      Then(START, t, s);
    }
  }

  /** The post of message 1 has written j bytes; the refused stream is untouched. */
  ghost predicate Fanning(s: State, j: nat) {
    && |s.rooms| == 1 && s.rooms[0] == Room([1], s.rooms[0].subs, {}, Some(Fan(1, j)), {})
    && |s.rooms[0].subs| == FULL && (forall i | 0 <= i < FULL :: s.rooms[0].subs[i] < FULL)
    && FULL in s.clients && s.clients[FULL] == StreamAt(AtPoll, false, 0, {}, FRESH)
  }

  lemma {:induction false} WriteOne(s: State, j: nat)
    requires Fanning(s, j) && j < FULL
    ensures Enabled(s, OnRoom(0, Write)) && Fanning(Next(s, OnRoom(0, Write)), j + 1)
  {
  }

  lemma {:induction false} WritesRun(s: State, j: nat) returns (t: State)
    requires Fanning(s, j) && j <= FULL
    ensures Reaches(s, t) && Fanning(t, FULL)
    decreases FULL - j
  {
    if j == FULL {
      NoStep(s);
      t := s;
    } else {
      WriteOne(s, j);
      var s1 := Next(s, OnRoom(0, Write));
      OneStep(s, OnRoom(0, Write), s1);
      t := WritesRun(s1, j + 1);
      Then(s, s1, t);
    }
  }

  lemma {:induction false} PostInFullRoom(s: State) returns (t: State)
    requires Joined(s, FULL)
    ensures Reaches(AfterJoin(s, FULL), t) && Fanning(t, 0)
  {
    var s0 := AfterJoin(s, FULL);
    var r := s0.rooms[0];
    var s1, s2 := s0.(rooms := [r.(msgs := [1], waiting := {1})], lastId := 1), s0.(rooms := [r.(msgs := [1], fan := Some(Fan(1, 0)))], lastId := 1);
    assert RoomNext(r, Insert(1)) == s1.rooms[0] && RoomNext(s1.rooms[0], Lock(1)) == s2.rooms[0];
    assert s0.rooms[0 := s1.rooms[0]] == s1.rooms && s1.rooms[0 := s2.rooms[0]] == s2.rooms;
    OneStep(s0, OnRoom(0, Insert(1)), s1);
    OneStep(s1, OnRoom(0, Lock(1)), s2);
    Then(s0, s1, s2);
    t := s2;
  }

  /** The 257th stream of a room waits on an empty pipe and misses every message. */
  lemma {:induction false} FullRoomStrandsAMessage() returns (s: State)
    ensures Init(START) && Reaches(START, s)
    ensures Waits(s, FULL) && s.clients[FULL] == StreamAt(AtPoll, false, 0, {}, FRESH)
    ensures |s.rooms| == 1 && s.rooms[0].msgs == [1] && s.rooms[0].waiting == {} && s.rooms[0].fan.None?
  {
    StartIsInitial();
    var full := FillRoom(FULL);
    JoinRuns(full, FULL);
    var begun := PostInFullRoom(full);
    var written := WritesRun(begun, 0);
    s := Next(written, OnRoom(0, Unlock));
    OneStep(written, OnRoom(0, Unlock), s);
    ChainReaches([START, full, AfterJoin(full, FULL), begun, written, s]);
  }

  // ----- A stream whose pipe could not be made ------------------------------------------------------------

  const DEAF_RUN :=
    [OpenSse(3, false, 0), OnClient(3, ReadTail), Subscribe(3), OnRoom(0, Insert(1)), OnRoom(0, Lock(1)), OnRoom(0, Write), OnRoom(0, Unlock)]

  function DeafStates(): seq<State> {
    var c := StreamAt(AtPoll, true, 0, {}, FRESH).(piped := false);
    [ START,
      OneStream([], [], {}, None, {}, c.(pc := AtTail, slot := false)),
      OneStream([], [], {}, None, {}, c.(pc := AtSubscribe, slot := false)),
      OneStream([], [-1], {}, None, {}, c),
      OneStream([1], [-1], {1}, None, {}, c),
      OneStream([1], [-1], {}, Some(Fan(1, 0)), {}, c),
      OneStream([1], [-1], {}, Some(Fan(1, 1)), {}, c),
      OneStream([1], [-1], {}, None, {1}, c)]
  }

  lemma {:induction false} DeafStep(k: nat)
    requires k < 7
    ensures Enabled(DeafStates()[k], DEAF_RUN[k])
    ensures Next(DeafStates()[k], DEAF_RUN[k]) == DeafStates()[k + 1]
  {
    var r := DeafStates()[k].rooms[0];
    if k == 2 {
      assert Rooms.Subscribed(r.subs, -1) == [-1];
    } else if k == 3 {
      assert RoomNext(r, Insert(1)) == DeafStates()[4].rooms[0];
    } else if k == 4 {
      assert RoomNext(r, Lock(1)) == DeafStates()[5].rooms[0];
    } else if k == 6 {
      assert RoomNext(r, Unlock) == DeafStates()[7].rooms[0];
    }
  }

  /** A stream without a pipe waits although a message was posted after it subscribed. */
  lemma {:induction false} NoPipeStrandsAMessage(s: State)
    requires s == DeafStates()[7]
    ensures Init(START) && Reaches(START, s)
    ensures Waits(s, 3) && s.clients[3].reader == FRESH && s.rooms == [Room([1], [-1], {}, None, {1})]
  {
    StartIsInitial();
    var states := DeafStates();
    forall k | 0 <= k < |states| - 1 ensures Reaches(states[k], states[k + 1]) {
      DeafStep(k);
      OneStep(states[k], DEAF_RUN[k], states[k + 1]);
    }
    ChainReaches(states);
  }
}
