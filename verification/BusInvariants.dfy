/** What every step of the bus keeps. */
module BusInvariants {
  import opened Common
  import opened Store
  import opened Bus
  import Rooms
  import ChatView

  // ----- The invariant ----------------------------------------------------------------------

  function FanId(r: Room): set<nat> {
    if r.fan.Some? then {r.fan.value.id} else {}
  }

  ghost predicate RoomOk(r: Room, lastId: nat) {
    && ValidIds(r.msgs) && Tail(r.msgs) <= lastId
    && |r.subs| <= Rooms.MAX_SUBSCRIBERS
    && Elements(r.msgs) == r.waiting + FanId(r) + r.done
    && (r.fan.Some? ==> r.fan.value.next <= |r.subs|)
  }

  /** The message's poster has not yet written to this session. */
  ghost predicate InFlight(r: Room, sid: nat, m: nat) {
    || m in r.waiting
    || (r.fan.Some? && r.fan.value.id == m && r.fan.value.next <= |r.subs| && sid in r.subs[r.fan.value.next..])
  }

  /** The session will query the store (or end) before it waits again. */
  predicate Due(c: Client) {
    c.pc in {Draining, AtNotify, AtPull, AtUnsubscribe, Finished} || c.pc.AtPost?
  }

  /** A slot-holding session with a working pipe that follows new messages. */
  predicate Follows(c: Client) {
    c.piped && c.slot && (c.reader.Sse? || c.reader.view.atLive)
  }

  ghost predicate WakeOk(r: Room, sid: nat, c: Client) {
    Follows(c) && !Due(c) ==> forall m | m in r.msgs :: m in c.ack || c.pipe > 0 || InFlight(r, sid, m)
  }

  /** The stream so far, and what its cursor still has to see, are the room's messages above the start. */
  ghost predicate StreamOk(r: Room, c: Client)
    requires c.reader.Sse?
  {
    var v := c.reader;
    && (c.pc in {AtTail, AtSubscribe} ==> v.sent == [] && v.pulled.None? && !v.broken && !c.slot)
    && (if c.pc == Sending then v.pulled.Some? else v.batch == [])
    && c.ack <= Elements(r.msgs) && v.missed <= Elements(r.msgs)
    && (c.pc != AtTail ==>
          && (v.pulled.None? ==> v.sent == [])
          && v.start <= Tail(r.msgs) && v.cursor <= Tail(r.msgs)
          && (if v.broken then c.pc in {AtUnsubscribe, Finished} && v.sent <= Above(r.msgs, v.start)
              else v.sent + Above(r.msgs, v.cursor) == Above(r.msgs, v.start) && v.batch <= Above(r.msgs, v.cursor)))
  }

  /** Why an acknowledged message may still be above the cursor. */
  ghost predicate AckOk(c: Client)
    requires c.reader.Sse?
  {
    var v := c.reader;
    c.pc !in {AtTail, AtSubscribe} && !v.broken ==>
      forall m | m in c.ack && m > v.cursor && m !in v.batch ::
        (v.pulled.None? && m in v.missed) || v.pulled == Some(SSE_BATCH)
  }

  /** The screen is the newest page of the messages acknowledged at the last redraw. */
  ghost predicate ScreenOk(r: Room, c: Client)
    requires c.reader.Telnet?
  {
    var v := c.reader.view;
    v.atLive && c.pc !in {AtSubscribe, AtPull} ==>
      && v.seen <= |r.msgs|
      && v.shown == LastN(r.msgs[..v.seen], v.want)
      && c.ack == Elements(r.msgs[..v.seen])
  }

  ghost predicate ReaderOk(r: Room, c: Client) {
    if c.reader.Sse? then StreamOk(r, c) && AckOk(c) else ScreenOk(r, c)
  }

  ghost predicate Shape(c: Client) {
    && (c.slot ==> c.room.Some?)
    && (c.pc in {AtTail, AtSubscribe, Finished} ==> !c.slot)
    && (c.reader.Sse? ==> c.room.Some? && c.pc != AtNotify && !c.pc.AtPost?)
    && (c.reader.Telnet? ==> c.pc !in {AtTail, Sending, Finished})
  }

  /**
   A stream that was refused a slot or has no pipe gets no byte but the one of
   shutdown, and that one ends it: it never queries and never sends.
   */
  ghost predicate DeafOk(c: Client) {
    Deaf(c) && c.pc != Finished ==>
      && c.reader.sent == [] && c.reader.pulled.None?
      && c.pc in {AtTail, AtSubscribe, AtPoll, Draining, AtUnsubscribe}
      && (c.pipe > 0 || c.pc == Draining ==> c.stopping)
  }

  predicate Deaf(c: Client) {
    c.reader.Sse? && !(c.piped && c.slot)
  }

  ghost predicate ClientIn(r: Room, sid: nat, c: Client) {
    WakeOk(r, sid, c) && ReaderOk(r, c)
  }

  /** The subscription of one session in one room. */
  ghost predicate Holds(s: State, sid: nat, r: nat) {
    sid in s.clients && s.clients[sid].piped && s.clients[sid].slot && s.clients[sid].room == Some(r)
  }

  /** A descriptor is listed exactly where an open session holds a slot, and once. */
  ghost predicate Own(s: State) {
    forall r: nat, sid: nat | r < |s.rooms| :: multiset(s.rooms[r].subs)[sid] == if Holds(s, sid, r) then 1 else 0
  }

  ghost predicate ClientOk(s: State, sid: nat)
    requires sid in s.clients
  {
    var c := s.clients[sid];
    && Shape(c) && DeafOk(c)
    && (c.room.Some? ==> c.room.value < |s.rooms| && ClientIn(s.rooms[c.room.value], sid, c))
  }

  ghost predicate Inv(s: State) {
    && (forall r | 0 <= r < |s.rooms| :: RoomOk(s.rooms[r], s.lastId))
    && Own(s)
    && forall sid | sid in s.clients :: ClientOk(s, sid)
  }

  // ----- Room steps ---------------------------------------------------------------------------

  lemma {:induction false} RoomStepKeepsRoom(r: Room, lastId: nat, what: RoomStep)
    requires RoomOk(r, lastId) && RoomEnabled(r, lastId, what)
    ensures RoomOk(RoomNext(r, what), if what.Insert? then what.id else lastId)
  {
    var r' := RoomNext(r, what);
    if what.Insert? {
      TailIsMax(r.msgs);
      assert forall i | 0 <= i < |r.msgs| :: r.msgs[i] in r.msgs;
      assert Elements(r'.msgs) == Elements(r.msgs) + {what.id};
    }
  }

  lemma {:induction false} BumpKeeps(r: Room, sid: nat, c: Client)
    requires ClientIn(r, sid, c)
    ensures ClientIn(r, sid, Bump(c))
  {
  }

  /** A new message is in flight, and is appended to what every stream still has to see. */
  lemma {:induction false} InsertKeepsClient(r: Room, lastId: nat, sid: nat, c: Client, id: nat)
    requires RoomOk(r, lastId) && lastId < id && ClientIn(r, sid, c)
    ensures ClientIn(RoomNext(r, Insert(id)), sid, c)
  {
    var r' := RoomNext(r, Insert(id));
    if c.reader.Sse? {
      AboveAppend(r.msgs, c.reader.cursor, id);
      AboveAppend(r.msgs, c.reader.start, id);
    } else if c.reader.view.seen <= |r.msgs| {
      assert r'.msgs[..c.reader.view.seen] == r.msgs[..c.reader.view.seen];
    }
  }

  /** Fan-out: a subscriber leaves the in-flight set of a message only by getting its byte. */
  lemma {:induction false} FanKeepsClient(r: Room, lastId: nat, sid: nat, c: Client, what: RoomStep)
    requires RoomOk(r, lastId) && RoomEnabled(r, lastId, what) && !what.Insert?
    requires ClientIn(r, sid, c)
    requires c.piped && c.slot ==> sid in r.subs
    ensures ClientIn(RoomNext(r, what), sid, if Target(r, what) == sid then Bump(c) else c)
  {
  }

  // ----- Session steps ----------------------------------------------------------------------------

  lemma {:induction false} PullKeeps(r: Room, lastId: nat, sid: nat, c: Client)
    requires RoomOk(r, lastId) && ClientIn(r, sid, c) && Shape(c) && c.pc == AtPull && InRoom(c)
    ensures ClientIn(r, sid, Pulled(c, r.msgs)) && Shape(Pulled(c, r.msgs))
  {
    var c' := Pulled(c, r.msgs);
    if c.reader.Sse? {
      var todo := Above(r.msgs, c.reader.cursor);
      assert |todo| <= SSE_BATCH ==> c'.reader.batch == todo;
      forall m | m in c'.ack && m > c'.reader.cursor && m !in c'.reader.batch
        ensures c'.reader.pulled == Some(SSE_BATCH)
      {
        AboveMembers(r.msgs, c.reader.cursor, m);
      }
    } else if c.reader.view.atLive {
      ChatView.LivePage(c.reader.view, r.msgs);
      assert r.msgs[..|r.msgs|] == r.msgs;
    }
  }

  lemma {:induction false} SendKeeps(r: Room, lastId: nat, sid: nat, c: Client, ok: bool)
    requires RoomOk(r, lastId) && ClientIn(r, sid, c) && Shape(c)
    requires c.pc == Sending && c.reader.Sse? && c.reader.batch != []
    ensures ClientIn(r, sid, SentOne(c, ok)) && Shape(SentOne(c, ok))
  {
    var v, v' := c.reader, SentOne(c, ok).reader;
    var todo := Above(r.msgs, v.cursor);
    AboveAdvance(r.msgs, v.cursor);
    assert v.batch[0] == todo[0];
    TailIsMax(r.msgs);
    assert v.sent + todo == (v.sent + [todo[0]]) + Above(r.msgs, todo[0]);
    if ok {
      assert v'.batch <= Above(r.msgs, v'.cursor) by {
        assert v.batch == todo[..|v.batch|];
        assert v'.batch == todo[1..][..|v'.batch|];
      }
      assert forall m | m !in v'.batch && m > v'.cursor :: m !in v.batch by {
        assert v.batch == [v.batch[0]] + v'.batch;
      }
    }
  }

  lemma {:induction false} TailKeeps(r: Room, lastId: nat, sid: nat, c: Client)
    requires RoomOk(r, lastId) && ClientIn(r, sid, c) && Shape(c) && c.pc == AtTail && c.reader.Sse?
    ensures ClientIn(r, sid, LocalNext(c, r.msgs, ReadTail)) && Shape(LocalNext(c, r.msgs, ReadTail))
  {
    AboveTail(r.msgs);
  }

  predicate IsKey(act: Local) {
    act.KeyOlder? || act.KeyLive? || act.KeyCompose? || act.KeyCancel? || act.KeyLeave? || act.KeySend? || act.KeyPosted?
  }

  ghost predicate Stays(c: Client, c': Client) {
    c'.room == c.room && c'.slot == c.slot && c'.piped == c.piped
  }

  lemma {:induction false} KeyKeeps(r: Room, sid: nat, c: Client, act: Local)
    requires ClientIn(r, sid, c) && Shape(c) && InRoom(c) && c.reader.Telnet? && IsKey(act)
    requires LocalEnabled(c, r.msgs, r.done, act)
    ensures var c' := LocalNext(c, r.msgs, act); ClientIn(r, sid, c') && Shape(c') && Stays(c, c')
  {
  }

  lemma {:induction false} ScreenWaitKeeps(r: Room, sid: nat, c: Client, act: Local)
    requires ClientIn(r, sid, c) && Shape(c) && InRoom(c) && c.reader.Telnet?
    requires act in {PollReady, ReadPipe, Hangup, Notify, SkipSubscribe} || act.Resize?
    requires LocalEnabled(c, r.msgs, r.done, act)
    ensures var c' := LocalNext(c, r.msgs, act); ClientIn(r, sid, c') && Shape(c') && Stays(c, c')
  {
  }

  lemma {:induction false} StreamWaitKeeps(r: Room, sid: nat, c: Client, act: Local)
    requires ClientIn(r, sid, c) && Shape(c) && InRoom(c) && c.reader.Sse?
    requires act in {PollReady, ReadPipe, Hangup, Batched}
    requires LocalEnabled(c, r.msgs, r.done, act)
    ensures var c' := LocalNext(c, r.msgs, act); ClientIn(r, sid, c') && Shape(c') && Stays(c, c')
  {
  }

  lemma {:induction false} StreamKeeps(r: Room, lastId: nat, sid: nat, c: Client, act: Local)
    requires RoomOk(r, lastId) && ClientIn(r, sid, c) && Shape(c) && InRoom(c) && c.reader.Sse?
    requires LocalEnabled(c, r.msgs, r.done, act)
    ensures var c' := LocalNext(c, r.msgs, act); ClientIn(r, sid, c') && Shape(c') && Stays(c, c')
  {
    match act
    case Pull => PullKeeps(r, lastId, sid, c);
    case Send(ok) => SendKeeps(r, lastId, sid, c, ok);
    case ReadTail => TailKeeps(r, lastId, sid, c);
    case Poke => BumpKeeps(r, sid, c.(stopping := true));
    case _ => StreamWaitKeeps(r, sid, c, act);
  }

  lemma {:induction false} ScreenKeeps(r: Room, lastId: nat, sid: nat, c: Client, act: Local)
    requires RoomOk(r, lastId) && ClientIn(r, sid, c) && Shape(c) && InRoom(c) && c.reader.Telnet?
    requires LocalEnabled(c, r.msgs, r.done, act)
    ensures var c' := LocalNext(c, r.msgs, act); ClientIn(r, sid, c') && Shape(c') && Stays(c, c')
  {
    if IsKey(act) {
      KeyKeeps(r, sid, c, act);
    } else if act.Pull? {
      PullKeeps(r, lastId, sid, c);
    } else if act.Poke? {
      BumpKeeps(r, sid, c.(stopping := true));
    } else {
      ScreenWaitKeeps(r, sid, c, act);
    }
  }

  /** Every step a session takes on its own keeps its promises. */
  lemma {:induction false} LocalKeeps(r: Room, lastId: nat, sid: nat, c: Client, act: Local)
    requires RoomOk(r, lastId) && ClientIn(r, sid, c) && Shape(c) && InRoom(c)
    requires LocalEnabled(c, r.msgs, r.done, act)
    ensures var c' := LocalNext(c, r.msgs, act); ClientIn(r, sid, c') && Shape(c') && Stays(c, c')
  {
    if c.reader.Sse? {
      StreamKeeps(r, lastId, sid, c, act);
    } else {
      ScreenKeeps(r, lastId, sid, c, act);
    }
  }

  /** Only shutdown can wake a stream without a slot or a pipe. */
  lemma {:induction false} LocalKeepsDeaf(c: Client, msgs: seq<nat>, done: set<nat>, act: Local)
    requires Shape(c) && DeafOk(c) && LocalEnabled(c, msgs, done, act)
    ensures DeafOk(LocalNext(c, msgs, act))
  {
  }

  /** Outside a room only the frame matters. */
  lemma {:induction false} LocalKeepsOutside(c: Client, act: Local)
    requires Shape(c) && !InRoom(c) && LocalEnabled(c, [], {}, act)
    ensures var c' := LocalNext(c, [], act);
      Shape(c') && Stays(c, c')
  {
  }

  // ----- System steps -----------------------------------------------------------------------------

  /** A session that holds a slot is found in its room's array. */
  lemma {:induction false} HolderIsListed(s: State, sid: nat)
    requires Inv(s) && sid in s.clients && s.clients[sid].piped && s.clients[sid].slot
    ensures s.clients[sid].room.Some? && s.clients[sid].room.value < |s.rooms|
    ensures sid in s.rooms[s.clients[sid].room.value].subs
  {
    assert ClientOk(s, sid);
    var r := s.clients[sid].room.value;
    assert Holds(s, sid, r);
    assert multiset(s.rooms[r].subs)[sid] == 1;
  }

  /** A byte of a fan-out goes to a session that holds a slot in that room. */
  lemma {:induction false} TargetHolds(s: State, r: nat, what: RoomStep)
    requires Inv(s) && r < |s.rooms| && RoomEnabled(s.rooms[r], s.lastId, what) && Target(s.rooms[r], what) >= 0
    ensures Holds(s, Target(s.rooms[r], what), r)
  {
    var fd := Target(s.rooms[r], what);
    assert fd in s.rooms[r].subs;
    assert multiset(s.rooms[r].subs)[fd] > 0;
  }

  lemma {:induction false} RoomMoveKeepsClient(s: State, r: nat, what: RoomStep, sid: nat)
    requires Inv(s) && r < |s.rooms| && RoomEnabled(s.rooms[r], s.lastId, what) && sid in s.clients
    ensures ClientOk(RoomMoves(s, r, what), sid)
  {
    var c, fd := s.clients[sid], Target(s.rooms[r], what);
    assert ClientOk(s, sid);
    if fd >= 0 {
      TargetHolds(s, r, what);
    }
    if c.room == Some(r) {
      if c.piped && c.slot {
        HolderIsListed(s, sid);
      }
      if what.Insert? {
        InsertKeepsClient(s.rooms[r], s.lastId, sid, c, what.id);
      } else {
        FanKeepsClient(s.rooms[r], s.lastId, sid, c, what);
      }
    }
  }

  lemma {:induction false} RoomMoveKeepsOwn(s: State, r: nat, what: RoomStep)
    requires Inv(s) && r < |s.rooms| && RoomEnabled(s.rooms[r], s.lastId, what)
    ensures Own(RoomMoves(s, r, what))
  {
    var s' := RoomMoves(s, r, what);
    forall q: nat, sid: nat | q < |s'.rooms|
      ensures multiset(s'.rooms[q].subs)[sid] == if Holds(s', sid, q) then 1 else 0
    {
      assert s'.rooms[q].subs == s.rooms[q].subs;
      assert Holds(s', sid, q) <==> Holds(s, sid, q);
    }
  }

  lemma {:induction false} RoomMovesKeep(s: State, r: nat, what: RoomStep)
    requires Inv(s) && r < |s.rooms| && RoomEnabled(s.rooms[r], s.lastId, what)
    ensures Inv(RoomMoves(s, r, what))
  {
    RoomStepKeepsRoom(s.rooms[r], s.lastId, what);
    RoomMoveKeepsOwn(s, r, what);
    forall sid | sid in s.clients ensures ClientOk(RoomMoves(s, r, what), sid) {
      RoomMoveKeepsClient(s, r, what, sid);
    }
  }

  /** A step that changes one session and neither its room nor its slot. */
  lemma {:induction false} ClientMovesKeep(s: State, sid: nat, c': Client)
    requires Inv(s) && sid in s.clients
    requires Stays(s.clients[sid], c')
    requires Shape(c') && DeafOk(c') && (c'.room.Some? ==> ClientIn(s.rooms[c'.room.value], sid, c'))
    ensures Inv(WithClient(s, sid, c'))
  {
    var s' := WithClient(s, sid, c');
    forall q | q in s'.clients ensures ClientOk(s', q) {
      assert ClientOk(s, q);
    }
    forall q: nat, x: nat | q < |s'.rooms|
      ensures multiset(s'.rooms[q].subs)[x] == if Holds(s', x, q) then 1 else 0
    {
      assert Holds(s', x, q) <==> Holds(s, x, q);
    }
  }

  /** While no fan-out is running, the array may be rearranged under a waiting session. */
  lemma {:induction false} SubsChangeKeeps(r: Room, sid: nat, c: Client, subs: seq<int>)
    requires r.fan.None? && ClientIn(r, sid, c)
    ensures ClientIn(r.(subs := subs), sid, c)
  {
    assert forall m :: InFlight(r.(subs := subs), sid, m) <==> InFlight(r, sid, m);
  }

  lemma {:induction false} SubscriberKeeps(s: State, sid: nat)
    requires Inv(s) && Enabled(s, Subscribe(sid))
    ensures ClientOk(Subscribing(s, sid), sid)
  {
    assert ClientOk(s, sid);
    var k := s.clients[sid].room.value;
    var r, s' := s.rooms[k], Subscribing(s, sid);
    var r', c' := s'.rooms[k], s'.clients[sid];
    assert RoomOk(r, s.lastId) && r'.msgs == r.msgs && c'.ack == r.done <= Elements(r.msgs);
    forall m | m in r'.msgs ensures m in c'.ack || InFlight(r', sid, m) {
      assert m in Elements(r.msgs);
    }
    assert WakeOk(r', sid, c');
    assert ReaderOk(r', c');
    assert Shape(c') && DeafOk(c');
  }

  lemma {:induction false} SubscribeKeepsOther(s: State, sid: nat, q: nat)
    requires Inv(s) && Enabled(s, Subscribe(sid)) && q in s.clients && q != sid
    ensures ClientOk(Subscribing(s, sid), q)
  {
    assert ClientOk(s, sid) && ClientOk(s, q);
    var r := s.clients[sid].room.value;
    if s.clients[q].room == Some(r) {
      SubsChangeKeeps(s.rooms[r], q, s.clients[q], Subscribing(s, sid).rooms[r].subs);
    }
  }

  lemma {:induction false} SubscribeKeepsClients(s: State, sid: nat)
    requires Inv(s) && Enabled(s, Subscribe(sid))
    ensures var s' := Subscribing(s, sid); forall q | q in s'.clients :: ClientOk(s', q)
  {
    SubscriberKeeps(s, sid);
    forall q | q in s.clients && q != sid ensures ClientOk(Subscribing(s, sid), q) {
      SubscribeKeepsOther(s, sid, q);
    }
  }

  lemma {:induction false} SubscribeKeepsOwn(s: State, sid: nat)
    requires Inv(s) && Enabled(s, Subscribe(sid))
    ensures Own(Subscribing(s, sid))
  {
    assert ClientOk(s, sid);
    var r := s.clients[sid].room.value;
    var s' := Subscribing(s, sid);
    forall q: nat, x: nat | q < |s'.rooms|
      ensures multiset(s'.rooms[q].subs)[x] == if Holds(s', x, q) then 1 else 0
    {
      assert multiset(s.rooms[q].subs)[x] == if Holds(s, x, q) then 1 else 0;
      if q == r && x == sid {
        assert !Holds(s, x, q);
      } else {
        assert Holds(s', x, q) <==> Holds(s, x, q);
      }
    }
  }

  lemma {:induction false} SubscribeKeeps(s: State, sid: nat)
    requires Inv(s) && Enabled(s, Subscribe(sid))
    ensures Inv(Subscribing(s, sid))
  {
    SubscribeKeepsClients(s, sid);
    SubscribeKeepsOwn(s, sid);
  }

  lemma {:induction false} UnsubscribeKeepsClients(s: State, sid: nat)
    requires Inv(s) && Enabled(s, Unsubscribe(sid))
    ensures var s' := Unsubscribing(s, sid); forall q | q in s'.clients :: ClientOk(s', q)
  {
    assert ClientOk(s, sid);
    var c := s.clients[sid];
    var r := c.room.value;
    var s' := Unsubscribing(s, sid);
    forall q | q in s'.clients ensures ClientOk(s', q) {
      assert ClientOk(s, q);
      if s.clients[q].room == Some(r) {
        SubsChangeKeeps(s.rooms[r], q, s.clients[q], s'.rooms[r].subs);
      }
    }
  }

  lemma {:induction false} UnsubscribeHolds(s: State, sid: nat, q: nat, x: nat)
    requires Inv(s) && Enabled(s, Unsubscribe(sid)) && q < |s.rooms|
    ensures Holds(Unsubscribing(s, sid), x, q) <==> x != sid && Holds(s, x, q)
    ensures Holds(s, sid, q) ==> s.clients[sid].room == Some(q)
  {
    assert ClientOk(s, sid);
  }

  lemma {:induction false} UnsubscribeSubs(s: State, sid: nat, q: nat)
    requires Inv(s) && Enabled(s, Unsubscribe(sid)) && q < |s.rooms|
    ensures var c, s' := s.clients[sid], Unsubscribing(s, sid);
      multiset(s'.rooms[q].subs) ==
      if c.room == Some(q) then multiset(s.rooms[q].subs) - multiset{Wfd(sid, c)} else multiset(s.rooms[q].subs)
  {
    assert ClientOk(s, sid);
    Rooms.SwapRemovedIsRemoval(s.rooms[q].subs, Wfd(sid, s.clients[sid]));
  }

  lemma {:induction false} UnsubscribeKeepsOwn(s: State, sid: nat)
    requires Inv(s) && Enabled(s, Unsubscribe(sid))
    ensures Own(Unsubscribing(s, sid))
  {
    assert ClientOk(s, sid);
    var s' := Unsubscribing(s, sid);
    forall q: nat, x: nat | q < |s'.rooms|
      ensures multiset(s'.rooms[q].subs)[x] == if Holds(s', x, q) then 1 else 0
    {
      UnsubscribeSubs(s, sid, q);
      UnsubscribeHolds(s, sid, q, x);
      assert multiset(s.rooms[q].subs)[x] == if Holds(s, x, q) then 1 else 0;
    }
  }

  lemma {:induction false} UnsubscribeKeeps(s: State, sid: nat)
    requires Inv(s) && Enabled(s, Unsubscribe(sid))
    ensures Inv(Unsubscribing(s, sid))
  {
    UnsubscribeKeepsClients(s, sid);
    UnsubscribeKeepsOwn(s, sid);
  }

  /** A session appears, moves into a room without a slot yet, or goes away. */
  lemma {:induction false} PopulationKeeps(s: State, step: Step)
    requires Inv(s) && Enabled(s, step) && (step.OpenSse? || step.OpenTelnet? || step.Close? || step.EnterRoom?)
    ensures Inv(Next(s, step))
  {
    var s' := Next(s, step);
    if step.sid in s.clients {
      assert ClientOk(s, step.sid);
    }
    forall q | q in s'.clients ensures ClientOk(s', q) {
      if q in s.clients {
        assert ClientOk(s, q);
      }
    }
    forall q: nat, x: nat | q < |s'.rooms|
      ensures multiset(s'.rooms[q].subs)[x] == if Holds(s', x, q) then 1 else 0
    {
      assert multiset(s.rooms[q].subs)[x] == if Holds(s, x, q) then 1 else 0;
      assert x == step.sid ==> !Holds(s, x, q) && !Holds(s', x, q);
    }
  }

  lemma {:induction false} KeyPostKeeps(s: State, sid: nat, id: nat)
    requires Inv(s) && Enabled(s, KeyPost(sid, id))
    ensures Inv(Next(s, KeyPost(sid, id)))
  {
    assert ClientOk(s, sid);
    var c := s.clients[sid];
    var r := c.room.value;
    var s1 := RoomMoves(s, r, Insert(id));
    RoomMovesKeep(s, r, Insert(id));
    assert ClientOk(s1, sid);
    ClientMovesKeep(s1, sid, c.(pc := AtPost(id)));
  }

  lemma {:induction false} StepKeeps(s: State, step: Step)
    requires Inv(s) && Enabled(s, step)
    ensures Inv(Next(s, step))
  {
    match step
    case OnRoom(r, what) => RoomMovesKeep(s, r, what);
    case OnClient(sid, act) =>
      assert ClientOk(s, sid);
      var c := s.clients[sid];
      if c.room.Some? {
        LocalKeeps(s.rooms[c.room.value], s.lastId, sid, c, act);
      } else {
        LocalKeepsOutside(c, act);
      }
      LocalKeepsDeaf(c, MsgsOf(s, c), DoneOf(s, c), act);
      ClientMovesKeep(s, sid, LocalNext(c, MsgsOf(s, c), act));
    case Subscribe(sid) => SubscribeKeeps(s, sid);
    case Unsubscribe(sid) => UnsubscribeKeeps(s, sid);
    case KeyPost(sid, id) => KeyPostKeeps(s, sid, id);
    case _ => PopulationKeeps(s, step);
  }

  lemma {:induction false} RunKeeps(s: State, steps: seq<Step>)
    requires Inv(s) && ValidRun(s, steps)
    ensures Inv(Run(s, steps))
    decreases |steps|
  {
    if steps != [] {
      StepKeeps(s, steps[0]);
      RunKeeps(Next(s, steps[0]), steps[1..]);
    }
  }

  lemma {:induction false} InitOk(s: State)
    requires Init(s)
    ensures Inv(s)
  {
  }
}
