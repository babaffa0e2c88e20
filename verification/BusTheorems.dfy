/** Consequences of the bus invariant over every run. */
module BusTheorems {
  import opened Common
  import opened Store
  import opened Bus
  import opened BusInvariants
  import Rooms

  /** A session waiting with nothing to read from its pipe. */
  ghost predicate Waits(s: State, sid: nat) {
    sid in s.clients && s.clients[sid].pc == AtPoll && s.clients[sid].pipe == 0
  }

  /** The same with a slot and a working pipe. */
  ghost predicate WaitsIdle(s: State, sid: nat) {
    Waits(s, sid) && s.clients[sid].piped && s.clients[sid].slot
  }

  lemma {:induction false} Reachable(s0: State, steps: seq<Step>)
    requires Init(s0) && ValidRun(s0, steps)
    ensures Inv(Run(s0, steps))
  {
    InitOk(s0);
    RunKeeps(s0, steps);
  }

  lemma {:induction false} RunAppend(s: State, a: seq<Step>, b: seq<Step>)
    requires ValidRun(s, a) && ValidRun(Run(s, a), b)
    ensures ValidRun(s, a + b) && Run(s, a + b) == Run(Run(s, a), b)
    decreases |a|
  {
    if a == [] {
      assert a + b == b;
    } else {
      RunAppend(Next(s, a[0]), a[1..], b);
      assert (a + b)[0] == a[0] && (a + b)[1..] == a[1..] + b;
    }
  }

  /**
   No lost wake-up: a message above the cursor of a waiting stream still has its
   write to this stream ahead, or was fanned out before the stream subscribed
   and nothing was pulled since, or was left over by a full pull, or the stream
   was refused a slot or has no pipe.
   */
  lemma {:induction false} NoLostWakeUp(s0: State, steps: seq<Step>, sid: nat, m: nat)
    requires Init(s0) && ValidRun(s0, steps)
    requires Waits(Run(s0, steps), sid) && Run(s0, steps).clients[sid].reader.Sse?
    requires m in MsgsOf(Run(s0, steps), Run(s0, steps).clients[sid])
    requires m > Run(s0, steps).clients[sid].reader.cursor
    ensures var s := Run(s0, steps);
      var c := s.clients[sid];
      || (RoomOf(s, c).Some? && InFlight(RoomOf(s, c).value, sid, m))
      || (c.reader.pulled.None? && m in c.reader.missed)
      || (c.reader.pulled == Some(SSE_BATCH) && m in c.ack)
      || Deaf(c)
  {
    Reachable(s0, steps);
    var s := Run(s0, steps);
    assert ClientOk(s, sid);
  }

  /** A stream without a slot or without a pipe never queries and never sends, on any run. */
  lemma {:induction false} DeafStreamIsSilent(s0: State, steps: seq<Step>, sid: nat)
    requires Init(s0) && ValidRun(s0, steps)
    requires sid in Run(s0, steps).clients && Deaf(Run(s0, steps).clients[sid])
    requires Run(s0, steps).clients[sid].pc != Finished
    ensures var c := Run(s0, steps).clients[sid]; c.reader.sent == [] && c.reader.pulled.None?
  {
    Reachable(s0, steps);
    assert ClientOk(Run(s0, steps), sid);
  }

  /** What an SSE stream has sent is a gap-free, duplicate-free prefix of the room above its start. */
  lemma {:induction false} StreamIsContiguousPrefix(s0: State, steps: seq<Step>, sid: nat)
    requires Init(s0) && ValidRun(s0, steps)
    requires sid in Run(s0, steps).clients
    requires Run(s0, steps).clients[sid].reader.Sse? && Run(s0, steps).clients[sid].pc != AtTail
    ensures var s := Run(s0, steps);
      var c := s.clients[sid];
      && c.reader.sent <= Above(MsgsOf(s, c), c.reader.start)
      && Increasing(c.reader.sent)
      && (!c.reader.broken ==> c.reader.sent + Above(MsgsOf(s, c), c.reader.cursor) == Above(MsgsOf(s, c), c.reader.start))
  {
    Reachable(s0, steps);
    var s := Run(s0, steps);
    assert ClientOk(s, sid);
    var c := s.clients[sid];
    var msgs := MsgsOf(s, c);
    RankSplits(msgs, c.reader.start);
    var above := Above(msgs, c.reader.start);
    assert c.reader.sent <= above by {
      if !c.reader.broken {
        assert c.reader.sent == above[..|c.reader.sent|];
      }
    }
    forall i, j | 0 <= i < j < |c.reader.sent| ensures c.reader.sent[i] < c.reader.sent[j] {
      assert c.reader.sent[i] == above[i] && c.reader.sent[j] == above[j];
    }
  }

  /**
   The last query left nothing behind; before the first one, nothing was fanned
   out ahead of the subscription. A stream without a slot or a pipe misses
   whatever is stored after its start.
   */
  predicate NothingLeftBehind(c: Client, msgs: seq<nat>)
    requires c.reader.Sse?
  {
    if Deaf(c) then Tail(msgs) <= c.reader.start
    else match c.reader.pulled
      case None => forall m | m in c.reader.missed :: m <= c.reader.start
      case Some(n) => n < SSE_BATCH || forall m | m in c.ack :: m <= c.reader.cursor
  }

  /** Nothing is left above a cursor exactly when no id is larger. */
  lemma {:induction false} NothingAbove(ids: seq<nat>, x: nat)
    requires Increasing(ids)
    ensures Above(ids, x) == [] <==> Tail(ids) <= x
    ensures Above(ids, x) == [] <==> forall m | m in ids :: m <= x
  {
    RankSeparates(ids, x);
    AboveIsSuffix(ids, x, Rank(ids, x));
    if ids != [] {
      assert ids[|ids| - 1] in ids;
      TailIsMax(ids);
    }
  }

  /** When the room is quiet, a waiting stream has delivered everything exactly if nothing was left behind. */
  lemma {:induction false} QuietStreamIsComplete(s0: State, steps: seq<Step>, sid: nat)
    requires Init(s0) && ValidRun(s0, steps)
    requires Waits(Run(s0, steps), sid) && Run(s0, steps).clients[sid].reader.Sse?
    requires var s := Run(s0, steps);
      var r := RoomOf(s, s.clients[sid]);
      r.Some? && r.value.waiting == {} && r.value.fan.None?
    ensures var s := Run(s0, steps);
      var c := s.clients[sid];
      c.reader.sent == Above(MsgsOf(s, c), c.reader.start) <==> NothingLeftBehind(c, MsgsOf(s, c))
  {
    Reachable(s0, steps);
    var s := Run(s0, steps);
    assert ClientOk(s, sid);
    var c := s.clients[sid];
    var v, msgs := c.reader, MsgsOf(s, c);
    NothingAbove(msgs, v.start);
    NothingAbove(msgs, v.cursor);
    assert v.sent == Above(msgs, v.start) <==> Above(msgs, v.cursor) == [];
  }

  /**
   Live view: with `at_live` set and nothing in the pipe, the screen is the newest
   page of the room except for posts whose write to this session is still ahead.
   */
  lemma {:induction false} LiveScreenIsFresh(s0: State, steps: seq<Step>, sid: nat)
    requires Init(s0) && ValidRun(s0, steps)
    requires WaitsIdle(Run(s0, steps), sid)
    requires Run(s0, steps).clients[sid].reader.Telnet? && Run(s0, steps).clients[sid].reader.view.atLive
    ensures var s := Run(s0, steps);
      var c := s.clients[sid];
      var v := c.reader.view;
      && RoomOf(s, c).Some? && v.seen <= |MsgsOf(s, c)|
      && v.shown == LastN(MsgsOf(s, c)[..v.seen], v.want)
      && (forall m | m in MsgsOf(s, c)[v.seen..] :: InFlight(RoomOf(s, c).value, sid, m))
      && (RoomOf(s, c).value.waiting == {} && RoomOf(s, c).value.fan.None? ==> v.shown == LastN(MsgsOf(s, c), v.want))
  {
    Reachable(s0, steps);
    var s := Run(s0, steps);
    assert ClientOk(s, sid);
    var c := s.clients[sid];
    var msgs, seen := MsgsOf(s, c), c.reader.view.seen;
    assert msgs == msgs[..seen] + msgs[seen..];
    assert forall i, j | 0 <= i < seen <= j < |msgs| :: msgs[i] < msgs[j];
    forall m | m in msgs[seen..] ensures InFlight(RoomOf(s, c).value, sid, m) {
      assert m in msgs;
      assert m !in msgs[..seen];
    }
    assert seen < |msgs| ==> msgs[seen] in msgs[seen..];
    assert seen == |msgs| ==> msgs[..seen] == msgs;
  }

  /** A listed descriptor belongs to an open session in that room, and is listed once in all rooms. */
  lemma {:induction false} DescriptorsAreOwned(s0: State, steps: seq<Step>, r: nat, fd: nat)
    requires Init(s0) && ValidRun(s0, steps)
    requires r < |Run(s0, steps).rooms| && fd in Run(s0, steps).rooms[r].subs
    ensures var s := Run(s0, steps);
      && Holds(s, fd, r)
      && multiset(s.rooms[r].subs)[fd] == 1
      && forall q: nat | q < |s.rooms| && q != r :: fd !in s.rooms[q].subs
  {
    Reachable(s0, steps);
    var s := Run(s0, steps);
    assert multiset(s.rooms[r].subs)[fd] > 0;
    assert Holds(s, fd, r);
    forall q: nat | q < |s.rooms| && q != r ensures fd !in s.rooms[q].subs {
      assert multiset(s.rooms[q].subs)[fd] == if Holds(s, fd, q) then 1 else 0;
    }
  }

  /** Conversely a session that holds a slot is listed, so a post writes to it exactly once. */
  lemma {:induction false} SubscribersAreListedOnce(s0: State, steps: seq<Step>, sid: nat)
    requires Init(s0) && ValidRun(s0, steps)
    requires sid in Run(s0, steps).clients && Run(s0, steps).clients[sid].piped && Run(s0, steps).clients[sid].slot
    ensures var s := Run(s0, steps);
      var r := s.clients[sid].room;
      r.Some? && r.value < |s.rooms| && multiset(s.rooms[r.value].subs)[sid] == 1
  {
    Reachable(s0, steps);
    var s := Run(s0, steps);
    HolderIsListed(s, sid);
    assert Holds(s, sid, s.clients[sid].room.value);
  }

  // ----- One byte per post --------------------------------------------------------------------------

  /** How many writes of room r's fan-outs go to this session. */
  function Wakes(s: State, steps: seq<Step>, r: nat, sid: nat): nat
    decreases |steps|
  {
    if steps == [] then 0
    else
      (if steps[0] == OnRoom(r, Write) && r < |s.rooms| && Target(s.rooms[r], Write) == sid then 1 else 0)
      + Wakes(Next(s, steps[0]), steps[1..], r, sid)
  }

  /** The array is frozen during a fan-out, and only its own writes move it on. */
  lemma {:induction false} FanStep(s: State, step: Step, r: nat)
    requires r < |s.rooms| && s.rooms[r].fan.Some? && Enabled(s, step) && step != OnRoom(r, Unlock)
    ensures var s' := Next(s, step);
      && |s'.rooms| == |s.rooms| && s'.rooms[r].subs == s.rooms[r].subs
      && s'.rooms[r].fan == if step == OnRoom(r, Write) then Some(Fan(s.rooms[r].fan.value.id, s.rooms[r].fan.value.next + 1)) else s.rooms[r].fan
  {
  }

  /** Between two moments of one fan-out a session gets one byte for each listing it passed. */
  lemma {:induction false} FanWrites(s: State, steps: seq<Step>, r: nat, sid: nat)
    requires r < |s.rooms| && s.rooms[r].fan.Some? && s.rooms[r].fan.value.next <= |s.rooms[r].subs|
    requires ValidRun(s, steps) && OnRoom(r, Unlock) !in steps
    ensures var s', n := Run(s, steps), s.rooms[r].fan.value.next;
      && |s'.rooms| == |s.rooms| && s'.rooms[r].subs == s.rooms[r].subs
      && s'.rooms[r].fan.Some? && s'.rooms[r].fan.value.id == s.rooms[r].fan.value.id
      && n <= s'.rooms[r].fan.value.next <= |s.rooms[r].subs|
      && Wakes(s, steps, r, sid) == multiset(s.rooms[r].subs[n..s'.rooms[r].fan.value.next])[sid]
    decreases |steps|
  {
    var subs, n := s.rooms[r].subs, s.rooms[r].fan.value.next;
    if steps == [] {
      assert subs[n..n] == [];
    } else {
      FanStep(s, steps[0], r);
      var s1 := Next(s, steps[0]);
      FanWrites(s1, steps[1..], r, sid);
      var k := Run(s1, steps[1..]).rooms[r].fan.value.next;
      if steps[0] == OnRoom(r, Write) {
        assert subs[n..k] == [subs[n]] + subs[n + 1..k];
      }
    }
  }

  /**
   A post wakes each slot-holding session of its room exactly once: whatever
   happens between taking the lock and being ready to release it, one write of
   the fan-out goes to that session.
   */
  lemma {:induction false} PostWakesOnce(s0: State, before: seq<Step>, r: nat, id: nat, during: seq<Step>, sid: nat)
    requires Init(s0) && ValidRun(s0, before)
    requires var s := Run(s0, before); Enabled(s, OnRoom(r, Lock(id))) && Holds(s, sid, r)
    requires var s := Next(Run(s0, before), OnRoom(r, Lock(id)));
      ValidRun(s, during) && OnRoom(r, Unlock) !in during && Enabled(Run(s, during), OnRoom(r, Unlock))
    ensures Wakes(Next(Run(s0, before), OnRoom(r, Lock(id))), during, r, sid) == 1
  {
    Reachable(s0, before);
    var s := Run(s0, before);
    LockStarts(s, r, id, sid);
    WholeFan(Next(s, OnRoom(r, Lock(id))), during, r, sid);
  }

  lemma {:induction false} LockStarts(s: State, r: nat, id: nat, sid: nat)
    requires Inv(s) && Enabled(s, OnRoom(r, Lock(id))) && Holds(s, sid, r)
    ensures var s1 := Next(s, OnRoom(r, Lock(id)));
      r < |s1.rooms| && s1.rooms[r].fan == Some(Fan(id, 0)) && multiset(s1.rooms[r].subs)[sid] == 1
  {
    assert multiset(s.rooms[r].subs)[sid] == if Holds(s, sid, r) then 1 else 0;
  }

  /** A fan-out from its first write to its last gives each listing one byte. */
  lemma {:induction false} WholeFan(s: State, steps: seq<Step>, r: nat, sid: nat)
    requires r < |s.rooms| && s.rooms[r].fan.Some? && s.rooms[r].fan.value.next == 0
    requires ValidRun(s, steps) && OnRoom(r, Unlock) !in steps && Enabled(Run(s, steps), OnRoom(r, Unlock))
    ensures Wakes(s, steps, r, sid) == multiset(s.rooms[r].subs)[sid]
  {
    FanWrites(s, steps, r, sid);
    var subs := s.rooms[r].subs;
    assert subs[0..|subs|] == subs;
  }
}
