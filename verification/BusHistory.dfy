/** What a stream sends, told by the history of its room and not by the stream's own cursor. */
module BusHistory {
  import opened Common
  import opened Store
  import opened Bus
  import opened BusInvariants
  import opened BusTheorems

  /** A stream of room r that has read its tail when the room held `known`. */
  ghost predicate StreamOf(s: State, sid: nat, r: nat, known: seq<nat>) {
    && sid in s.clients && r < |s.rooms| && known <= s.rooms[r].msgs
    && s.clients[sid].room == Some(r) && s.clients[sid].reader.Sse? && s.clients[sid].pc != AtTail
    && s.clients[sid].reader.start == Tail(known)
  }

  /** Messages are only ever appended. */
  lemma {:induction false} MessagesGrow(s: State, step: Step, r: nat)
    requires Enabled(s, step) && r < |s.rooms|
    ensures r < |Next(s, step).rooms| && s.rooms[r].msgs <= Next(s, step).rooms[r].msgs
  {
  }

  /** What a step of the bus leaves of a stream that has read its tail. */
  ghost predicate StillStream(s: State, t: State, sid: nat) {
    && sid in s.clients && sid in t.clients
    && var c, d := s.clients[sid], t.clients[sid];
      c.reader.Sse? && c.pc != AtTail ==> d.room == c.room && d.reader.Sse? && d.reader.start == c.reader.start && d.pc != AtTail
  }

  lemma {:induction false} StreamMoves(s: State, act: Local, sid: nat)
    requires sid in s.clients && Enabled(s, OnClient(sid, act))
    ensures StillStream(s, Next(s, OnClient(sid, act)), sid)
  {
  }

  lemma {:induction false} ClientStays(s: State, step: Step, sid: nat)
    requires sid in s.clients && Enabled(s, step) && step != Close(sid)
    ensures StillStream(s, Next(s, step), sid)
  {
    if step.OnClient? && step.sid == sid {
      StreamMoves(s, step.act, sid);
    }
  }

  /** No step but closing takes a stream away from its room or moves its start. */
  lemma {:induction false} StreamStays(s: State, step: Step, sid: nat, r: nat, known: seq<nat>)
    requires StreamOf(s, sid, r, known) && Enabled(s, step) && step != Close(sid)
    ensures StreamOf(Next(s, step), sid, r, known)
  {
    MessagesGrow(s, step, r);
    ClientStays(s, step, sid);
  }

  lemma {:induction false} StreamStaysOverRun(s: State, steps: seq<Step>, sid: nat, r: nat, known: seq<nat>)
    requires StreamOf(s, sid, r, known) && ValidRun(s, steps) && Close(sid) !in steps
    ensures StreamOf(Run(s, steps), sid, r, known)
    decreases |steps|
  {
    if steps != [] {
      StreamStays(s, steps[0], sid, r, known);
      StreamStaysOverRun(Next(s, steps[0]), steps[1..], sid, r, known);
    }
  }

  lemma {:induction false} TailIsRead(s: State, sid: nat, r: nat)
    requires Inv(s) && Enabled(s, OnClient(sid, ReadTail)) && s.clients[sid].room == Some(r)
    ensures r < |s.rooms| && StreamOf(Next(s, OnClient(sid, ReadTail)), sid, r, s.rooms[r].msgs)
  {
    assert ClientOk(s, sid);
  }

  /** Above the tail of a prefix lies the rest. */
  lemma {:induction false} AboveKnown(known: seq<nat>, msgs: seq<nat>)
    requires ValidIds(msgs) && known <= msgs
    ensures Above(msgs, Tail(known)) == msgs[|known|..]
  {
    assert Separates(msgs, Tail(known), |known|) by {
      forall i | 0 <= i < |msgs| ensures i < |known| <==> msgs[i] <= Tail(known) {
        assert known != [] ==> known[|known| - 1] == msgs[|known| - 1];
      }
    }
    AboveIsSuffix(msgs, Tail(known), |known|);
  }

  /** The parts of a run around one of its steps, joined. */
  lemma {:induction false} Joined(s0: State, before: seq<Step>, step: Step, after: seq<Step>)
    requires ValidRun(s0, before) && Enabled(Run(s0, before), step) && ValidRun(Next(Run(s0, before), step), after)
    ensures ValidRun(s0, before + [step] + after)
    ensures Run(s0, before + [step] + after) == Run(Next(Run(s0, before), step), after)
  {
    var rest := [step] + after;
    assert rest[1..] == after;
    RunAppend(s0, before, rest);
    Regroup(before, [step], after);
  }

  /** A stream's tail read in the middle of a run, and the stream still open at the end. */
  ghost predicate StreamRun(s0: State, before: seq<Step>, after: seq<Step>, sid: nat) {
    && Init(s0) && ValidRun(s0, before) && Enabled(Run(s0, before), OnClient(sid, ReadTail))
    && ValidRun(Next(Run(s0, before), OnClient(sid, ReadTail)), after) && Close(sid) !in after
  }

  function EndOf(s0: State, before: seq<Step>, after: seq<Step>, sid: nat): State {
    Run(s0, before + [OnClient(sid, ReadTail)] + after)
  }

  /** What a room held when the stream's tail was read. */
  function Known(s0: State, before: seq<Step>, r: nat): seq<nat> {
    var s := Run(s0, before);
    if r < |s.rooms| then s.rooms[r].msgs else []
  }

  lemma {:induction false} StreamAtEnd(s0: State, before: seq<Step>, after: seq<Step>, sid: nat) returns (r: nat)
    requires StreamRun(s0, before, after, sid)
    ensures StreamOf(EndOf(s0, before, after, sid), sid, r, Known(s0, before, r)) && Inv(EndOf(s0, before, after, sid))
    ensures ValidRun(s0, before + [OnClient(sid, ReadTail)] + after) && r < |Run(s0, before).rooms|
    ensures Run(s0, before).clients[sid].room == Some(r)
  {
    Reachable(s0, before);
    var s := Run(s0, before);
    assert ClientOk(s, sid);
    r := s.clients[sid].room.value;
    TailIsRead(s, sid, r);
    StreamStaysOverRun(Next(s, OnClient(sid, ReadTail)), after, sid, r, s.rooms[r].msgs);
    Joined(s0, before, OnClient(sid, ReadTail), after);
    Reachable(s0, before + [OnClient(sid, ReadTail)] + after);
  }

  /**
   Only new messages are streamed: on every run, what a stream has sent is a
   prefix of the messages its room gained after the stream read the tail; none
   of them was stored before, and all are newer than whatever was.
   */
  lemma {:induction false} OnlyNewMessages(s0: State, before: seq<Step>, after: seq<Step>, sid: nat) returns (r: nat)
    requires StreamRun(s0, before, after, sid)
    ensures var s, known := EndOf(s0, before, after, sid), Known(s0, before, r);
      && sid in s.clients && s.clients[sid].room == Run(s0, before).clients[sid].room == Some(r)
      && r < |s.rooms| && known <= s.rooms[r].msgs && s.clients[sid].reader.Sse?
      && s.clients[sid].reader.sent <= s.rooms[r].msgs[|known|..]
      && (forall m | m in s.clients[sid].reader.sent :: m !in known && forall k | k in known :: k < m)
  {
    r := StreamAtEnd(s0, before, after, sid);
    var s, known := EndOf(s0, before, after, sid), Known(s0, before, r);
    var msgs, sent := s.rooms[r].msgs, s.clients[sid].reader.sent;
    assert RoomOk(s.rooms[r], s.lastId);
    StreamIsContiguousPrefix(s0, before + [OnClient(sid, ReadTail)] + after, sid);
    AboveKnown(known, msgs);
    NewIsNewer(known, msgs, sent);
  }

  lemma {:induction false} NewIsNewer(known: seq<nat>, msgs: seq<nat>, sent: seq<nat>)
    requires Increasing(msgs) && known <= msgs && sent <= msgs[|known|..]
    ensures forall m | m in sent :: m !in known && forall k | k in known :: k < m
  {
    forall m | m in sent ensures m !in known && forall k | k in known :: k < m {
      var j :| 0 <= j < |sent| && sent[j] == m;
      assert m == msgs[|known| + j];
      assert forall i | 0 <= i < |known| :: known[i] == msgs[i] < m;
    }
  }

  /** In a quiet room a waiting stream has sent all its room gained, exactly if nothing was left behind. */
  lemma {:induction false} AllNewMessages(s0: State, before: seq<Step>, after: seq<Step>, sid: nat, r: nat)
    requires StreamRun(s0, before, after, sid) && Run(s0, before).clients[sid].room == Some(r)
    requires var s := EndOf(s0, before, after, sid);
      Waits(s, sid) && r < |s.rooms| && s.rooms[r].waiting == {} && s.rooms[r].fan.None?
    ensures var s, known := EndOf(s0, before, after, sid), Known(s0, before, r);
      && s.clients[sid].reader.Sse? && |known| <= |s.rooms[r].msgs|
      && (s.clients[sid].reader.sent == s.rooms[r].msgs[|known|..] <==> NothingLeftBehind(s.clients[sid], s.rooms[r].msgs))
  {
    var q := StreamAtEnd(s0, before, after, sid);
    var s, known := EndOf(s0, before, after, sid), Known(s0, before, r);
    assert RoomOk(s.rooms[r], s.lastId);
    QuietStreamIsComplete(s0, before + [OnClient(sid, ReadTail)] + after, sid);
    AboveKnown(known, s.rooms[r].msgs);
  }
}
