/**
 Shutdown as an interleaved step system: sessions register, check their flag,
 poll, drain and unregister while shutdown_all sweeps the registry under its
 lock, flagging each session and then writing a byte to its pipe.
 */
module Shutdown {
  import opened Common

  /** Where a session thread stands; telnet and SSE loops have the same shape. */
  datatype Phase =
    | Created      // pipe open, not registered
    | Busy         // registered, outside its wait
    | AtCheck      // loop head: about to read the flag
    | AtPoll       // blocked in poll
    | Draining     // woken, reading the pipe until it is empty
    | AfterDrain   // about to read the flag again
    | Leaving      // out of the loop
    | Unregistered // off the list, pipe still open

  /** `reached`: shutdown_all has passed this session, or it registered afterwards. */
  datatype Session = Session(piped: bool, pipe: nat, flagged: bool, phase: Phase, reached: bool)

  /** shutdown_all at entry `next` of the list; `flagSet` between its flag and its write. */
  datatype Sweep = Sweep(next: nat, flagSet: bool)

  /** A session whose pipe is closed is no longer in `sessions`. */
  datatype State = State(sessions: map<nat, Session>, list: seq<nat>, shuttingDown: bool, sweep: Option<Sweep>)

  datatype Step =
    | Create(sid: nat, piped: bool)
    | Register(sid: nat)
    | Proceed(sid: nat)     // work done, back to the loop head
    | Check(sid: nat)
    | SocketReady(sid: nat) // input or timeout
    | Wake(sid: nat)
    | ReadPipe(sid: nat)
    | Recheck(sid: nat)
    | Finish(sid: nat)      // the session ends for reasons of its own
    | Post(sid: nat)        // a room post writes to the pipe
    | Request(sid: nat)     // request_shutdown: flag only
    | Unregister(sid: nat)
    | ClosePipe(sid: nat)
    | SweepStart
    | SweepFlag
    | SweepWrite
    | SweepEnd

  function Bump(x: Session): Session {
    if x.piped then x.(pipe := if x.pipe < PIPE_CAPACITY then x.pipe + 1 else x.pipe) else x
  }

  function Without(list: seq<nat>, sid: nat): seq<nat> {
    if list == [] then []
    else if list[0] == sid then list[1..]
    else [list[0]] + Without(list[1..], sid)
  }

  /** What a session does on its own; the lock-protected steps are in Next. */
  function Move(x: Session, step: Step): Option<Session> {
    match step
    case Proceed(_) => if x.phase == Busy then Some(x.(phase := AtCheck)) else None
    case Check(_) => if x.phase == AtCheck then Some(x.(phase := if x.flagged then Leaving else AtPoll)) else None
    case SocketReady(_) => if x.phase == AtPoll then Some(x.(phase := Busy)) else None
    case Wake(_) => if x.phase == AtPoll && x.piped && x.pipe > 0 then Some(x.(phase := Draining)) else None
    case ReadPipe(_) =>
      if x.phase != Draining then None
      else if x.pipe > 0 then Some(x.(pipe := x.pipe - Min(DRAIN_CHUNK, x.pipe)))
      else Some(x.(phase := AfterDrain))
    case Recheck(_) => if x.phase == AfterDrain then Some(x.(phase := if x.flagged then Leaving else Busy)) else None
    case Finish(_) => if x.phase == Busy || x.phase == AtPoll then Some(x.(phase := Leaving)) else None
    case Post(_) => Some(Bump(x))
    case Request(_) => Some(x.(flagged := true))
    case _ => None
  }

  predicate OwnStep(step: Step) {
    step.Proceed? || step.Check? || step.SocketReady? || step.Wake? || step.ReadPipe? || step.Recheck? || step.Finish?
    || step.Post? || step.Request?
  }

  predicate Enabled(s: State, step: Step) {
    if OwnStep(step) then step.sid in s.sessions && Move(s.sessions[step.sid], step).Some?
    else match step
      case Create(sid, _) => sid !in s.sessions
      case Register(sid) => sid in s.sessions && s.sessions[sid].phase == Created && s.sweep.None?
      case Unregister(sid) => sid in s.sessions && s.sessions[sid].phase == Leaving && s.sweep.None?
      case ClosePipe(sid) => sid in s.sessions && s.sessions[sid].phase == Unregistered
      case SweepStart => s.sweep.None?
      case SweepFlag => s.sweep.Some? && !s.sweep.value.flagSet && s.sweep.value.next < |s.list|
      case SweepWrite => s.sweep.Some? && s.sweep.value.flagSet
      case SweepEnd => s.sweep.Some? && !s.sweep.value.flagSet && s.sweep.value.next == |s.list|
      case _ => false
  }

  function With(s: State, sid: nat, x: Session): State {
    s.(sessions := s.sessions[sid := x])
  }

  /** The session a sweep is at. */
  function SweepTarget(s: State): Option<nat> {
    if s.sweep.Some? && s.sweep.value.next < |s.list| then Some(s.list[s.sweep.value.next]) else None
  }

  function Next(s: State, step: Step): State
    requires Enabled(s, step)
  {
    if OwnStep(step) then With(s, step.sid, Move(s.sessions[step.sid], step).value)
    else match step
      case Create(sid, piped) => With(s, sid, Session(piped, 0, false, Created, false))
      case Register(sid) =>
        var x := s.sessions[sid];
        With(s, sid, x.(phase := Busy, flagged := x.flagged || s.shuttingDown, reached := s.shuttingDown)).(list := [sid] + s.list)
      case Unregister(sid) =>
        With(s, sid, s.sessions[sid].(phase := Unregistered)).(list := Without(s.list, sid))
      case ClosePipe(sid) => s.(sessions := s.sessions - {sid})
      case SweepStart => s.(shuttingDown := true, sweep := Some(Sweep(0, false)))
      case SweepFlag =>
        var t := SweepTarget(s);
        var s1 := if t.Some? && t.value in s.sessions then With(s, t.value, s.sessions[t.value].(flagged := true)) else s;
        s1.(sweep := Some(s.sweep.value.(flagSet := true)))
      case SweepWrite =>
        var t := SweepTarget(s);
        var s1 := if t.Some? && t.value in s.sessions then With(s, t.value, Bump(s.sessions[t.value]).(reached := true)) else s;
        s1.(sweep := Some(Sweep(s.sweep.value.next + 1, false)))
      case SweepEnd => s.(sweep := None)
      case _ => s
  }

  const START := State(map[], [], false, None)

  predicate ValidRun(s: State, steps: seq<Step>)
    decreases |steps|
  {
    steps == [] || (Enabled(s, steps[0]) && ValidRun(Next(s, steps[0]), steps[1..]))
  }

  function Run(s: State, steps: seq<Step>): State
    requires ValidRun(s, steps)
    decreases |steps|
  {
    if steps == [] then s else Run(Next(s, steps[0]), steps[1..])
  }

  // ----- Invariant ---------------------------------------------------------------------------------

  predicate Listed(x: Session) {
    x.phase != Created && x.phase != Unregistered
  }

  /** A session that was reached is flagged, and if it still polls, a byte waits for it. */
  predicate SessionOk(x: Session) {
    x.reached ==> x.flagged && (x.phase == AtPoll && x.piped ==> x.pipe > 0)
  }

  predicate Distinct(list: seq<nat>) {
    forall i, j | 0 <= i < j < |list| :: list[i] != list[j]
  }

  /** Entries the sweep has passed are reached; the one it is at is flagged once its flag is set. */
  predicate SweepOk(s: State) {
    match s.sweep
    case None => s.shuttingDown ==> forall i | 0 <= i < |s.list| && s.list[i] in s.sessions :: s.sessions[s.list[i]].reached
    case Some(w) =>
      && s.shuttingDown && w.next <= |s.list| && (w.flagSet ==> w.next < |s.list|)
      && (forall i | 0 <= i < w.next && s.list[i] in s.sessions :: s.sessions[s.list[i]].reached)
      && (w.flagSet && s.list[w.next] in s.sessions ==> s.sessions[s.list[w.next]].flagged)
  }

  predicate Inv(s: State) {
    && Distinct(s.list)
    && (forall sid | sid in s.sessions :: SessionOk(s.sessions[sid]) && (sid in s.list <==> Listed(s.sessions[sid])))
    && (forall sid | sid in s.list :: sid in s.sessions)
    && SweepOk(s)
  }

  lemma {:induction false} WithoutRemoves(list: seq<nat>, sid: nat)
    requires Distinct(list)
    ensures Distinct(Without(list, sid))
    ensures forall x :: x in Without(list, sid) <==> x in list && x != sid
  {
    if list != [] {
      WithoutRemoves(list[1..], sid);
      assert list == [list[0]] + list[1..];
      assert list[0] !in list[1..];
    }
  }

  lemma {:induction false} OwnStepKeeps(s: State, step: Step)
    requires Inv(s) && Enabled(s, step) && OwnStep(step)
    ensures Inv(Next(s, step))
  {
    var x, x' := s.sessions[step.sid], Next(s, step).sessions[step.sid];
    assert SessionOk(x') && x'.reached == x.reached && (x.flagged ==> x'.flagged) && Listed(x') == Listed(x);
  }

  lemma {:induction false} ListStepKeeps(s: State, step: Step)
    requires Inv(s) && Enabled(s, step) && (step.Create? || step.Register? || step.Unregister? || step.ClosePipe?)
    ensures Inv(Next(s, step))
  {
    var s' := Next(s, step);
    match step
    case Register(sid) =>
      assert sid !in s.list;
      assert forall i | 0 < i < |s'.list| :: s'.list[i] == s.list[i - 1];
      assert forall x :: x in s'.list <==> x == sid || x in s.list;
    case Unregister(sid) =>
      WithoutRemoves(s.list, sid);
      if s.shuttingDown {
        forall i | 0 <= i < |s'.list| && s'.list[i] in s'.sessions ensures s'.sessions[s'.list[i]].reached {
          assert s'.list[i] in s'.list;
          var k :| 0 <= k < |s.list| && s.list[k] == s'.list[i];
        }
      }
    case _ =>
  }

  lemma {:induction false} SweepStepKeeps(s: State, step: Step)
    requires Inv(s) && Enabled(s, step) && (step.SweepStart? || step.SweepFlag? || step.SweepWrite? || step.SweepEnd?)
    ensures Inv(Next(s, step))
  {
    var s' := Next(s, step);
    if step.SweepFlag? || step.SweepWrite? {
      var n := s.sweep.value.next;
      var sid := s.list[n];
      assert sid in s.list;
      assert SessionOk(s'.sessions[sid]) && Listed(s'.sessions[sid]) == Listed(s.sessions[sid]);
      assert forall i | 0 <= i < n :: s.list[i] != sid;
    }
  }

  lemma {:induction false} RunKeeps(s: State, steps: seq<Step>)
    requires Inv(s) && ValidRun(s, steps)
    ensures Inv(Run(s, steps))
    decreases |steps|
  {
    if steps != [] {
      var step := steps[0];
      if OwnStep(step) {
        OwnStepKeeps(s, step);
      } else if step.Create? || step.Register? || step.Unregister? || step.ClosePipe? {
        ListStepKeeps(s, step);
      } else {
        SweepStepKeeps(s, step);
      }
      RunKeeps(Next(s, step), steps[1..]);
    }
  }

  // ----- Shutdown reaches everyone --------------------------------------------------------------------

  /**
   Once shutdown_all has returned, every registered session is flagged, and one
   with a working pipe that is blocked in poll has a byte to wake it. This covers
   sessions registered later: they start flagged.
   */
  lemma {:induction false} ShutdownReachesEveryone(steps: seq<Step>, sid: nat)
    requires ValidRun(START, steps)
    requires var s := Run(START, steps); s.shuttingDown && s.sweep.None? && sid in s.list
    ensures var s := Run(START, steps);
      && sid in s.sessions && s.sessions[sid].flagged
      && (s.sessions[sid].phase == AtPoll && s.sessions[sid].piped ==> s.sessions[sid].pipe > 0)
  {
    RunKeeps(START, steps);
    var s := Run(START, steps);
    var i :| 0 <= i < |s.list| && s.list[i] == sid;
    assert s.sessions[s.list[i]].reached;
  }

  /** Shutdown is under way and no registered session is unaware of it. */
  predicate AllAware(s: State) {
    s.shuttingDown && forall sid | sid in s.sessions && Listed(s.sessions[sid]) :: s.sessions[sid].flagged
  }

  lemma {:induction false} AwareStep(s: State, step: Step)
    requires AllAware(s) && Enabled(s, step)
    ensures AllAware(Next(s, step))
    ensures forall sid | sid in Next(s, step).sessions && Next(s, step).sessions[sid].phase == AtPoll ::
              sid in s.sessions && s.sessions[sid].phase == AtPoll
  {
  }

  /** After shutdown_all no session starts another poll, in any continuation: pollers only drop out. */
  lemma {:induction false} NoPollAfterShutdown(s: State, steps: seq<Step>, sid: nat)
    requires AllAware(s) && ValidRun(s, steps)
    requires sid in Run(s, steps).sessions && Run(s, steps).sessions[sid].phase == AtPoll
    ensures sid in s.sessions && s.sessions[sid].phase == AtPoll
    decreases |steps|
  {
    if steps != [] {
      AwareStep(s, steps[0]);
      NoPollAfterShutdown(Next(s, steps[0]), steps[1..], sid);
    }
  }

  /** The state in which shutdown_all returns is such a state. */
  lemma {:induction false} ShutdownLeavesAllAware(steps: seq<Step>)
    requires ValidRun(START, steps)
    requires Run(START, steps).shuttingDown && Run(START, steps).sweep.None?
    ensures AllAware(Run(START, steps))
  {
    RunKeeps(START, steps);
    var s := Run(START, steps);
    forall sid | sid in s.sessions && Listed(s.sessions[sid]) ensures s.sessions[sid].flagged {
      ShutdownReachesEveryone(steps, sid);
    }
  }

  /** How many moves a flagged session can still make before it leaves its loop. */
  function Distance(p: Phase): nat {
    match p
    case Created => 3
    case AtPoll => 4
    case Draining => 3
    case AfterDrain => 2
    case Busy => 2
    case AtCheck => 1
    case Leaving => 0
    case Unregistered => 0
  }

  /** A move of the session itself, other than a read of its pipe. */
  predicate IsMove(step: Step, sid: nat) {
    OwnStep(step) && !step.Post? && !step.Request? && !step.ReadPipe? && step.sid == sid
  }

  function Moves(steps: seq<Step>, sid: nat): nat {
    if steps == [] then 0 else (if IsMove(steps[0], sid) then 1 else 0) + Moves(steps[1..], sid)
  }

  function Left(s: State, sid: nat): nat {
    if sid in s.sessions then Distance(s.sessions[sid].phase) else 0
  }

  /** Each move of a flagged session brings it nearer to its exit; nothing else takes it back. */
  lemma {:induction false} FlaggedStep(s: State, step: Step, sid: nat)
    requires Enabled(s, step) && (sid in s.sessions ==> s.sessions[sid].flagged) && !(step.Create? && step.sid == sid)
    ensures var s' := Next(s, step);
      && (sid in s'.sessions ==> s'.sessions[sid].flagged)
      && Left(s', sid) + (if IsMove(step, sid) then 1 else 0) <= Left(s, sid)
  {
  }

  /**
   A flagged session makes at most four more moves of its own before it is out
   of its loop, in every continuation; only reads that empty its pipe come on top.
   */
  lemma {:induction false} FlaggedSessionsLeave(s: State, steps: seq<Step>, sid: nat)
    requires ValidRun(s, steps) && (sid in s.sessions ==> s.sessions[sid].flagged)
    requires forall step | step in steps :: !(step.Create? && step.sid == sid)
    ensures Moves(steps, sid) + Left(Run(s, steps), sid) <= Left(s, sid) <= 4
    decreases |steps|
  {
    if steps != [] {
      assert steps[0] in steps;
      FlaggedStep(s, steps[0], sid);
      FlaggedSessionsLeave(Next(s, steps[0]), steps[1..], sid);
    }
  }

  /** After shutdown_all a session with a working pipe is never stuck: until it leaves it can move on its own. */
  lemma {:induction false} NobodyIsStuck(steps: seq<Step>, sid: nat)
    requires ValidRun(START, steps)
    requires var s := Run(START, steps);
      s.shuttingDown && s.sweep.None? && sid in s.list && sid in s.sessions && s.sessions[sid].piped && s.sessions[sid].phase != Leaving
    ensures var s := Run(START, steps);
      Enabled(s, Wake(sid)) || Enabled(s, ReadPipe(sid)) || Enabled(s, Recheck(sid)) || Enabled(s, Proceed(sid)) || Enabled(s, Check(sid))
  {
    ShutdownReachesEveryone(steps, sid);
    RunKeeps(START, steps);
    assert Listed(Run(START, steps).sessions[sid]);
  }

  /** shutdown_all writes only to sessions whose pipe is still open. */
  lemma {:induction false} SweepWritesToOpenPipes(steps: seq<Step>)
    requires ValidRun(START, steps)
    requires var s := Run(START, steps); s.sweep.Some? && s.sweep.value.next < |s.list|
    ensures var s := Run(START, steps);
      var t := SweepTarget(s);
      t.Some? && t.value in s.sessions && Listed(s.sessions[t.value])
  {
    RunKeeps(START, steps);
    var s := Run(START, steps);
    assert s.list[s.sweep.value.next] in s.list;
  }
}
