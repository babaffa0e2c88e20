/**
 connector.c: slot accounting of the bounded thread spawner, as an interleaved
 step system over spawners, connection threads and the destroying thread.
 */
module Connector {
  import opened Common

  datatype Error = Ok | MaxConnections | NoMem | ThreadFailed

  /** thread_entry: created, counted and working, work done, uncounted; then its slot is posted back. */
  datatype Phase = Started | Working | Worked | Uncounted

  /**
   `free` is the semaphore, `spawners` hold a slot between sem_trywait and
   pthread_create, `taken` counts the slots connector_destroy has waited for.
   */
  datatype State = State(max: nat, free: nat, active: int, threads: map<nat, Phase>, spawners: set<nat>, taken: Option<nat>)

  datatype Step =
    | TryWait(who: nat)          // a slot is free
    | GiveBack(who: nat)         // malloc or pthread_create failed
    | Launch(who: nat, tid: nat) // pthread_create succeeded
    | CountIn(tid: nat)
    | WorkDone(tid: nat)
    | CountOut(tid: nat)
    | PostSlot(tid: nat)
    | DestroyBegins
    | DestroyWaits

  predicate Enabled(s: State, step: Step) {
    match step
    case TryWait(who) => s.free > 0 && who !in s.spawners
    case GiveBack(who) => who in s.spawners
    case Launch(who, tid) => who in s.spawners && tid !in s.threads
    case CountIn(tid) => tid in s.threads && s.threads[tid] == Started
    case WorkDone(tid) => tid in s.threads && s.threads[tid] == Working
    case CountOut(tid) => tid in s.threads && s.threads[tid] == Worked
    case PostSlot(tid) => tid in s.threads && s.threads[tid] == Uncounted
    case DestroyBegins => s.taken.None?
    case DestroyWaits => s.taken.Some? && s.taken.value < s.max && s.free > 0
  }

  function Next(s: State, step: Step): State {
    match step
    case TryWait(who) => s.(free := if s.free > 0 then s.free - 1 else 0, spawners := s.spawners + {who})
    case GiveBack(who) => s.(free := s.free + 1, spawners := s.spawners - {who})
    case Launch(who, tid) => s.(spawners := s.spawners - {who}, threads := s.threads[tid := Started])
    case CountIn(tid) => s.(threads := s.threads[tid := Working], active := s.active + 1)
    case WorkDone(tid) => s.(threads := s.threads[tid := Worked])
    case CountOut(tid) => s.(threads := s.threads[tid := Uncounted], active := s.active - 1)
    case PostSlot(tid) => s.(threads := s.threads - {tid}, free := s.free + 1)
    case DestroyBegins => s.(taken := Some(0))
    case DestroyWaits =>
      if s.taken.Some? then s.(free := if s.free > 0 then s.free - 1 else 0, taken := Some(s.taken.value + 1)) else s
  }

  function Initial(max: nat): State {
    State(max, max, 0, map[], {}, None)
  }

  predicate ValidRun(s: State, steps: seq<Step>)
    decreases |steps|
  {
    steps == [] || (Enabled(s, steps[0]) && ValidRun(Next(s, steps[0]), steps[1..]))
  }

  function Run(s: State, steps: seq<Step>): State
    decreases |steps|
  {
    if steps == [] then s else Run(Next(s, steps[0]), steps[1..])
  }

  /** Threads between their increment and their decrement of `active`. */
  function Counted(s: State): set<nat> {
    set t | t in s.threads && (s.threads[t] == Working || s.threads[t] == Worked)
  }

  function Taken(s: State): nat {
    if s.taken.Some? then s.taken.value else 0
  }

  /** Every slot is in exactly one place, and `active` counts exactly the threads at work. */
  ghost predicate Inv(s: State) {
    && s.free + |s.threads| + |s.spawners| + Taken(s) == s.max
    && s.active == |Counted(s)|
  }

  lemma {:induction false} PhaseChangeKeeps(s: State, tid: nat, p: Phase)
    requires tid in s.threads
    ensures var s' := s.(threads := s.threads[tid := p]);
      && |s'.threads| == |s.threads|
      && Counted(s') == if p == Working || p == Worked then Counted(s) + {tid} else Counted(s) - {tid}
  {
    assert s.threads[tid := p].Keys == s.threads.Keys;
  }

  lemma {:induction false} ThreadStepKeeps(s: State, step: Step)
    requires Inv(s) && Enabled(s, step) && (step.CountIn? || step.WorkDone? || step.CountOut?)
    ensures Inv(Next(s, step))
  {
    var p := if step.CountIn? then Working else if step.WorkDone? then Worked else Uncounted;
    PhaseChangeKeeps(s, step.tid, p);
    assert Counted(Next(s, step)) == Counted(s.(threads := s.threads[step.tid := p]));
    if step.WorkDone? {
      assert Counted(s) + {step.tid} == Counted(s);
    }
  }

  lemma {:induction false} LaunchKeeps(s: State, who: nat, tid: nat)
    requires Inv(s) && Enabled(s, Launch(who, tid))
    ensures Inv(Next(s, Launch(who, tid)))
  {
    var s' := Next(s, Launch(who, tid));
    assert s'.threads.Keys == s.threads.Keys + {tid};
    assert Counted(s') == Counted(s);
  }

  lemma {:induction false} PostKeeps(s: State, tid: nat)
    requires Inv(s) && Enabled(s, PostSlot(tid))
    ensures Inv(Next(s, PostSlot(tid)))
  {
    var s' := Next(s, PostSlot(tid));
    assert s'.threads.Keys == s.threads.Keys - {tid};
    assert Counted(s') == Counted(s);
  }

  lemma {:induction false} StepKeeps(s: State, step: Step)
    requires Inv(s) && Enabled(s, step)
    ensures Inv(Next(s, step)) && Next(s, step).max == s.max
  {
    if step.Launch? {
      LaunchKeeps(s, step.who, step.tid);
    } else if step.PostSlot? {
      PostKeeps(s, step.tid);
    } else if step.CountIn? || step.WorkDone? || step.CountOut? {
      ThreadStepKeeps(s, step);
    } else {
      assert Counted(Next(s, step)) == Counted(s);
    }
  }

  lemma {:induction false} RunKeeps(s: State, steps: seq<Step>)
    requires Inv(s) && ValidRun(s, steps)
    ensures Inv(Run(s, steps)) && Run(s, steps).max == s.max
    decreases |steps|
  {
    if steps != [] {
      StepKeeps(s, steps[0]);
      RunKeeps(Next(s, steps[0]), steps[1..]);
    }
  }

  lemma {:induction false} InitialOk(max: nat)
    ensures Inv(Initial(max))
  {
    assert Counted(Initial(max)) == {};
  }

  /** Slots are conserved over every run, and `active` never exceeds the slots that threads hold. */
  lemma {:induction false} SlotsAreConserved(max: nat, steps: seq<Step>)
    requires ValidRun(Initial(max), steps)
    ensures var s := Run(Initial(max), steps);
      && s.free + |s.threads| + |s.spawners| + Taken(s) == max
      && 0 <= s.active <= |s.threads|
  {
    InitialOk(max);
    RunKeeps(Initial(max), steps);
    var s := Run(Initial(max), steps);
    CardinalityOfSubset(Counted(s), s.threads.Keys);
  }

  /** connector_destroy passes its last wait only when no thread, working or not, is left. */
  lemma {:induction false} DestroyWaitsForAll(max: nat, steps: seq<Step>)
    requires ValidRun(Initial(max), steps)
    requires Run(Initial(max), steps).taken == Some(max)
    ensures var s := Run(Initial(max), steps);
      s.threads == map[] && s.spawners == {} && s.active == 0 && s.free == 0
  {
    InitialOk(max);
    RunKeeps(Initial(max), steps);
    var s := Run(Initial(max), steps);
    assert |s.threads| == 0 && |s.spawners| == 0;
    assert Counted(s) == {};
  }

  lemma {:induction false} CardinalityOfSubset(a: set<nat>, b: set<nat>)
    requires a <= b
    ensures |a| <= |b|
  {
    assert b == a + (b - a);
    assert |a + (b - a)| == |a| + |b - a|;
  }

  // ----- The spawner itself --------------------------------------------------------------------------

  /** The connector as one thread sees it: `held` threads have yet to return their slot. */
  class Slots {
    const maxConnections: nat
    var slots: nat
    var active: nat
    ghost var held: nat

    ghost predicate Valid()
      reads this
    {
      slots + held == maxConnections && active <= held
    }

    constructor (max: nat)
      requires max > 0
      ensures Valid() && maxConnections == max && slots == max && held == 0
    {
      maxConnections := max;
      slots := max;
      active := 0;
      held := 0;
    }

    /** connector_spawn: every failure returns the slot; only success hands it to a thread. */
    method Spawn(mallocOk: bool, createOk: bool) returns (e: Error)
      requires Valid()
      modifies this`slots, this`held
      ensures Valid()
      ensures e == if old(slots) == 0 then MaxConnections else if !mallocOk then NoMem else if !createOk then ThreadFailed else Ok
      ensures held == old(held) + if e == Ok then 1 else 0
    {
      if slots == 0 {
        return MaxConnections;
      }
      slots := slots - 1;
      if !mallocOk {
        slots := slots + 1;
        return NoMem;
      }
      if !createOk {
        slots := slots + 1;
        return ThreadFailed;
      }
      held := held + 1;
      return Ok;
    }

    /** thread_entry before its work function: a thread that holds a slot counts itself in. */
    method ThreadBegins()
      requires Valid() && active < held
      modifies this`active
      ensures Valid() && active == old(active) + 1
    {
      active := active + 1;
    }

    /** thread_entry after its work function: the count goes down before the slot is free again. */
    method ThreadEnds()
      requires Valid() && active > 0
      modifies this
      ensures Valid() && active == old(active) - 1 && slots == old(slots) + 1 && held == old(held) - 1
    {
      active := active - 1;
      slots := slots + 1;
      held := held - 1;
    }
  }
}
