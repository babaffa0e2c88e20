/**
 The session registry of telnet_session.c and http_session.c: an intrusive
 singly linked list under one lock, walked by shutdown_all.
 */
module Registry {
  import opened Common

  class Session {
    const notifyWfd: int
    var pipe: nat
    var shutdownRequested: bool
    var regNext: Session?

    constructor (notifyWfd: int)
      ensures this.notifyWfd == notifyWfd && pipe == 0 && !shutdownRequested && regNext == null
    {
      this.notifyWfd := notifyWfd;
      pipe := 0;
      shutdownRequested := false;
      regNext := null;
    }

    /** Set the flag, then write one byte unless the pipe is missing or full. */
    method RequestStop()
      modifies this`shutdownRequested, this`pipe
      ensures shutdownRequested && pipe == Woken(notifyWfd, old(pipe))
    {
      shutdownRequested := true;
      if notifyWfd >= 0 && pipe < PIPE_CAPACITY {
        pipe := pipe + 1;
      }
    }
  }

  class SessionList {
    // The lock guards these fields and every link.
    var head: Session?
    var shuttingDown: bool
    ghost var members: seq<Session>

    /** The links spell out `members`, without repetition. */
    ghost predicate Valid()
      reads this, members
    {
      && head == At(0)
      && (forall i | 0 <= i < |members| :: members[i].regNext == At(i + 1))
      && (forall i, j | 0 <= i < j < |members| :: members[i] != members[j])
    }

    ghost function At(i: nat): Session?
      reads this
    {
      if i < |members| then members[i] else null
    }

    constructor ()
      ensures Valid() && members == [] && !shuttingDown
    {
      head := null;
      shuttingDown := false;
      members := [];
    }

    method Register(s: Session)
      requires Valid() && s !in members
      modifies this, s`regNext, s`shutdownRequested
      ensures Valid() && members == [s] + old(members) && shuttingDown == old(shuttingDown)
      ensures s.shutdownRequested <==> old(s.shutdownRequested) || shuttingDown
    {
      s.regNext := head;
      head := s;
      members := [s] + members;
      if shuttingDown {
        s.shutdownRequested := true;
      }
    }

    /** Store the successor of cur in the link that points at cur. */
    method Unlink(prev: Session?, cur: Session, ghost i: nat)
      requires Valid() && i < |members| && members[i] == cur
      requires prev == if i == 0 then null else members[i - 1]
      modifies this, members`regNext
      ensures Valid() && shuttingDown == old(shuttingDown)
      ensures members == old(members)[..i] + old(members)[i + 1..]
    {
      if prev == null {
        head := cur.regNext;
      } else {
        prev.regNext := cur.regNext;
      }
      members := members[..i] + members[i + 1..];
    }

    /** Walk to the link that points at s and bypass it; a session that is not listed changes nothing. */
    method Unregister(s: Session)
      requires Valid()
      modifies this, members`regNext
      ensures Valid() && shuttingDown == old(shuttingDown)
      ensures s !in old(members) ==> members == old(members)
      ensures forall i | 0 <= i < |old(members)| && old(members)[i] == s :: members == old(members)[..i] + old(members)[i + 1..]
    {
      ghost var all := members;
      var prev: Session? := null;
      var cur := head;
      ghost var i := 0;
      while cur != null
        invariant 0 <= i <= |all| && members == all && Valid()
        invariant cur == At(i) && s !in all[..i]
        invariant prev == if i == 0 then null else all[i - 1]
        decreases |all| - i
      {
        if cur == s {
          Unlink(prev, cur, i);
          return;
        }
        prev := cur;
        cur := cur.regNext;
        i := i + 1;
      }
      assert all[..i] == all;
    }

    /** Flag every member and write one byte to each working pipe; a full pipe is left as it is. */
    method ShutdownAll()
      requires Valid()
      modifies this`shuttingDown, members`shutdownRequested, members`pipe
      ensures Valid() && shuttingDown && members == old(members)
      ensures forall i | 0 <= i < |members| :: members[i].shutdownRequested
      ensures forall i | 0 <= i < |members| :: members[i].pipe == Woken(members[i].notifyWfd, old(members[i].pipe))
    {
      shuttingDown := true;
      var s := head;
      ghost var i := 0;
      while s != null
        invariant 0 <= i <= |members| && s == At(i)
        invariant forall k | 0 <= k < i :: members[k].shutdownRequested
        invariant forall k | 0 <= k < i :: members[k].pipe == Woken(members[k].notifyWfd, old(members[k].pipe))
        invariant forall k | i <= k < |members| :: members[k].pipe == old(members[k].pipe)
        modifies members`shutdownRequested, members`pipe
        decreases |members| - i
      {
        assert s == members[i] && forall k | 0 <= k < |members| && k != i :: members[k] != s;
        s.RequestStop();
        s := s.regNext;
        i := i + 1;
      }
    }
  }

  /** A pipe after one more wake-up byte. */
  function Woken(wfd: int, pipe: nat): nat {
    if wfd >= 0 && pipe < PIPE_CAPACITY then pipe + 1 else pipe
  }
}
