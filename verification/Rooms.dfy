/**
 room.c: the text choke point, the subscriber array and the post operation.
 */
module Rooms {
  import opened Common
  import opened Store
  import ChatDb

  const MAX_SUBSCRIBERS: nat := 256
  const USER_MAX: nat := 32
  const BODY_MAX: nat := 512

  // ----- Sanitizing ------------------------------------------------------------------

  predicate Printable(c: char) {
    ' ' <= c <= '~'
  }

  predicate NameChar(c: char) {
    'a' <= c <= 'z' || 'A' <= c <= 'Z' || '0' <= c <= '9' || c == '_'
  }

  /** Every character that is not printable ASCII becomes a question mark. */
  function CleanText(s: string): (r: string)
    ensures |r| == |s|
    ensures forall i | 0 <= i < |s| :: r[i] == s[i] || (r[i] == '?' && !Printable(s[i]))
    ensures forall i | 0 <= i < |s| :: Printable(r[i])
  {
    seq(|s|, i requires 0 <= i < |s| => if Printable(s[i]) then s[i] else '?')
  }

  /** The name characters of s, in order. */
  function CleanName(s: string): string {
    if s == "" then ""
    else
      var front := CleanName(s[..|s| - 1]);
      if NameChar(s[|s| - 1]) then front + [s[|s| - 1]] else front
  }

  lemma {:induction false} CleanNameKeepsNames(s: string)
    ensures forall c | c in CleanName(s) :: NameChar(c)
    ensures |CleanName(s)| <= |s|
    ensures (forall c | c in s :: NameChar(c)) <==> CleanName(s) == s
  {
    if s != "" {
      CleanNameKeepsNames(s[..|s| - 1]);
      assert s == s[..|s| - 1] + [s[|s| - 1]];
      if forall c | c in s :: NameChar(c) {
        assert forall c | c in s[..|s| - 1] :: c in s;
      } else if NameChar(s[|s| - 1]) {
        assert exists c | c in s[..|s| - 1] :: !NameChar(c);
      }
    }
  }

  /** Cleaning a name is done character by character, in order ... */
  lemma {:induction false} CleanNameAppend(a: string, b: string)
    ensures CleanName(a + b) == CleanName(a) + CleanName(b)
  {
    if b == "" {
      assert a + b == a;
    } else {
      var front, last := b[..|b| - 1], b[|b| - 1];
      assert (a + b)[..|a + b| - 1] == a + front;
      CleanNameAppend(a, front);
      Regroup(CleanName(a), CleanName(front), [last]);
    }
  }

  /** ... and keeps every name character as often as it occurs, and nothing else. */
  lemma {:induction false} CleanNameKeepsEach(s: string, c: char)
    ensures multiset(CleanName(s))[c] == if NameChar(c) then multiset(s)[c] else 0
  {
    if s != "" {
      var front, last := s[..|s| - 1], s[|s| - 1];
      assert s == front + [last];
      CleanNameKeepsEach(front, c);
    }
  }

  lemma {:induction false} CleanNameGrows(s: string, k: nat)
    requires k <= |s|
    ensures CleanName(s[..k]) <= CleanName(s)
    decreases |s| - k
  {
    if k == |s| {
      assert s[..k] == s;
    } else {
      assert s[..k + 1][..k] == s[..k];
      CleanNameGrows(s, k + 1);
    }
  }

  /** sanitize_text: src is NUL-terminated, dst has at least the terminator's room. */
  method SanitizeText(src: string, dst: array<char>) returns (n: nat)
    requires dst.Length > 0 && '\0' !in src
    modifies dst
    ensures n == Min(|src|, dst.Length - 1)
    ensures dst[..n] == Take(CleanText(src), dst.Length - 1)
    ensures dst[n] == '\0'
  {
    n := 0;
    while n < |src| && n < dst.Length - 1
      invariant n <= |src| && n <= dst.Length - 1
      invariant dst[..n] == CleanText(src)[..n]
    {
      dst[n] := if ' ' <= src[n] <= '~' then src[n] else '?';
      assert dst[..n + 1] == dst[..n] + [dst[n]];
      n := n + 1;
    }
    dst[n] := '\0';
  }

  /** sanitize_user: drops every other character, keeps what fits. */
  method SanitizeUser(src: string, dst: array<char>) returns (n: nat)
    requires dst.Length > 0 && '\0' !in src
    modifies dst
    ensures n < dst.Length
    ensures dst[..n] == Take(CleanName(src), dst.Length - 1)
    ensures dst[n] == '\0'
  {
    n := 0;
    var i := 0;
    while i < |src| && n < dst.Length - 1
      invariant i <= |src| && n <= dst.Length - 1
      invariant dst[..n] == CleanName(src[..i])
    {
      var ch := src[i];
      assert src[..i + 1][..i] == src[..i];
      if 'a' <= ch <= 'z' || 'A' <= ch <= 'Z' || '0' <= ch <= '9' || ch == '_' {
        dst[n] := ch;
        assert dst[..n + 1] == dst[..n] + [ch];
        n := n + 1;
      }
      i := i + 1;
    }
    CleanNameGrows(src, i);
    assert src[..|src|] == src;
    dst[n] := '\0';
  }

  // ----- Subscribers -----------------------------------------------------------------

  /** chat_room_subscribe: a full room silently refuses. */
  function Subscribed(subs: seq<int>, fd: int): seq<int> {
    if |subs| < MAX_SUBSCRIBERS then subs + [fd] else subs
  }

  function IndexOf(subs: seq<int>, fd: int): (i: nat)
    ensures i <= |subs|
    ensures i < |subs| ==> subs[i] == fd
    ensures fd !in subs[..i]
  {
    if subs == [] || subs[0] == fd then 0 else
      var k := IndexOf(subs[1..], fd);
      assert subs[..k + 1] == [subs[0]] + subs[1..][..k];
      k + 1
  }

  /** chat_room_unsubscribe: the last entry moves into the slot of the first match. */
  function SwapRemoved(subs: seq<int>, fd: int): seq<int> {
    var i := IndexOf(subs, fd);
    var n := |subs| - 1;
    if i == |subs| then subs
    else if i == n then subs[..i]
    else subs[..i] + [subs[n]] + subs[i + 1..n]
  }

  /** Before and after, cut around the removed entry. */
  ghost predicate Swapped(subs: seq<int>, fd: int, r: seq<int>, a: seq<int>, b: seq<int>, x: int) {
    subs == a + [fd] + b + [x] && r == a + [x] + b
  }

  lemma {:induction false} SwappedIsRemoval(subs: seq<int>, fd: int, r: seq<int>, a: seq<int>, b: seq<int>, x: int)
    requires Swapped(subs, fd, r, a, b, x)
    ensures multiset(r) == multiset(subs) - multiset{fd}
  {
  }

  lemma {:induction false} LastIsRemoval(subs: seq<int>, fd: int, r: seq<int>)
    requires subs == r + [fd]
    ensures multiset(r) == multiset(subs) - multiset{fd}
  {
  }

  lemma {:induction false} SwapRemovedParts(subs: seq<int>, fd: int, r: seq<int>)
    requires r == SwapRemoved(subs, fd)
    ensures (fd !in subs && r == subs) || subs == r + [fd] || exists a, b, x :: Swapped(subs, fd, r, a, b, x)
  {
    var i, n := IndexOf(subs, fd), |subs| - 1;
    if i == |subs| {
      assert subs[..i] == subs;
    } else if i == n {
      assert subs == subs[..i] + [fd];
    } else {
      assert subs == subs[..i] + [fd] + subs[i + 1..n] + [subs[n]];
      assert Swapped(subs, fd, r, subs[..i], subs[i + 1..n], subs[n]);
    }
  }

  /** Whatever the order becomes, exactly one occurrence of fd is gone. */
  lemma {:induction false} SwapRemovedIsRemoval(subs: seq<int>, fd: int)
    ensures multiset(SwapRemoved(subs, fd)) == multiset(subs) - multiset{fd}
  {
    var r := SwapRemoved(subs, fd);
    SwapRemovedParts(subs, fd, r);
    if subs == r + [fd] {
      LastIsRemoval(subs, fd, r);
    } else if fd in subs {
      var a, b, x :| Swapped(subs, fd, r, a, b, x);
      SwappedIsRemoval(subs, fd, r, a, b, x);
    }
  }

  /** The in-memory half of a room: the subscriber array under its lock. */
  class Room {
    const id: nat
    const table: ChatDb.Table
    const subFds: array<int>
    var subCount: nat

    ghost predicate Valid()
      reads this, table, subFds
    {
      subFds.Length == MAX_SUBSCRIBERS && subCount <= subFds.Length && table.Valid()
    }

    ghost function Subs(): seq<int>
      requires Valid()
      reads this, table, subFds
    {
      subFds[..subCount]
    }

    constructor (id: nat, table: ChatDb.Table)
      requires table.Valid()
      ensures Valid() && Subs() == [] && this.id == id && this.table == table && fresh(subFds)
    {
      this.id := id;
      this.table := table;
      subFds := new int[MAX_SUBSCRIBERS];
      subCount := 0;
    }

    method Subscribe(fd: int)
      requires Valid()
      modifies this`subCount, subFds
      ensures Valid() && Subs() == Subscribed(old(Subs()), fd)
      ensures |old(Subs())| < 256 ==> Subs() == old(Subs()) + [fd]
      ensures |old(Subs())| >= 256 ==> Subs() == old(Subs())
    {
      if subCount < MAX_SUBSCRIBERS {
        subFds[subCount] := fd;
        subCount := subCount + 1;
      }
    }

    method Unsubscribe(fd: int)
      requires Valid()
      modifies this`subCount, subFds
      ensures Valid() && Subs() == SwapRemoved(old(Subs()), fd)
    {
      ghost var subs := Subs();
      var i := 0;
      while i < subCount
        invariant 0 <= i <= subCount && Subs() == subs && subCount == |subs|
        invariant fd !in subs[..i]
      {
        if subFds[i] == fd {
          IndexOfIsFirst(subs, fd, i);
          subCount := subCount - 1;
          subFds[i] := subFds[subCount];
          if i < subCount {
            assert Subs() == subs[..i] + [subs[subCount]] + subs[i + 1..subCount];
          }
          return;
        }
        i := i + 1;
      }
      IndexOfIsFirst(subs, fd, i);
    }

    /**
     chat_room_post: sanitize, store, then write one byte to each subscriber in
     turn while the lock is held. `woken` lists the descriptors written to.
     */
    method Post(user: string, body: string, ts: int, storageOk: bool) returns (id: int, woken: seq<int>)
      requires Valid() && '\0' !in user && '\0' !in body
      modifies table
      ensures Valid() && Subs() == old(Subs())
      ensures id < 0 <==>
                || Take(CleanName(user), USER_MAX - 1) == "" || body == ""
                || !storageOk || old(table.lastId) + 1 >= NO_BOUND
      ensures id < 0 ==> table.rows == old(table.rows) && woken == []
      ensures id >= 0 ==>
                && id == old(table.lastId) + 1
                && table.rows == old(table.rows)
                   + [ChatDb.Row(id, this.id, Take(CleanName(user), USER_MAX - 1), ts, Take(CleanText(body), BODY_MAX - 1))]
                && woken == Subs()
    {
      var cleanUser := new char[USER_MAX];
      var cleanBody := new char[BODY_MAX];
      woken := [];
      var n := SanitizeUser(user, cleanUser);
      if n == 0 {
        return -1, [];
      }
      var m := SanitizeText(body, cleanBody);
      if m == 0 {
        return -1, [];
      }
      id := table.InsertMessage(this.id, cleanUser[..n], ts, cleanBody[..m], storageOk);
      if id < 0 {
        return -1, [];
      }
      var i := 0;
      while i < subCount
        invariant 0 <= i <= subCount && woken == subFds[..i]
      {
        woken := woken + [subFds[i]];
        i := i + 1;
      }
    }
  }

  lemma {:induction false} IndexOfIsFirst(subs: seq<int>, fd: int, i: nat)
    requires i <= |subs| && fd !in subs[..i]
    requires i == |subs| || subs[i] == fd
    ensures IndexOf(subs, fd) == i
  {
  }
}
