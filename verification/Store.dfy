/**
 The message store of chat_db.c, seen through its (room_id, id) index: the
 messages of one room are the strictly increasing sequence of their ids.
 Ids come from one AUTOINCREMENT counter shared by all rooms, so a room's
 sequence has gaps.
 */
module Store {
  import opened Common

  /** Upper bound used by chat_db_messages_before for "no bound". */
  const NO_BOUND: nat := 0x7fff_ffff_ffff_ffff

  ghost predicate Increasing(ids: seq<nat>) {
    forall i, j | 0 <= i < j < |ids| :: ids[i] < ids[j]
  }

  /** Ids fit below the sentinel, and 0 is never an id. */
  ghost predicate ValidIds(ids: seq<nat>) {
    Increasing(ids) && forall i | 0 <= i < |ids| :: 0 < ids[i] < NO_BOUND
  }

  /** The ids as a set. */
  function Elements(ids: seq<nat>): set<nat> {
    set m | m in ids
  }

  /** WHERE id > after ORDER BY id ASC. */
  function Above(ids: seq<nat>, after: nat): seq<nat> {
    if ids == [] then []
    else
      var older := Above(ids[..|ids| - 1], after);
      if ids[|ids| - 1] > after then older + [ids[|ids| - 1]] else older
  }

  /** WHERE id < before ORDER BY id ASC. */
  function Below(ids: seq<nat>, before: nat): seq<nat> {
    if ids == [] then []
    else
      var older := Below(ids[..|ids| - 1], before);
      if ids[|ids| - 1] < before then older + [ids[|ids| - 1]] else older
  }

  function Take<T>(s: seq<T>, n: nat): seq<T> {
    s[..Min(n, |s|)]
  }

  function LastN<T>(s: seq<T>, n: nat): seq<T> {
    s[|s| - Min(n, |s|)..]
  }

  /** chat_db_messages_since: the oldest `limit` messages newer than `after`. */
  function Since(ids: seq<nat>, after: nat, limit: nat): seq<nat> {
    Take(Above(ids, after), limit)
  }

  /** chat_db_messages_before: the newest `limit` messages older than `before`; 0 means no bound. */
  function Before(ids: seq<nat>, before: nat, limit: nat): seq<nat> {
    LastN(Below(ids, if before == 0 then NO_BOUND else before), limit)
  }

  /** chat_db_max_message_id: COALESCE(MAX(id), 0). */
  function Tail(ids: seq<nat>): nat {
    if ids == [] then 0 else ids[|ids| - 1]
  }

  /** Number of ids not above `x`. */
  function Rank(ids: seq<nat>, x: nat): (k: nat)
    ensures k <= |ids|
  {
    if ids == [] then 0
    else Rank(ids[..|ids| - 1], x) + if ids[|ids| - 1] <= x then 1 else 0
  }

  /** The index k separates the ids up to x from the larger ones. */
  ghost predicate Separates(ids: seq<nat>, x: nat, k: nat) {
    k <= |ids| && forall i | 0 <= i < |ids| :: i < k <==> ids[i] <= x
  }

  lemma {:induction false} SeparatesFront(ids: seq<nat>, x: nat, k: nat)
    requires ids != [] && Separates(ids, x, k)
    ensures Separates(ids[..|ids| - 1], x, if k == |ids| then k - 1 else k)
  {
  }

  lemma {:induction false} AboveIsSuffix(ids: seq<nat>, x: nat, k: nat)
    requires Separates(ids, x, k)
    ensures Above(ids, x) == ids[k..]
  {
    if ids != [] {
      var n := |ids| - 1;
      SeparatesFront(ids, x, k);
      AboveIsSuffix(ids[..n], x, if k == |ids| then k - 1 else k);
      if k < |ids| {
        assert ids[k..] == ids[..n][k..] + [ids[n]];
      }
    }
  }

  lemma {:induction false} BelowIsPrefix(ids: seq<nat>, x: nat, k: nat)
    requires Separates(ids, x, k)
    ensures Below(ids, x + 1) == ids[..k]
  {
    if ids != [] {
      var n := |ids| - 1;
      SeparatesFront(ids, x, k);
      BelowIsPrefix(ids[..n], x, if k == |ids| then k - 1 else k);
      if k == |ids| {
        assert ids[..k] == ids[..n][..n] + [ids[n]];
      } else {
        assert ids[..k] == ids[..n][..k];
      }
    }
  }

  lemma {:induction false} RankSeparates(ids: seq<nat>, x: nat)
    requires Increasing(ids)
    ensures forall i | 0 <= i < |ids| :: i < Rank(ids, x) <==> ids[i] <= x
  {
    if ids != [] {
      var n := |ids| - 1;
      var front := ids[..n];
      RankSeparates(front, x);
      assert forall i | 0 <= i < n :: front[i] == ids[i];
      if ids[n] <= x && n > 0 {
        assert ids[n - 1] < ids[n];
      }
    }
  }

  /** In an increasing sequence a cursor splits the messages into a prefix and a suffix. */
  lemma {:induction false} RankSplits(ids: seq<nat>, x: nat)
    requires Increasing(ids)
    ensures Above(ids, x) == ids[Rank(ids, x)..]
    ensures Below(ids, x + 1) == ids[..Rank(ids, x)]
    ensures forall i | 0 <= i < |ids| :: i < Rank(ids, x) <==> ids[i] <= x
  {
    RankSeparates(ids, x);
    AboveIsSuffix(ids, x, Rank(ids, x));
    BelowIsPrefix(ids, x, Rank(ids, x));
  }

  /** Above keeps exactly the ids above the cursor. */
  lemma {:induction false} AboveMembers(ids: seq<nat>, after: nat, m: nat)
    ensures m in Above(ids, after) <==> m in ids && m > after
  {
    if ids != [] {
      AboveMembers(ids[..|ids| - 1], after, m);
      assert ids == ids[..|ids| - 1] + [ids[|ids| - 1]];
    }
  }

  /** The tail bounds every id. */
  lemma {:induction false} TailIsMax(ids: seq<nat>)
    requires Increasing(ids)
    ensures forall m | m in ids :: m <= Tail(ids)
  {
  }

  /** A message newer than the cursor is appended to what the cursor still has to see. */
  lemma {:induction false} AboveAppend(ids: seq<nat>, after: nat, id: nat)
    ensures Above(ids + [id], after) == if id > after then Above(ids, after) + [id] else Above(ids, after)
  {
    assert (ids + [id])[..|ids + [id]| - 1] == ids;
  }

  /** Moving the cursor onto the next unseen message removes exactly that message. */
  lemma {:induction false} AboveAdvance(ids: seq<nat>, after: nat)
    requires Increasing(ids) && Above(ids, after) != []
    ensures Above(ids, after) == [Above(ids, after)[0]] + Above(ids, Above(ids, after)[0])
    ensures Above(ids, after)[0] in ids && Above(ids, after)[0] > after
  {
    RankSplits(ids, after);
    var k := Rank(ids, after);
    var head := ids[k];
    RankSplits(ids, head);
    var k' := Rank(ids, head);
    assert k < k';
    if k + 1 < |ids| {
      assert ids[k + 1] > head;
    }
    assert ids[k..] == [head] + ids[k + 1..];
  }

  /** From the start of a room the oldest and the newest page agree exactly when everything fits on one page. */
  lemma {:induction false} SinceZeroIsNewest(ids: seq<nat>, limit: nat)
    requires ValidIds(ids)
    ensures Since(ids, 0, limit) == LastN(ids, limit) <==> |ids| <= limit || limit == 0
  {
    AboveIsSuffix(ids, 0, 0);
    assert ids[0..] == ids;
    if 0 < limit < |ids| {
      assert Since(ids, 0, limit)[0] == ids[0] < LastN(ids, limit)[0];
    }
  }

  /** A room of two messages: the query for one from the start returns the older one. */
  lemma {:induction false} SinceZeroShowsOldest()
    ensures ValidIds([1, 2]) && Since([1, 2], 0, 1) == [1] && LastN([1, 2], 1) == [2]
  {
    var ids: seq<nat> := [1, 2];
    AboveIsSuffix(ids, 0, 0);
  }

  /** Nothing is above the tail. */
  lemma {:induction false} AboveTail(ids: seq<nat>)
    requires Increasing(ids)
    ensures Above(ids, Tail(ids)) == []
  {
    RankSplits(ids, Tail(ids));
    if ids != [] {
      assert ids[|ids| - 1] <= Tail(ids);
    }
  }
}
