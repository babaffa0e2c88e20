/**
 chat_db.c: the messages table. The queries are specified on the (room_id, id)
 index of Store; the methods walk the table the way the statements do.
 */
module ChatDb {
  import opened Common
  import opened Store

  datatype Row = Row(id: nat, room: nat, user: string, ts: int, body: string)

  /** The index entry list of one room, in table order. */
  function Ids(rows: seq<Row>, room: nat): seq<nat> {
    if rows == [] then []
    else
      var last := rows[|rows| - 1];
      var older := Ids(rows[..|rows| - 1], room);
      if last.room == room then older + [last.id] else older
  }

  /** The table is in id order, and every id lies strictly below the paging sentinel. */
  ghost predicate Ordered(rows: seq<Row>) {
    && (forall i, j | 0 <= i < j < |rows| :: rows[i].id < rows[j].id)
    && (forall i | 0 <= i < |rows| :: 0 < rows[i].id < NO_BOUND)
  }

  ghost predicate IsFrom(out: seq<Row>, rows: seq<Row>, room: nat) {
    forall i | 0 <= i < |out| :: out[i] in rows && out[i].room == room
  }

  function RowIds(out: seq<Row>): seq<nat> {
    seq(|out|, i requires 0 <= i < |out| => out[i].id)
  }

  lemma {:induction false} IdsMembers(rows: seq<Row>, room: nat)
    ensures forall m | m in Ids(rows, room) :: exists r | r in rows :: r.id == m && r.room == room
  {
    if rows != [] {
      var front := rows[..|rows| - 1];
      IdsMembers(front, room);
      forall m | m in Ids(rows, room) ensures exists r | r in rows :: r.id == m && r.room == room {
        if m in Ids(front, room) {
          var r :| r in front && r.id == m && r.room == room;
          assert r in rows;
        } else {
          assert rows[|rows| - 1] in rows;
        }
      }
    }
  }

  /** A room's index is increasing because the shared counter is. */
  lemma {:induction false} IdsValid(rows: seq<Row>, room: nat)
    requires Ordered(rows)
    ensures ValidIds(Ids(rows, room))
  {
    if rows != [] {
      var front := rows[..|rows| - 1];
      assert Ordered(front) by {
        forall i, j | 0 <= i < j < |front| ensures front[i].id < front[j].id {
          assert front[i] == rows[i] && front[j] == rows[j];
        }
      }
      IdsValid(front, room);
      IdsMembers(front, room);
      var ids := Ids(front, room);
      forall i | 0 <= i < |ids| ensures ids[i] < rows[|rows| - 1].id {
        assert ids[i] in ids;
        var r :| r in front && r.id == ids[i];
        var k :| 0 <= k < |front| && front[k] == r;
        assert rows[k] == r;
      }
    }
  }

  lemma {:induction false} RowIdsSnoc(out: seq<Row>, r: Row)
    ensures RowIds(out + [r]) == RowIds(out) + [r.id] && RowIds([r] + out) == [r.id] + RowIds(out)
  {
  }

  /** Reading one more row of the table, in either direction. */
  lemma {:induction false} OneMoreRow(rows: seq<Row>, k: nat, room: nat, x: nat)
    requires k < |rows|
    ensures Above(Ids(rows[..k + 1], room), x)
         == Above(Ids(rows[..k], room), x) + if rows[k].room == room && rows[k].id > x then [rows[k].id] else []
    ensures Below(Ids(rows[..k + 1], room), x)
         == Below(Ids(rows[..k], room), x) + if rows[k].room == room && rows[k].id < x then [rows[k].id] else []
  {
    var older, r := Ids(rows[..k], room), rows[k];
    assert rows[..k + 1][..k] == rows[..k];
    if r.room == room {
      assert (older + [r.id])[..|older|] == older;
    }
  }

  lemma {:induction false} OneRowUp(rows: seq<Row>, k: nat, room: nat, after: nat, out: seq<Row>, out': seq<Row>)
    requires k < |rows| && RowIds(out) == Above(Ids(rows[..k], room), after)
    requires out' == if rows[k].room == room && rows[k].id > after then out + [rows[k]] else out
    ensures RowIds(out') == Above(Ids(rows[..k + 1], room), after)
  {
    OneMoreRow(rows, k, room, after);
    RowIdsSnoc(out, rows[k]);
  }

  /** What is left of a query read from the newest row down, after one more row. */
  lemma {:induction false} OneRowDown(rows: seq<Row>, k: nat, room: nat, bound: nat, all: seq<nat>, out: seq<Row>, out': seq<Row>)
    requires k < |rows| && all == Below(Ids(rows[..k + 1], room), bound) + RowIds(out)
    requires out' == if rows[k].room == room && rows[k].id < bound then [rows[k]] + out else out
    ensures all == Below(Ids(rows[..k], room), bound) + RowIds(out')
  {
    OneMoreRow(rows, k, room, bound);
    RowIdsSnoc(out, rows[k]);
    Regroup(Below(Ids(rows[..k], room), bound), [rows[k].id], RowIds(out));
  }

  lemma {:induction false} SuffixIsLast(front: seq<nat>, s: seq<nat>, n: nat)
    requires |s| == n || (front == [] && |s| <= n)
    ensures LastN(front + s, n) == s
  {
  }

  class Table {
    var rows: seq<Row>
    var lastId: nat

    ghost predicate Valid()
      reads this
    {
      && Ordered(rows)
      && forall r | r in rows :: r.id <= lastId
    }

    constructor ()
      ensures Valid() && rows == [] && lastId == 0
    {
      rows := [];
      lastId := 0;
    }

    /** INSERT; the AUTOINCREMENT counter never reuses an id. Fails on a storage error or a spent counter. */
    method InsertMessage(room: nat, user: string, ts: int, body: string, storageOk: bool) returns (id: int)
      requires Valid()
      modifies this
      ensures Valid()
      ensures id < 0 <==> !storageOk || old(lastId) + 1 >= NO_BOUND
      ensures id < 0 ==> id == -1 && rows == old(rows) && lastId == old(lastId)
      ensures id >= 0 ==> id == lastId == old(lastId) + 1 && rows == old(rows) + [Row(id, room, user, ts, body)]
      ensures forall r: nat :: Ids(rows, r) == Ids(old(rows), r) + if id >= 0 && r == room then [id] else []
    {
      if !storageOk || lastId + 1 >= NO_BOUND {
        return -1;
      }
      lastId := lastId + 1;
      id := lastId;
      var row := Row(lastId, room, user, ts, body);
      ghost var before := rows;
      rows := rows + [row];
      assert rows[..|rows| - 1] == before;
    }

    /** Messages with id > after, oldest first, at most limit of them. */
    method MessagesSince(room: nat, after: nat, limit: nat, max: nat) returns (out: seq<Row>)
      requires Valid()
      ensures RowIds(out) == Since(Ids(rows, room), after, Min(limit, max))
      ensures IsFrom(out, rows, room)
    {
      out := [];
      var wanted := Min(limit, max);
      var k := 0;
      while k < |rows| && |out| < wanted
        invariant 0 <= k <= |rows| && |out| <= wanted
        invariant RowIds(out) == Above(Ids(rows[..k], room), after)
        invariant IsFrom(out, rows, room)
      {
        ghost var was := out;
        if rows[k].room == room && rows[k].id > after {
          out := out + [rows[k]];
        }
        OneRowUp(rows, k, room, after, was, out);
        k := k + 1;
      }
      assert rows[..|rows|] == rows;
      AboveExtends(rows, k, room, after);
    }

    /** The newest limit messages with id < before (0: no bound), oldest first. */
    method MessagesBefore(room: nat, before: nat, limit: nat, max: nat) returns (out: seq<Row>)
      requires Valid()
      ensures RowIds(out) == Before(Ids(rows, room), before, Min(limit, max))
      ensures IsFrom(out, rows, room)
    {
      var bound := if before == 0 then NO_BOUND else before;
      var wanted := Min(limit, max);
      ghost var all := Below(Ids(rows, room), bound);
      out := [];
      var k := |rows|;
      assert rows[..k] == rows;
      while k > 0 && |out| < wanted
        invariant 0 <= k <= |rows| && |out| <= wanted
        invariant all == Below(Ids(rows[..k], room), bound) + RowIds(out)
        invariant IsFrom(out, rows, room)
      {
        k := k - 1;
        ghost var was := out;
        if rows[k].room == room && rows[k].id < bound {
          out := [rows[k]] + out;
        }
        OneRowDown(rows, k, room, bound, all, was, out);
      }
      SuffixIsLast(Below(Ids(rows[..k], room), bound), RowIds(out), wanted);
    }

    /** COALESCE(MAX(id), 0) of one room. */
    method MaxMessageId(room: nat) returns (id: nat)
      requires Valid()
      ensures id == Tail(Ids(rows, room))
    {
      id := 0;
      for k := 0 to |rows|
        invariant id == Tail(Ids(rows[..k], room))
        invariant forall i | 0 <= i < k && rows[i].room == room :: rows[i].id <= id
        invariant id == 0 || exists i | 0 <= i < k :: rows[i].id == id
      {
        assert rows[..k + 1][..k] == rows[..k];
        if rows[k].room == room && rows[k].id > id {
          id := rows[k].id;
        }
      }
      assert rows[..|rows|] == rows;
    }
  }

  /** What a longer table adds to a room's index comes after what was there. */
  lemma {:induction false} AboveExtends(rows: seq<Row>, k: nat, room: nat, after: nat)
    requires k <= |rows|
    ensures Above(Ids(rows[..k], room), after) <= Above(Ids(rows, room), after)
    decreases |rows| - k
  {
    if k == |rows| {
      assert rows[..k] == rows;
    } else {
      assert rows[..k + 1][..k] == rows[..k];
      AboveAppend(Ids(rows[..k], room), after, rows[k].id);
      AboveExtends(rows, k + 1, room, after);
    }
  }
}
