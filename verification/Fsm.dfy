/** fsm.c: the table-driven engine. */
module Fsm {
  import opened Common

  /** One table row: in `state`, on `event`, run `action` and move to `next`, or to `error` if it fails. */
  datatype Row<S, E, A> = Row(state: S, event: E, action: A, next: S, error: S)

  /** The row fsm_dispatch selects: the first that matches, if any. */
  ghost predicate Selects<S, E, A>(table: seq<Row<S, E, A>>, s: S, e: E, found: Option<Row<S, E, A>>) {
    match found
    case None => forall i | 0 <= i < |table| :: !(table[i].state == s && table[i].event == e)
    case Some(row) =>
      exists i | 0 <= i < |table| ::
        table[i] == row && row.state == s && row.event == e
        && forall j | 0 <= j < i :: !(table[j].state == s && table[j].event == e)
  }

  /** At most one row can be selected. */
  lemma {:induction false} SelectsIsFunction<S, E, A>(table: seq<Row<S, E, A>>, s: S, e: E,
                                   a: Option<Row<S, E, A>>, b: Option<Row<S, E, A>>)
    requires Selects(table, s, e, a) && Selects(table, s, e, b)
    ensures a == b
  {
    if a.Some? && b.Some? {
      var i :| 0 <= i < |table| && table[i] == a.value && a.value.state == s && a.value.event == e
               && forall j | 0 <= j < i :: !(table[j].state == s && table[j].event == e);
      var k :| 0 <= k < |table| && table[k] == b.value && b.value.state == s && b.value.event == e
               && forall j | 0 <= j < k :: !(table[j].state == s && table[j].event == e);
      assert i == k;
    }
  }

  /** The linear scan of fsm_dispatch. */
  method Lookup<S(==), E(==), A>(table: seq<Row<S, E, A>>, s: S, e: E) returns (found: Option<Row<S, E, A>>)
    ensures Selects(table, s, e, found)
  {
    var i := 0;
    while i < |table|
      invariant 0 <= i <= |table|
      invariant forall j | 0 <= j < i :: !(table[j].state == s && table[j].event == e)
    {
      if table[i].state == s && table[i].event == e {
        return Some(table[i]);
      }
      i := i + 1;
    }
    return None;
  }
}
