/** The bus and the wire together: what a browser reads of a room, on every run and wherever its connection breaks. */
module EndToEnd {
  import opened Common
  import opened Store
  import opened ChatDb
  import opened JsonBuffers
  import opened Sse
  import opened PostToStream
  import opened Bus
  import opened BusHistory

  lemma {:induction false} SentRows(sent: seq<nat>, rows: seq<Row>)
    requires sent <= RowIds(rows)
    ensures |sent| <= |rows| && RowIds(rows[..|sent|]) == sent
  {
    assert |RowIds(rows)| == |rows|;
    assert forall i | 0 <= i < |sent| :: sent[i] == RowIds(rows)[i];
  }

  /**
   Whatever posters, readers and the room did, and at whatever byte the stream
   was cut: the events a browser decodes show messages its room gained after the
   stream had read the tail, in order, without gap or repetition, from the first
   on. If nothing was cut they are exactly the messages sent.
   */
  lemma {:induction false} BrowserReadsRoom(s0: State, before: seq<Step>, after: seq<Step>, sid: nat, r: nat,
                                            rows: seq<Row>, items: seq<Item>, n: nat)
    requires StreamRun(s0, before, after, sid) && Run(s0, before).clients[sid].room == Some(r)
    requires var s, known := EndOf(s0, before, after, sid), Known(s0, before, r);
      && sid in s.clients && r < |s.rooms| && s.clients[sid].reader.Sse? && |known| <= |s.rooms[r].msgs|
      && RowIds(rows) == s.rooms[r].msgs[|known|..] && AllStored(rows)
      && |s.clients[sid].reader.sent| <= |rows| && Texts(items) == Objects(rows[..|s.clients[sid].reader.sent|])
    requires (forall i | i in items :: OneLine(i.text)) && n <= |Wire(items)|
    ensures var sent := EndOf(s0, before, after, sid).clients[sid].reader.sent;
      var events := Events(Wire(items)[..n], "");
      && RowIds(rows[..|sent|]) == sent
      && |events| <= |sent| && (n == |Wire(items)| ==> |events| == |sent|)
      && forall i | 0 <= i < |events| :: Shows(events[i], rows[i])
  {
    var q := OnlyNewMessages(s0, before, after, sid);
    var sent := EndOf(s0, before, after, sid).clients[sid].reader.sent;
    SentRows(sent, rows);
    WireOfRows(rows, |sent|, items, n);
  }

  /** The part of a wire that arrived shows the first of the rows put on it. */
  lemma {:induction false} WireOfRows(rows: seq<Row>, k: nat, items: seq<Item>, n: nat)
    requires AllStored(rows) && k <= |rows| && Texts(items) == Objects(rows[..k])
    requires (forall i | i in items :: OneLine(i.text)) && n <= |Wire(items)|
    ensures var events := Events(Wire(items)[..n], "");
      |events| <= k && (n == |Wire(items)| ==> |events| == k) && forall i | 0 <= i < |events| :: Shows(events[i], rows[i])
  {
    var delivered := rows[..k];
    assert forall r | r in delivered :: r in rows;
    WireReads(items);
    StreamShows(items, delivered);
    CutWireReads(items, n);
    assert n == |Wire(items)| ==> Wire(items)[..n] == Wire(items);
    var events, all := Events(Wire(items)[..n], ""), Events(Wire(items), "");
    forall i | 0 <= i < |events| ensures Shows(events[i], rows[i]) {
      assert events[i] == all[i] && delivered[i] == rows[i];
    }
  }
}
