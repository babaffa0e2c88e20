/** From a browser's POST to every browser's event stream: what is stored and what the stream shows of it. */
module PostToStream {
  import opened Common
  import opened Store
  import opened ChatDb
  import opened Rooms
  import opened Json
  import opened JsonBuffers
  import opened Posting
  import opened ClientPayload
  import opened Sse

  /** Whatever a request body holds, what it puts in the table is a stored message. */
  lemma {:induction false} EntryIsStored(s: string, id: nat, room: nat, ts: int)
    requires Entry(s).Some? && id < LONG_LIMIT && -LONG_LIMIT <= ts < LONG_LIMIT
    ensures Stored(Row(id, room, Entry(s).value.0, ts, Entry(s).value.1))
  {
    var user := Extract(s, "user", USER_MAX);
    CleanNameKeepsNames(user);
    assert forall c | c in Take(CleanName(user), USER_MAX - 1) :: c in CleanName(user);
  }

  // ----- What the stream shows --------------------------------------------------------------------------

  /** The event reads as the message: its id, name and time, and at least 509 characters of its body. */
  ghost predicate Shows(event: string, r: Row) {
    && ReadObject(event) == Done(View(r), "")
    && (KeptBody(r) == r.body || |KeptBody(r)| >= 509)
  }

  ghost predicate NoControls(s: string) {
    forall c | c in s :: c >= ' '
  }

  lemma {:induction false} NoControlsConcat(a: string, b: string)
    requires NoControls(a) && NoControls(b)
    ensures NoControls(a + b)
  {
  }

  lemma {:induction false} MemberNoControls(key: string, value: string)
    requires NoControls(key) && NoControls(value)
    ensures NoControls(Member(key, value))
  {
    NoControlsConcat("\":", value);
    NoControlsConcat(key, "\":" + value);
    NoControlsConcat("\"", key + ("\":" + value));
  }

  lemma {:induction false} ObjectNoControls(id: int, user: string, ts: int, body: string)
    requires NoControls(user) && NoControls(body)
    ensures NoControls(ObjectText(id, user, ts, body))
  {
    var i, u, t, b := NumMember("id", id), StrMember("user", user), NumMember("ts", ts), StrMember("body", body);
    MemberNoControls("id", Signed(id));
    MemberNoControls("user", "\"" + user + "\"");
    MemberNoControls("ts", Signed(ts));
    MemberNoControls("body", "\"" + body + "\"");
    NoControlsConcat("{", i);
    NoControlsConcat("{" + i, ",");
    NoControlsConcat("{" + i + ",", u);
    NoControlsConcat("{" + i + "," + u, ",");
    NoControlsConcat("{" + i + "," + u + ",", t);
    NoControlsConcat("{" + i + "," + u + "," + t, ",");
    NoControlsConcat("{" + i + "," + u + "," + t + ",", b);
    NoControlsConcat("{" + i + "," + u + "," + t + "," + b, "}");
  }

  /** A message object is one line without control characters, whatever the row holds. */
  lemma {:induction false} MessageIsOneLine(r: Row)
    ensures NoControls(MessageText(r)) && OneLine(MessageText(r))
  {
    EscapeHasNoControls(r.user[..Kept(r.user, 0, USER_BUFFER)]);
    EscapeHasNoControls(KeptBody(r));
    ObjectNoControls(r.id, Escaped(r.user, USER_BUFFER), r.ts, Escaped(r.body, BODY_BUFFER));
  }

  lemma {:induction false} MessageShows(r: Row)
    requires Stored(r)
    ensures Shows(MessageText(r), r)
  {
    StoredMessageReads(r, "");
    assert MessageText(r) + "" == MessageText(r);
    BodyIsKept(r);
    assert r.body[..|r.body|] == r.body;
  }

  /** A stream of stored messages, with comments anywhere between them, shows those messages in order. */
  lemma {:induction false} StreamShows(items: seq<Item>, rows: seq<Row>)
    requires AllStored(rows) && Texts(items) == Objects(rows)
    requires forall i | i in items :: OneLine(i.text)
    ensures var events := Events(Wire(items), "");
      |events| == |rows| && forall i | 0 <= i < |rows| :: Shows(events[i], rows[i])
  {
    WireReads(items);
    forall i | 0 <= i < |rows| ensures Shows(Objects(rows)[i], rows[i]) {
      MessageShows(rows[i]);
    }
  }

  /** The row a legal post puts in the table reads back off one frame as the poster's name and text. */
  lemma {:induction false} PostReachesStream(name: string, text: string, id: nat, room: nat, ts: int)
    requires LegalName(name) && name != "body" && text != "" && NoOddControls(Take(text, BODY_MAX - 1))
    requires id < LONG_LIMIT && -LONG_LIMIT <= ts < LONG_LIMIT
    ensures var r := Row(id, room, name, ts, CleanText(Take(text, BODY_MAX - 1)));
      && Entry(Payload(name, text)) == Some((r.user, r.body))
      && Events(Frame(Data(MessageText(r))), "") == [MessageText(r)]
      && Shows(MessageText(r), r)
  {
    PostStores(name, text);
    EntryIsStored(Payload(name, text), id, room, ts);
    var r := Row(id, room, name, ts, CleanText(Take(text, BODY_MAX - 1)));
    MessageIsOneLine(r);
    FrameReads(Data(MessageText(r)), "");
    assert Frame(Data(MessageText(r))) + "" == Frame(Data(MessageText(r)));
    MessageShows(r);
  }

  /** Data frames for a batch of texts. */
  function Frames(texts: seq<string>): seq<Item> {
    seq(|texts|, i requires 0 <= i < |texts| => Data(texts[i]))
  }

  lemma {:induction false} FramesSnoc(texts: seq<string>, i: nat)
    requires i < |texts|
    ensures Frames(texts[..i + 1]) == Frames(texts[..i]) + [Data(texts[i])]
  {
  }

  /**
   handle_sse on one wake: the cursor moves before each send, and the first send
   that fails ends the stream. `good` sends succeed.
   */
  method Flush(msgs: seq<Row>, cursor: nat, good: nat) returns (sent: seq<Item>, next: nat, broke: bool)
    requires AllStored(msgs)
    ensures broke <==> good < |msgs|
    ensures sent == Frames(Objects(msgs)[..Min(good, |msgs|)])
    ensures next == if msgs == [] then cursor else msgs[Min(good, |msgs| - 1)].id
  {
    ghost var texts := Objects(msgs);
    sent, next, broke := [], cursor, false;
    var i := 0;
    while i < |msgs| && !broke
      invariant 0 <= i <= |msgs| && i <= good + 1
      invariant broke <==> i == good + 1
      invariant sent == Frames(texts[..if broke then good else i])
      invariant next == if i == 0 then cursor else msgs[i - 1].id
    {
      next := msgs[i].id;
      var j := RenderMessage(msgs[i]);
      if i >= good {
        broke := true;
      } else {
        FramesSnoc(texts, i);
        sent := sent + [Data(j)];
      }
      i := i + 1;
    }
  }

  method StrLen(buf: array<char>, ghost text: string) returns (n: nat)
    requires |text| < buf.Length && buf[..|text|] == text && buf[|text|] == '\0' && '\0' !in text
    ensures n == |text|
  {
    assert forall k | 0 <= k < |text| :: buf[..|text|][k] == text[k] && text[k] in text;
    n := 0;
    while buf[n] != '\0'
      invariant n <= |text|
      decreases |text| - n
    {
      n := n + 1;
    }
  }

  /** msg_to_json into the frame buffer, then its length as a C string. */
  method RenderMessage(r: Row) returns (j: string)
    requires Stored(r)
    ensures j == MessageText(r)
  {
    StoredMessageFits(r);
    MessageIsOneLine(r);
    assert '\0' !in r.user && '\0' !in r.body;
    var buf := new char[2 * BODY_MAX + 128];
    var n := MsgToJson(r, buf, 0);
    assert MessageText(r)[..n] == MessageText(r);
    assert buf[..n] == MessageText(r);
    var len := StrLen(buf, MessageText(r));
    j := buf[..len];
  }

  // ----- From the request to the event -------------------------------------------------------------------

  lemma {:induction false} FramesAreTexts(texts: seq<string>)
    ensures Texts(Frames(texts)) == texts
  {
    if texts != [] {
      FramesAreTexts(texts[1..]);
      assert Frames(texts)[1..] == Frames(texts[1..]);
      assert texts == [texts[0]] + texts[1..];
    }
  }

  /** Frames of stored rows show those rows. */
  lemma {:induction false} FramesShow(rows: seq<Row>)
    requires AllStored(rows)
    ensures var events := Events(Wire(Frames(Objects(rows))), "");
      |events| == |rows| && forall i | 0 <= i < |rows| :: Shows(events[i], rows[i])
  {
    var items := Frames(Objects(rows));
    FramesAreTexts(Objects(rows));
    forall i | i in items ensures OneLine(i.text) {
      var k :| 0 <= k < |items| && items[k] == i;
      MessageIsOneLine(rows[k]);
    }
    StreamShows(items, rows);
  }

  /** The query above the old tail returns the new row and nothing else. */
  lemma {:induction false} OnlyTheNewRow(rows: seq<Row>, r: Row, out: seq<Row>, limit: nat)
    requires Ordered(rows + [r]) && limit > 0
    requires RowIds(out) == Since(Ids(rows + [r], r.room), Tail(Ids(rows, r.room)), limit) && IsFrom(out, rows + [r], r.room)
    ensures out == [r]
  {
    var all, ids := rows + [r], Ids(rows, r.room);
    assert all[..|all| - 1] == rows && all[|all| - 1] == r;
    IdsValid(all, r.room);
    assert ids == (ids + [r.id])[..|ids|] && Increasing(ids);
    AboveTail(ids);
    AboveAppend(ids, Tail(ids), r.id);
    assert RowIds(out) == [r.id];
    assert |out| == 1 && out[0].id == RowIds(out)[0];
    var k :| 0 <= k < |all| && all[k] == out[0];
    assert all[k].id == all[|all| - 1].id;
  }

  /** What went out on the wire is one event, and it shows the row. */
  ghost predicate OneEvent(sent: seq<Item>, r: Row) {
    var events := Events(Wire(sent), "");
    |events| == 1 && Shows(events[0], r)
  }

  lemma {:induction false} OneRowIsOneEvent(msgs: seq<Row>, r: Row, sent: seq<Item>)
    requires Stored(r) && msgs == [r] && sent == Frames(Objects(msgs)[..Min(|msgs|, |msgs|)])
    ensures OneEvent(sent, r)
  {
    assert Objects(msgs)[..1] == Objects(msgs);
    FramesShow(msgs);
  }

  /** One wake of a stream whose cursor is the tail from before the newest row. */
  method WakeUp(room: Room, cursor: nat, ghost before: seq<Row>, ghost r: Row) returns (sent: seq<Item>, next: nat)
    requires room.Valid() && Stored(r) && room.table.rows == before + [r] && r.room == room.id
    requires cursor == Tail(Ids(before, room.id))
    ensures next == r.id && OneEvent(sent, r)
  {
    var msgs := room.table.MessagesSince(room.id, cursor, 64, 64);
    OnlyTheNewRow(before, r, msgs, 64);
    var broke;
    sent, next, broke := Flush(msgs, cursor, |msgs|);
    OneRowIsOneEvent(msgs, r, sent);
  }

  /** The row a request body becomes. */
  function RowOf(s: string, id: nat, room: nat, ts: int): Row
    requires Entry(s).Some?
  {
    Row(id, room, Entry(s).value.0, ts, Entry(s).value.1)
  }

  /** handle_messages_post, with the row that was stored. */
  method PostRow(room: Room, s: string, ts: int, storageOk: bool) returns (status: nat, woken: seq<int>, ghost r: Option<Row>)
    requires room.Valid() && -LONG_LIMIT <= ts < LONG_LIMIT
    modifies room.table
    ensures room.Valid() && room.Subs() == old(room.Subs())
    ensures status == 201 <==> Entry(s).Some? && storageOk && old(room.table.lastId) + 1 < NO_BOUND
    ensures (r.Some? <==> status == 201) && (r.Some? ==> r.value == RowOf(s, old(room.table.lastId) + 1, room.id, ts))
    ensures r.Some? ==> Stored(r.value) && room.table.rows == old(room.table.rows) + [r.value] && woken == room.Subs()
    ensures r.None? ==> room.table.rows == old(room.table.rows) && woken == []
  {
    var id;
    status, id, woken := HandlePost(room, s, ts, storageOk);
    r := None;
    if status == 201 {
      EntryIsStored(s, id, room.id, ts);
      r := Some(RowOf(s, id, room.id, ts));
    }
  }

  /**
   A stream is open at the room's tail, a request comes in, and the stream wakes
   up: the post is stored as one row, and what went out on the wire is one event
   that shows it. A post that is refused changes nothing and sends nothing.
   */
  method PostAndStream(room: Room, s: string, ts: int, storageOk: bool)
    returns (status: nat, sent: seq<Item>, cursor: nat, woken: seq<int>, ghost r: Option<Row>)
    requires room.Valid() && -LONG_LIMIT <= ts < LONG_LIMIT
    modifies room.table
    ensures room.Valid()
    ensures status == 201 <==> Entry(s).Some? && storageOk && old(room.table.lastId) + 1 < NO_BOUND
    ensures (r.Some? <==> status == 201) && (r.Some? ==> r.value == RowOf(s, old(room.table.lastId) + 1, room.id, ts))
    ensures r.Some? ==>
      room.table.rows == old(room.table.rows) + [r.value] && woken == room.Subs() && cursor == r.value.id && OneEvent(sent, r.value)
    ensures r.None? ==> room.table.rows == old(room.table.rows) && sent == [] && woken == []
  {
    ghost var before := room.table.rows;
    cursor := room.table.MaxMessageId(room.id);
    sent := [];
    status, woken, r := PostRow(room, s, ts, storageOk);
    if status != 201 {
      return;
    }
    sent, cursor := WakeUp(room, cursor, before, r.value);
  }

  /** For a legal name and a text the scanner can decode, that row holds the name and the sanitized text. */
  lemma {:induction false} LegalPostIsRow(name: string, text: string, id: nat, room: nat, ts: int)
    requires LegalName(name) && name != "body" && text != "" && NoOddControls(Take(text, BODY_MAX - 1))
    ensures var s := Payload(name, text);
      Entry(s).Some? && RowOf(s, id, room, ts) == Row(id, room, name, ts, CleanText(Take(text, BODY_MAX - 1)))
  {
    PostStores(name, text);
  }
}
