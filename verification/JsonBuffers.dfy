/**
 http_chat.c: the JSON writers work in fixed buffers. What they keep, what always
 fits, and the message array of GET /api/rooms/{id}/messages.
 */
module JsonBuffers {
  import opened Common
  import opened Store
  import opened ChatDb
  import opened Rooms
  import HttpRender
  import opened Json

  const USER_BUFFER: nat := 2 * USER_MAX
  const BODY_BUFFER: nat := 2 * BODY_MAX
  const OBJECT_ROOM: nat := 2 * BODY_MAX + 2 * USER_MAX + 64
  const LONG_LIMIT: int := 0x8000_0000_0000_0000

  // ----- json_escape ------------------------------------------------------------------------------

  /** How many characters of s json_escape keeps when o bytes of the buffer are taken. */
  function Kept(s: string, o: nat, size: nat): (k: nat)
    ensures k <= |s|
  {
    if s == "" || o + 7 >= size then 0 else 1 + Kept(s[1..], o + |EscapeChar(s[0])|, size)
  }

  function Escaped(s: string, size: nat): string {
    Escape(s[..Kept(s, 0, size)])
  }

  /** The kept characters fit with their terminator, and nothing is dropped while eight bytes are free. */
  lemma {:induction false} KeptFits(s: string, o: nat, size: nat)
    requires o < size
    ensures o + |Escape(s[..Kept(s, o, size)])| < size
    ensures Kept(s, o, size) == |s| || o + |Escape(s[..Kept(s, o, size)])| + 7 >= size
  {
    if s != "" && o + 7 < size {
      var e := |EscapeChar(s[0])|;
      KeptFits(s[1..], o + e, size);
      var k := Kept(s, o, size);
      assert s[..k][1..] == s[1..][..k - 1];
    }
  }

  /** Copy text to position o. */
  method Put(out: array<char>, o: nat, text: string)
    requires o + |text| <= out.Length
    modifies out
    ensures out[..o] == old(out[..o]) && out[o..o + |text|] == text
  {
    var i := 0;
    while i < |text|
      invariant 0 <= i <= |text| && out[..o] == old(out[..o])
      invariant forall k | 0 <= k < i :: out[o + k] == text[k]
    {
      out[o + i] := text[i];
      i := i + 1;
    }
  }

  method EscapeSwitch(ch: char) returns (e: string)
    ensures e == EscapeChar(ch)
  {
    match ch {
      case '"' => e := "\\\"";
      case '\\' => e := "\\\\";
      case '\n' => e := "\\n";
      case '\r' => e := "\\r";
      case '\t' => e := "\\t";
      case _ =>
        if ch < ' ' {
          e := "\\u00" + [HexDigit(ch as int / 16), HexDigit(ch as int % 16)];
        } else {
          e := [ch];
        }
    }
  }

  /** One round of the json_escape loop. */
  method EscapeInto(ch: char, out: array<char>, o: nat, ghost done: string) returns (end: nat)
    requires o + 7 < out.Length && out[..o] == Escape(done)
    modifies out
    ensures end == o + |EscapeChar(ch)| && out[..end] == Escape(done + [ch])
  {
    var e := EscapeSwitch(ch);
    Put(out, o, e);
    end := o + |e|;
    assert out[..end] == out[..o] + out[o..end];
    EscapeAppend(done, [ch]);
    assert Escape([ch]) == EscapeChar(ch) + Escape([ch][1..]);
  }

  /** The loop of json_escape after i characters. */
  ghost predicate Escaping(s: string, i: nat, size: nat, written: string) {
    && i <= |s| && |written| < size && written == Escape(s[..i])
    && i + Kept(s[i..], |written|, size) == Kept(s, 0, size)
  }

  lemma {:induction false} EscapingBegins(s: string, size: nat)
    requires size > 0
    ensures Escaping(s, 0, size, "")
  {
    assert s[0..] == s;
  }

  lemma {:induction false} EscapingAdvances(s: string, i: nat, size: nat, written: string, written': string)
    requires Escaping(s, i, size, written) && i < |s| && |written| + 7 < size
    requires written' == Escape(s[..i] + [s[i]]) && |written'| == |written| + |EscapeChar(s[i])|
    ensures Escaping(s, i + 1, size, written')
  {
    assert s[..i + 1] == s[..i] + [s[i]];
    assert s[i..][0] == s[i] && s[i..][1..] == s[i + 1..];
  }

  lemma {:induction false} EscapingEnds(s: string, i: nat, size: nat, written: string)
    requires Escaping(s, i, size, written) && (i == |s| || |written| + 7 >= size)
    ensures written == Escaped(s, size)
  {
  }

  method JsonEscape(s: string, out: array<char>) returns (o: nat)
    requires out.Length > 0 && '\0' !in s
    modifies out
    ensures o < out.Length && out[..o] == Escaped(s, out.Length) && out[o] == '\0'
  {
    o := 0;
    var i := 0;
    EscapingBegins(s, out.Length);
    assert out[..0] == "";
    while i < |s| && o + 7 < out.Length
      invariant 0 <= i <= |s| && o < out.Length && Escaping(s, i, out.Length, out[..o])
    {
      ghost var written := out[..o];
      o := EscapeInto(s[i], out, o, s[..i]);
      EscapingAdvances(s, i, out.Length, written, out[..o]);
      i := i + 1;
    }
    EscapingEnds(s, i, out.Length, out[..o]);
    out[o] := '\0';
  }

  // ----- msg_to_json --------------------------------------------------------------------------------

  /** snprintf at offset o: what fits is written and terminated, the full length is returned. */
  method Print(out: array<char>, o: nat, text: string) returns (n: nat)
    requires o < out.Length
    modifies out
    ensures n == |text|
    ensures var m := Min(n, out.Length - o - 1); out[..o + m] == old(out[..o]) + text[..m] && out[o + m] == '\0'
  {
    n := |text|;
    var m := Min(n, out.Length - o - 1);
    Put(out, o, text[..m]);
    out[o + m] := '\0';
    assert out[..o + m] == out[..o] + out[o..o + m];
  }

  function MessageText(r: Row): string {
    ObjectText(r.id, Escaped(r.user, USER_BUFFER), r.ts, Escaped(r.body, BODY_BUFFER))
  }

  method MsgToJson(r: Row, out: array<char>, o: nat) returns (n: nat)
    requires o < out.Length && '\0' !in r.user && '\0' !in r.body
    modifies out
    ensures n == |MessageText(r)|
    ensures var m := Min(n, out.Length - o - 1); out[..o + m] == old(out[..o]) + MessageText(r)[..m] && out[o + m] == '\0'
  {
    var eu, eb := new char[USER_BUFFER], new char[BODY_BUFFER];
    var u := JsonEscape(r.user, eu);
    var b := JsonEscape(r.body, eb);
    n := Print(out, o, ObjectText(r.id, eu[..u], r.ts, eb[..b]));
  }

  // ----- Sizes ----------------------------------------------------------------------------------------

  /** What chat_room_post lets into the table, in the ranges of a C long. */
  ghost predicate Stored(r: Row) {
    && 1 <= |r.user| < USER_MAX && (forall c | c in r.user :: NameChar(c))
    && 1 <= |r.body| < BODY_MAX && (forall c | c in r.body :: Printable(c))
    && r.id < LONG_LIMIT && -LONG_LIMIT <= r.ts < LONG_LIMIT
  }

  ghost predicate AllStored(rows: seq<Row>) {
    forall r | r in rows :: Stored(r)
  }

  function Pow10(d: nat): nat {
    if d == 0 then 1 else 10 * Pow10(d - 1)
  }

  lemma {:induction false} DecimalLength(n: nat, d: nat)
    requires n < Pow10(d) && d > 0
    ensures |HttpRender.Decimal(n)| <= d
  {
    if n >= 10 {
      assert d > 1;
      DecimalLength(n / 10, d - 1);
    }
  }

  lemma {:induction false} SignedLength(n: int)
    requires -LONG_LIMIT <= n < LONG_LIMIT
    ensures |Signed(n)| <= 20
  {
    assert Pow10(10) == 10_000_000_000;
    assert Pow10(19) == 10_000_000_000_000_000_000;
    DecimalLength(if n < 0 then -n else n, 19);
  }

  lemma {:induction false} PrintableEscape(s: string)
    requires forall c | c in s :: Printable(c)
    ensures |Escape(s)| <= 2 * |s|
  {
    if s != "" {
      assert s[0] in s;
      PrintableEscape(s[1..]);
    }
  }

  /** A stored name is written whole and unchanged. */
  lemma {:induction false} NameIsKept(r: Row)
    requires Stored(r)
    ensures Escaped(r.user, USER_BUFFER) == r.user && Kept(r.user, 0, USER_BUFFER) == |r.user|
  {
    KeptFits(r.user, 0, USER_BUFFER);
    var k := Kept(r.user, 0, USER_BUFFER);
    assert forall c | c in r.user[..k] :: c in r.user;
    PlainEscape(r.user[..k]);
    assert r.user[..|r.user|] == r.user;
  }

  /** At least the first 509 characters of a stored body are written. */
  lemma {:induction false} BodyIsKept(r: Row)
    requires Stored(r)
    ensures var k := Kept(r.body, 0, BODY_BUFFER); k == |r.body| || k >= 509
    ensures |Escaped(r.body, BODY_BUFFER)| <= 1018
  {
    KeptFits(r.body, 0, BODY_BUFFER);
    PrintableKeep(r.body, 0, BODY_BUFFER);
    PrintableEscape(r.body[..Kept(r.body, 0, BODY_BUFFER)]);
  }

  lemma {:induction false} PrintableKeep(s: string, o: nat, size: nat)
    requires (forall c | c in s :: Printable(c)) && o + 5 < size
    ensures o + |Escape(s[..Kept(s, o, size)])| + 5 < size
  {
    if s != "" && o + 7 < size {
      assert s[0] in s;
      var k := Kept(s, o, size);
      PrintableKeep(s[1..], o + |EscapeChar(s[0])|, size);
      assert s[..k][1..] == s[1..][..k - 1];
    }
  }

  /** Every stored message is at most 1151 bytes of JSON, so no buffer of the program cuts one. */
  lemma {:induction false} StoredMessageFits(r: Row)
    requires Stored(r)
    ensures |MessageText(r)| <= 1151
  {
    NameIsKept(r);
    BodyIsKept(r);
    SignedLength(r.id);
    SignedLength(r.ts);
  }

  /** The part of a body that msg_to_json has room for. */
  function KeptBody(r: Row): (b: string)
    ensures b <= r.body
  {
    r.body[..Kept(r.body, 0, BODY_BUFFER)]
  }

  /** What a client reads of a row. */
  function View(r: Row): seq<(string, Value)> {
    Fields(r.id, r.user, r.ts, KeptBody(r))
  }

  /** A stored message reads back with its id, name and time, and the kept part of its body. */
  lemma {:induction false} StoredMessageReads(r: Row, tail: string)
    requires Stored(r)
    ensures ReadObject(MessageText(r) + tail) == Done(View(r), tail)
  {
    NameIsKept(r);
    PlainEscape(r.user);
    ObjectRoundTrip(r.id, r.user, r.ts, KeptBody(r), tail);
  }

  // ----- GET /api/rooms/{id}/messages -------------------------------------------------------------------

  /** The texts, separated by commas. */
  function Joined(texts: seq<string>): string {
    if texts == [] then ""
    else
      var front := texts[..|texts| - 1];
      Joined(front) + (if front == [] then "" else ",") + texts[|texts| - 1]
  }

  function Objects(rows: seq<Row>): seq<string> {
    seq(|rows|, i requires 0 <= i < |rows| => MessageText(rows[i]))
  }

  function ArrayText(rows: seq<Row>): string {
    "[" + Joined(Objects(rows)) + "]"
  }

  /** snprintf where the text fits: the whole text is there. */
  method Append(out: array<char>, o: nat, text: string) returns (end: nat)
    requires o + |text| < out.Length
    modifies out
    ensures end == o + |text| && out[..end] == old(out[..o]) + text
  {
    var n := Print(out, o, text);
    end := o + n;
    assert text[..|text|] == text;
  }

  method AppendMessage(out: array<char>, o: nat, r: Row, ghost text: string) returns (end: nat)
    requires Stored(r) && o + OBJECT_ROOM <= out.Length && text == MessageText(r)
    modifies out
    ensures end == o + |text| && |text| < OBJECT_ROOM && out[..end] == old(out[..o]) + text
  {
    StoredMessageFits(r);
    assert '\0' !in r.user && '\0' !in r.body;
    var n := MsgToJson(r, out, o);
    end := o + n;
    assert text[..n] == text;
  }

  /** handle_messages_get: since and limit as strtol and atoi return them; ids are positive. */
  method GetMessages(room: Room, since: int, limit: int) returns (json: string, msgs: seq<Row>)
    requires room.Valid() && AllStored(room.table.rows)
    ensures json == ArrayText(msgs) && IsFrom(msgs, room.table.rows, room.id)
    ensures RowIds(msgs) ==
            Since(Ids(room.table.rows, room.id), if since < 0 then 0 else since, if limit < 1 then 1 else Min(limit, 100))
  {
    var wanted := limit;
    if wanted < 1 {
      wanted := 1;
    }
    if wanted > 100 {
      wanted := 100;
    }
    msgs := room.table.MessagesSince(room.id, if since < 0 then 0 else since, wanted, 100);
    assert AllStored(msgs);
    json := RenderArray(msgs);
  }

  /** One round of the loop: a comma from the second message on, then the object. */
  method AppendElement(out: array<char>, o: nat, i: nat, r: Row, ghost text: string) returns (end: nat)
    requires Stored(r) && o + OBJECT_ROOM < out.Length && text == MessageText(r)
    modifies out
    ensures end == o + (if i == 0 then 0 else 1) + |text| && end <= o + OBJECT_ROOM
    ensures out[..end] == old(out[..o]) + (if i == 0 then "" else ",") + text
  {
    end := o;
    if i > 0 {
      end := Append(out, end, ",");
    }
    end := AppendMessage(out, end, r, text);
  }

  /** The array after i messages, well within what was allocated. */
  ghost predicate ArrayAt(buf: array<char>, o: nat, texts: seq<string>, i: nat)
    requires i <= |texts|
    reads buf
  {
    o <= 1 + i * OBJECT_ROOM && o < buf.Length && buf[..o] == "[" + Joined(texts[..i])
  }

  method AppendNext(buf: array<char>, o: nat, i: nat, msgs: seq<Row>, ghost texts: seq<string>) returns (end: nat)
    requires i < |msgs| == |texts| && buf.Length == 64 + |msgs| * OBJECT_ROOM
    requires Stored(msgs[i]) && texts[i] == MessageText(msgs[i]) && ArrayAt(buf, o, texts, i)
    modifies buf
    ensures ArrayAt(buf, end, texts, i + 1)
  {
    RoomFor(i, |msgs|);
    JoinedStep(texts, i);
    end := AppendElement(buf, o, i, msgs[i], texts[i]);
  }

  /** The offset never reaches the capacity, so no write is cut and no room is computed from a passed end. */
  method RenderArray(msgs: seq<Row>) returns (json: string)
    requires AllStored(msgs)
    ensures json == ArrayText(msgs)
  {
    ghost var texts := Objects(msgs);
    var buf := new char[64 + |msgs| * OBJECT_ROOM];
    var o: nat := Append(buf, 0, "[");
    var i := 0;
    assert texts[..0] == [];
    while i < |msgs|
      invariant 0 <= i <= |msgs| && ArrayAt(buf, o, texts, i)
    {
      o := AppendNext(buf, o, i, msgs, texts);
      i := i + 1;
    }
    assert texts[..i] == texts;
    o := Append(buf, o, "]");
    json := buf[..o];
  }

  lemma {:induction false} RoomFor(i: nat, n: nat)
    requires i < n
    ensures (i + 1) * OBJECT_ROOM == i * OBJECT_ROOM + OBJECT_ROOM <= n * OBJECT_ROOM
  {
    assert (n - i - 1) * OBJECT_ROOM >= 0;
  }

  lemma {:induction false} JoinedStep(texts: seq<string>, i: nat)
    requires i < |texts|
    ensures "[" + Joined(texts[..i + 1]) == "[" + Joined(texts[..i]) + (if i == 0 then "" else ",") + texts[i]
  {
    assert texts[..i + 1][..i] == texts[..i];
  }

  lemma {:induction false} JoinedHead(texts: seq<string>)
    requires |texts| > 1
    ensures Joined(texts) == texts[0] + ("," + Joined(texts[1..]))
  {
    var front, last := texts[..|texts| - 1], texts[|texts| - 1];
    JoinedOne(texts[0]);
    if |texts| == 2 {
      JoinedOne(last);
      assert front == [texts[0]] && texts[1..] == [last];
    } else {
      JoinedHead(front);
      var inner := front[1..];
      assert inner == texts[1..][..|texts| - 2];
      assert texts[0] + ("," + Joined(inner)) + "," + last == texts[0] + ("," + (Joined(inner) + "," + last));
    }
  }

  lemma {:induction false} JoinedOne(text: string)
    ensures Joined([text]) == text
  {
    assert [text][..0] == [];
  }

  /** What a client reads of each row. */
  function Views(rows: seq<Row>): seq<seq<(string, Value)>> {
    seq(|rows|, i requires 0 <= i < |rows| => View(rows[i]))
  }

  ghost predicate ReadsAs(text: string, v: seq<(string, Value)>) {
    forall tail: string :: ReadObject(text + tail) == Done(v, tail)
  }

  lemma {:induction false} ElementStep(text: string, tail: string, v: seq<(string, Value)>, more: seq<seq<(string, Value)>>, end: string)
    requires ReadsAs(text, v) && ReadElements(tail) == Done(more, end)
    ensures ReadElements(text + ("," + tail)) == Done([v] + more, end)
  {
    assert ReadObject(text + ("," + tail)) == Done(v, "," + tail);
    assert ("," + tail)[1..] == tail;
  }

  lemma {:induction false} ElementLast(text: string, v: seq<(string, Value)>, end: string)
    requires ReadsAs(text, v)
    ensures ReadElements(text + ("]" + end)) == Done([v], end)
  {
    assert ReadObject(text + ("]" + end)) == Done(v, "]" + end);
    assert ("]" + end)[1..] == end;
  }

  lemma {:induction false} JoinedSplit(texts: seq<string>, close: string)
    requires texts != []
    ensures |texts| == 1 ==> Joined(texts) + close == texts[0] + close
    ensures |texts| > 1 ==> Joined(texts) + close == texts[0] + ("," + (Joined(texts[1..]) + close))
  {
    if |texts| == 1 {
      assert texts == [texts[0]];
      JoinedOne(texts[0]);
    } else {
      JoinedHead(texts);
      Regroup(texts[0], "," + Joined(texts[1..]), close);
      Regroup(",", Joined(texts[1..]), close);
    }
  }

  lemma {:induction false} ElementsRead(texts: seq<string>, vs: seq<seq<(string, Value)>>, t: string, end: string)
    requires |texts| == |vs| > 0 && t == Joined(texts) + ("]" + end)
    requires forall i | 0 <= i < |vs| :: ReadsAs(texts[i], vs[i])
    ensures ReadElements(t) == Done(vs, end)
    decreases |texts|
  {
    JoinedSplit(texts, "]" + end);
    if |texts| == 1 {
      ElementLast(texts[0], vs[0], end);
      assert vs == [vs[0]];
    } else {
      var tail := Joined(texts[1..]) + ("]" + end);
      ElementsRead(texts[1..], vs[1..], tail, end);
      ElementStep(texts[0], tail, vs[0], vs[1..], end);
      assert vs == [vs[0]] + vs[1..];
    }
  }

  /** The array of GET /messages reads back as the rows, one object each, in order. */
  lemma {:induction false} ArrayReads(rows: seq<Row>)
    requires AllStored(rows)
    ensures ReadArray(ArrayText(rows)) == Done(Views(rows), "")
  {
    var inner := Joined(Objects(rows));
    var t := inner + "]";
    Regroup("[", inner, "]");
    assert ("[" + t)[1..] == t;
    if rows == [] {
      assert inner == "" && t == "]" && Views(rows) == [];
      assert ("[" + t)[2..] == "";
    } else {
      forall i | 0 <= i < |rows| ensures ReadsAs(Objects(rows)[i], Views(rows)[i]) {
        RowReads(rows[i]);
      }
      assert "]" + "" == "]";
      ElementsRead(Objects(rows), Views(rows), t, "");
      ElementsStart(t);
    }
  }

  lemma {:induction false} RowReads(r: Row)
    requires Stored(r)
    ensures ReadsAs(MessageText(r), View(r))
  {
    forall tail: string ensures ReadObject(MessageText(r) + tail) == Done(View(r), tail) {
      StoredMessageReads(r, tail);
    }
  }

  /** No element text starts like the end of the array. */
  lemma {:induction false} ElementsStart(t: string)
    requires ReadElements(t).Done?
    ensures t != "" && t[0] != ']'
  {
  }
}
