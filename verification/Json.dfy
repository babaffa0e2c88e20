/**
 http_chat.c: what json_escape and msg_to_json write, and a JSON reader written
 from sections 4 to 7 of RFC 8259 to say what that text means.
 */
module Json {
  import opened Common
  import opened HttpProto
  import opened HttpRender
  import HttpStability

  // ----- Writing --------------------------------------------------------------------------------

  function HexDigit(n: nat): char
    requires n < 16
  {
    if n < 10 then ('0' as int + n) as char else ('a' as int + (n - 10)) as char
  }

  /** The printf conversion \u%04x of a control character. */
  function UnicodeEscape(c: char): (e: string)
    requires c < ' '
    ensures |e| == 6
  {
    "\\u00" + [HexDigit(c as int / 16), HexDigit(c as int % 16)]
  }

  function EscapeChar(c: char): (e: string)
    ensures 1 <= |e| <= 6
  {
    if c == '"' then "\\\""
    else if c == '\\' then "\\\\"
    else if c == '\n' then "\\n"
    else if c == '\r' then "\\r"
    else if c == '\t' then "\\t"
    else if c < ' ' then UnicodeEscape(c)
    else [c]
  }

  function Escape(s: string): string {
    if s == "" then "" else EscapeChar(s[0]) + Escape(s[1..])
  }

  lemma {:induction false} EscapeAppend(s: string, t: string)
    ensures Escape(s + t) == Escape(s) + Escape(t)
  {
    if s == "" {
      assert s + t == t;
    } else {
      assert (s + t)[1..] == s[1..] + t;
      EscapeAppend(s[1..], t);
    }
  }

  predicate PlainChar(c: char) {
    c != '"' && c != '\\' && c >= ' '
  }

  lemma {:induction false} PlainEscape(s: string)
    requires forall c | c in s :: PlainChar(c)
    ensures Escape(s) == s
  {
    if s != "" {
      assert s[0] in s;
      PlainEscape(s[1..]);
    }
  }

  /** Escaped text holds no control character, whatever went in. */
  lemma {:induction false} EscapeHasNoControls(s: string)
    ensures forall c | c in Escape(s) :: c >= ' '
  {
    if s != "" {
      EscapeHasNoControls(s[1..]);
      assert forall c | c in EscapeChar(s[0]) :: c >= ' ';
    }
  }

  /** The %ld conversion. */
  function Signed(n: int): string {
    if n < 0 then "-" + Decimal(-n) else Decimal(n)
  }

  function Member(key: string, value: string): (m: string)
    ensures |m| == |key| + |value| + 3
  {
    "\"" + (key + ("\":" + value))
  }

  function NumMember(key: string, n: int): string {
    Member(key, Signed(n))
  }

  function StrMember(key: string, escaped: string): string {
    Member(key, "\"" + escaped + "\"")
  }

  /** The object of msg_to_json for already escaped strings. */
  function ObjectText(id: int, user: string, ts: int, body: string): (o: string)
    ensures |o| == 33 + |Signed(id)| + |user| + |Signed(ts)| + |body|
  {
    "{" + NumMember("id", id) + "," + StrMember("user", user) + "," + NumMember("ts", ts) + "," + StrMember("body", body) + "}"
  }

  // ----- Reading --------------------------------------------------------------------------------

  datatype Read<+T> = Done(value: T, rest: string) | Fail

  datatype Value = Num(n: int) | Str(s: string)

  function CodeOf(hex: string): int
    requires |hex| == 4
  {
    if Hex(hex[0]) < 0 || Hex(hex[1]) < 0 || Hex(hex[2]) < 0 || Hex(hex[3]) < 0 then -1
    else Hex(hex[0]) * 4096 + Hex(hex[1]) * 256 + Hex(hex[2]) * 16 + Hex(hex[3])
  }

  /** One character of a string; surrogate pairs are not joined. */
  function ReadChar(t: string): (r: Read<char>)
    requires t != ""
    ensures r.Done? ==> |r.rest| < |t|
  {
    if t[0] != '\\' then Done(t[0], t[1..])
    else if |t| < 2 then Fail
    else match t[1]
      case '"' => Done('"', t[2..])
      case '\\' => Done('\\', t[2..])
      case '/' => Done('/', t[2..])
      case 'b' => Done(8 as char, t[2..])
      case 'f' => Done(12 as char, t[2..])
      case 'n' => Done('\n', t[2..])
      case 'r' => Done('\r', t[2..])
      case 't' => Done('\t', t[2..])
      case 'u' =>
        if |t| < 6 then Fail
        else
          var code := CodeOf(t[2..6]);
          if 0 <= code < 0xd800 || 0xe000 <= code < 0x10000 then Done(code as char, t[6..]) else Fail
      case _ => Fail
  }

  /** The rest of a string whose opening quote has been read. */
  function ReadString(t: string): (r: Read<string>)
    ensures r.Done? ==> |r.rest| < |t|
    decreases |t|
  {
    if t == "" || t[0] < ' ' then Fail
    else if t[0] == '"' then Done("", t[1..])
    else
      var c := ReadChar(t);
      if c.Fail? then Fail
      else
        var more := ReadString(c.rest);
        if more.Fail? then Fail else Done([c.value] + more.value, more.rest)
  }

  function ReadNumber(t: string): (r: Read<Value>)
    ensures r.Done? ==> |r.rest| < |t|
  {
    var p := if t != "" && t[0] == '-' then 1 else 0;
    var e := SkipDigits(t, p);
    if e == p then Fail
    else
      assert forall c | c in t[p..e] :: IsDigit(c);
      var n: int := HttpProto.Value(t[p..e]);
      Done(Num(if p == 1 then -n else n), t[e..])
  }

  function ReadValue(t: string): (r: Read<Value>)
    ensures r.Done? ==> |r.rest| < |t|
  {
    if t != "" && t[0] == '"' then
      var s := ReadString(t[1..]);
      if s.Fail? then Fail else Done(Str(s.value), s.rest)
    else ReadNumber(t)
  }

  function ReadMember(t: string): (r: Read<(string, Value)>)
    ensures r.Done? ==> |r.rest| < |t|
  {
    if t == "" || t[0] != '"' then Fail
    else
      var key := ReadString(t[1..]);
      if key.Fail? || key.rest == "" || key.rest[0] != ':' then Fail
      else
        var v := ReadValue(key.rest[1..]);
        if v.Fail? then Fail else Done((key.value, v.value), v.rest)
  }

  function ReadMembers(t: string): (r: Read<seq<(string, Value)>>)
    ensures r.Done? ==> |r.rest| < |t|
    decreases |t|
  {
    var m := ReadMember(t);
    if m.Fail? || m.rest == "" then Fail
    else if m.rest[0] == '}' then Done([m.value], m.rest[1..])
    else if m.rest[0] != ',' then Fail
    else
      var more := ReadMembers(m.rest[1..]);
      if more.Fail? then Fail else Done([m.value] + more.value, more.rest)
  }

  function ReadObject(t: string): (r: Read<seq<(string, Value)>>)
    ensures r.Done? ==> |r.rest| < |t|
  {
    if |t| < 2 || t[0] != '{' then Fail
    else if t[1] == '}' then Done([], t[2..])
    else ReadMembers(t[1..])
  }

  function ReadElements(t: string): (r: Read<seq<seq<(string, Value)>>>)
    decreases |t|
  {
    var o := ReadObject(t);
    if o.Fail? || o.rest == "" then Fail
    else if o.rest[0] == ']' then Done([o.value], o.rest[1..])
    else if o.rest[0] != ',' then Fail
    else
      var more := ReadElements(o.rest[1..]);
      if more.Fail? then Fail else Done([o.value] + more.value, more.rest)
  }

  /** An array of objects. */
  function ReadArray(t: string): (r: Read<seq<seq<(string, Value)>>>) {
    if |t| < 2 || t[0] != '[' then Fail
    else if t[1] == ']' then Done([], t[2..])
    else ReadElements(t[1..])
  }

  // ----- What was written is what is read -----------------------------------------------------------

  lemma {:induction false} CharRoundTrip(c: char, tail: string)
    ensures ReadChar(EscapeChar(c) + tail).Done?
    ensures ReadChar(EscapeChar(c) + tail).value == c
    ensures ReadChar(EscapeChar(c) + tail).rest == tail
  {
    var t := EscapeChar(c) + tail;
    assert t[|EscapeChar(c)|..] == tail;
    if c < ' ' && |EscapeChar(c)| == 6 {
      assert t[2..6] == ['0', '0', HexDigit(c as int / 16), HexDigit(c as int % 16)];
      assert CodeOf(t[2..6]) == c as int;
    }
  }

  lemma {:induction false} StringStep(t: string, c: char, more: string, v: string, rest: string)
    requires t != "" && t[0] >= ' ' && t[0] != '"' && ReadChar(t) == Done(c, more) && ReadString(more) == Done(v, rest)
    ensures ReadString(t) == Done([c] + v, rest)
  {
  }

  lemma {:induction false} CharThen(c: char, more: string, v: string, rest: string)
    requires ReadString(more) == Done(v, rest)
    ensures ReadString(EscapeChar(c) + more) == Done([c] + v, rest)
  {
    CharRoundTrip(c, more);
    var e := EscapeChar(c);
    assert e[0] >= ' ' && e[0] != '"';
    StringStep(e + more, c, more, v, rest);
  }

  lemma {:induction false} StringEnd(tail: string)
    ensures ReadString("\"" + tail) == Done("", tail)
  {
    assert ("\"" + tail)[1..] == tail;
  }

  lemma {:induction false} EscapedThen(s: string, more: string, tail: string)
    requires ReadString(more) == Done("", tail)
    ensures ReadString(Escape(s) + more) == Done(s, tail)
  {
    if s == "" {
      assert Escape(s) + more == more;
    } else {
      EscapedThen(s[1..], more, tail);
      CharThen(s[0], Escape(s[1..]) + more, s[1..], tail);
      Regroup(EscapeChar(s[0]), Escape(s[1..]), more);
      assert s == [s[0]] + s[1..];
    }
  }

  lemma {:induction false} StringRoundTrip(s: string, tail: string)
    ensures ReadString(Escape(s) + ("\"" + tail)) == Done(s, tail)
  {
    StringEnd(tail);
    EscapedThen(s, "\"" + tail, tail);
  }

  lemma {:induction false} NumberRoundTrip(n: int, tail: string)
    requires tail == "" || !IsDigit(tail[0])
    ensures ReadNumber(Signed(n) + tail).Done?
    ensures ReadNumber(Signed(n) + tail).value == Num(n)
    ensures ReadNumber(Signed(n) + tail).rest == tail
  {
    var d := Decimal(if n < 0 then -n else n);
    var t, p := Signed(n) + tail, if n < 0 then 1 else 0;
    var e := p + |d|;
    assert t[p..e] == d && t[e..] == tail;
    assert t[0] == '-' <==> n < 0 by {
      assert d[0] in d;
    }
    forall k | p <= k < e ensures IsDigit(t[k]) {
      assert t[k] == d[k - p] && d[k - p] in d;
    }
    assert e < |t| ==> t[e] == tail[0];
    HttpStability.SkipDigitsIs(t, p, e);
    DecimalValue(if n < 0 then -n else n);
  }

  ghost predicate PlainKey(key: string) {
    forall c | c in key :: PlainChar(c)
  }

  lemma {:induction false} KeyRead(key: string, tail: string)
    requires PlainKey(key)
    ensures ReadString(key + ("\"" + tail)) == Done(key, tail)
  {
    PlainEscape(key);
    StringRoundTrip(key, tail);
  }

  lemma {:induction false} MemberStep(key: string, value: string, v: Value, tail: string)
    requires PlainKey(key) && ReadValue(value) == Done(v, tail)
    ensures ReadMember(Member(key, value)) == Done((key, v), tail)
  {
    var t := key + ("\":" + value);
    assert "\":" + value == "\"" + (":" + value);
    KeyRead(key, ":" + value);
    assert ("\"" + t)[1..] == t && (":" + value)[1..] == value;
  }

  lemma {:induction false} MemberThen(key: string, value: string, tail: string)
    ensures Member(key, value) + tail == Member(key, value + tail)
  {
    Regroup("\"", key + ("\":" + value), tail);
    Regroup(key, "\":" + value, tail);
    Regroup("\":", value, tail);
  }

  lemma {:induction false} NumMemberRoundTrip(key: string, n: int, tail: string)
    requires PlainKey(key) && (tail == "" || !IsDigit(tail[0]))
    ensures ReadMember(NumMember(key, n) + tail) == Done((key, Num(n)), tail)
  {
    var value := Signed(n) + tail;
    NumberRoundTrip(n, tail);
    assert value[0] != '"' by {
      assert n >= 0 ==> value[0] == Decimal(n)[0] && Decimal(n)[0] in Decimal(n);
    }
    MemberStep(key, value, Num(n), tail);
    MemberThen(key, Signed(n), tail);
  }

  lemma {:induction false} QuotedRoundTrip(s: string, tail: string)
    ensures ReadValue("\"" + Escape(s) + "\"" + tail) == Done(Str(s), tail)
  {
    var text := Escape(s) + ("\"" + tail);
    StringRoundTrip(s, tail);
    assert "\"" + Escape(s) + "\"" + tail == "\"" + text;
    assert ("\"" + text)[1..] == text;
  }

  lemma {:induction false} StrMemberRoundTrip(key: string, s: string, tail: string)
    requires PlainKey(key)
    ensures ReadMember(StrMember(key, Escape(s)) + tail) == Done((key, Str(s)), tail)
  {
    QuotedRoundTrip(s, tail);
    MemberStep(key, "\"" + Escape(s) + "\"" + tail, Str(s), tail);
    MemberThen(key, "\"" + Escape(s) + "\"", tail);
  }

  lemma {:induction false} MembersStep(m: string, v: (string, Value), tail: string, more: Read<seq<(string, Value)>>)
    requires ReadMember(m + ("," + tail)) == Done(v, "," + tail) && ReadMembers(tail) == more && more.Done?
    ensures ReadMembers(m + ("," + tail)) == Done([v] + more.value, more.rest)
  {
    assert ("," + tail)[1..] == tail;
  }

  lemma {:induction false} NumThen(key: string, n: int, tail: string, more: seq<(string, Value)>, end: string)
    requires PlainKey(key) && ReadMembers(tail) == Done(more, end)
    ensures ReadMembers(NumMember(key, n) + ("," + tail)) == Done([(key, Num(n))] + more, end)
  {
    NumMemberRoundTrip(key, n, "," + tail);
    MembersStep(NumMember(key, n), (key, Num(n)), tail, Done(more, end));
  }

  lemma {:induction false} StrThen(key: string, s: string, tail: string, more: seq<(string, Value)>, end: string)
    requires PlainKey(key) && ReadMembers(tail) == Done(more, end)
    ensures ReadMembers(StrMember(key, Escape(s)) + ("," + tail)) == Done([(key, Str(s))] + more, end)
  {
    StrMemberRoundTrip(key, s, "," + tail);
    MembersStep(StrMember(key, Escape(s)), (key, Str(s)), tail, Done(more, end));
  }

  lemma {:induction false} StrLast(key: string, s: string, end: string)
    requires PlainKey(key)
    ensures ReadMembers(StrMember(key, Escape(s)) + ("}" + end)) == Done([(key, Str(s))], end)
  {
    StrMemberRoundTrip(key, s, "}" + end);
    assert ("}" + end)[1..] == end;
  }

  lemma {:induction false} ObjectSplit(id: int, user: string, ts: int, body: string, tail: string)
    ensures ObjectText(id, user, ts, body) + tail
         == "{" + (NumMember("id", id) + ("," + (StrMember("user", user) + ("," +
              (NumMember("ts", ts) + ("," + (StrMember("body", body) + ("}" + tail))))))))
  {
    var i, u, t, b := NumMember("id", id), StrMember("user", user), NumMember("ts", ts), StrMember("body", body);
    Regroup("{" + i + "," + u + "," + t + "," + b, "}", tail);
    var w6 := "}" + tail;
    Regroup("{" + i + "," + u + "," + t + ",", b, w6);
    Regroup("{" + i + "," + u + "," + t, ",", b + w6);
    var w4 := "," + (b + w6);
    Regroup("{" + i + "," + u + ",", t, w4);
    Regroup("{" + i + "," + u, ",", t + w4);
    var w2 := "," + (t + w4);
    Regroup("{" + i + ",", u, w2);
    Regroup("{" + i, ",", u + w2);
    Regroup("{", i, "," + (u + w2));
  }

  lemma {:induction false} ObjectStart(t: string, ms: seq<(string, Value)>, end: string)
    requires t != "" && t[0] == '"' && ReadMembers(t) == Done(ms, end)
    ensures ReadObject("{" + t) == Done(ms, end)
  {
    assert ("{" + t)[1..] == t;
  }

  /** The four members of a message object. */
  function Fields(id: int, user: string, ts: int, body: string): seq<(string, Value)> {
    [("id", Num(id))] + ([("user", Str(user))] + ([("ts", Num(ts))] + [("body", Str(body))]))
  }

  /** The text of a message object reads back as its four members, with the strings unescaped. */
  lemma {:induction false} ObjectRoundTrip(id: int, user: string, ts: int, body: string, tail: string)
    ensures ReadObject(ObjectText(id, Escape(user), ts, Escape(body)) + tail) == Done(Fields(id, user, ts, body), tail)
  {
    var t3 := StrMember("body", Escape(body)) + ("}" + tail);
    StrLast("body", body, tail);
    var t2 := NumMember("ts", ts) + ("," + t3);
    NumThen("ts", ts, t3, [("body", Str(body))], tail);
    var t1 := StrMember("user", Escape(user)) + ("," + t2);
    StrThen("user", user, t2, [("ts", Num(ts))] + [("body", Str(body))], tail);
    var t0 := NumMember("id", id) + ("," + t1);
    NumThen("id", id, t1, [("user", Str(user))] + ([("ts", Num(ts))] + [("body", Str(body))]), tail);
    ObjectSplit(id, Escape(user), ts, Escape(body), tail);
    ObjectStart(t0, Fields(id, user, ts, body), tail);
  }
}
