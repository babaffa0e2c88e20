/**
 http_chat.c, POST /api/rooms/{id}/messages: the scanner that finds a string
 value in the request body, and the handler that posts what it found.
 */
module Posting {
  import opened Common
  import opened Store
  import opened Rooms
  import ChatDb
  import HttpProto
  import HttpStability
  import opened Text

  // ----- json_get_string ---------------------------------------------------------------------------

  /** memmem from position p: the first occurrence. */
  function Match(s: string, pat: string, p: nat): (m: Option<nat>)
    requires p <= |s|
    ensures m.Some? ==> p <= m.value && At(s, m.value, pat) && forall k | p <= k < m.value :: !At(s, k, pat)
    ensures m.None? ==> forall k | p <= k :: !At(s, k, pat)
    decreases |s| - p
  {
    if At(s, p, pat) then Some(p) else if p == |s| then None else Match(s, pat, p + 1)
  }

  predicate Mark(c: char) {
    c == ' ' || c == '\t' || c == ':'
  }

  function SkipMarks(t: string): string {
    if t != "" && Mark(t[0]) then SkipMarks(t[1..]) else t
  }

  function Meaning(e: char): char {
    match e case 'n' => '\n' case 't' => '\t' case 'r' => '\r' case _ => e
  }

  /** The value up to the closing quote, at most room characters of it. */
  function Unquote(t: string, room: nat): (v: string)
    ensures |v| <= room
    decreases |t|
  {
    if t == "" || t[0] == '"' || room == 0 then ""
    else if t[0] == '\\' && |t| > 1 then [Meaning(t[1])] + Unquote(t[2..], room - 1)
    else [t[0]] + Unquote(t[1..], room - 1)
  }

  function Quoted(key: string): string {
    "\"" + key + "\""
  }

  /** The first textual occurrence of the quoted key decides. */
  function GetString(s: string, key: string, size: nat): (v: Option<string>)
    requires size > 0
    ensures v.Some? ==> |v.value| < size
  {
    var m := Match(s, Quoted(key), 0);
    if m.None? then None
    else
      var t := SkipMarks(s[m.value + |Quoted(key)|..]);
      if t == "" || t[0] != '"' then None else Some(Unquote(t[1..], size - 1))
  }

  method JsonGetString(s: string, key: string, out: array<char>) returns (found: bool)
    requires out.Length > 0
    modifies out
    ensures var v := GetString(s, key, out.Length);
      && found == v.Some?
      && (found ==> out[..|v.value|] == v.value && out[|v.value|] == '\0')
      && (!found ==> out[..] == old(out[..]))
  {
    var m := Match(s, Quoted(key), 0);
    if m.None? {
      return false;
    }
    var p := m.value + |Quoted(key)|;
    ghost var after := s[p..];
    while p < |s| && (s[p] == ' ' || s[p] == '\t' || s[p] == ':')
      invariant p <= |s| && SkipMarks(s[p..]) == SkipMarks(after)
    {
      assert s[p..][1..] == s[p + 1..];
      p := p + 1;
    }
    if p >= |s| || s[p] != '"' {
      return false;
    }
    assert s[p..][1..] == s[p + 1..];
    UnquoteInto(s, p + 1, out);
    return true;
  }

  /** One character of the value: how many bytes it takes and what it stands for. */
  method NextChar(s: string, p: nat) returns (ch: char, next: nat)
    requires p < |s|
    ensures p < next <= |s|
    ensures forall room: nat | s[p] != '"' && room > 0 :: Unquote(s[p..], room) == [ch] + Unquote(s[next..], room - 1)
  {
    ghost var t := s[p..];
    ch, next := s[p], p + 1;
    if ch == '\\' && next < |s| {
      match s[next] {
        case 'n' => ch := '\n';
        case 't' => ch := '\t';
        case 'r' => ch := '\r';
        case e => ch := e;
      }
      assert t[1] == s[next] && t[2..] == s[next + 1..];
      next := next + 1;
    } else {
      assert t[1..] == s[next..];
    }
  }

  method UnquoteInto(s: string, start: nat, out: array<char>)
    requires out.Length > 0 && start <= |s|
    modifies out
    ensures var v := Unquote(s[start..], out.Length - 1); out[..|v|] == v && out[|v|] == '\0'
  {
    ghost var value := Unquote(s[start..], out.Length - 1);
    var p, o := start, 0;
    while p < |s| && s[p] != '"' && o + 1 < out.Length
      invariant start <= p <= |s| && 0 <= o < out.Length
      invariant value == out[..o] + Unquote(s[p..], out.Length - 1 - o)
    {
      ghost var done := out[..o];
      var ch;
      ch, p := NextChar(s, p);
      out[o] := ch;
      o := o + 1;
      assert out[..o] == done + [ch];
      Regroup(done, [ch], Unquote(s[p..], out.Length - 1 - o));
    }
    out[o] := '\0';
  }

  // ----- handle_messages_post ---------------------------------------------------------------------

  /** A buffer read as a C string. */
  function CStr(s: string): string {
    s[..HttpProto.Find(s, '\0', 0)]
  }

  function Extract(s: string, key: string, size: nat): string
    requires size > 0
  {
    match GetString(s, key, size) case None => "" case Some(v) => CStr(v)
  }

  /** The user and text that a request body puts in the table, if any. */
  function Entry(s: string): Option<(string, string)> {
    var user, body := Extract(s, "user", USER_MAX), Extract(s, "body", BODY_MAX);
    var name := Take(CleanName(user), USER_MAX - 1);
    if user == "" || body == "" || name == "" then None else Some((name, Take(CleanText(body), BODY_MAX - 1)))
  }

  lemma {:induction false} TerminatedCopy(buf: string, v: string)
    requires |v| < |buf| && buf[..|v|] == v && buf[|v|] == '\0'
    ensures CStr(buf) == CStr(v)
  {
    var i := HttpProto.Find(v, '\0', 0);
    forall k | 0 <= k < |v| ensures buf[k] == v[k] {
      assert buf[..|v|][k] == v[k];
    }
    HttpStability.FindIs(buf, '\0', 0, i);
    assert buf[..i] == v[..i];
  }

  /** One value, in a buffer that starts out zeroed. */
  method ReadField(s: string, key: string, size: nat) returns (v: string)
    requires size > 0
    ensures v == Extract(s, key, size) && '\0' !in v
  {
    var buf := new char[size](_ => '\0');
    var found := JsonGetString(s, key, buf);
    if found {
      TerminatedCopy(buf[..], GetString(s, key, size).value);
    } else {
      HttpStability.FindIs(buf[..], '\0', 0, 0);
    }
    var n := 0;
    while n < size && buf[n] != '\0'
      invariant 0 <= n <= size && forall k | 0 <= k < n :: buf[k] != '\0'
    {
      n := n + 1;
    }
    if n < size {
      HttpStability.FindIs(buf[..], '\0', 0, n);
    }
    v := buf[..n];
  }

  method HandlePost(room: Room, s: string, ts: int, storageOk: bool) returns (status: nat, id: int, woken: seq<int>)
    requires room.Valid()
    modifies room.table
    ensures room.Valid() && room.Subs() == old(room.Subs())
    ensures status == 201 <==> Entry(s).Some? && storageOk && old(room.table.lastId) + 1 < NO_BOUND
    ensures status == 201 ==>
      && id == old(room.table.lastId) + 1
      && room.table.rows == old(room.table.rows) + [ChatDb.Row(id, room.id, Entry(s).value.0, ts, Entry(s).value.1)]
      && woken == room.Subs()
    ensures status != 201 ==> status == 400 && room.table.rows == old(room.table.rows) && woken == []
  {
    var user := ReadField(s, "user", USER_MAX);
    var body := ReadField(s, "body", BODY_MAX);
    if user == "" || body == "" {
      return 400, -1, [];
    }
    id, woken := room.Post(user, body, ts, storageOk);
    if id < 0 {
      return 400, -1, [];
    }
    status := 201;
  }
}
