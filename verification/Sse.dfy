/**
 http_session.c, http_sse_send and http_sse_comment, against an event-stream
 reader written from sections 9.2.5 and 9.2.6 of the WHATWG HTML standard.
 */
module Sse {
  import opened Common
  import opened HttpProto
  import HttpStability

  // ----- Writing ---------------------------------------------------------------------------------

  datatype Item = Data(text: string) | Note(text: string)

  function Frame(i: Item): string {
    (if i.Data? then "data: " else ": ") + i.text + "\n\n"
  }

  function Wire(items: seq<Item>): string {
    if items == [] then "" else Frame(items[0]) + Wire(items[1..])
  }

  /** The data texts, in order. */
  function Texts(items: seq<Item>): seq<string> {
    if items == [] then [] else (if items[0].Data? then [items[0].text] else []) + Texts(items[1..])
  }

  predicate LineEnding(c: char) {
    c == '\n' || c == '\r'
  }

  ghost predicate OneLine(s: string) {
    forall c | c in s :: !LineEnding(c)
  }

  // ----- Reading ---------------------------------------------------------------------------------

  function LineEnd(s: string): (e: nat)
    ensures e <= |s| && (e < |s| ==> LineEnding(s[e])) && forall k | 0 <= k < e :: !LineEnding(s[k])
  {
    if s == "" || LineEnding(s[0]) then 0 else 1 + LineEnd(s[1..])
  }

  /** What follows the line that ends at e; a carriage return and a line feed end one line. */
  function AfterLine(s: string, e: nat): (rest: string)
    requires e < |s|
    ensures |rest| < |s|
  {
    if s[e] == '\r' && e + 1 < |s| && s[e + 1] == '\n' then s[e + 2..] else s[e + 1..]
  }

  function FieldName(line: string): string {
    line[..Find(line, ':', 0)]
  }

  /** The text after the colon, without one leading space. */
  function FieldValue(line: string): string {
    var i := Find(line, ':', 0);
    if i == |line| then "" else if i + 1 < |line| && line[i + 1] == ' ' then line[i + 2..] else line[i + 1..]
  }

  /** A data field adds its value and a line feed; every other line of an event leaves the data alone. */
  function Fill(data: string, line: string): string {
    if FieldName(line) == "data" then data + FieldValue(line) + "\n" else data
  }

  /** The data of each event dispatched; what no blank line has closed is dropped. */
  function Events(s: string, data: string): (events: seq<string>)
    decreases |s|
  {
    var e := LineEnd(s);
    if e == |s| then []
    else if e > 0 then Events(AfterLine(s, e), Fill(data, s[..e]))
    else if data == "" then Events(AfterLine(s, e), "")
    else [data[..|data| - 1]] + Events(AfterLine(s, e), "")
  }

  // ----- Frames are events ------------------------------------------------------------------------

  lemma {:induction false} LineEndIs(s: string, e: nat)
    requires e < |s| && LineEnding(s[e]) && forall k | 0 <= k < e :: !LineEnding(s[k])
    ensures LineEnd(s) == e
  {
  }

  lemma {:induction false} DataLine(text: string, data: string)
    ensures Fill(data, "data: " + text) == data + text + "\n"
  {
    var line := "data: " + text;
    HttpStability.FindIs(line, ':', 0, 4);
    assert line[..4] == "data" && line[6..] == text;
  }

  lemma {:induction false} NoteLine(text: string, data: string)
    ensures Fill(data, ": " + text) == data
  {
    HttpStability.FindIs(": " + text, ':', 0, 0);
  }

  lemma {:induction false} FullLine(line: string, tail: string, data: string)
    requires line != "" && OneLine(line)
    ensures Events(line + ("\n" + tail), data) == Events(tail, Fill(data, line))
  {
    var s := line + ("\n" + tail);
    assert forall k | 0 <= k < |line| :: s[k] == line[k] && line[k] in line;
    LineEndIs(s, |line|);
    assert s[..|line|] == line && s[|line| + 1..] == tail;
  }

  lemma {:induction false} BlankLine(tail: string, data: string)
    ensures Events("\n" + tail, data) == (if data == "" then [] else [data[..|data| - 1]]) + Events(tail, "")
  {
    var s := "\n" + tail;
    LineEndIs(s, 0);
    assert s[1..] == tail;
  }

  lemma {:induction false} TwoLineEnds(line: string, tail: string)
    ensures line + "\n\n" + tail == line + ("\n" + ("\n" + tail))
  {
    Regroup(line, "\n\n", tail);
    assert "\n\n" == "\n" + "\n";
    Regroup("\n", "\n", tail);
  }

  lemma {:induction false} LineThenBlank(line: string, tail: string, data: string)
    requires line != "" && OneLine(line) && data == Fill("", line)
    ensures Events(line + "\n\n" + tail, "") == (if data == "" then [] else [data[..|data| - 1]]) + Events(tail, "")
  {
    TwoLineEnds(line, tail);
    FullLine(line, "\n" + tail, "");
    BlankLine(tail, data);
  }

  lemma {:induction false} DataFrameReads(text: string, tail: string)
    requires OneLine(text)
    ensures Events("data: " + text + "\n\n" + tail, "") == [text] + Events(tail, "")
  {
    DataLine(text, "");
    var data := text + "\n";
    assert "" + text == text;
    LineThenBlank("data: " + text, tail, data);
    assert data[..|data| - 1] == text;
  }

  lemma {:induction false} NoteFrameReads(text: string, tail: string)
    requires OneLine(text)
    ensures Events(": " + text + "\n\n" + tail, "") == Events(tail, "")
  {
    NoteLine(text, "");
    LineThenBlank(": " + text, tail, "");
    assert [] + Events(tail, "") == Events(tail, "");
  }

  /** One frame is one event with exactly its text; one comment is none. */
  lemma {:induction false} FrameReads(i: Item, tail: string)
    requires OneLine(i.text)
    ensures Events(Frame(i) + tail, "") == (if i.Data? then [i.text] else []) + Events(tail, "")
  {
    match i
    case Data(text) => DataFrameReads(text, tail);
    case Note(text) => NoteFrameReads(text, tail);
  }

  /** Any mix of frames and comments reads back as the texts of the frames, in order. */
  lemma {:induction false} WireReads(items: seq<Item>)
    requires forall i | i in items :: OneLine(i.text)
    ensures Events(Wire(items), "") == Texts(items)
  {
    if items != [] {
      WireReads(items[1..]);
      FrameReads(items[0], Wire(items[1..]));
    }
  }

  lemma {:induction false} AfterLineExtends(s: string, more: string, e: nat)
    requires e < |s| && AfterLine(s, e) != ""
    ensures AfterLine(s + more, e) == AfterLine(s, e) + more
  {
    assert e + 1 < |s| ==> (s + more)[e + 1..] == s[e + 1..] + more;
    assert e + 2 <= |s| ==> (s + more)[e + 2..] == s[e + 2..] + more;
  }

  lemma {:induction false} LineExtends(s: string, more: string)
    requires LineEnd(s) < |s|
    ensures LineEnd(s + more) == LineEnd(s) && (s + more)[..LineEnd(s)] == s[..LineEnd(s)]
  {
    LineEndIs(s + more, LineEnd(s));
  }

  /** A stream that breaks off dispatches a prefix of the events of the whole stream. */
  lemma {:induction false} CutStream(s: string, more: string, data: string)
    ensures Events(s, data) <= Events(s + more, data)
    decreases |s|
  {
    var e := LineEnd(s);
    if e < |s| {
      LineExtends(s, more);
      if AfterLine(s, e) != "" {
        AfterLineExtends(s, more, e);
        CutStream(AfterLine(s, e), more, if e > 0 then Fill(data, s[..e]) else "");
      }
    }
  }

  /** However the connection ends, the client has whole messages, in order, from the first on. */
  lemma {:induction false} CutWireReads(items: seq<Item>, n: nat)
    requires (forall i | i in items :: OneLine(i.text)) && n <= |Wire(items)|
    ensures Events(Wire(items)[..n], "") <= Texts(items)
  {
    var w := Wire(items);
    assert w[..n] + w[n..] == w;
    CutStream(w[..n], w[n..], "");
    WireReads(items);
  }
}
