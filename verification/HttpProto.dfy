/**
 http_proto.c: the request parser (sections 3.3.2 and 3.5 of RFC 7230 as far as
 the program follows them). A C char is a Dafny char; a buffer is a string.
 */
module HttpProto {
  import opened Common

  const PATH_MAX: nat := 1024
  const QUERY_MAX: nat := 1024
  const LONG_MAX: int := 0x7fff_ffff_ffff_ffff

  // ----- Scanning ---------------------------------------------------------------------------------

  /** memchr from position p; the end of s if c does not occur. */
  function Find(s: string, c: char, p: nat): (i: nat)
    requires p <= |s|
    ensures p <= i <= |s|
    ensures i < |s| ==> s[i] == c
    ensures forall k | p <= k < i :: s[k] != c
    decreases |s| - p
  {
    if p == |s| || s[p] == c then p else Find(s, c, p + 1)
  }

  /** memmem: does pat occur in s? */
  predicate Contains(s: string, pat: string)
    decreases |s|
  {
    pat <= s || (s != "" && Contains(s[1..], pat))
  }

  function Lower(c: char): char {
    if 'A' <= c <= 'Z' then (c as int + 32) as char else c
  }

  /** strncasecmp against a lower-case prefix. */
  predicate StartsNoCase(s: string, pat: string) {
    |s| >= |pat| && forall i | 0 <= i < |pat| :: Lower(s[i]) == pat[i]
  }

  /** isspace in the C locale. */
  predicate IsSpace(c: char) {
    c == ' ' || 9 <= c as int <= 13
  }

  predicate IsDigit(c: char) {
    '0' <= c <= '9'
  }

  function SkipSpace(s: string, p: nat): (q: nat)
    requires p <= |s|
    ensures p <= q <= |s| && (q < |s| ==> !IsSpace(s[q])) && forall k | p <= k < q :: IsSpace(s[k])
    decreases |s| - p
  {
    if p < |s| && IsSpace(s[p]) then SkipSpace(s, p + 1) else p
  }

  predicate IsSign(s: string, q: nat) {
    q < |s| && (s[q] == '-' || s[q] == '+')
  }

  function SkipDigits(s: string, p: nat): (q: nat)
    requires p <= |s|
    ensures p <= q <= |s| && (q < |s| ==> !IsDigit(s[q])) && forall k | p <= k < q :: IsDigit(s[k])
    decreases |s| - p
  {
    if p < |s| && IsDigit(s[p]) then SkipDigits(s, p + 1) else p
  }

  /** The decimal value of a string of digits. */
  function Value(digits: string): nat
    requires forall c | c in digits :: IsDigit(c)
  {
    if digits == "" then 0
    else
      assert IsDigit(digits[|digits| - 1]) by { assert digits[|digits| - 1] in digits; }
      Value(digits[..|digits| - 1]) * 10 + (digits[|digits| - 1] as int - '0' as int)
  }

  /** Where strtol starts reading digits: after white space, line ends included, and one sign. */
  function DigitsStart(s: string, p: nat): (q: nat)
    requires p <= |s|
    ensures p <= q <= |s|
  {
    var q := SkipSpace(s, p);
    if IsSign(s, q) then q + 1 else q
  }

  predicate Negative(s: string, p: nat)
    requires p <= |s|
  {
    var q := SkipSpace(s, p);
    q < |s| && s[q] == '-'
  }

  function Digits(s: string, p: nat): (d: string)
    requires p <= |s|
    ensures forall c | c in d :: IsDigit(c)
  {
    var q := DigitsStart(s, p);
    s[q..SkipDigits(s, q)]
  }

  /**
   The Content-Length value: strtol from position p of the buffer, not bounded
   by the line, saturating, negative values replaced by 0.
   */
  function LengthAt(s: string, p: nat): nat
    requires p <= |s|
  {
    if Negative(s, p) then 0 else Min(Value(Digits(s, p)), LONG_MAX)
  }

  // ----- url_decode ---------------------------------------------------------------------------------

  function Hex(c: char): (h: int)
    ensures -1 <= h < 16
  {
    if '0' <= c <= '9' then c as int - '0' as int
    else if 'a' <= c <= 'f' then c as int - 'a' as int + 10
    else if 'A' <= c <= 'F' then c as int - 'A' as int + 10
    else -1
  }

  predicate IsEscape(src: string) {
    |src| > 2 && src[0] == '%' && Hex(src[1]) >= 0 && Hex(src[2]) >= 0
  }

  /** The next decoded character and how many source characters it takes. */
  function NextChar(src: string, plus: bool): (r: (char, nat))
    requires src != ""
    ensures 0 < r.1 <= |src|
  {
    if IsEscape(src) then ((16 * Hex(src[1]) + Hex(src[2])) as char, 3)
    else (if src[0] == '+' && plus then ' ' else src[0], 1)
  }

  /** Percent-decoding into a buffer with room for `room` characters. */
  function UrlDecode(src: string, room: nat, plus: bool): (r: string)
    ensures |r| <= room && |r| <= |src|
    decreases |src|
  {
    if src == "" || room == 0 then ""
    else
      var (c, n) := NextChar(src, plus);
      [c] + UrlDecode(src[n..], room - 1, plus)
  }

  lemma {:induction false} UrlDecodeAt(src: string, i: nat, room: nat, plus: bool)
    requires i < |src| && room > 0
    ensures var (c, n) := NextChar(src[i..], plus);
      i + n <= |src| && UrlDecode(src[i..], room, plus) == [c] + UrlDecode(src[i + n..], room - 1, plus)
  {
    var n := NextChar(src[i..], plus).1;
    assert src[i..][n..] == src[i + n..];
  }

  /** One turn of the decoding loop: `written` is in the buffer, the rest of src still to decode. */
  ghost predicate DecodingAt(src: string, i: nat, room: nat, plus: bool, written: string) {
    && i <= |src| && |written| <= room
    && UrlDecode(src, room, plus) == written + UrlDecode(src[i..], room - |written|, plus)
  }

  lemma {:induction false} DecodingBegins(src: string, room: nat, plus: bool)
    ensures DecodingAt(src, 0, room, plus, "")
  {
    assert src[0..] == src;
  }

  lemma {:induction false} DecodingEnds(src: string, i: nat, room: nat, plus: bool, written: string)
    requires DecodingAt(src, i, room, plus, written) && (i == |src| || |written| == room)
    ensures written == UrlDecode(src, room, plus)
  {
  }

  lemma {:induction false} DecodingAdvances(src: string, i: nat, room: nat, plus: bool, written: string, c: char, next: nat)
    requires DecodingAt(src, i, room, plus, written) && next <= |src| && |written| < room
    requires UrlDecode(src[i..], room - |written|, plus) == [c] + UrlDecode(src[next..], room - |written| - 1, plus)
    ensures DecodingAt(src, next, room, plus, written + [c])
  {
    assert written + ([c] + UrlDecode(src[next..], room - |written| - 1, plus))
        == (written + [c]) + UrlDecode(src[next..], room - |written| - 1, plus);
  }

  method DecodeChar(src: string, i: nat, plus: bool) returns (ch: char, next: nat)
    requires i < |src|
    ensures next > i && (ch, next - i) == NextChar(src[i..], plus)
  {
    ch := src[i];
    next := i + 1;
    if ch == '%' && i + 2 < |src| && Hex(src[i + 1]) >= 0 && Hex(src[i + 2]) >= 0 {
      ch := (16 * Hex(src[i + 1]) + Hex(src[i + 2])) as char;
      next := i + 3;
    } else if ch == '+' && plus {
      ch := ' ';
    }
  }

  method DecodeStep(src: string, i: nat, room: nat, plus: bool, ghost written: string) returns (ch: char, next: nat)
    requires DecodingAt(src, i, room, plus, written) && i < |src| && |written| < room
    ensures i < next && DecodingAt(src, next, room, plus, written + [ch])
  {
    UrlDecodeAt(src, i, room - |written|, plus);
    ch, next := DecodeChar(src, i, plus);
    DecodingAdvances(src, i, room, plus, written, ch, next);
  }

  method UrlDecodeInto(src: string, dst: array<char>, plus: bool) returns (di: nat)
    requires dst.Length > 0
    modifies dst
    ensures di < dst.Length && dst[..di] == UrlDecode(src, dst.Length - 1, plus) && dst[di] == '\0'
  {
    di := 0;
    var i, room := 0, dst.Length - 1;
    ghost var written := "";
    DecodingBegins(src, room, plus);
    while i < |src| && di + 1 < dst.Length
      invariant di == |written| <= room && dst[..di] == written && DecodingAt(src, i, room, plus, written)
      decreases |src| - i
    {
      var ch, next := DecodeStep(src, i, room, plus, written);
      dst[di] := ch;
      assert dst[..di + 1] == written + [ch];
      written := written + [ch];
      di := di + 1;
      i := next;
    }
    DecodingEnds(src, i, room, plus, written);
    dst[di] := '\0';
    assert dst[..di] == written;
  }

  // ----- Lines and the request line --------------------------------------------------------------------

  datatype Line = Line(text: string, next: nat)

  /** get_line: up to the next newline, without one trailing CR; None if no newline is buffered. */
  function GetLine(buf: string, p: nat): (l: Option<Line>)
    requires p <= |buf|
    ensures l.Some? ==> p < l.value.next <= |buf|
  {
    var nl := Find(buf, '\n', p);
    if nl == |buf| then None
    else Some(Line(if nl > p && buf[nl - 1] == '\r' then buf[p..nl - 1] else buf[p..nl], nl + 1))
  }

  datatype Method = GET | POST | PUT | DELETE | OTHER

  function MethodOf(name: string): Method {
    if name == "GET" then GET
    else if name == "POST" then POST
    else if name == "PUT" then PUT
    else if name == "DELETE" then DELETE
    else OTHER
  }

  datatype Target = Target(verb: Method, path: string, query: string)

  /** The decoded path up to the question mark, and the raw query behind it. */
  function TargetOf(verb: Method, target: string): Target {
    var q := Find(target, '?', 0);
    Target(verb,
           UrlDecode(target[..q], PATH_MAX - 1, false),
           if q < |target| then target[q + 1..][..Min(|target| - q - 1, QUERY_MAX - 1)] else "")
  }

  /** parse_request_line: None if the line has no space. */
  function RequestLine(line: string): Option<Target> {
    var sp1 := Find(line, ' ', 0);
    if sp1 == |line| then None
    else Some(TargetOf(MethodOf(line[..sp1]), line[sp1 + 1..Find(line, ' ', sp1 + 1)]))
  }

  // ----- Headers -------------------------------------------------------------------------------------------

  const CONTENT_LENGTH := "content-length:"
  const CONNECTION := "connection:"

  /** Where the header block ends, where the last Content-Length value starts (-1: none), and keep-alive. */
  datatype Head = Head(pos: nat, last: int, keepAlive: bool)

  predicate IsLength(text: string) {
    StartsNoCase(text, CONTENT_LENGTH)
  }

  predicate IsKeepAlive(text: string) {
    !IsLength(text) && StartsNoCase(text, CONNECTION) && Contains(text[|CONNECTION|..], "keep-alive")
  }

  /** The header loop from position p; None while the blank line is missing. */
  function Headers(buf: string, p: nat, last: int, keepAlive: bool): (h: Option<Head>)
    requires p <= |buf| && -1 <= last <= |buf|
    ensures h.Some? ==> p < h.value.pos <= |buf| && -1 <= h.value.last <= |buf|
    decreases |buf| - p
  {
    var l := GetLine(buf, p);
    if l.None? then None
    else if l.value.text == "" then Some(Head(l.value.next, last, keepAlive))
    else if IsLength(l.value.text) then Headers(buf, l.value.next, p + |CONTENT_LENGTH|, keepAlive)
    else Headers(buf, l.value.next, last, keepAlive || IsKeepAlive(l.value.text))
  }

  /** Request line and headers together. */
  datatype Prelude = Incomplete | Bad | Ready(target: Target, head: Head)

  function PreludeOf(buf: string): (r: Prelude)
    ensures r.Ready? ==> r.head.pos <= |buf| && -1 <= r.head.last <= |buf|
  {
    var l := GetLine(buf, 0);
    if l.None? then Incomplete
    else
      var t := RequestLine(l.value.text);
      if t.None? then Bad
      else
        var h := Headers(buf, l.value.next, -1, false);
        if h.None? then Incomplete else Ready(t.value, h.value)
  }

  datatype Request = Request(target: Target, contentLength: nat, keepAlive: bool, body: string)

  /** http_parse_request: 0, -1 or the request length. */
  datatype Verdict = More | Malformed | Complete(req: Request, total: nat)

  function ContentLength(buf: string, last: int): nat
    requires -1 <= last <= |buf|
  {
    if last < 0 then 0 else LengthAt(buf, last)
  }

  /** The verdict once the prelude is read and the length of the body is known. */
  function Conclude(buf: string, r: Prelude, cl: nat): Verdict
    requires r.Ready? ==> r.head.pos <= |buf|
  {
    match r
    case Incomplete => More
    case Bad => Malformed
    case Ready(target, head) =>
      if |buf| < head.pos + cl then More
      else Complete(Request(target, cl, head.keepAlive, buf[head.pos..head.pos + cl]), head.pos + cl)
  }

  function Parse(buf: string): (v: Verdict)
    ensures v.Complete? ==> 0 < v.total <= |buf|
  {
    var r := PreludeOf(buf);
    PreludeConsumes(buf);
    Conclude(buf, r, if r.Ready? then ContentLength(buf, r.head.last) else 0)
  }

  lemma {:induction false} PreludeConsumes(buf: string)
    ensures PreludeOf(buf).Ready? ==> PreludeOf(buf).head.pos > 0
  {
  }

  /** One turn of the header loop, given the line at hand. */
  lemma {:induction false} HeadersStep(buf: string, p: nat, last: int, keepAlive: bool, line: Line)
    requires p <= |buf| && -1 <= last <= |buf| && GetLine(buf, p) == Some(line)
    ensures line.text == "" ==> Headers(buf, p, last, keepAlive) == Some(Head(line.next, last, keepAlive))
    ensures IsLength(line.text) ==>
              p + |CONTENT_LENGTH| <= |buf|
              && Headers(buf, p, last, keepAlive) == Headers(buf, line.next, p + |CONTENT_LENGTH|, keepAlive)
    ensures line.text != "" && !IsLength(line.text) ==>
              Headers(buf, p, last, keepAlive) == Headers(buf, line.next, last, keepAlive || IsKeepAlive(line.text))
  {
  }

  /** What is still to be read from `pos` on decides the header block that begins at `start`. */
  ghost predicate HeadersAt(buf: string, start: nat, pos: nat, last: int, keepAlive: bool) {
    && start <= |buf| && pos <= |buf| && -1 <= last <= |buf|
    && Headers(buf, pos, last, keepAlive) == Headers(buf, start, -1, false)
  }

  lemma {:induction false} HeadersUnfold(buf: string, start: nat, pos: nat, last: int, keepAlive: bool, line: Line)
    requires HeadersAt(buf, start, pos, last, keepAlive) && GetLine(buf, pos) == Some(line) && line.text != ""
    ensures |line.text| <= line.next - pos
    ensures IsLength(line.text) ==> HeadersAt(buf, start, line.next, pos + |CONTENT_LENGTH|, keepAlive)
    ensures !IsLength(line.text) ==> HeadersAt(buf, start, line.next, last, keepAlive || IsKeepAlive(line.text))
  {
  }

  /** One header line: the length is overwritten by each Content-Length line. */
  method HeaderLine(buf: string, pos: nat, text: string, contentLength: nat, keepAlive: bool, ghost last: int)
    returns (cl: nat, ka: bool)
    requires pos + |text| <= |buf| && -1 <= last <= |buf| && contentLength == ContentLength(buf, last)
    ensures cl == ContentLength(buf, if IsLength(text) then pos + |CONTENT_LENGTH| else last)
    ensures ka == if IsLength(text) then keepAlive else keepAlive || IsKeepAlive(text)
  {
    cl, ka := contentLength, keepAlive;
    if IsLength(text) {
      cl := LengthAt(buf, pos + |CONTENT_LENGTH|);
    } else if StartsNoCase(text, CONNECTION) {
      if Contains(text[|CONNECTION|..], "keep-alive") {
        ka := true;
      }
    }
  }

  /** The header loop. */
  method ParseHeaders(buf: string, start: nat) returns (found: bool, pos: nat, contentLength: nat, keepAlive: bool)
    requires start <= |buf|
    ensures found == Headers(buf, start, -1, false).Some?
    ensures found ==>
              var h := Headers(buf, start, -1, false).value;
              pos == h.pos && contentLength == ContentLength(buf, h.last) && keepAlive == h.keepAlive
  {
    pos := start;
    contentLength := 0;
    keepAlive := false;
    ghost var last := -1;
    while true
      invariant HeadersAt(buf, start, pos, last, keepAlive) && contentLength == ContentLength(buf, last)
      decreases |buf| - pos
    {
      var l := GetLine(buf, pos);
      if l.None? {
        return false, pos, contentLength, keepAlive;
      }
      if |l.value.text| == 0 {
        return true, l.value.next, contentLength, keepAlive;
      }
      HeadersUnfold(buf, start, pos, last, keepAlive, l.value);
      contentLength, keepAlive := HeaderLine(buf, pos, l.value.text, contentLength, keepAlive, last);
      last := if IsLength(l.value.text) then pos + |CONTENT_LENGTH| else last;
      pos := l.value.next;
    }
  }

  /** http_parse_request. */
  method ParseRequest(buf: string) returns (v: Verdict)
    ensures v == Parse(buf)
  {
    var line := GetLine(buf, 0);
    if line.None? {
      return More;
    }
    var target := RequestLine(line.value.text);
    if target.None? {
      return Malformed;
    }
    var found, p, contentLength, keepAlive := ParseHeaders(buf, line.value.next);
    if !found {
      return More;
    }
    var total := p + contentLength;
    if |buf| < total {
      return More;
    }
    return Complete(Request(target.value, contentLength, keepAlive, buf[p..total]), total);
  }
}
