/** Writing a request, with any mix of line endings, and reading it back. */
module HttpRender {
  import opened Common
  import opened HttpProto
  import opened HttpStability
  import opened Store
  import opened Text

  // ----- Lines --------------------------------------------------------------------------------------

  /** Section 3.5 of RFC 7230: a line may end in CRLF or in a bare LF. */
  function Ending(crlf: bool): string {
    if crlf then "\r\n" else "\n"
  }

  predicate Plain(text: string) {
    '\n' !in text && '\r' !in text
  }

  lemma {:induction false} NewlineAfter(buf: string, p: nat, text: string, crlf: bool, nl: nat)
    requires Plain(text) && At(buf, p, text) && At(buf, p + |text|, Ending(crlf)) && nl == p + |text| + |Ending(crlf)| - 1
    ensures Find(buf, '\n', p) == nl && (nl > p && buf[nl - 1] == '\r' <==> crlf)
  {
    AtIndex(buf, p + |text|, Ending(crlf), |Ending(crlf)| - 1);
    AtIndex(buf, p + |text|, Ending(crlf), 0);
    forall k | p <= k < p + |text| ensures buf[k] != '\n' && buf[k] != '\r' {
      AtIndex(buf, p, text, k - p);
      assert text[k - p] in text;
    }
    FindIs(buf, '\n', p, nl);
  }

  lemma {:induction false} WrittenLine(buf: string, p: nat, text: string, crlf: bool)
    requires Plain(text) && At(buf, p, text + Ending(crlf))
    ensures p <= |buf| && GetLine(buf, p) == Some(Line(text, p + |text| + |Ending(crlf)|))
  {
    AtSplit(buf, p, text, Ending(crlf));
    NewlineAfter(buf, p, text, crlf, p + |text| + |Ending(crlf)| - 1);
  }

  // ----- Percent-encoding -----------------------------------------------------------------------------

  /** Characters that would end or restructure the target if sent as they are. */
  predicate MustEscape(c: char) {
    c == '%' || c == ' ' || c == '?' || c == '\r' || c == '\n'
  }

  /** How one character of a path is written: as it is, or escaped with either case of hex digits. */
  datatype Style = Bare | Upper | Small

  function HexDigit(v: nat, style: Style): (c: char)
    requires v < 16
    ensures Hex(c) == v && !MustEscape(c)
  {
    if v < 10 then ('0' as int + v) as char
    else if style == Small then ('a' as int + v - 10) as char
    else ('A' as int + v - 10) as char
  }

  function EncodeChar(c: char, style: Style): string
    requires style != Bare ==> c as int < 256
  {
    if style == Bare then [c] else ['%', HexDigit(c as int / 16, style), HexDigit(c as int % 16, style)]
  }

  /** A path written with the marked characters escaped. */
  predicate Escapable(path: string, marks: seq<Style>) {
    |marks| == |path| && forall i | 0 <= i < |path| :: if marks[i] == Bare then !MustEscape(path[i]) else path[i] as int < 256
  }

  function EncodePath(path: string, marks: seq<Style>): string
    requires Escapable(path, marks)
  {
    if path == "" then "" else EncodeChar(path[0], marks[0]) + EncodePath(path[1..], marks[1..])
  }

  lemma {:induction false} EncodedIsSafe(path: string, marks: seq<Style>)
    requires Escapable(path, marks)
    ensures var e := EncodePath(path, marks); ' ' !in e && '?' !in e && Plain(e)
  {
    if path != "" {
      EncodedIsSafe(path[1..], marks[1..]);
    }
  }

  lemma {:induction false} DecodeEncodedChar(c: char, style: Style, rest: string)
    requires if style == Bare then !MustEscape(c) else c as int < 256
    ensures NextChar(EncodeChar(c, style) + rest, false) == (c, |EncodeChar(c, style)|)
  {
    var src := EncodeChar(c, style) + rest;
    if style != Bare {
      var hi, lo := c as int / 16, c as int % 16;
      assert src[0] == '%' && src[1] == HexDigit(hi, style) && src[2] == HexDigit(lo, style);
      assert 16 * hi + lo == c as int;
    }
  }

  /** Percent-decoding undoes the encoding, as far as the buffer has room. */
  lemma {:induction false} PathRoundTrip(path: string, marks: seq<Style>, room: nat)
    requires Escapable(path, marks)
    ensures UrlDecode(EncodePath(path, marks), room, false) == Take(path, room)
    decreases |path|
  {
    if path != "" && room > 0 {
      var head, tail := EncodeChar(path[0], marks[0]), EncodePath(path[1..], marks[1..]);
      DecodeEncodedChar(path[0], marks[0], tail);
      assert (head + tail)[|head|..] == tail;
      PathRoundTrip(path[1..], marks[1..], room - 1);
      assert Take(path, room) == [path[0]] + Take(path[1..], room - 1);
    }
  }

  // ----- The request line -------------------------------------------------------------------------------

  /** The word a method is written as; every other word means some other method. */
  predicate Spells(name: string, verb: Method) {
    match verb
    case GET => name == "GET"
    case POST => name == "POST"
    case PUT => name == "PUT"
    case DELETE => name == "DELETE"
    case OTHER => name !in {"GET", "POST", "PUT", "DELETE"}
  }

  /** Method, target and optional version; without a version the line ends after the target. */
  datatype RequestText = RequestText(
    verb: Method, name: string, path: string, marks: seq<Style>, query: Option<string>, version: Option<string>)

  predicate Sendable(r: RequestText) {
    && Spells(r.name, r.verb) && Plain(r.name) && ' ' !in r.name
    && Escapable(r.path, r.marks)
    && (r.query.Some? ==> Plain(r.query.value) && ' ' !in r.query.value)
    && (r.version.Some? ==> Plain(r.version.value))
  }

  function TargetText(r: RequestText): string
    requires Sendable(r)
  {
    EncodePath(r.path, r.marks) + if r.query.Some? then "?" + r.query.value else ""
  }

  function RequestLineText(r: RequestText): string
    requires Sendable(r)
  {
    WordsText(r.name, TargetText(r), r.version)
  }

  function WordsText(name: string, target: string, version: Option<string>): string {
    name + " " + target + if version.Some? then " " + version.value else ""
  }

  /** What the parser should make of it: path and query as far as their buffers go. */
  function Meant(r: RequestText): Target {
    Target(r.verb, Take(r.path, PATH_MAX - 1), if r.query.Some? then Take(r.query.value, QUERY_MAX - 1) else "")
  }

  lemma {:induction false} FindInParts(a: string, c: char, b: string)
    requires c !in a
    ensures Find(a + [c] + b, c, 0) == |a| && Find(a, c, 0) == |a|
  {
    var s := a + [c] + b;
    forall k | 0 <= k < |a| ensures s[k] != c && a[k] != c {
      assert a[k] in a;
    }
    FindIs(s, c, 0, |a|);
    FindIs(a, c, 0, |a|);
  }

  lemma {:induction false} FindAfter(a: string, b: string, c: char)
    ensures Find(a + b, c, |a|) == |a| + Find(b, c, 0)
  {
    var i := Find(b, c, 0);
    forall k | |a| <= k < |a| + i ensures (a + b)[k] != c {
      assert (a + b)[k] == b[k - |a|];
    }
    FindIs(a + b, c, |a|, |a| + i);
  }

  lemma {:induction false} TargetIsSafe(r: RequestText)
    requires Sendable(r)
    ensures ' ' !in TargetText(r) && Plain(TargetText(r)) && Plain(RequestLineText(r))
  {
    EncodedIsSafe(r.path, r.marks);
  }

  /** Where the target ends and how it splits at the question mark. */
  lemma {:induction false} TargetSplits(r: RequestText)
    requires Sendable(r)
    ensures var t := TargetText(r);
      var q := Find(t, '?', 0);
      && t[..q] == EncodePath(r.path, r.marks)
      && (q < |t| <==> r.query.Some?)
      && (r.query.Some? ==> t[q + 1..] == r.query.value)
  {
    var e := EncodePath(r.path, r.marks);
    EncodedIsSafe(r.path, r.marks);
    if r.query.Some? {
      FindInParts(e, '?', r.query.value);
      assert TargetText(r) == e + ['?'] + r.query.value;
    } else {
      FindInParts(e, '?', "");
      assert TargetText(r) == e;
    }
  }

  lemma {:induction false} SecondWord(a: string, t: string, rest: string, line: string)
    requires line == a + [' '] + rest && ' ' !in a && t <= rest && ' ' !in t
    requires |t| < |rest| ==> rest[|t|] == ' '
    ensures Find(line, ' ', 0) == |a| && line[..|a|] == a
    ensures Find(line, ' ', |a| + 1) == |a| + 1 + |t| && line[|a| + 1..|a| + 1 + |t|] == t
  {
    FindInParts(a, ' ', rest);
    forall k | 0 <= k < |t| ensures rest[k] != ' ' {
      assert t[k] in t;
    }
    FindIs(rest, ' ', 0, |t|);
    FindAfter(a + [' '], rest, ' ');
  }

  lemma {:induction false} WordsSplit(name: string, target: string, version: Option<string>, line: string)
    requires line == WordsText(name, target, version) && ' ' !in name && ' ' !in target
    ensures Find(line, ' ', 0) == |name| < |line| && line[..|name|] == name
    ensures line[|name| + 1..Find(line, ' ', |name| + 1)] == target
  {
    var rest := target + if version.Some? then " " + version.value else "";
    assert line == name + [' '] + rest;
    SecondWord(name, target, rest, line);
  }

  lemma {:induction false} RequestLineSplits(r: RequestText)
    requires Sendable(r)
    ensures var line := RequestLineText(r);
      var sp := Find(line, ' ', 0);
      && sp < |line| && line[..sp] == r.name
      && line[sp + 1..Find(line, ' ', sp + 1)] == TargetText(r)
  {
    TargetIsSafe(r);
    WordsSplit(r.name, TargetText(r), r.version, RequestLineText(r));
  }

  /** What the two searches find decides the whole line. */
  lemma {:induction false} RequestLineIs(line: string, sp: nat, verb: Method, t: string, q: nat, path: string, query: string)
    requires Find(line, ' ', 0) == sp < |line| && line[sp + 1..Find(line, ' ', sp + 1)] == t && Spells(line[..sp], verb)
    requires Find(t, '?', 0) == q && UrlDecode(t[..q], PATH_MAX - 1, false) == path
    requires query == if q < |t| then Take(t[q + 1..], QUERY_MAX - 1) else ""
    ensures RequestLine(line) == Some(Target(verb, path, query))
  {
    assert MethodOf(line[..sp]) == verb;
    TargetIs(verb, t, q, path, query);
  }

  lemma {:induction false} TargetIs(verb: Method, t: string, q: nat, path: string, query: string)
    requires Find(t, '?', 0) == q && UrlDecode(t[..q], PATH_MAX - 1, false) == path
    requires query == if q < |t| then Take(t[q + 1..], QUERY_MAX - 1) else ""
    ensures TargetOf(verb, t) == Target(verb, path, query)
  {
  }

  /** A written request line parses to the method it spells, its path and its query. */
  lemma {:induction false} RequestLineRoundTrip(r: RequestText)
    requires Sendable(r)
    ensures RequestLine(RequestLineText(r)) == Some(Meant(r))
  {
    var line, t := RequestLineText(r), TargetText(r);
    RequestLineSplits(r);
    TargetSplits(r);
    PathRoundTrip(r.path, r.marks, PATH_MAX - 1);
    RequestLineIs(line, Find(line, ' ', 0), r.verb, t, Find(t, '?', 0), Meant(r).path, Meant(r).query);
  }

  // ----- Headers ---------------------------------------------------------------------------------------------

  /** The word in any mix of upper and lower case. */
  predicate Spelled(text: string, word: string) {
    |text| == |word| && forall i | 0 <= i < |word| ::
      text[i] == word[i] || ('A' <= text[i] <= 'Z' && text[i] as int + 32 == word[i] as int)
  }

  predicate HasField(text: string, field: string) {
    |text| >= |field| && Spelled(text[..|field|], field)
  }

  /** A header line that asks for a connection that stays open. */
  ghost predicate Asks(text: string) {
    HasField(text, "connection:") && exists k: nat :: k >= 11 && At(text, k, "keep-alive")
  }

  lemma {:induction false} FieldIs(text: string, field: string)
    requires forall c | c in field :: !('A' <= c <= 'Z')
    ensures StartsNoCase(text, field) <==> HasField(text, field)
  {
    assert forall i | 0 <= i < |field| :: field[i] in field;
    if |text| >= |field| {
      assert forall i | 0 <= i < |field| :: text[..|field|][i] == text[i];
    }
  }

  lemma {:induction false} ContainsIs(s: string, pat: string)
    ensures Contains(s, pat) <==> exists k: nat :: At(s, k, pat)
    decreases |s|
  {
    if pat <= s {
      assert At(s, 0, pat);
    } else if s != "" {
      ContainsIs(s[1..], pat);
      if k: nat :| At(s[1..], k, pat) {
        AtShift(s, 1, k, pat);
      }
      if k: nat :| At(s, k, pat) {
        AtFirst(s, k, pat);
        AtShift(s, 1, k - 1, pat);
      }
    }
  }

  lemma {:induction false} AtFirst(s: string, k: nat, pat: string)
    requires At(s, k, pat) && !(pat <= s)
    ensures k > 0
  {
    assert s[0..|s|] == s;
    if k == 0 {
      assert false;
    }
  }

  /** The two fields the parser looks at, in any case. */
  lemma {:induction false} LengthFieldIs(text: string)
    ensures IsLength(text) <==> HasField(text, "content-length:")
  {
    FieldIs(text, CONTENT_LENGTH);
  }

  lemma {:induction false} FieldsDiffer(text: string)
    requires HasField(text, "connection:")
    ensures !HasField(text, "content-length:")
  {
    assert text[..11][3] == text[3];
    assert |text| >= 15 ==> text[..15][3] == text[3];
  }

  lemma {:induction false} KeepAliveIs(text: string)
    ensures IsKeepAlive(text) <==> Asks(text)
  {
    FieldIs(text, CONNECTION);
    LengthFieldIs(text);
    if HasField(text, "connection:") {
      FieldsDiffer(text);
      ContainsIs(text[11..], "keep-alive");
      if k: nat :| At(text[11..], k, "keep-alive") {
        AtShift(text, 11, k, "keep-alive");
      }
      if k: nat :| k >= 11 && At(text, k, "keep-alive") {
        AtShift(text, 11, k - 11, "keep-alive");
      }
    }
  }

  /** One header line, and how it ends. */
  datatype HeaderText = HeaderText(text: string, crlf: bool)

  predicate AnyHeader(h: HeaderText) {
    h.text != "" && Plain(h.text)
  }

  /** A header line other than Content-Length. */
  predicate PlainHeader(h: HeaderText) {
    AnyHeader(h) && !HasField(h.text, "content-length:")
  }

  function LineText(h: HeaderText): string {
    h.text + Ending(h.crlf)
  }

  function LinesText(hs: seq<HeaderText>): string {
    if hs == [] then "" else LineText(hs[0]) + LinesText(hs[1..])
  }

  /** Some header line asks for a connection that stays open. */
  ghost predicate AsksKeepAlive(hs: seq<HeaderText>) {
    hs != [] && (Asks(hs[0].text) || AsksKeepAlive(hs[1..]))
  }

  lemma {:induction false} HeaderLineIs(buf: string, p: nat, text: string, last: int, keepAlive: bool, next: nat,
                                        isLength: bool, asks: bool, last': int)
    requires p <= |buf| && -1 <= last <= |buf| && GetLine(buf, p) == Some(Line(text, next)) && text != ""
    requires isLength == IsLength(text) && asks == IsKeepAlive(text)
    requires last' == if isLength then p + |CONTENT_LENGTH| else last
    ensures next <= |buf| && -1 <= last' <= |buf|
    ensures Headers(buf, p, last, keepAlive) == Headers(buf, next, last', keepAlive || asks)
  {
    HeadersStep(buf, p, last, keepAlive, Line(text, next));
    if isLength {
      assert !asks;
    }
  }

  lemma {:induction false} HeaderLineRead(buf: string, p: nat, h: HeaderText, last: int, keepAlive: bool, next: nat) returns (last': int)
    requires AnyHeader(h) && At(buf, p, LineText(h)) && -1 <= last <= |buf| && next == p + |LineText(h)|
    ensures next <= |buf| && -1 <= last' <= |buf| && (PlainHeader(h) ==> last' == last)
    ensures Headers(buf, p, last, keepAlive) == Headers(buf, next, last', keepAlive || Asks(h.text))
  {
    LengthFieldIs(h.text);
    KeepAliveIs(h.text);
    WrittenLine(buf, p, h.text, h.crlf);
    last' := if IsLength(h.text) then p + |CONTENT_LENGTH| else last;
    HeaderLineIs(buf, p, h.text, last, keepAlive, next, IsLength(h.text), IsKeepAlive(h.text), last');
  }

  predicate AllAny(hs: seq<HeaderText>) {
    forall i | 0 <= i < |hs| :: AnyHeader(hs[i])
  }

  predicate AllPlain(hs: seq<HeaderText>) {
    forall i | 0 <= i < |hs| :: PlainHeader(hs[i])
  }

  lemma {:induction false} HeadersTail(hs: seq<HeaderText>)
    requires hs != [] && AllAny(hs)
    ensures AnyHeader(hs[0]) && AllAny(hs[1..]) && (AllPlain(hs) ==> PlainHeader(hs[0]) && AllPlain(hs[1..]))
  {
  }

  lemma {:induction false} LinesSplit(buf: string, p: nat, hs: seq<HeaderText>)
    requires hs != [] && At(buf, p, LinesText(hs))
    ensures At(buf, p, LineText(hs[0])) && At(buf, p + |LineText(hs[0])|, LinesText(hs[1..]))
    ensures |LinesText(hs)| == |LineText(hs[0])| + |LinesText(hs[1..])|
  {
    AtSplit(buf, p, LineText(hs[0]), LinesText(hs[1..]));
  }

  /** A block of headers is consumed, noting a keep-alive; only a Content-Length moves where the length is read. */
  lemma {:induction false} HeaderLinesRead(buf: string, p: nat, hs: seq<HeaderText>, last: int, keepAlive: bool,
                                           end: nat, kaEnd: bool) returns (last': int)
    requires AllAny(hs) && At(buf, p, LinesText(hs)) && -1 <= last <= |buf|
    requires end == p + |LinesText(hs)| && kaEnd == (keepAlive || AsksKeepAlive(hs))
    ensures -1 <= last' <= |buf| && (AllPlain(hs) ==> last' == last)
    ensures Headers(buf, p, last, keepAlive) == Headers(buf, end, last', kaEnd)
    decreases |hs|
  {
    last' := last;
    if hs != [] {
      var next := p + |LineText(hs[0])|;
      HeadersTail(hs);
      LinesSplit(buf, p, hs);
      var last1 := HeaderLineRead(buf, p, hs[0], last, keepAlive, next);
      last' := HeaderLinesRead(buf, next, hs[1..], last1, keepAlive || Asks(hs[0].text), end, kaEnd);
    }
  }

  // ----- Content-Length ---------------------------------------------------------------------------------------

  function Decimal(n: nat): (d: string)
    ensures d != "" && forall c | c in d :: IsDigit(c)
  {
    if n < 10 then [('0' as int + n) as char] else Decimal(n / 10) + [('0' as int + n % 10) as char]
  }

  lemma {:induction false} DecimalValue(n: nat)
    ensures Value(Decimal(n)) == n
  {
    if n < 10 {
      assert Decimal(n)[..0] == "";
    } else {
      DecimalValue(n / 10);
      ValueSnoc(Decimal(n / 10), ('0' as int + n % 10) as char);
    }
  }

  /** The field name in any case, blanks, an optional plus sign, the length, and anything that is no digit after it. */
  datatype LengthText = LengthText(name: string, blanks: string, plus: bool, junk: string, crlf: bool)

  predicate Blank(c: char) {
    c == ' ' || c == '\t' || c as int == 11 || c as int == 12
  }

  predicate ValidLength(l: LengthText) {
    && Spelled(l.name, "content-length:") && (forall c | c in l.blanks :: Blank(c))
    && Plain(l.junk) && (l.junk != "" ==> !('0' <= l.junk[0] <= '9'))
  }

  /** Blanks, sign and digits. */
  function NumberText(blanks: string, sign: string, n: nat): string {
    blanks + (sign + Decimal(n))
  }

  function LengthLineText(l: LengthText, n: nat): string {
    l.name + (NumberText(l.blanks, if l.plus then "+" else "", n) + l.junk)
  }

  lemma {:induction false} BlanksAt(buf: string, p: nat, blanks: string)
    requires (forall c | c in blanks :: Blank(c)) && At(buf, p, blanks)
    requires var q := p + |blanks|; q < |buf| && !IsSpace(buf[q])
    ensures SkipSpace(buf, p) == p + |blanks|
  {
    forall k | p <= k < p + |blanks| ensures IsSpace(buf[k]) {
      AtIndex(buf, p, blanks, k - p);
      assert blanks[k - p] in blanks;
    }
    SkipSpaceIs(buf, p, p + |blanks|);
  }

  lemma {:induction false} DigitsEnd(buf: string, q: nat, d: string)
    requires (forall c | c in d :: IsDigit(c)) && At(buf, q, d) && (q + |d| < |buf| ==> !IsDigit(buf[q + |d|]))
    ensures SkipDigits(buf, q) == q + |d| && buf[q..SkipDigits(buf, q)] == d
  {
    forall k | q <= k < q + |d| ensures IsDigit(buf[k]) {
      AtIndex(buf, q, d, k - q);
      assert d[k - q] in d;
    }
    SkipDigitsIs(buf, q, q + |d|);
  }

  /** Where strtol finds the sign and the digits of a written number. */
  lemma {:induction false} NumberStarts(buf: string, p: nat, blanks: string, sign: string, d: string)
    requires (forall c | c in blanks :: Blank(c)) && sign in {"", "+", "-"} && d != "" && IsDigit(d[0])
    requires At(buf, p, blanks + (sign + d))
    ensures At(buf, p + |blanks| + |sign|, d) && p <= |buf|
    ensures DigitsStart(buf, p) == p + |blanks| + |sign| && (Negative(buf, p) <==> sign == "-")
  {
    AtSplit(buf, p, blanks, sign + d);
    var q := p + |blanks|;
    AtSplit(buf, q, sign, d);
    AtIndex(buf, q, sign + d, 0);
    BlanksAt(buf, p, blanks);
  }

  lemma {:induction false} DigitsRead(buf: string, p: nat, blanks: string, sign: string, d: string)
    requires (forall c | c in blanks :: Blank(c)) && sign in {"", "+", "-"} && d != "" && (forall c | c in d :: IsDigit(c))
    requires At(buf, p, blanks + (sign + d))
    requires var e := p + |blanks| + |sign| + |d|; e < |buf| ==> !IsDigit(buf[e])
    ensures p <= |buf| && Digits(buf, p) == d && (Negative(buf, p) <==> sign == "-")
  {
    assert d[0] in d;
    NumberStarts(buf, p, blanks, sign, d);
    DigitsEnd(buf, p + |blanks| + |sign|, d);
  }

  /** strtol on a written number: the number, saturated; 0 if it is negative. */
  lemma {:induction false} NumberRead(buf: string, p: nat, blanks: string, sign: string, n: nat)
    requires (forall c | c in blanks :: Blank(c)) && sign in {"", "+", "-"}
    requires At(buf, p, NumberText(blanks, sign, n))
    requires var e := p + |NumberText(blanks, sign, n)|; e < |buf| ==> !IsDigit(buf[e])
    ensures LengthAt(buf, p) == if sign == "-" then 0 else Min(n, LONG_MAX)
  {
    DigitsRead(buf, p, blanks, sign, Decimal(n));
    DecimalValue(n);
  }

  lemma {:induction false} LengthLineIsOne(l: LengthText, n: nat)
    requires ValidLength(l)
    ensures Plain(LengthLineText(l, n)) && IsLength(LengthLineText(l, n)) && |l.name| == |CONTENT_LENGTH|
  {
    var text := LengthLineText(l, n);
    assert text[..|l.name|] == l.name;
    LengthFieldIs(text);
    assert Plain(l.name) by {
      var word := "content-length:";
      assert forall i | 0 <= i < |word| :: word[i] in word;
      assert forall c | c in word :: c as int > 32;
    }
    assert Plain(NumberText(l.blanks, if l.plus then "+" else "", n));
  }

  /** The first character after the digits is not one. */
  lemma {:induction false} AfterNumber(l: LengthText)
    requires ValidLength(l)
    ensures var rest := l.junk + Ending(l.crlf); rest != "" && !IsDigit(rest[0])
  {
  }

  lemma {:induction false} LengthValueRead(buf: string, p: nat, l: LengthText, n: nat)
    requires ValidLength(l) && At(buf, p, LengthLineText(l, n) + Ending(l.crlf))
    ensures p + |l.name| <= |buf| && LengthAt(buf, p + |l.name|) == Min(n, LONG_MAX)
  {
    var sign := if l.plus then "+" else "";
    var number, rest := NumberText(l.blanks, sign, n), l.junk + Ending(l.crlf);
    Regroup(l.name, number + l.junk, Ending(l.crlf));
    Regroup(number, l.junk, Ending(l.crlf));
    AtSplit(buf, p, l.name, number + rest);
    AtSplit(buf, p + |l.name|, number, rest);
    AfterNumber(l);
    AtIndex(buf, p + |l.name| + |number|, rest, 0);
    NumberRead(buf, p + |l.name|, l.blanks, sign, n);
  }

  lemma {:induction false} LengthTextRead(buf: string, p: nat, text: string, crlf: bool, last: int, keepAlive: bool, end: nat, at: nat)
    requires Plain(text) && IsLength(text) && At(buf, p, text + Ending(crlf)) && -1 <= last <= |buf|
    requires end == p + |text| + |Ending(crlf)| && at == p + |CONTENT_LENGTH|
    ensures at <= |buf| && end <= |buf| && Headers(buf, p, last, keepAlive) == Headers(buf, end, at, keepAlive)
  {
    WrittenLine(buf, p, text, crlf);
    HeadersStep(buf, p, last, keepAlive, Line(text, end));
  }

  lemma {:induction false} LengthLineRead(buf: string, p: nat, l: LengthText, n: nat, last: int, keepAlive: bool, end: nat, at: nat)
    requires ValidLength(l) && At(buf, p, LengthLineText(l, n) + Ending(l.crlf)) && -1 <= last <= |buf|
    requires end == p + |LengthLineText(l, n) + Ending(l.crlf)| && at == p + |l.name|
    ensures at <= |buf| && Headers(buf, p, last, keepAlive) == Headers(buf, end, at, keepAlive)
  {
    LengthLineIsOne(l, n);
    LengthTextRead(buf, p, LengthLineText(l, n), l.crlf, last, keepAlive, end, at);
  }

  // ----- The whole request --------------------------------------------------------------------------------------

  /**
   A request. The last Content-Length line gives the length of the body; earlier
   ones do not matter, and without any there is no body.
   */
  datatype Message = Message(
    request: RequestText, crlf: bool,
    before: seq<HeaderText>, length: Option<LengthText>, after: seq<HeaderText>,
    blankCrlf: bool, body: string)

  predicate WellFormed(m: Message) {
    && Sendable(m.request) && |m.body| <= LONG_MAX
    && AllAny(m.before) && AllPlain(m.after)
    && (if m.length.Some? then ValidLength(m.length.value) else m.body == "" && AllPlain(m.before))
  }

  function FirstLine(m: Message): string
    requires WellFormed(m)
  {
    RequestLineText(m.request) + Ending(m.crlf)
  }

  function LengthLine(m: Message): string
    requires WellFormed(m)
  {
    if m.length.None? then "" else LengthLineText(m.length.value, |m.body|) + Ending(m.length.value.crlf)
  }

  function HeadText(m: Message): string
    requires WellFormed(m)
  {
    FirstLine(m) + (LinesText(m.before) + (LengthLine(m) + (LinesText(m.after) + Ending(m.blankCrlf))))
  }

  function Render(m: Message): string
    requires WellFormed(m)
  {
    HeadText(m) + m.body
  }

  lemma {:induction false} BlankLineRead(buf: string, p: nat, crlf: bool, last: int, keepAlive: bool, pos: nat)
    requires At(buf, p, Ending(crlf)) && -1 <= last <= |buf| && pos == p + |Ending(crlf)|
    ensures Headers(buf, p, last, keepAlive) == Some(Head(pos, last, keepAlive))
  {
    assert "" + Ending(crlf) == Ending(crlf);
    WrittenLine(buf, p, "", crlf);
  }

  /** Where the parts of a head end. */
  datatype Layout = Layout(p0: nat, p1: nat, p2: nat, p3: nat, pos: nat)

  ghost predicate PartsAt(buf: string, y: Layout, first: string, before: string, length: string, after: string, blank: string) {
    && At(buf, 0, first) && y.p0 == |first|
    && At(buf, y.p0, before) && y.p1 == y.p0 + |before|
    && At(buf, y.p1, length) && y.p2 == y.p1 + |length|
    && At(buf, y.p2, after) && y.p3 == y.p2 + |after|
    && At(buf, y.p3, blank) && y.pos == y.p3 + |blank|
  }

  ghost predicate LaidOut(buf: string, m: Message, y: Layout)
    requires WellFormed(m)
  {
    PartsAt(buf, y, FirstLine(m), LinesText(m.before), LengthLine(m), LinesText(m.after), Ending(m.blankCrlf))
  }

  lemma {:induction false} FourParts(buf: string, p: nat, a: string, b: string, c: string, d: string, s: string)
    requires At(buf, p, s) && s == a + (b + (c + d))
    ensures At(buf, p, a) && At(buf, p + |a|, b) && At(buf, p + |a| + |b|, c) && At(buf, p + |a| + |b| + |c|, d)
    ensures |s| == |a| + |b| + |c| + |d|
  {
    AtSplit(buf, p, a, b + (c + d));
    AtSplit(buf, p + |a|, b, c + d);
    AtSplit(buf, p + |a| + |b|, c, d);
  }

  lemma {:induction false} FiveParts(buf: string, first: string, a: string, b: string, c: string, d: string, s: string) returns (y: Layout)
    requires At(buf, 0, s) && s == first + (a + (b + (c + d)))
    ensures PartsAt(buf, y, first, a, b, c, d) && y.pos == |s|
  {
    var p, rest := |first|, a + (b + (c + d));
    AtSplit(buf, 0, first, rest);
    FourParts(buf, p, a, b, c, d, rest);
    y := Layout(p, p + |a|, p + |a| + |b|, p + |a| + |b| + |c|, p + |a| + |b| + |c| + |d|);
  }

  lemma {:induction false} HeadLayout(buf: string, m: Message) returns (y: Layout)
    requires WellFormed(m) && At(buf, 0, HeadText(m))
    ensures LaidOut(buf, m, y) && y.pos == |HeadText(m)|
  {
    y := FiveParts(buf, FirstLine(m), LinesText(m.before), LengthLine(m), LinesText(m.after), Ending(m.blankCrlf), HeadText(m));
  }

  /** Where the length value begins, -1 without one. */
  function ValueAt(m: Message, y: Layout): int {
    if m.length.None? then -1 else y.p1 + |m.length.value.name|
  }

  lemma {:induction false} LengthPartRead(buf: string, p1: nat, l: LengthText, n: nat, last: int, ka: bool, p2: nat, at: nat)
    requires ValidLength(l) && -1 <= last <= |buf| && At(buf, p1, LengthLineText(l, n) + Ending(l.crlf)) && n <= LONG_MAX
    requires p2 == p1 + |LengthLineText(l, n) + Ending(l.crlf)| && at == p1 + |l.name|
    ensures at <= |buf| && Headers(buf, p1, last, ka) == Headers(buf, p2, at, ka) && ContentLength(buf, at) == n
  {
    LengthValueRead(buf, p1, l, n);
    LengthLineRead(buf, p1, l, n, last, ka, p2, at);
  }

  /** The part between the other headers reads back, whether it is there or not. */
  lemma {:induction false} OptionalLengthRead(buf: string, m: Message, y: Layout, at: int, last: int, ka: bool)
    requires WellFormed(m) && LaidOut(buf, m, y) && at == ValueAt(m, y) && -1 <= last <= |buf| && (m.length.None? ==> last == -1)
    ensures -1 <= at <= |buf| && Headers(buf, y.p1, last, ka) == Headers(buf, y.p2, at, ka) && ContentLength(buf, at) == |m.body|
  {
    match m.length
    case None => assert y.p2 == y.p1;
    case Some(l) => LengthPartRead(buf, y.p1, l, |m.body|, last, ka, y.p2, at);
  }

  /** The header block reads back as written. */
  lemma {:induction false} HeadersRead(buf: string, m: Message, y: Layout, at: int, ka1: bool, ka2: bool)
    requires WellFormed(m) && LaidOut(buf, m, y) && at == ValueAt(m, y)
    requires ka1 == AsksKeepAlive(m.before) && ka2 == (ka1 || AsksKeepAlive(m.after))
    ensures y.p0 <= |buf| && -1 <= at <= |buf| && ContentLength(buf, at) == |m.body|
    ensures Headers(buf, y.p0, -1, false) == Some(Head(y.pos, at, ka2))
  {
    var last := HeaderLinesRead(buf, y.p0, m.before, -1, false, y.p1, ka1);
    OptionalLengthRead(buf, m, y, at, last, ka1);
    var unmoved := HeaderLinesRead(buf, y.p2, m.after, at, ka1, y.p3, ka2);
    BlankLineRead(buf, y.p3, m.blankCrlf, at, ka2, y.pos);
  }

  lemma {:induction false} FirstLineRead(buf: string, r: RequestText, crlf: bool, p0: nat)
    requires Sendable(r) && At(buf, 0, RequestLineText(r) + Ending(crlf)) && p0 == |RequestLineText(r) + Ending(crlf)|
    ensures GetLine(buf, 0) == Some(Line(RequestLineText(r), p0))
  {
    TargetIsSafe(r);
    WrittenLine(buf, 0, RequestLineText(r), crlf);
  }

  lemma {:induction false} PreludeIs(buf: string, text: string, p0: nat, target: Target, h: Head)
    requires GetLine(buf, 0) == Some(Line(text, p0)) && RequestLine(text) == Some(target)
    requires Headers(buf, p0, -1, false) == Some(h)
    ensures PreludeOf(buf) == Ready(target, h)
  {
  }

  /** Everything up to the body reads back as written. */
  lemma {:induction false} HeadRead(buf: string, m: Message, ka: bool) returns (at: int)
    requires WellFormed(m) && At(buf, 0, HeadText(m)) && ka == (AsksKeepAlive(m.before) || AsksKeepAlive(m.after))
    ensures -1 <= at <= |buf| && ContentLength(buf, at) == |m.body|
    ensures PreludeOf(buf) == Ready(Meant(m.request), Head(|HeadText(m)|, at, ka))
  {
    var y := HeadLayout(buf, m);
    at := ValueAt(m, y);
    FirstLineRead(buf, m.request, m.crlf, y.p0);
    RequestLineRoundTrip(m.request);
    HeadersRead(buf, m, y, at, AsksKeepAlive(m.before), ka);
    PreludeIs(buf, RequestLineText(m.request), y.p0, Meant(m.request), Head(y.pos, at, ka));
  }

  lemma {:induction false} ParseReady(buf: string, target: Target, pos: nat, last: int, keepAlive: bool, body: string)
    requires -1 <= last <= |buf| && PreludeOf(buf) == Ready(target, Head(pos, last, keepAlive)) && ContentLength(buf, last) == |body|
    requires pos + |body| == |buf| && buf[pos..] == body
    ensures Parse(buf) == Complete(Request(target, |body|, keepAlive, body), |buf|)
  {
    assert buf[pos..|buf|] == body;
  }

  /** A rendered request parses to the same fields, and its length is the whole text. */
  lemma {:induction false} RequestRoundTrip(m: Message)
    requires WellFormed(m)
    ensures Parse(Render(m))
         == Complete(Request(Meant(m.request), |m.body|, AsksKeepAlive(m.before) || AsksKeepAlive(m.after), m.body), |Render(m)|)
  {
    var buf, head := Render(m), HeadText(m);
    var ka := AsksKeepAlive(m.before) || AsksKeepAlive(m.after);
    assert buf[0..|head|] == head;
    var at := HeadRead(buf, m, ka);
    assert buf[|head|..] == m.body;
    ParseReady(buf, Meant(m.request), |head|, at, ka, m.body);
  }

  // ----- An unstable verdict ---------------------------------------------------------------------------

  const GET_ROOT := RequestText(GET, "GET", "/", [Bare], None, None)
  const BARE_LENGTH := "Content-Length:"

  /** A request whose Content-Length value is blank. */
  function BlankLength(): string
    requires Sendable(GET_ROOT)
  {
    (RequestLineText(GET_ROOT) + "\n") + ((BARE_LENGTH + "\n") + "\n")
  }

  lemma {:induction false} BareLengthLine(text: string)
    requires text == BARE_LENGTH
    ensures Plain(text) && IsLength(text) && |text| == |CONTENT_LENGTH|
  {
  }

  lemma {:induction false} BlankLengthHeaders(buf: string, p: nat, end: nat)
    requires At(buf, p, (BARE_LENGTH + "\n") + "\n") && end == p + |BARE_LENGTH|
    ensures end + 2 <= |buf| && buf[end] == buf[end + 1] == '\n'
    ensures Headers(buf, p, -1, false) == Some(Head(end + 2, end, false))
  {
    AtSplit(buf, p, BARE_LENGTH + "\n", "\n");
    AtSplit(buf, p, BARE_LENGTH, "\n");
    AtIndex(buf, end, "\n", 0);
    AtIndex(buf, end + 1, "\n", 0);
    BareLengthLine(BARE_LENGTH);
    WrittenLine(buf, p, BARE_LENGTH, false);
    HeadersStep(buf, p, -1, false, Line(BARE_LENGTH, end + 1));
    BlankLineRead(buf, end + 1, false, end, false, end + 2);
  }

  lemma {:induction false} BlankValue(buf: string, end: nat)
    requires |buf| == end + 2 && buf[end] == buf[end + 1] == '\n'
    ensures LengthAt(buf, end) == 0 && ScanEnd(buf, end) == |buf| && !Negative(buf, end)
  {
    SkipSpaceIs(buf, end, |buf|);
    assert Digits(buf, end) == "";
  }

  lemma {:induction false} BlankLengthParses(buf: string, line: string, p: nat, target: Target, end: nat)
    requires GetLine(buf, 0) == Some(Line(line, p)) && RequestLine(line) == Some(target)
    requires At(buf, p, (BARE_LENGTH + "\n") + "\n") && end == p + |BARE_LENGTH| && |buf| == end + 2
    ensures Parse(buf) == Complete(Request(target, 0, false, ""), |buf|) && LengthExposed(buf)
  {
    BlankLengthHeaders(buf, p, end);
    PreludeIs(buf, line, p, target, Head(end + 2, end, false));
    BlankValue(buf, end);
    ParseReady(buf, target, end + 2, end, false, "");
  }

  /** It is accepted as it stands, and no longer once one digit of a body follows. */
  lemma {:induction false} BlankLengthIsUnstable()
    ensures Sendable(GET_ROOT)
    ensures Parse(BlankLength()).Complete? && Parse(BlankLength()).total == |BlankLength()|
    ensures Parse(BlankLength() + "9") != Parse(BlankLength())
  {
    assert Sendable(GET_ROOT);
    var line := RequestLineText(GET_ROOT);
    var buf, first, rest := BlankLength(), line + "\n", (BARE_LENGTH + "\n") + "\n";
    assert buf[0..|buf|] == first + rest;
    AtSplit(buf, 0, first, rest);
    FirstLineRead(buf, GET_ROOT, false, |first|);
    RequestLineRoundTrip(GET_ROOT);
    BlankLengthParses(buf, line, |first|, Meant(GET_ROOT), |first| + |BARE_LENGTH|);
    ExposedVerdictChanges(buf);
  }
}
