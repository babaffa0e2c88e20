/**
 What a client puts into a POST, what the scanner gets out of it, and what is
 stored of it.
 */
module ClientPayload {
  import opened Common
  import opened Store
  import opened Rooms
  import opened Json
  import opened Posting
  import opened Text

  // ----- The client's payload ---------------------------------------------------------------------

  /** QuoteJSONString of ECMAScript (section 25.5.2.3) on one character. */
  function StringifyChar(c: char): string {
    if c == 8 as char then "\\b" else if c == 12 as char then "\\f" else EscapeChar(c)
  }

  function Stringify(s: string): string {
    if s == "" then "" else StringifyChar(s[0]) + Stringify(s[1..])
  }

  /** Whitespace as section 2 of RFC 8259 allows it. */
  predicate Space(c: char) {
    c == ' ' || c == '\t' || c == '\n' || c == '\r'
  }

  ghost predicate Spaces(s: string) {
    forall c | c in s :: Space(c)
  }

  /** The whitespace of a payload: behind the brace, around the colons and the comma, before the last brace. */
  datatype Spacing = Spacing(
    open: string, beforeColon: string, afterColon: string, beforeComma: string, afterComma: string,
    beforeColon2: string, afterColon2: string, close: string)

  const TIGHT := Spacing("", "", "", "", "", "", "", "")

  ghost predicate ValidSpacing(p: Spacing) {
    && Spaces(p.open) && Spaces(p.beforeColon) && Spaces(p.afterColon) && Spaces(p.beforeComma) && Spaces(p.afterComma)
    && Spaces(p.beforeColon2) && Spaces(p.afterColon2) && Spaces(p.close)
  }

  function Colon(before: string, after: string): string {
    before + (":" + after)
  }

  function Comma(p: Spacing): string {
    p.beforeComma + ("," + p.afterComma)
  }

  /** The payload from the text's value on. */
  function ValueText(p: Spacing, text: string): string {
    Stringify(text) + ("\"" + (p.close + "}"))
  }

  /** The payload behind the name. */
  function Back(p: Spacing, value: string): string {
    Comma(p) + (Quoted("body") + (Colon(p.beforeColon2, p.afterColon2) + ("\"" + value)))
  }

  /** An object with a user and a body, with any whitespace JSON allows; e is the escaped name. */
  function Written(p: Spacing, e: string, value: string): string {
    ("{" + p.open) + (Quoted("user") + (Colon(p.beforeColon, p.afterColon) + ("\"" + (e + ("\"" + Back(p, value))))))
  }

  function SpacedPayload(p: Spacing, name: string, text: string): string {
    Written(p, Stringify(name), ValueText(p, text))
  }

  /** JSON.stringify of a user and a body (web/app.js). */
  function Payload(name: string, text: string): string {
    "{\"user\":\"" + Stringify(name) + "\",\"body\":\"" + Stringify(text) + "\"}"
  }

  /** A name that sanitizing leaves alone. */
  ghost predicate LegalName(name: string) {
    1 <= |name| < USER_MAX && forall c | c in name :: NameChar(c)
  }

  /** A control character the scanner cannot decode. */
  predicate OddControl(c: char) {
    c < ' ' && c != '\n' && c != '\r' && c != '\t'
  }

  ghost predicate NoOddControls(s: string) {
    forall c | c in s :: !OddControl(c)
  }

  lemma {:induction false} NameStringify(name: string)
    requires forall c | c in name :: NameChar(c)
    ensures Stringify(name) == name
  {
    if name != "" {
      assert name[0] in name;
      NameStringify(name[1..]);
    }
  }

  // ----- What the scanner makes of it -------------------------------------------------------------

  lemma {:induction false} UnquoteChar(c: char, more: string, room: nat)
    requires room > 0
    ensures !OddControl(c) ==> Unquote(StringifyChar(c) + more, room) == [c] + Unquote(more, room - 1)
    ensures OddControl(c) ==> var v := Unquote(StringifyChar(c) + more, room); v != "" && v[0] in {'b', 'f', 'u'}
  {
    var t := StringifyChar(c) + more;
    if !OddControl(c) {
      assert t[|StringifyChar(c)|..] == more;
    }
  }

  /** v stands for w: it is w when w has no odd control, and even its sanitized form differs otherwise. */
  ghost predicate Faithful(v: string, w: string) {
    && (NoOddControls(w) ==> v == w)
    && (!NoOddControls(w) ==> CleanText(v) != CleanText(w))
  }

  lemma {:induction false} FaithfulCons(c: char, v: string, w: string)
    requires !OddControl(c) && Faithful(v, w)
    ensures Faithful([c] + v, [c] + w)
  {
    if NoOddControls([c] + w) {
      assert forall x | x in w :: x in [c] + w;
    } else {
      assert !NoOddControls(w);
      assert CleanText([c] + v)[1..] == CleanText(v);
      assert CleanText([c] + w)[1..] == CleanText(w);
    }
  }

  lemma {:induction false} OddIsLost(c: char, v: string, w: string)
    requires OddControl(c) && v != "" && v[0] in {'b', 'f', 'u'}
    ensures Faithful(v, [c] + w)
  {
    assert ([c] + w)[0] == c && c in [c] + w;
    assert CleanText(v)[0] != CleanText([c] + w)[0];
  }

  /** Up to the room, the scanner returns the text; it does so exactly for texts without odd controls. */
  lemma {:induction false} UnquoteStringify(t: string, tail: string, room: nat)
    ensures Faithful(Unquote(Stringify(t) + ("\"" + tail), room), Take(t, room))
  {
    var quote := "\"" + tail;
    if room == 0 {
    } else if t == "" {
      assert Stringify(t) + quote == quote;
    } else {
      var more := Stringify(t[1..]) + quote;
      Regroup(StringifyChar(t[0]), Stringify(t[1..]), quote);
      assert Take(t, room) == [t[0]] + Take(t[1..], room - 1);
      UnquoteChar(t[0], more, room);
      if OddControl(t[0]) {
        OddIsLost(t[0], Unquote(StringifyChar(t[0]) + more, room), Take(t[1..], room - 1));
      } else {
        UnquoteStringify(t[1..], tail, room - 1);
        FaithfulCons(t[0], Unquote(more, room - 1), Take(t[1..], room - 1));
      }
    }
  }

  // ----- Where the keys are ------------------------------------------------------------------------

  lemma {:induction false} MatchIs(s: string, pat: string, i: nat)
    requires At(s, i, pat) && forall k | 0 <= k < i :: !At(s, k, pat)
    ensures Match(s, pat, 0) == Some(i)
  {
  }

  /** Every backslash is the first of a pair, and quotes are only escaped ones. */
  predicate Balanced(e: string)
    decreases |e|
  {
    e == ""
    || (e[0] == '\\' && |e| > 1 && Balanced(e[2..]))
    || (e[0] != '\\' && e[0] != '"' && Balanced(e[1..]))
  }

  lemma {:induction false} BalancedAppend(a: string, b: string)
    requires Balanced(a) && Balanced(b)
    ensures Balanced(a + b)
    decreases |a|
  {
    if a == "" {
      assert a + b == b;
    } else if a[0] == '\\' {
      assert (a + b)[2..] == a[2..] + b;
      BalancedAppend(a[2..], b);
    } else {
      assert (a + b)[1..] == a[1..] + b;
      BalancedAppend(a[1..], b);
    }
  }

  lemma {:induction false} PlainIsBalanced(s: string)
    requires '\\' !in s && '"' !in s
    ensures Balanced(s)
  {
    if s != "" {
      assert s[0] in s;
      PlainIsBalanced(s[1..]);
    }
  }

  lemma {:induction false} StringifyCharBalanced(c: char)
    ensures Balanced(StringifyChar(c))
  {
    var e := StringifyChar(c);
    PlainIsBalanced(if |e| == 1 then e else e[2..]);
  }

  lemma {:induction false} StringifyBalanced(s: string)
    ensures Balanced(Stringify(s))
  {
    if s != "" {
      StringifyCharBalanced(s[0]);
      StringifyBalanced(s[1..]);
      BalancedAppend(StringifyChar(s[0]), Stringify(s[1..]));
    }
  }

  lemma {:induction false} BalancedQuotes(e: string, i: nat)
    requires Balanced(e) && i < |e| && e[i] == '"'
    ensures i > 0 && e[i - 1] == '\\'
    decreases |e|
  {
    if e[0] == '\\' {
      if i > 1 {
        assert e[2..][i - 2] == e[i];
        BalancedQuotes(e[2..], i - 2);
      }
    } else {
      assert e[1..][i - 1] == e[i];
      BalancedQuotes(e[1..], i - 1);
    }
  }

  /** The scanner stops at the quote behind a balanced text. */
  lemma {:induction false} UnquoteStops(e: string, tail: string, room: nat)
    requires Balanced(e)
    ensures Unquote(e + ("\"" + tail), room) == Unquote(e, room)
    decreases |e|
  {
    var t := e + ("\"" + tail);
    if e == "" {
      assert t == "\"" + tail;
    } else if room > 0 {
      if e[0] == '\\' {
        assert t[1] == e[1] && t[2..] == e[2..] + ("\"" + tail);
        UnquoteStops(e[2..], tail, room - 1);
      } else {
        assert t[1..] == e[1..] + ("\"" + tail);
        UnquoteStops(e[1..], tail, room - 1);
      }
    }
  }

  /** Where the parts of a payload begin. */
  datatype Places = Places(user: nat, colon: nat, name: nat, quote: nat, body: nat, colon2: nat, text: nat)

  ghost predicate FrontAt(s: string, p: Spacing, e: string, y: Places) {
    && At(s, 0, "{" + p.open) && y.user == 1 + |p.open|
    && At(s, y.user, Quoted("user")) && y.colon == y.user + 6
    && At(s, y.colon, Colon(p.beforeColon, p.afterColon)) && y.name == y.colon + |Colon(p.beforeColon, p.afterColon)|
    && At(s, y.name, "\"") && At(s, y.name + 1, e) && y.quote == y.name + 1 + |e| && At(s, y.quote, "\"")
  }

  ghost predicate BackAt(s: string, p: Spacing, value: string, y: Places) {
    && At(s, y.quote + 1, Comma(p)) && y.body == y.quote + 1 + |Comma(p)|
    && At(s, y.body, Quoted("body")) && y.colon2 == y.body + 6
    && At(s, y.colon2, Colon(p.beforeColon2, p.afterColon2)) && y.text == y.colon2 + |Colon(p.beforeColon2, p.afterColon2)|
    && y.text < |s| && s[y.text] == '"' && s[y.text + 1..] == value
  }

  ghost predicate PlacedAt(s: string, p: Spacing, e: string, value: string, y: Places) {
    FrontAt(s, p, e, y) && BackAt(s, p, value, y)
  }

  /** What follows a key: the colon, the value in quotes, and the rest. */
  lemma {:induction false} FieldPlaces(s: string, k: nat, colon: string, e: string, rest: string)
    requires k <= |s| && s[k..] == colon + ("\"" + (e + ("\"" + rest)))
    ensures var n := k + |colon|; var q := n + 1 + |e|;
      && At(s, k, colon) && At(s, n, "\"") && At(s, n + 1, e) && At(s, q, "\"") && q < |s| && s[q + 1..] == rest
  {
    var t2 := e + ("\"" + rest);
    var n := k + |colon|;
    var q := n + 1 + |e|;
    Following(s, k, colon, "\"" + t2);
    Following(s, n, "\"", t2);
    Following(s, n + 1, e, "\"" + rest);
    Following(s, q, "\"", rest);
  }

  lemma {:induction false} Following(s: string, k: nat, a: string, b: string)
    requires k <= |s| && s[k..] == a + b
    ensures At(s, k, a) && s[k + |a|..] == b
  {
    assert s[k..][..|a|] == s[k..k + |a|];
    assert s[k..][|a|..] == s[k + |a|..];
  }

  lemma {:induction false} KeyPlaces(s: string, k: nat, gap: string, key: string, rest: string)
    requires k <= |s| && s[k..] == gap + (key + rest)
    ensures At(s, k, gap) && At(s, k + |gap|, key) && s[k + |gap| + |key|..] == rest && s[k + |gap|..] == key + rest
  {
    Following(s, k, gap, key + rest);
    Following(s, k + |gap|, key, rest);
  }

  lemma {:induction false} FrontPlaces(s: string, front: string, key: string, rest: string)
    requires s == front + (key + rest)
    ensures At(s, 0, front) && At(s, |front|, key) && s[|front| + |key|..] == rest
  {
    assert s[0..] == s;
    KeyPlaces(s, 0, front, key, rest);
  }

  lemma {:induction false} ValuePlace(s: string, k: nat, colon: string, value: string)
    requires k <= |s| && s[k..] == colon + ("\"" + value)
    ensures var t := k + |colon|; At(s, k, colon) && t < |s| && s[t] == '"' && s[t + 1..] == value
  {
    KeyPlaces(s, k, colon, "\"", value);
    AtIndex(s, k + |colon|, "\"", 0);
  }

  /** From the comma on. */
  lemma {:induction false} BackPlaces(s: string, k: nat, comma: string, body: string, colon: string, value: string)
    requires k <= |s| && s[k..] == comma + (body + (colon + ("\"" + value)))
    ensures var b := k + |comma|; var c := b + |body|; var t := c + |colon|;
      && At(s, k, comma) && At(s, b, body) && At(s, c, colon) && t < |s| && s[t] == '"' && s[t + 1..] == value
      && s[c..] == colon + ("\"" + value)
  {
    var rest := colon + ("\"" + value);
    KeyPlaces(s, k, comma, body, rest);
    ValuePlace(s, k + |comma| + |body|, colon, value);
  }

  lemma {:induction false} LaidParts(s: string, front: string, user: string, colon: string, e: string, back: string)
    requires s == front + (user + (colon + ("\"" + (e + ("\"" + back)))))
    ensures var u := |front|; var c := u + |user|; var n := c + |colon|; var q := n + 1 + |e|;
      && At(s, 0, front) && At(s, u, user) && At(s, c, colon) && At(s, n, "\"") && At(s, n + 1, e) && At(s, q, "\"")
      && q < |s| && s[q + 1..] == back
  {
    var rest := colon + ("\"" + (e + ("\"" + back)));
    FrontPlaces(s, front, user, rest);
    FieldPlaces(s, |front| + |user|, colon, e, back);
  }

  function PlacesOf(p: Spacing, e: string): Places {
    var u := 1 + |p.open|;
    var n := u + 6 + |Colon(p.beforeColon, p.afterColon)|;
    var q := n + 1 + |e|;
    var b := q + 1 + |Comma(p)|;
    Places(u, u + 6, n, q, b, b + 6, b + 6 + |Colon(p.beforeColon2, p.afterColon2)|)
  }

  lemma {:induction false} FrontIsAt(s: string, p: Spacing, e: string, value: string, y: Places)
    requires s == Written(p, e, value) && y == PlacesOf(p, e)
    ensures FrontAt(s, p, e, y)
    ensures s[y.quote + 1..] == Back(p, value)
  {
    LaidParts(s, "{" + p.open, Quoted("user"), Colon(p.beforeColon, p.afterColon), e, Back(p, value));
  }

  lemma {:induction false} ColonFollows(s: string, p: Spacing, e: string, value: string, y: Places)
    requires s == Written(p, e, value) && y == PlacesOf(p, e)
    ensures s[y.colon..] == Colon(p.beforeColon, p.afterColon) + ("\"" + (e + ("\"" + Back(p, value))))
  {
    FrontPlaces(s, "{" + p.open, Quoted("user"), Colon(p.beforeColon, p.afterColon) + ("\"" + (e + ("\"" + Back(p, value)))));
  }

  lemma {:induction false} BackIsAt(s: string, p: Spacing, e: string, value: string, y: Places)
    requires y == PlacesOf(p, e) && y.quote < |s| && s[y.quote + 1..] == Back(p, value)
    ensures BackAt(s, p, value, y)
    ensures s[y.colon2..] == Colon(p.beforeColon2, p.afterColon2) + ("\"" + value)
  {
    BackPlaces(s, y.quote + 1, Comma(p), Quoted("body"), Colon(p.beforeColon2, p.afterColon2), value);
  }

  lemma {:induction false} LaidDown(s: string, p: Spacing, e: string, value: string) returns (y: Places)
    requires s == Written(p, e, value)
    ensures PlacedAt(s, p, e, value, y)
    ensures s[y.colon..] == Colon(p.beforeColon, p.afterColon) + ("\"" + (e + ("\"" + Back(p, value))))
    ensures s[y.quote + 1..] == Back(p, value)
    ensures s[y.colon2..] == Colon(p.beforeColon2, p.afterColon2) + ("\"" + value)
  {
    y := PlacesOf(p, e);
    FrontIsAt(s, p, e, value, y);
    ColonFollows(s, p, e, value, y);
    BackIsAt(s, p, e, value, y);
  }

  /** What is no quote and no letter of the word body. */
  predicate Quiet(c: char) {
    Space(c) || c == ':' || c == ',' || c == '{'
  }

  lemma {:induction false} QuietAt(s: string, k: nat, pat: string)
    requires At(s, k, pat) && forall c | c in pat :: Quiet(c)
    ensures forall i | k <= i < k + |pat| :: Quiet(s[i])
  {
    forall i | k <= i < k + |pat| ensures Quiet(s[i]) {
      AtIndex(s, k, pat, i - k);
      assert pat[i - k] in pat;
    }
  }

  lemma {:induction false} QuietParts(s: string, p: Spacing, e: string, value: string, y: Places)
    requires ValidSpacing(p) && PlacedAt(s, p, e, value, y)
    ensures forall i | 0 <= i < y.user || y.colon <= i < y.name || y.quote < i < y.body :: Quiet(s[i])
    ensures 0 < y.user && y.colon < y.name && y.quote + 1 < y.body
  {
    QuietAt(s, 0, "{" + p.open);
    QuietAt(s, y.colon, Colon(p.beforeColon, p.afterColon));
    QuietAt(s, y.quote + 1, Comma(p));
  }

  lemma {:induction false} KeyChars(s: string, k: nat, key: string)
    requires At(s, k, key) && |key| == 6
    ensures s[k] == key[0] && s[k + 1] == key[1] && s[k + 2] == key[2] && s[k + 3] == key[3] && s[k + 4] == key[4] && s[k + 5] == key[5]
  {
    AtIndex(s, k, key, 0);
    AtIndex(s, k, key, 1);
    AtIndex(s, k, key, 2);
    AtIndex(s, k, key, 3);
    AtIndex(s, k, key, 4);
    AtIndex(s, k, key, 5);
  }

  /** The quotes and the letters around the name, and the name itself. */
  lemma {:induction false} LoudParts(s: string, p: Spacing, e: string, value: string, y: Places)
    requires PlacedAt(s, p, e, value, y)
    ensures s[y.user] == '"' && s[y.user + 1] == 'u' && s[y.user + 2] == 's' && s[y.user + 3] == 'e' && s[y.user + 4] == 'r' && s[y.user + 5] == '"'
    ensures s[y.name] == '"' && s[y.quote] == '"'
    ensures forall i | y.name < i < y.quote :: s[i] == e[i - y.name - 1]
  {
    KeyChars(s, y.user, Quoted("user"));
    AtIndex(s, y.name, "\"", 0);
    AtIndex(s, y.quote, "\"", 0);
    forall i | y.name < i < y.quote ensures s[i] == e[i - y.name - 1] {
      AtIndex(s, y.name + 1, e, i - y.name - 1);
    }
  }

  lemma {:induction false} UserKeyFirst(s: string, p: Spacing, e: string, value: string, y: Places)
    requires ValidSpacing(p) && PlacedAt(s, p, e, value, y)
    ensures Match(s, Quoted("user"), 0) == Some(y.user)
  {
    QuietParts(s, p, e, value, y);
    forall k | 0 <= k < y.user ensures !At(s, k, Quoted("user")) {
      if At(s, k, Quoted("user")) {
        AtIndex(s, k, Quoted("user"), 0);
        assert false;
      }
    }
    MatchIs(s, Quoted("user"), y.user);
  }

  /** Up to the middle of the key of the body, a quote behind a y can only be the one that closes the name. */
  lemma {:induction false} QuoteBehindY(s: string, p: Spacing, e: string, value: string, y: Places, z: nat)
    requires ValidSpacing(p) && Balanced(e) && PlacedAt(s, p, e, value, y)
    requires 0 < z < y.body + 5 && s[z] == '"' && s[z - 1] == 'y'
    ensures z == y.quote
  {
    QuietParts(s, p, e, value, y);
    LoudParts(s, p, e, value, y);
    if y.name < z < y.quote {
      BalancedQuotes(e, z - y.name - 1);
    } else if y.body < z {
      AtIndex(s, y.body, Quoted("body"), z - y.body);
    }
  }

  /** In front of its own key the payload can hold the quoted word body only at the end of the name. */
  lemma {:induction false} EarlyBodyKey(s: string, p: Spacing, e: string, value: string, y: Places, k: nat)
    requires ValidSpacing(p) && Balanced(e) && PlacedAt(s, p, e, value, y) && k < y.body && At(s, k, Quoted("body"))
    ensures k + 5 == y.quote
  {
    assert Quoted("body") == "\"body\"";
    AtIndex(s, k, Quoted("body"), 4);
    AtIndex(s, k, Quoted("body"), 5);
    QuoteBehindY(s, p, e, value, y, k + 5);
  }

  /** The escaped name is the word body, or ends in a quote and that word. */
  predicate Shadows(e: string) {
    e == "body" || (|e| >= 5 && e[|e| - 5..] == "\"body")
  }

  /** The six characters that end with the name's closing quote are the quoted word exactly under such a name. */
  lemma {:induction false} ShadowTail(w: string, e: string)
    requires |w| == 6 && w[5] == '"'
    requires |e| >= 5 ==> w[..5] == e[|e| - 5..]
    requires |e| < 5 ==> w[4 - |e|] == '"' && w[5 - |e|..5] == e
    ensures w == "\"body\"" <==> Shadows(e)
  {
    assert w == w[..5] + ['"'];
    assert w == "\"body\"" <==> w[..5] == "\"body" by {
      assert "\"body\"" == "\"body" + ['"'] && "\"body\""[..5] == "\"body";
    }
    if |e| == 4 {
      assert w[..5] == ['"'] + w[1..5];
      assert "\"body" == ['"'] + "body" && "\"body"[1..] == "body" && w[..5][1..] == w[1..5];
    } else if |e| < 4 {
      assert w[..5][4 - |e|] == '"';
    }
  }

  lemma {:induction false} BeforeQuote(s: string, n: nat, e: string, q: nat)
    requires At(s, n, "\"") && At(s, n + 1, e) && q == n + 1 + |e| && At(s, q, "\"") && n >= 4
    ensures At(s, q - 5, "\"body\"") <==> Shadows(e)
  {
    var w := s[q - 5..q + 1];
    AtIndex(s, n, "\"", 0);
    AtIndex(s, q, "\"", 0);
    if |e| >= 5 {
      var a, b := e[..|e| - 5], e[|e| - 5..];
      assert e == a + b;
      AtSplit(s, n + 1, a, b);
      assert w[..5] == s[q - 5..q];
    } else {
      assert w[5 - |e|..5] == s[q - |e|..q];
      assert w[4 - |e|] == s[n];
    }
    ShadowTail(w, e);
  }

  lemma {:induction false} ShadowOccurs(s: string, p: Spacing, e: string, value: string, y: Places)
    requires PlacedAt(s, p, e, value, y)
    ensures y.quote >= 5 && (At(s, y.quote - 5, Quoted("body")) <==> Shadows(e))
  {
    assert Quoted("body") == "\"body\"";
    BeforeQuote(s, y.name, e, y.quote);
  }

  // ----- What the scanner skips ------------------------------------------------------------------------

  ghost predicate NoLineEnd(s: string) {
    '\n' !in s && '\r' !in s
  }

  /** The scanner gets past the colon and its blanks exactly if there is no line end among them. */
  lemma {:induction false} SkipColon(colon: string, rest: string)
    requires (forall c | c in colon :: Space(c) || c == ':') && rest != "" && rest[0] == '"'
    ensures NoLineEnd(colon) ==> SkipMarks(colon + rest) == rest
    ensures !NoLineEnd(colon) ==> var t := SkipMarks(colon + rest); t != "" && t[0] != '"'
  {
    if colon == "" {
      assert colon + rest == rest;
    } else {
      assert colon[0] in colon;
      assert (colon + rest)[1..] == colon[1..] + rest;
      assert colon == [colon[0]] + colon[1..];
      SkipColon(colon[1..], rest);
    }
  }

  /** A comma stops it. */
  lemma {:induction false} SkipComma(before: string, rest: string)
    requires Spaces(before)
    ensures var t := SkipMarks(before + ("," + rest)); t != "" && t[0] != '"'
  {
    var s := before + ("," + rest);
    if before == "" {
      assert s == "," + rest;
    } else {
      assert before[0] in before;
      assert s[1..] == before[1..] + ("," + rest);
      SkipComma(before[1..], rest);
    }
  }

  lemma {:induction false} ValueAfter(s: string, key: string, i: nat, colon: string, value: string, size: nat)
    requires size > 0 && Match(s, Quoted(key), 0) == Some(i) && (forall c | c in colon :: Space(c) || c == ':')
    requires s[i + |Quoted(key)|..] == colon + ("\"" + value)
    ensures GetString(s, key, size) == if NoLineEnd(colon) then Some(Unquote(value, size - 1)) else None
  {
    SkipColon(colon, "\"" + value);
    assert ("\"" + value)[1..] == value;
  }

  /** A comma behind the key: no value. */
  lemma {:induction false} CommaStops(s: string, i: nat, p: Spacing, value: string)
    requires Match(s, Quoted("body"), 0) == Some(i) && Spaces(p.beforeComma)
    requires i + 6 <= |s| && s[i + 6..] == Back(p, value)
    ensures GetString(s, "body", BODY_MAX).None?
  {
    CommaFirst(p.beforeComma, p.afterComma, Quoted("body") + (Colon(p.beforeColon2, p.afterColon2) + ("\"" + value)));
  }

  lemma {:induction false} CommaFirst(before: string, after: string, rest: string)
    requires Spaces(before)
    ensures var t := SkipMarks((before + ("," + after)) + rest); t != "" && t[0] != '"'
  {
    Regroup(before, "," + after, rest);
    Regroup(",", after, rest);
    SkipComma(before, after + rest);
  }

  // ----- What is stored ------------------------------------------------------------------------------

  /** The name as the scanner returns it. */
  function ScannedName(name: string): string {
    Unquote(Stringify(name), USER_MAX - 1)
  }

  lemma {:induction false} UserIsRead(s: string, p: Spacing, e: string, value: string)
    requires ValidSpacing(p) && Balanced(e) && s == Written(p, e, value)
    ensures GetString(s, "user", USER_MAX)
         == if NoLineEnd(Colon(p.beforeColon, p.afterColon)) then Some(Unquote(e, USER_MAX - 1)) else None
  {
    var y := LaidDown(s, p, e, value);
    UserKeyFirst(s, p, e, value, y);
    ValueAfter(s, "user", y.user, Colon(p.beforeColon, p.afterColon), e + ("\"" + Back(p, value)), USER_MAX);
    UnquoteStops(e, Back(p, value), USER_MAX - 1);
  }

  lemma {:induction false} ShadowKeyIsFirst(s: string, p: Spacing, e: string, value: string, y: Places)
    requires ValidSpacing(p) && Balanced(e) && Shadows(e) && PlacedAt(s, p, e, value, y)
    ensures y.quote >= 5 && Match(s, Quoted("body"), 0) == Some(y.quote - 5)
  {
    ShadowOccurs(s, p, e, value, y);
    var k0 := y.quote - 5;
    forall k | 0 <= k < k0 ensures !At(s, k, Quoted("body")) {
      if At(s, k, Quoted("body")) {
        EarlyBodyKey(s, p, e, value, y, k);
      }
    }
    MatchIs(s, Quoted("body"), k0);
  }

  lemma {:induction false} ShadowedAt(s: string, p: Spacing, e: string, value: string, y: Places)
    requires ValidSpacing(p) && Balanced(e) && Shadows(e) && PlacedAt(s, p, e, value, y)
    requires s[y.quote + 1..] == Back(p, value)
    ensures GetString(s, "body", BODY_MAX).None?
  {
    ShadowKeyIsFirst(s, p, e, value, y);
    var i := y.quote - 5;
    assert i + 6 == y.quote + 1;
    CommaStops(s, i, p, value);
  }

  /** Such a name hides the key: its occurrence comes first and no value follows it. */
  lemma {:induction false} BodyIsShadowed(s: string, p: Spacing, e: string, value: string)
    requires ValidSpacing(p) && Balanced(e) && Shadows(e) && s == Written(p, e, value)
    ensures GetString(s, "body", BODY_MAX).None?
  {
    var y := LaidDown(s, p, e, value);
    ShadowedAt(s, p, e, value, y);
  }

  lemma {:induction false} BodyKeyIsFirst(s: string, p: Spacing, e: string, value: string, y: Places)
    requires ValidSpacing(p) && Balanced(e) && !Shadows(e) && PlacedAt(s, p, e, value, y)
    ensures Match(s, Quoted("body"), 0) == Some(y.body)
  {
    ShadowOccurs(s, p, e, value, y);
    forall k | 0 <= k < y.body ensures !At(s, k, Quoted("body")) {
      if At(s, k, Quoted("body")) {
        EarlyBodyKey(s, p, e, value, y, k);
      }
    }
    MatchIs(s, Quoted("body"), y.body);
  }

  /** Under any other name the key of the body is found. */
  lemma {:induction false} BodyIsFound(s: string, p: Spacing, e: string, value: string)
    requires ValidSpacing(p) && Balanced(e) && !Shadows(e) && s == Written(p, e, value)
    ensures GetString(s, "body", BODY_MAX)
         == if NoLineEnd(Colon(p.beforeColon2, p.afterColon2)) then Some(Unquote(value, BODY_MAX - 1)) else None
  {
    var y := LaidDown(s, p, e, value);
    BodyKeyIsFirst(s, p, e, value, y);
    ValueAfter(s, "body", y.body, Colon(p.beforeColon2, p.afterColon2), value, BODY_MAX);
  }

  lemma {:induction false} StringifyNoControls(s: string)
    ensures forall c | c in Stringify(s) :: c >= ' '
  {
    if s != "" {
      StringifyNoControls(s[1..]);
      assert forall c | c in StringifyChar(s[0]) :: c >= ' ';
    }
  }

  lemma {:induction false} UnquoteNoNul(t: string, room: nat)
    requires '\0' !in t
    ensures '\0' !in Unquote(t, room)
    decreases |t|
  {
    if t == "" || t[0] == '"' || room == 0 {
    } else if t[0] == '\\' && |t| > 1 {
      assert t[1] in t;
      UnquoteNoNul(t[2..], room - 1);
    } else {
      assert t[0] in t;
      UnquoteNoNul(t[1..], room - 1);
    }
  }

  /** The value the scanner takes out of the payload. */
  lemma {:induction false} TextIsRead(p: Spacing, text: string, v: string)
    requires ValidSpacing(p) && v == Unquote(ValueText(p, text), BODY_MAX - 1)
    ensures (v == "" <==> text == "") && CStr(v) == v && Faithful(v, Take(text, BODY_MAX - 1))
  {
    var close := p.close + "}";
    UnquoteStringify(text, close, BODY_MAX - 1);
    if text != "" {
      var more := Stringify(text[1..]) + ("\"" + close);
      Regroup(StringifyChar(text[0]), Stringify(text[1..]), "\"" + close);
      UnquoteChar(text[0], more, BODY_MAX - 1);
    }
    StringifyNoControls(text);
    assert '\0' !in p.close;
    UnquoteNoNul(ValueText(p, text), BODY_MAX - 1);
    NoNulIsWhole(v);
  }

  lemma {:induction false} NoNulIsWhole(v: string)
    requires '\0' !in v
    ensures CStr(v) == v
  {
  }

  /** The scanned name has no NUL, and is the first 31 characters exactly as far as the scanner can decode them. */
  lemma {:induction false} NameIsScanned(name: string)
    ensures CStr(ScannedName(name)) == ScannedName(name) && Faithful(ScannedName(name), Take(name, USER_MAX - 1))
  {
    StringifyBalanced(name);
    UnquoteStops(Stringify(name), "", USER_MAX - 1);
    UnquoteStringify(name, "", USER_MAX - 1);
    StringifyNoControls(name);
    UnquoteNoNul(Stringify(name), USER_MAX - 1);
    NoNulIsWhole(ScannedName(name));
  }

  ghost predicate Usable(v: Option<string>, size: nat) {
    v.Some? ==> CStr(v.value) == v.value && |v.value| < size
  }

  lemma {:induction false} EntryOf(s: string, u: Option<string>, v: Option<string>)
    requires GetString(s, "user", USER_MAX) == u && Usable(u, USER_MAX)
    requires GetString(s, "body", BODY_MAX) == v && Usable(v, BODY_MAX)
    ensures Entry(s) == if u.None? || v.None? || v.value == "" || CleanName(u.value) == "" then None
                        else Some((CleanName(u.value), CleanText(v.value)))
  {
    if u.Some? {
      CleanNameKeepsNames(u.value);
      assert Take(CleanName(u.value), USER_MAX - 1) == CleanName(u.value);
    }
    if v.Some? {
      assert Take(CleanText(v.value), BODY_MAX - 1) == CleanText(v.value);
    }
  }

  /** No line end around a colon: the only whitespace of JSON that the scanner does not skip there. */
  ghost predicate NoLineEnds(p: Spacing) {
    NoLineEnd(Colon(p.beforeColon, p.afterColon)) && NoLineEnd(Colon(p.beforeColon2, p.afterColon2))
  }

  /**
   An object with a user and a body, however spaced, is accepted exactly if its
   text is not empty, its name does not hide the key of the text, a name
   character of it survives and no line ends around a colon; the text is stored
   sanitized exactly when the scanner can decode it.
   */
  lemma {:induction false} SpacedPostStores(p: Spacing, name: string, text: string)
    requires ValidSpacing(p)
    ensures var e := Entry(SpacedPayload(p, name, text));
      && (e.Some? <==> text != "" && !Shadows(Stringify(name)) && CleanName(ScannedName(name)) != "" && NoLineEnds(p))
      && (e.Some? ==>
          && e.value.0 == CleanName(ScannedName(name))
          && (e.value.1 == CleanText(Take(text, BODY_MAX - 1)) <==> NoOddControls(Take(text, BODY_MAX - 1))))
  {
    var s, e, value := SpacedPayload(p, name, text), Stringify(name), ValueText(p, text);
    StringifyBalanced(name);
    UserIsRead(s, p, e, value);
    NameIsScanned(name);
    TextIsRead(p, text, Unquote(value, BODY_MAX - 1));
    if Shadows(e) {
      BodyIsShadowed(s, p, e, value);
    } else {
      BodyIsFound(s, p, e, value);
    }
    EntryOf(s, GetString(s, "user", USER_MAX), GetString(s, "body", BODY_MAX));
  }

  lemma {:induction false} TightWritten(e: string, v: string)
    ensures Written(TIGHT, e, v) == "{\"user\":\"" + (e + ("\",\"body\":\"" + v))
  {
    assert Colon("", "") == ":" && Comma(TIGHT) == "," && "{" + "" == "{";
    var t5 := Quoted("body") + (":" + ("\"" + v));
    assert t5 == "\"body\":\"" + v;
    var t4 := "\"" + ("," + t5);
    assert t4 == "\",\"body\":\"" + v;
    assert Quoted("user") + (":" + ("\"" + (e + t4))) == "\"user\":\"" + (e + t4);
  }

  lemma {:induction false} PayloadIsTight(name: string, text: string)
    ensures ValidSpacing(TIGHT) && NoLineEnds(TIGHT) && Payload(name, text) == SpacedPayload(TIGHT, name, text)
  {
    var e, v := Stringify(name), Stringify(text);
    assert Colon("", "") == ":";
    assert "\"" + ("" + "}") == "\"}";
    TightWritten(e, v + "\"}");
    var a, b := "{\"user\":\"", "\",\"body\":\"";
    Regroup(a + e + b, v, "\"}");
    Regroup(a + e, b, v + "\"}");
    Regroup(a, e, b + (v + "\"}"));
  }

  /** The same for what the client sends, which has no whitespace. */
  lemma {:induction false} AnyPostStores(name: string, text: string)
    ensures var e := Entry(Payload(name, text));
      && (e.Some? <==> text != "" && !Shadows(Stringify(name)) && CleanName(ScannedName(name)) != "")
      && (e.Some? ==>
          && e.value.0 == CleanName(ScannedName(name))
          && (e.value.1 == CleanText(Take(text, BODY_MAX - 1)) <==> NoOddControls(Take(text, BODY_MAX - 1))))
  {
    PayloadIsTight(name, text);
    SpacedPostStores(TIGHT, name, text);
  }

  lemma {:induction false} LegalNameShadows(name: string)
    requires LegalName(name)
    ensures Shadows(name) <==> name == "body"
  {
    assert |name| >= 5 ==> name[|name| - 5..][0] == name[|name| - 5] && name[|name| - 5] in name;
  }

  lemma {:induction false} LegalNameIsKept(name: string)
    requires LegalName(name)
    ensures CleanName(ScannedName(name)) == name && (Shadows(Stringify(name)) <==> name == "body")
  {
    NameStringify(name);
    LegalNameShadows(name);
    NameIsScanned(name);
    assert Take(name, USER_MAX - 1) == name;
    assert NoOddControls(name);
    CleanNameKeepsNames(name);
  }

  /** For a legal name: accepted unless the name is the word body, and stored under that name. */
  lemma {:induction false} PostStores(name: string, text: string)
    requires LegalName(name) && text != ""
    ensures var e := Entry(Payload(name, text));
      && (e.Some? <==> name != "body")
      && (e.Some? ==>
          && e.value.0 == name
          && (e.value.1 == CleanText(Take(text, BODY_MAX - 1)) <==> NoOddControls(Take(text, BODY_MAX - 1))))
  {
    AnyPostStores(name, text);
    LegalNameIsKept(name);
  }

  /** Whatever the text, a post by the user body stores nothing. */
  lemma {:induction false} BodyCannotPost(text: string)
    ensures LegalName("body") && Entry(Payload("body", text)).None?
  {
    var name := "body";
    assert LegalName(name);
    NameStringify(name);
    AnyPostStores(name, text);
  }
}
