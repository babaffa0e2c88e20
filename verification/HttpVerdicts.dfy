/** What the request parser answers, said of the bytes alone. */
module HttpVerdicts {
  import opened Common
  import opened Store
  import opened HttpProto
  import opened HttpStability

  // ----- Malformed requests ------------------------------------------------------------------------

  /** The first line ends at n and has no space. */
  predicate OneWordLine(buf: string, n: nat) {
    n < |buf| && buf[n] == '\n' && forall k | 0 <= k < n :: buf[k] != '\n' && buf[k] != ' '
  }

  lemma {:induction false} NoSpaceIs(line: string)
    ensures RequestLine(line).None? <==> ' ' !in line
  {
    var sp := Find(line, ' ', 0);
    if ' ' in line {
      var k :| 0 <= k < |line| && line[k] == ' ';
      assert sp <= k;
    }
  }

  lemma {:induction false} FirstLineIs(buf: string)
    requires GetLine(buf, 0).Some?
    ensures var nl := Find(buf, '\n', 0);
      nl < |buf| && (' ' in GetLine(buf, 0).value.text <==> exists k | 0 <= k < nl :: buf[k] == ' ')
  {
    var nl, text := Find(buf, '\n', 0), GetLine(buf, 0).value.text;
    assert forall k | 0 <= k < |text| :: text[k] == buf[k];
    if k :| 0 <= k < nl && buf[k] == ' ' {
      assert k < |text| && text[k] == ' ';
    }
  }

  /** A request is malformed exactly if its first line is complete and holds no space; no later byte matters. */
  lemma {:induction false} MalformedExactly(buf: string)
    ensures Parse(buf) == Malformed <==> exists n: nat :: OneWordLine(buf, n)
  {
    var nl := Find(buf, '\n', 0);
    if GetLine(buf, 0).Some? {
      FirstLineIs(buf);
      NoSpaceIs(GetLine(buf, 0).value.text);
      if RequestLine(GetLine(buf, 0).value.text).None? {
        assert OneWordLine(buf, nl);
      }
    }
    if n: nat :| OneWordLine(buf, n) {
      FindIs(buf, '\n', 0, n);
    }
  }

  // ----- Percent-decoding of text that was not encoded ---------------------------------------------------

  predicate HexChar(c: char) {
    '0' <= c <= '9' || 'a' <= c <= 'f' || 'A' <= c <= 'F'
  }

  /** No percent sign is followed by two hex digits. */
  ghost predicate NoEscape(s: string) {
    forall i | 0 <= i < |s| - 2 && s[i] == '%' :: !HexChar(s[i + 1]) || !HexChar(s[i + 2])
  }

  /** Text without a complete escape, stray percent signs included, decodes to itself as far as the buffer goes. */
  lemma {:induction false} StrayPercentsStay(s: string, room: nat)
    requires NoEscape(s)
    ensures UrlDecode(s, room, false) == Take(s, room)
    decreases |s|
  {
    if s != "" && room > 0 {
      assert NoEscape(s[1..]) by {
        assert forall i | 0 <= i < |s| - 1 :: s[1..][i] == s[i + 1];
      }
      StrayPercentsStay(s[1..], room - 1);
      assert Take(s, room) == [s[0]] + Take(s[1..], room - 1);
    }
  }

  function Spaced(s: string): (r: string)
    ensures |r| == |s| && forall i | 0 <= i < |s| :: r[i] == if s[i] == '+' then ' ' else s[i]
  {
    seq(|s|, i requires 0 <= i < |s| => if s[i] == '+' then ' ' else s[i])
  }

  /** In query text a plus sign is a space, and that is the only difference. */
  lemma {:induction false} PlusIsSpace(s: string, room: nat)
    ensures UrlDecode(s, room, true) == UrlDecode(Spaced(s), room, false)
    decreases |s|
  {
    if s != "" && room > 0 {
      var n := NextChar(s, true).1;
      SameStep(s);
      assert Spaced(s)[n..] == Spaced(s[n..]);
      PlusIsSpace(s[n..], room - 1);
    }
  }

  lemma {:induction false} SameStep(s: string)
    requires s != ""
    ensures NextChar(s, true) == NextChar(Spaced(s), false)
  {
    var r := Spaced(s);
    assert r[0] == if s[0] == '+' then ' ' else s[0];
    assert |s| > 2 ==> Hex(r[1]) == Hex(s[1]) && Hex(r[2]) == Hex(s[2]) && (Hex(s[1]) >= 0 ==> r[1] == s[1]) && (Hex(s[2]) >= 0 ==> r[2] == s[2]);
  }
}
