/**
 The parser is called again and again on a growing buffer. These lemmas say when
 its answer on a prefix is final.
 */
module HttpStability {
  import opened Common
  import opened HttpProto

  // ----- Reading the same text in a longer or shorter buffer -----------------------------------

  /** The buffers agree on everything before n. */
  ghost predicate Agree(a: string, b: string, n: nat) {
    n <= |a| && n <= |b| && a[..n] == b[..n]
  }

  lemma {:induction false} AgreeAt(a: string, b: string, n: nat, i: nat)
    requires Agree(a, b, n) && i < n
    ensures a[i] == b[i]
  {
    assert a[..n][i] == b[..n][i];
  }

  lemma {:induction false} FindAgrees(a: string, b: string, n: nat, c: char, p: nat)
    requires Agree(a, b, n) && p <= |a| && Find(a, c, p) < n
    ensures p <= |b| && Find(b, c, p) == Find(a, c, p)
  {
    var i := Find(a, c, p);
    AgreeAt(a, b, n, i);
    var j := Find(b, c, p);
    if j < i {
      AgreeAt(a, b, n, j);
    }
  }

  /** A line that ends before n is the same line. */
  lemma {:induction false} LineAgrees(a: string, b: string, n: nat, p: nat)
    requires Agree(a, b, n) && p <= |a| && GetLine(a, p).Some? && GetLine(a, p).value.next <= n
    ensures p <= |b| && GetLine(b, p) == GetLine(a, p)
  {
    FindAgrees(a, b, n, '\n', p);
    var nl := Find(a, '\n', p);
    AgreeSlice(a, b, n, p, nl);
    if nl > p {
      AgreeAt(a, b, n, nl - 1);
      AgreeSlice(a, b, n, p, nl - 1);
    }
  }

  lemma {:induction false} HeadersAgree(a: string, b: string, n: nat, p: nat, last: int, keepAlive: bool)
    requires Agree(a, b, n) && p <= |a| && -1 <= last <= |a| && last <= |b|
    requires Headers(a, p, last, keepAlive).Some? && Headers(a, p, last, keepAlive).value.pos <= n
    ensures p <= |b| && Headers(b, p, last, keepAlive) == Headers(a, p, last, keepAlive)
    decreases |a| - p
  {
    var l := GetLine(a, p).value;
    LineAgrees(a, b, n, p);
    if l.text != "" {
      if IsLength(l.text) {
        HeadersAgree(a, b, n, l.next, p + |CONTENT_LENGTH|, keepAlive);
      } else {
        HeadersAgree(a, b, n, l.next, last, keepAlive || IsKeepAlive(l.text));
      }
    }
  }

  /** A complete header block that ends before n is the same block. */
  lemma {:induction false} PreludeAgrees(a: string, b: string, n: nat)
    requires Agree(a, b, n) && PreludeOf(a).Ready? && PreludeOf(a).head.pos <= n
    ensures PreludeOf(b) == PreludeOf(a)
  {
    var l := GetLine(a, 0).value;
    LineAgrees(a, b, n, 0);
    HeadersAgree(a, b, n, l.next, -1, false);
  }

  // ----- Extending the buffer ------------------------------------------------------------------------

  lemma {:induction false} PrefixAgrees(buf: string, ext: string)
    ensures Agree(buf, buf + ext, |buf|)
  {
    assert (buf + ext)[..|buf|] == buf == buf[..|buf|];
  }

  /** A decided request line or header block stays decided. */
  lemma {:induction false} PreludeExtends(buf: string, ext: string)
    requires !PreludeOf(buf).Incomplete?
    ensures PreludeOf(buf + ext) == PreludeOf(buf)
  {
    PrefixAgrees(buf, ext);
    if PreludeOf(buf).Ready? {
      PreludeAgrees(buf, buf + ext, |buf|);
    } else {
      LineAgrees(buf, buf + ext, |buf|, 0);
    }
  }

  // ----- The Content-Length scan ----------------------------------------------------------------------

  /** Where strtol stops. */
  function ScanEnd(s: string, p: nat): (e: nat)
    requires p <= |s|
    ensures p <= e <= |s|
  {
    SkipDigits(s, DigitsStart(s, p))
  }

  lemma {:induction false} SkipSpaceAgrees(a: string, b: string, n: nat, p: nat)
    requires Agree(a, b, n) && p <= |a| && SkipSpace(a, p) < n
    ensures p <= |b| && SkipSpace(b, p) == SkipSpace(a, p)
  {
    var i, j := SkipSpace(a, p), SkipSpace(b, p);
    AgreeAt(a, b, n, i);
    if j < i {
      AgreeAt(a, b, n, j);
    }
  }

  lemma {:induction false} SkipDigitsAgrees(a: string, b: string, n: nat, p: nat)
    requires Agree(a, b, n) && p <= |a| && SkipDigits(a, p) < n
    ensures p <= |b| && SkipDigits(b, p) == SkipDigits(a, p)
  {
    var i, j := SkipDigits(a, p), SkipDigits(b, p);
    AgreeAt(a, b, n, i);
    if j < i {
      AgreeAt(a, b, n, j);
    }
  }

  lemma {:induction false} AgreeSlice(a: string, b: string, n: nat, d: nat, e: nat)
    requires Agree(a, b, n) && d <= e <= n
    ensures a[d..e] == b[d..e]
  {
    forall k | d <= k < e ensures a[k] == b[k] {
      AgreeAt(a, b, n, k);
    }
  }

  /** A scan that stops inside the common part reads the same value. */
  lemma {:induction false} LengthAgrees(a: string, b: string, n: nat, p: nat)
    requires Agree(a, b, n) && p <= |a| && ScanEnd(a, p) < n
    ensures p <= |b| && LengthAt(b, p) == LengthAt(a, p) && ScanEnd(b, p) == ScanEnd(a, p)
  {
    var q := SkipSpace(a, p);
    SkipSpaceAgrees(a, b, n, p);
    AgreeAt(a, b, n, q);
    var d := DigitsStart(a, p);
    assert d == DigitsStart(b, p);
    SkipDigitsAgrees(a, b, n, d);
    AgreeSlice(a, b, n, d, SkipDigits(a, d));
  }

  lemma {:induction false} ValueSnoc(d: string, c: char)
    requires (forall x | x in d :: IsDigit(x)) && IsDigit(c)
    ensures Value(d + [c]) == Value(d) * 10 + (c as int - '0' as int)
  {
    assert (d + [c])[..|d + [c]| - 1] == d;
  }

  /** A digit sent next lands in the scanned number. */
  lemma {:induction false} OpenScanGrows(buf: string, p: nat)
    requires p <= |buf| && ScanEnd(buf, p) == |buf| && !Negative(buf, p)
    ensures !Negative(buf + "9", p) && Digits(buf + "9", p) == Digits(buf, p) + "9"
  {
    var more := buf + "9";
    var q := SkipSpace(buf, p);
    assert SkipSpace(more, p) == q by {
      var j := SkipSpace(more, p);
      assert forall k | p <= k < |buf| :: more[k] == buf[k];
      assert more[|buf|] == '9';
    }
    var d := DigitsStart(buf, p);
    assert DigitsStart(more, p) == d;
    assert SkipDigits(more, d) == |more| by {
      assert forall k | d <= k < |buf| :: IsDigit(more[k]) by {
        assert forall k | d <= k < |buf| :: more[k] == buf[k];
      }
      assert more[|buf|] == '9';
    }
    assert more[d..|more|] == buf[d..|buf|] + "9";
  }

  /** A leading minus sign keeps the length at 0 whatever follows. */
  lemma {:induction false} NegativeExtends(buf: string, ext: string, p: nat)
    requires p <= |buf| && Negative(buf, p)
    ensures Negative(buf + ext, p)
  {
    PrefixAgrees(buf, ext);
    SkipSpaceAgrees(buf, buf + ext, |buf|, p);
  }

  // ----- Stability of the verdict ---------------------------------------------------------------------------

  /**
   The last Content-Length value is still open at the end of the buffer: after it
   come only white space (line ends included), at most a plus sign, and digits.
   */
  predicate LengthExposed(buf: string) {
    var r := PreludeOf(buf);
    r.Ready? && r.head.last >= 0 && ScanEnd(buf, r.head.last) == |buf| && !Negative(buf, r.head.last)
  }

  lemma {:induction false} LengthExtends(buf: string, ext: string)
    requires PreludeOf(buf).Ready? && !LengthExposed(buf)
    ensures ContentLength(buf + ext, PreludeOf(buf).head.last) == ContentLength(buf, PreludeOf(buf).head.last)
  {
    var last := PreludeOf(buf).head.last;
    if last >= 0 {
      if Negative(buf, last) {
        NegativeExtends(buf, ext, last);
      } else {
        PrefixAgrees(buf, ext);
        LengthAgrees(buf, buf + ext, |buf|, last);
      }
    }
  }

  lemma {:induction false} ConcludeExtends(buf: string, ext: string, r: Prelude, cl: nat)
    requires r.Ready? ==> r.head.pos <= |buf|
    requires Conclude(buf, r, cl) != More
    ensures Conclude(buf + ext, r, cl) == Conclude(buf, r, cl)
  {
    if r.Ready? {
      assert (buf + ext)[r.head.pos..r.head.pos + cl] == buf[r.head.pos..r.head.pos + cl];
    }
  }

  /** A verdict on a buffer without an open length is unchanged, with identical fields, on every extension. */
  lemma {:induction false} VerdictExtends(buf: string, ext: string)
    requires Parse(buf) != More && !LengthExposed(buf)
    ensures Parse(buf + ext) == Parse(buf)
  {
    var r := PreludeOf(buf);
    PreludeExtends(buf, ext);
    if r.Ready? {
      LengthExtends(buf, ext);
    }
    ConcludeExtends(buf, ext, r, if r.Ready? then ContentLength(buf, r.head.last) else 0);
  }

  lemma {:induction false} LongerBodyDiffers(buf: string, more: string, r: Prelude, cl: nat, cl': nat)
    requires r.Ready? && r.head.pos <= |buf| <= |more| && cl < cl'
    requires Conclude(buf, r, cl) != More
    ensures Conclude(more, r, cl') != Conclude(buf, r, cl)
  {
  }

  lemma {:induction false} OpenLengthGrows(buf: string, last: nat)
    requires last <= |buf| && ScanEnd(buf, last) == |buf| && !Negative(buf, last) && LengthAt(buf, last) < LONG_MAX
    ensures LengthAt(buf, last) < LengthAt(buf + "9", last)
  {
    OpenScanGrows(buf, last);
    ValueSnoc(Digits(buf, last), '9');
  }

  /** With an open length one more digit changes the verdict. */
  lemma {:induction false} ExposedVerdictChanges(buf: string)
    requires Parse(buf) != More && LengthExposed(buf) && |buf| < LONG_MAX
    ensures Parse(buf + "9") != Parse(buf)
  {
    var r := PreludeOf(buf);
    PreludeExtends(buf, "9");
    OpenLengthGrows(buf, r.head.last);
    LongerBodyDiffers(buf, buf + "9", r, LengthAt(buf, r.head.last), LengthAt(buf + "9", r.head.last));
  }

  /** Exactly when a verdict can be relied on. */
  lemma {:induction false} VerdictIsFinalExactly(buf: string)
    requires Parse(buf) != More && |buf| < LONG_MAX
    ensures (forall ext: string :: Parse(buf + ext) == Parse(buf)) <==> !LengthExposed(buf)
  {
    if LengthExposed(buf) {
      ExposedVerdictChanges(buf);
    } else {
      forall ext: string ensures Parse(buf + ext) == Parse(buf) {
        VerdictExtends(buf, ext);
      }
    }
  }

  lemma {:induction false} FindIs(s: string, c: char, p: nat, i: nat)
    requires p <= i <= |s| && (i < |s| ==> s[i] == c) && forall k | p <= k < i :: s[k] != c
    ensures Find(s, c, p) == i
  {
  }

  lemma {:induction false} SkipDigitsIs(s: string, p: nat, i: nat)
    requires p <= i <= |s| && (i < |s| ==> !IsDigit(s[i])) && forall k | p <= k < i :: IsDigit(s[k])
    ensures SkipDigits(s, p) == i
  {
  }

  lemma {:induction false} SkipSpaceIs(s: string, p: nat, i: nat)
    requires p <= i <= |s| && (i < |s| ==> !IsSpace(s[i])) && forall k | p <= k < i :: IsSpace(s[k])
    ensures SkipSpace(s, p) == i
  {
  }

  // ----- Prefixes of a request -----------------------------------------------------------------------------------

  /**
   The Content-Length value that counts is read inside the header block, or is 0
   even with all that follows the block.
   */
  predicate LengthHolds(buf: string) {
    var r := PreludeOf(buf);
    r.Ready? && r.head.last >= 0 ==> ScanEnd(buf, r.head.last) < r.head.pos || LengthAt(buf, r.head.last) == 0
  }

  /** The usual case: the value has something other than white space on its own line. */
  predicate LengthOnItsLine(buf: string) {
    var r := PreludeOf(buf);
    r.Ready? && r.head.last >= 0 ==> SkipSpace(buf, r.head.last) < Find(buf, '\n', r.head.last)
  }

  /** The line of a Content-Length value ends inside the header block. */
  lemma {:induction false} LengthLineEnds(buf: string, p: nat, last: int, keepAlive: bool, h: Head)
    requires p <= |buf| && -1 <= last <= |buf| && Headers(buf, p, last, keepAlive) == Some(h)
    ensures h.last != last ==> 0 <= h.last <= |buf| && Find(buf, '\n', h.last) < h.pos
    decreases |buf| - p
  {
    var l := GetLine(buf, p).value;
    HeadersStep(buf, p, last, keepAlive, l);
    if IsLength(l.text) {
      var at := p + |CONTENT_LENGTH|;
      LengthLineEnds(buf, l.next, at, keepAlive, h);
      HeadersReachPast(buf, l.next, at, keepAlive, h);
      FindIs(buf, '\n', at, Find(buf, '\n', p));
    } else if l.text != "" {
      LengthLineEnds(buf, l.next, last, keepAlive || IsKeepAlive(l.text), h);
    }
  }

  lemma {:induction false} HeadersReachPast(buf: string, p: nat, last: int, keepAlive: bool, h: Head)
    requires p <= |buf| && -1 <= last <= |buf| && Headers(buf, p, last, keepAlive) == Some(h)
    ensures p < h.pos
    decreases |buf| - p
  {
    var l := GetLine(buf, p).value;
    HeadersStep(buf, p, last, keepAlive, l);
    if IsLength(l.text) {
      HeadersReachPast(buf, l.next, p + |CONTENT_LENGTH|, keepAlive, h);
    } else if l.text != "" {
      HeadersReachPast(buf, l.next, last, keepAlive || IsKeepAlive(l.text), h);
    }
  }

  /** The header block of a buffer that is ready. */
  lemma {:induction false} PreludeHeaders(buf: string, h: Head) returns (start: nat)
    requires PreludeOf(buf).Ready? && h == PreludeOf(buf).head
    ensures start <= |buf| && Headers(buf, start, -1, false) == Some(h)
  {
    start := GetLine(buf, 0).value.next;
  }

  lemma {:induction false} ScanStaysOnLine(s: string, p: nat)
    requires p <= |s| && Find(s, '\n', p) < |s| && SkipSpace(s, p) < Find(s, '\n', p)
    ensures ScanEnd(s, p) <= Find(s, '\n', p)
  {
    var d, nl := DigitsStart(s, p), Find(s, '\n', p);
    assert s[nl] == '\n' && !IsDigit(s[nl]) && d <= nl;
  }

  /** Such a length is settled before the header block ends. */
  lemma {:induction false} SettledLength(buf: string)
    requires PreludeOf(buf).Ready? && LengthOnItsLine(buf)
    ensures var h := PreludeOf(buf).head; h.last >= 0 ==> ScanEnd(buf, h.last) < h.pos
    ensures LengthHolds(buf) && !LengthExposed(buf)
  {
    var h := PreludeOf(buf).head;
    var start := PreludeHeaders(buf, h);
    LengthLineEnds(buf, start, -1, false, h);
    if h.last >= 0 {
      ScanStaysOnLine(buf, h.last);
    }
  }

  lemma {:induction false} ValueGrows(digits: string, k: nat)
    requires (forall c | c in digits :: IsDigit(c)) && k <= |digits|
    ensures (forall c | c in digits[..k] :: IsDigit(c)) && Value(digits[..k]) <= Value(digits)
    decreases |digits| - k
  {
    assert forall c | c in digits[..k] :: c in digits;
    if k == |digits| {
      assert digits[..k] == digits;
    } else {
      assert digits[k] in digits && digits[..k + 1] == digits[..k] + [digits[k]];
      ValueSnoc(digits[..k], digits[k]);
      ValueGrows(digits, k + 1);
    }
  }

  lemma {:induction false} PrefixAgreesWith(s: string, n: nat)
    requires n <= |s|
    ensures Agree(s, s[..n], n)
  {
    assert s[..n][..n] == s[..n];
  }

  /** A scan whose white space reaches the end of the prefix finds no number in it. */
  lemma {:induction false} OnlySpace(s: string, n: nat, p: nat)
    requires p <= n <= |s| && SkipSpace(s, p) >= n
    ensures LengthAt(s[..n], p) == 0
  {
    SkipSpaceIs(s[..n], p, n);
  }

  lemma {:induction false} DigitsOfPrefix(s: string, n: nat, d: nat)
    requires d <= n <= |s|
    ensures s[..n][d..SkipDigits(s[..n], d)] <= s[d..SkipDigits(s, d)]
  {
    var e := SkipDigits(s, d);
    var k := if e < n then e else n;
    assert forall i | d <= i < k :: IsDigit(s[..n][i]);
    SkipDigitsIs(s[..n], d, k);
    assert s[..n][d..k] == s[d..k] == s[d..e][..k - d];
  }

  /** A shorter buffer never shows a larger length. */
  lemma {:induction false} PrefixLength(s: string, n: nat, p: nat)
    requires p <= n <= |s|
    ensures LengthAt(s[..n], p) <= LengthAt(s, p)
  {
    var q := SkipSpace(s, p);
    if q >= n {
      OnlySpace(s, n, p);
    } else {
      PrefixAgreesWith(s, n);
      SkipSpaceAgrees(s, s[..n], n, p);
      AgreeAt(s, s[..n], n, q);
      var d := DigitsStart(s, p);
      assert DigitsStart(s[..n], p) == d <= n;
      assert Negative(s[..n], p) == Negative(s, p);
      DigitsOfPrefix(s, n, d);
      var k := |Digits(s[..n], p)|;
      assert Digits(s[..n], p) == Digits(s, p)[..k];
      ValueGrows(Digits(s, p), k);
    }
  }

  /** The header block of a longer buffer decides that of every prefix containing it. */
  lemma {:induction false} SettledPrefix(buf: string, n: nat)
    requires n <= |buf| && PreludeOf(buf).Ready? && LengthHolds(buf) && PreludeOf(buf).head.pos <= n
    ensures PreludeOf(buf[..n]) == PreludeOf(buf)
    ensures ContentLength(buf[..n], PreludeOf(buf).head.last) == ContentLength(buf, PreludeOf(buf).head.last)
  {
    var h := PreludeOf(buf).head;
    PrefixAgreesWith(buf, n);
    PreludeAgrees(buf, buf[..n], n);
    if h.last >= 0 {
      if ScanEnd(buf, h.last) < h.pos {
        LengthAgrees(buf, buf[..n], n, h.last);
      } else {
        PrefixLength(buf, n, h.last);
      }
    }
  }

  /** Any verdict reached on a prefix of a stream whose length holds is the verdict on the whole stream. */
  lemma {:induction false} VerdictOfPrefix(stream: string, n: nat)
    requires n <= |stream| && LengthHolds(stream) && Parse(stream[..n]) != More
    ensures Parse(stream) == Parse(stream[..n])
  {
    var buf, ext := stream[..n], stream[n..];
    assert buf + ext == stream;
    var r := PreludeOf(buf);
    PreludeExtends(buf, ext);
    if r.Ready? {
      SettledPrefix(stream, n);
    }
    ConcludeExtends(buf, ext, r, if r.Ready? then ContentLength(buf, r.head.last) else 0);
  }

  /** Every shorter prefix of a complete request whose length holds asks for more. */
  lemma {:induction false} ShorterPrefixNeedsMore(buf: string, n: nat)
    requires Parse(buf).Complete? && LengthHolds(buf) && n < Parse(buf).total
    ensures Parse(buf[..n]) == More
  {
    if Parse(buf[..n]) != More {
      VerdictOfPrefix(buf, n);
      assert false;
    }
  }

  // ----- Otherwise the header block alone is a different request -------------------------------------------------

  lemma {:induction false} LineEndsInNewline(buf: string, p: nat)
    requires p <= |buf| && GetLine(buf, p).Some?
    ensures var next := GetLine(buf, p).value.next; p < next <= |buf| && buf[next - 1] == '\n'
  {
  }

  lemma {:induction false} HeadersEndLine(buf: string, p: nat, last: int, keepAlive: bool, h: Head)
    requires p <= |buf| && -1 <= last <= |buf| && Headers(buf, p, last, keepAlive) == Some(h)
    ensures 0 < h.pos <= |buf| && buf[h.pos - 1] == '\n'
    decreases |buf| - p
  {
    var l := GetLine(buf, p).value;
    LineEndsInNewline(buf, p);
    HeadersStep(buf, p, last, keepAlive, l);
    if IsLength(l.text) {
      HeadersEndLine(buf, l.next, p + |CONTENT_LENGTH|, keepAlive, h);
    } else if l.text != "" {
      HeadersEndLine(buf, l.next, last, keepAlive || IsKeepAlive(l.text), h);
    }
  }

  /** A number read past a line end at pos - 1 begins behind it, so nothing of it is before. */
  lemma {:induction false} NumberBehind(s: string, p: nat, pos: nat)
    requires p < pos <= |s| && s[pos - 1] == '\n' && ScanEnd(s, p) >= pos && LengthAt(s, p) > 0
    ensures LengthAt(s[..pos], p) == 0
  {
    var q, d := SkipSpace(s, p), DigitsStart(s, p);
    assert Digits(s, p) != "";
    assert d >= pos;
    assert q >= pos;
    OnlySpace(s, pos, p);
  }

  /** Where the value is, and that a line ends right before the body. */
  lemma {:induction false} BlockEnd(buf: string)
    requires PreludeOf(buf).Ready?
    ensures var h := PreludeOf(buf).head; 0 < h.pos <= |buf| && buf[h.pos - 1] == '\n' && h.last < h.pos
  {
    var h := PreludeOf(buf).head;
    var start := PreludeHeaders(buf, h);
    HeadersEndLine(buf, start, -1, false, h);
    LengthLineEnds(buf, start, -1, false, h);
  }

  lemma {:induction false} BlockParsed(buf: string, r: Prelude)
    requires r == PreludeOf(buf) && r.Ready? && r.head.last >= 0 && r.head.pos <= |buf|
    requires r.head.last <= r.head.pos && LengthAt(buf[..r.head.pos], r.head.last) == 0
    ensures Parse(buf[..r.head.pos]) == Conclude(buf[..r.head.pos], r, 0)
  {
    PrefixAgreesWith(buf, r.head.pos);
    PreludeAgrees(buf, buf[..r.head.pos], r.head.pos);
  }

  /** Where the length does not hold, the header block is accepted on its own and the whole stream is judged otherwise. */
  lemma {:induction false} UnsettledPrefix(buf: string)
    requires !LengthHolds(buf)
    ensures PreludeOf(buf).head.pos <= |buf|
    ensures var pos := PreludeOf(buf).head.pos;
      Parse(buf[..pos]).Complete? && Parse(buf[..pos]) != Parse(buf) && (Parse(buf).Complete? ==> pos < Parse(buf).total)
  {
    var r := PreludeOf(buf);
    BlockEnd(buf);
    NumberBehind(buf, r.head.last, r.head.pos);
    BlockParsed(buf, r);
    BlockAlone(buf, r, LengthAt(buf, r.head.last));
  }

  lemma {:induction false} BlockAlone(buf: string, r: Prelude, cl: nat)
    requires r.Ready? && r.head.pos <= |buf| && cl > 0
    ensures var alone := Conclude(buf[..r.head.pos], r, 0);
      && alone.Complete? && alone != Conclude(buf, r, cl)
      && (Conclude(buf, r, cl).Complete? ==> r.head.pos < Conclude(buf, r, cl).total)
  {
  }

  /** Exactly when no shorter prefix of a complete request is taken for a request. */
  lemma {:induction false} PrefixesNeedMoreExactly(buf: string)
    requires Parse(buf).Complete?
    ensures (forall n | 0 <= n < Parse(buf).total :: Parse(buf[..n]) == More) <==> LengthHolds(buf)
  {
    if LengthHolds(buf) {
      forall n | 0 <= n < Parse(buf).total ensures Parse(buf[..n]) == More {
        ShorterPrefixNeedsMore(buf, n);
      }
    } else {
      UnsettledPrefix(buf);
    }
  }
}
