/** Which messages have all their italics closed, judged by the stars of the
    message itself: links and code move or keep stars, bold takes them in fours. */
module FormatterStars {
  import opened Wrappers
  import opened Text
  import opened FormatterInline
  import opened FormatterItalics

  // ---------- double stars, read from left to right ----------

  function DoubleStars(s: string): nat
    decreases |s|
  {
    if |s| < 2 then 0
    else if s[0] == '*' && s[1] == '*' then 1 + DoubleStars(s[2..])
    else DoubleStars(s[1..])
  }

  // The last double star is followed by a third star.
  predicate LastIsTriple(s: string)
    decreases |s|
  {
    if |s| < 2 then false
    else if s[0] == '*' && s[1] == '*' then
      if DoubleStars(s[2..]) == 0 then |s| > 2 && s[2] == '*' else LastIsTriple(s[2..])
    else LastIsTriple(s[1..])
  }

  predicate StartsPlain(s: string) {
    |s| > 0 ==> s[0] != '*'
  }

  // What stands behind a text with no star at the seam is read on its own.
  lemma {:induction false} ReadApart(a: string, y: string)
    requires StartsPlain(y)
    ensures DoubleStars(a + y) == DoubleStars(a) + DoubleStars(y)
    ensures LastIsTriple(a + y) == if DoubleStars(y) > 0 then LastIsTriple(y) else LastIsTriple(a)
    decreases |a|
  {
    if |a| == 0 {
      assert a + y == y;
      NothingToRead(y);
    } else if |a| == 1 {
      ReadPlain(a, y);
    } else if a[0] == '*' && a[1] == '*' {
      assert (a + y)[2..] == a[2..] + y;
      ReadApart(a[2..], y);
    } else {
      assert (a + y)[1..] == a[1..] + y;
      ReadApart(a[1..], y);
    }
  }

  lemma ReadPlain(a: string, y: string)
    requires |a| == 1 && StartsPlain(y)
    ensures DoubleStars(a) == 0 && !LastIsTriple(a)
    ensures DoubleStars(a + y) == DoubleStars(y)
    ensures DoubleStars(y) > 0 ==> LastIsTriple(a + y) == LastIsTriple(y)
    ensures DoubleStars(y) == 0 ==> !LastIsTriple(a + y)
  {
    NothingToRead(y);
    assert (a + y)[1..] == y;
  }

  lemma {:induction false} NothingToRead(s: string)
    ensures LastIsTriple(s) ==> DoubleStars(s) > 0
    decreases |s|
  {
    if |s| >= 2 {
      NothingToRead(s[1..]);
    }
  }

  lemma {:induction false} StarlessRead(w: string)
    requires '*' !in w
    ensures DoubleStars(w) == 0 && Count(w, '*') == 0 && LoneStars(w, 0) == 0
  {
    CountZero(w, '*');
    NoPairRead(w);
    AllLone(w, 0);
    assert w[0..] == w;
  }

  lemma ReadThrough(a: string, w: string, y: string)
    requires |w| > 0 && '*' !in w
    ensures DoubleStars(a + w + y) == DoubleStars(a) + DoubleStars(y)
  {
    hide DoubleStars, LastIsTriple;
    StarlessRead(w);
    assert w[0] in w;
    ReadApart(a, w + y);
    assert a + (w + y) == a + w + y;
    StarlessFirst(w, y);
  }

  // A text without stars in front changes nothing.
  lemma {:induction false} StarlessFirst(w: string, y: string)
    requires '*' !in w
    ensures DoubleStars(w + y) == DoubleStars(y) && LastIsTriple(w + y) == LastIsTriple(y)
  {
    if |w| == 0 {
      assert w + y == y;
    } else {
      assert (w + y)[1..] == w[1..] + y && w[0] in w;
      StarlessFirst(w[1..], y);
      if |w + y| < 2 {
        assert w[1..] + y == [];
      }
    }
  }

  ghost predicate NoPair(s: string) {
    forall i :: 0 <= i < |s| - 1 ==> s[i] != '*' || s[i + 1] != '*'
  }

  lemma {:induction false} NoPairRead(s: string)
    ensures DoubleStars(s) == 0 <==> NoPair(s)
    decreases |s|
  {
    if |s| >= 2 {
      NoPairRead(s[1..]);
      if !(s[0] == '*' && s[1] == '*') {
        assert NoPair(s[1..]) ==> NoPair(s) by {
          assert forall i :: 0 < i < |s| - 1 ==> s[i] == s[1..][i - 1] && s[i + 1] == s[1..][i];
        }
      }
    }
  }

  // ---------- the reading and str::find agree ----------

  lemma {:induction false} FirstDouble(s: string, k: nat)
    requires MatchAt(s, "**", k) && NoMatch(s, "**", 0, k)
    ensures k + 2 <= |s| && DoubleStars(s) == 1 + DoubleStars(s[k + 2..])
    ensures LastIsTriple(s) ==
            if DoubleStars(s[k + 2..]) == 0 then k + 2 < |s| && s[k + 2] == '*' else LastIsTriple(s[k + 2..])
    decreases k
  {
    assert s[k..k + 2][0] == s[k] && s[k..k + 2][1] == s[k + 1];
    if k > 0 {
      assert !MatchAt(s, "**", 0);
      assert s[0..2] == [s[0], s[1]];
      TailMatches(s, k);
      FirstDouble(s[1..], k - 1);
      assert s[1..][k - 1 + 2..] == s[k + 2..];
    }
  }

  lemma TailMatches(s: string, k: nat)
    requires k > 0 && MatchAt(s, "**", k) && NoMatch(s, "**", 0, k)
    ensures MatchAt(s[1..], "**", k - 1) && NoMatch(s[1..], "**", 0, k - 1)
  {
    assert s[1..][k - 1..k - 1 + 2] == s[k..k + 2];
    forall q: nat | q < k - 1 ensures !MatchAt(s[1..], "**", q) {
      assert !MatchAt(s, "**", q + 1);
      assert s[1..][q..q + 2] == s[q + 1..q + 3];
    }
  }

  lemma NoMatchNoPair(s: string, n: nat)
    requires n <= |s| && NoMatch(s, "**", 0, n)
    ensures DoubleStars(s[..n]) == 0
    ensures n < |s| && s[n] == '*' && n > 0 ==> s[n - 1] != '*'
  {
    forall i | 0 <= i < n && i + 1 < |s| ensures s[i] != '*' || s[i + 1] != '*' {
      assert !MatchAt(s, "**", i);
      assert s[i..i + 2] == [s[i], s[i + 1]];
    }
    NoPairRead(s[..n]);
  }

  // ---------- lone stars ----------

  lemma {:induction false} AllLone(s: string, i: nat)
    requires i <= |s|
    requires forall k :: 0 <= k && i - 1 <= k < |s| - 1 ==> s[k] != '*' || s[k + 1] != '*'
    ensures LoneStars(s, i) == Count(s[i..], '*')
    decreases |s| - i
  {
    if i < |s| {
      AllLone(s, i + 1);
      assert s[i..][0] == s[i] && s[i..][1..] == s[i + 1..];
      assert i > 0 ==> s[i - 1] != '*' || s[i] != '*';
    }
  }

  predicate SeamIsPlain(a: string, y: string) {
    |a| == 0 || |y| == 0 || a[|a| - 1] != '*' || y[0] != '*'
  }

  lemma {:induction false} LoneBehind(a: string, y: string, j: nat)
    requires SeamIsPlain(a, y) && j <= |y|
    ensures LoneStars(a + y, |a| + j) == LoneStars(y, j)
    decreases |y| - j
  {
    if j < |y| {
      LoneBehind(a, y, j + 1);
    }
  }

  lemma {:induction false} LoneFrom(a: string, y: string, i: nat)
    requires SeamIsPlain(a, y) && i <= |a|
    ensures LoneStars(a + y, i) == LoneStars(a, i) + LoneStars(y, 0)
    decreases |a| - i
  {
    if i < |a| {
      LoneFrom(a, y, i + 1);
    } else {
      LoneBehind(a, y, 0);
    }
  }

  lemma LoneThrough(a: string, w: string, y: string)
    requires |w| > 0 && '*' !in w
    ensures LoneStars(a + w + y, 0) == LoneStars(a, 0) + LoneStars(y, 0)
  {
    hide LoneStars;
    StarlessRead(w);
    assert w[0] in w && w[|w| - 1] in w;
    LoneFrom(a, w, 0);
    LoneFrom(a + w, y, 0);
  }

  // ---------- bold ----------

  lemma {:induction false} FindFrom(s: string, pattern: string, from: nat, k: nat)
    requires from <= k <= |s| && NoMatch(s, pattern, from, k)
    ensures Find(s, pattern, from) == Find(s, pattern, k)
    decreases k - from
  {
    if from < k {
      FindFrom(s, pattern, from + 1, k);
    }
  }

  lemma SeamNoMatch(p: string, y: string)
    requires NoPair(p) && SeamIsPlain(p, y)
    ensures NoMatch(p + y, "**", 0, |p|)
  {
    forall q: nat | q < |p| ensures !MatchAt(p + y, "**", q) {
      if q + 2 <= |p + y| {
        assert (p + y)[q..q + 2][0] == (p + y)[q] && (p + y)[q..q + 2][1] == (p + y)[q + 1];
      }
    }
  }

  lemma NextBoldBehind(p: string, y: string)
    requires NoPair(p) && SeamIsPlain(p, y)
    ensures NextPair(p + y, "**") == var r := NextPair(y, "**");
            if r.None? then None else Some(Pair(|p| + r.value.start, |p| + r.value.end))
  {
    hide Find;
    SeamNoMatch(p, y);
    FindFrom(p + y, "**", 0, |p|);
    FindShift(p, y, "**", 0);
    FindIsFirst(y, "**", 0);
    if Find(y, "**", 0).Some? {
      FindShift(p, y, "**", Find(y, "**", 0).value + 2);
    }
  }

  lemma SeamStays(p: string, y: string, r: Pair)
    requires SeamIsPlain(p, y) && IsPair(y, "**", r)
    ensures SeamIsPlain(p, RewritePair(y, BOLD, r))
  {
    PairOrder(y, "**", r);
    assert y[r.start..r.start + 2][0] == y[r.start];
  }

  // The bold loop never comes back to what holds no double star.
  lemma {:induction false} BoldBehind(p: string, y: string)
    requires NoPair(p) && SeamIsPlain(p, y)
    ensures Pairs(p + y, BOLD) == p + Pairs(y, BOLD)
    decreases Count(y, '*')
  {
    hide Find, Count, NextPair, RewritePair, IsPair, SeamIsPlain, NoPair;
    NextBoldBehind(p, y);
    if NextPair(y, "**").Some? {
      var r := NextPair(y, "**").value;
      PairUsesMarks(y, BOLD, r);
      RewritePairBehind(p, y, BOLD, r);
      SeamStays(p, y, r);
      BoldBehind(p, RewritePair(y, BOLD, r));
    }
  }

  // How many stars the bold loop leaves lone: it takes four with every two double
  // stars, and an unpaired double or triple star is not lone.
  function LoneAfterBold(s: string): int {
    Count(s, '*') - 4 * (DoubleStars(s) / 2)
    - (if DoubleStars(s) % 2 == 0 then 0 else if LastIsTriple(s) then 3 else 2)
  }

  lemma NextPairIs(s: string, mark: string)
    ensures var r := NextPair(s, mark);
            match Find(s, mark, 0)
            case None => r.None? && NoMatch(s, mark, 0, |s| + 1)
            case Some(p) =>
              && p + |mark| <= |s| && MatchAt(s, mark, p) && NoMatch(s, mark, 0, p)
              && if r.None? then NoMatch(s, mark, p + |mark|, |s| + 1)
                 else && r.value.start == p && p + |mark| <= r.value.end
                      && MatchAt(s, mark, r.value.end) && NoMatch(s, mark, p + |mark|, r.value.end)
  {
    hide Find;
    FindIsFirst(s, mark, 0);
    if Find(s, mark, 0).Some? {
      FindIsFirst(s, mark, Find(s, mark, 0).value + |mark|);
    }
  }

  lemma MatchInTail(s: string, pattern: string, from: nat, to: nat)
    requires from <= to && from <= |s| && NoMatch(s, pattern, from, to)
    ensures NoMatch(s[from..], pattern, 0, to - from)
    ensures MatchAt(s, pattern, to) ==> MatchAt(s[from..], pattern, to - from)
  {
    var n := |pattern|;
    forall q: nat | q < to - from ensures !MatchAt(s[from..], pattern, q) {
      assert !MatchAt(s, pattern, from + q);
      if q + n <= |s[from..]| {
        assert s[from..][q..q + n] == s[from + q..from + q + n];
      }
    }
    if MatchAt(s, pattern, to) {
      assert s[from..][to - from..to - from + n] == s[to..to + n];
    }
  }

  lemma LeftoverPieces(s: string, k: nat)
    requires MatchAt(s, "**", k) && NoMatch(s, "**", 0, k) && NoMatch(s, "**", k + 2, |s| + 1)
    ensures k + 2 <= |s| && s == s[..k] + ("**" + s[k + 2..])
    ensures DoubleStars(s[..k]) == DoubleStars(s[k + 2..]) == 0
    ensures SeamIsPlain(s[..k], "**" + s[k + 2..])
  {
    hide DoubleStars;
    var c := s[k + 2..];
    MatchInTail(s, "**", k + 2, |s| + 1);
    NoMatchNoPair(c, |c|);
    assert c[..|c|] == c;
    NoMatchNoPair(s, k);
    assert s[k..k + 2] == "**";
    assert s[k] == s[k..k + 2][0];
  }

  // An unpaired mark
  lemma LeftoverLone(s: string, k: nat)
    requires k + 2 <= |s| && MatchAt(s, "**", k) && NoMatch(s, "**", 0, k) && NoMatch(s, "**", k + 2, |s| + 1)
    ensures LoneStars(s, 0) == LoneAfterBold(s)
  {
    hide LoneStars, Count, DoubleStars, LastIsTriple, SeamIsPlain, MatchAt, NoMatch;
    var a, c := s[..k], s[k + 2..];
    FirstDouble(s, k);
    LeftoverPieces(s, k);
    LoneFrom(a, "**" + c, 0);
    NoPairRead(a);
    AllLone(a, 0);
    assert a[0..] == a;
    MarkLone(c);
    CountConcat(a, "**" + c, '*');
    assert k + 2 < |s| ==> c[0] == s[k + 2];
  }

  lemma MarkLone(c: string)
    requires DoubleStars(c) == 0
    ensures LoneStars("**" + c, 0) == Count(c, '*') - (if |c| > 0 && c[0] == '*' then 1 else 0)
    ensures Count("**" + c, '*') == 2 + Count(c, '*')
  {
    NoPairRead(c);
    var s := "**" + c;
    assert s[0] == s[1] == '*';
    assert s[1..][1..] == c;
    assert LoneStars(s, 0) == LoneStars(s, 1) == LoneStars(s, 2);
    assert forall k :: 2 <= k < |s| ==> s[k] == c[k - 2];
    if |c| > 0 && c[0] == '*' {
      assert LoneStars(s, 2) == LoneStars(s, 3);
      AllLone(s, 3);
      assert s[3..] == c[1..];
    } else {
      AllLone(s, 2);
      assert s[2..] == c;
    }
  }

  lemma BoldStep(s: string, p: Pair)
    requires NextPair(s, "**") == Some(p)
    ensures IsPair(s, "**", p) && |s[p.end + 2..]| < |s|
    ensures LoneAfterBold(s)
            == Count(s[..p.start], '*') + Count(s[p.start + 2..p.end], '*') + LoneAfterBold(s[p.end + 2..])
    ensures DoubleStars(s[..p.start]) == 0 && DoubleStars(s[p.start + 2..p.end]) == 0
  {
    hide LoneStars, Count, DoubleStars, LastIsTriple, Find, NoMatch, MatchAt, NextPair;
    NextPairIs(s, "**");
    var k, tail, b := p.start, s[p.start + 2..], s[p.end + 2..];
    var n := p.end - k - 2;
    FirstDouble(s, k);
    MatchInTail(s, "**", k + 2, p.end);
    FirstDouble(tail, n);
    assert tail[n + 2..] == b && tail[..n] == s[k + 2..p.end];
    NoMatchNoPair(s, k);
    NoMatchNoPair(tail, n);
    PairPieces(s, "**", p);
    Count5(s[..k], "**", s[k + 2..p.end], "**", b, '*');
    TwoStars();
  }

  lemma TwoStars()
    ensures Count("**", '*') == 2
  {
    assert "**"[1..] == "*" && "*"[1..] == "";
  }

  lemma StyledStars(a: string, t: string)
    requires DoubleStars(a) == 0 && DoubleStars(t) == 0
    ensures var p := a + "<b>" + t + "</b>";
            NoPair(p) && p[|p| - 1] != '*' && LoneStars(p, 0) == Count(a, '*') + Count(t, '*')
  {
    hide LoneStars, Count, DoubleStars;
    var p := a + "<b>" + t + "</b>";
    StarlessRead("</b>");
    ReadThrough(a, "<b>", t);
    ReadApart(a + "<b>" + t, "</b>");
    NoPairRead(p);
    NoPairRead(a);
    NoPairRead(t);
    AllLone(a, 0);
    AllLone(t, 0);
    assert a[0..] == a && t[0..] == t;
    LoneThrough(a, "<b>", t);
    LoneFrom(a + "<b>" + t, "</b>", 0);
  }

  lemma {:induction false} BoldLone(s: string)
    ensures LoneStars(Pairs(s, BOLD), 0) == LoneAfterBold(s)
    decreases |s|
  {
    hide LoneStars, Count, DoubleStars, LastIsTriple, LoneAfterBold, Find, NoPair, IsPair;
    NextPairIs(s, "**");
    if NextPair(s, "**").None? {
      if Find(s, "**", 0).None? {
        UnmarkedLone(s);
      } else {
        LeftoverLone(s, Find(s, "**", 0).value);
      }
    } else {
      var p := NextPair(s, "**").value;
      BoldStep(s, p);
      PairOrder(s, "**", p);
      PairUsesMarks(s, BOLD, p);
      var a, t, b := s[..p.start], s[p.start + 2..p.end], s[p.end + 2..];
      var front := a + "<b>" + t + "</b>";
      StyledStars(a, t);
      PlainSeam(front, b);
      BoldBehind(front, b);
      assert RewritePair(s, BOLD, p) == front + b;
      BoldLone(b);
      PlainSeam(front, Pairs(b, BOLD));
      LoneFrom(front, Pairs(b, BOLD), 0);
    }
  }

  lemma PlainSeam(p: string, y: string)
    requires |p| > 0 && p[|p| - 1] != '*'
    ensures SeamIsPlain(p, y)
  {
  }

  lemma UnmarkedLone(s: string)
    requires NoMatch(s, "**", 0, |s| + 1)
    ensures LoneStars(s, 0) == LoneAfterBold(s)
  {
    hide LoneStars, Count, DoubleStars, LastIsTriple;
    NoMatchNoPair(s, |s|);
    assert s[..|s|] == s && s[0..] == s;
    NoPairRead(s);
    AllLone(s, 0);
  }

  // ---------- code, links and escaping ----------

  lemma {:induction false} CodeKeepsLone(s: string)
    ensures LoneStars(Pairs(s, CODE), 0) == LoneStars(s, 0)
    decreases Count(s, '`')
  {
    hide LoneStars, Count, NextPair, IsPair;
    if NextPair(s, "`").Some? {
      var p := NextPair(s, "`").value;
      CodeStepLone(s, p);
      PairUsesMarks(s, CODE, p);
      CodeKeepsLone(RewritePair(s, CODE, p));
    }
  }

  lemma CodeStepLone(s: string, p: Pair)
    requires IsPair(s, "`", p)
    ensures LoneStars(RewritePair(s, CODE, p), 0) == LoneStars(s, 0)
  {
    hide LoneStars, IsPair;
    PairPieces(s, "`", p);
    PairOrder(s, "`", p);
    var a, t, b := s[..p.start], s[p.start + 1..p.end], s[p.end + 1..];
    LoneThrough(a, "`", t);
    LoneThrough(a + "`" + t, "`", b);
    LoneThrough(a, "<code>", t);
    LoneThrough(a + "<code>" + t, "</code>", b);
  }

  lemma Read7(a: string, w: string, t: string, x: string, u: string, z: string, b: string)
    requires |w| > 0 && |x| > 0 && |z| > 0 && '*' !in w && '*' !in x && '*' !in z
    ensures DoubleStars(a + w + t + x + u + z + b) == DoubleStars(a) + DoubleStars(t) + DoubleStars(u) + DoubleStars(b)
    ensures Count(a + w + t + x + u + z + b, '*') == Count(a, '*') + Count(t, '*') + Count(u, '*') + Count(b, '*')
  {
    hide DoubleStars, Count;
    StarlessRead(w);
    StarlessRead(x);
    StarlessRead(z);
    ReadThrough(a, w, t);
    ReadThrough(a + w + t, x, u);
    ReadThrough(a + w + t + x + u, z, b);
    Count7(a, w, t, x, u, z, b, '*');
  }

  lemma LinkStepStars(s: string, l: Span)
    requires NextLink(s) == Some(l)
    ensures DoubleStars(RewriteLink(s, l)) == DoubleStars(s) && Count(RewriteLink(s, l), '*') == Count(s, '*')
  {
    hide DoubleStars, Count, NextLink;
    LinkPieces(s, l);
    var a, t, u, b := s[..l.start], s[l.start + 1..l.mid], s[l.mid + 2..l.end], s[l.end + 1..];
    Read7(a, "[", t, "](", u, ")", b);
    Read7(a, "<a href=\"", u, "\">", t, "</a>", b);
  }

  // A link swaps its text and its address, and no two stars meet by it.
  lemma {:induction false} LinksKeepStars(s: string)
    ensures DoubleStars(Links(s)) == DoubleStars(s) && Count(Links(s), '*') == Count(s, '*')
    decreases Count(s, '[')
  {
    hide DoubleStars, Count, NextLink, RewriteLink;
    if NextLink(s).Some? {
      var l := NextLink(s).value;
      LinkUsesBracket(s, l);
      LinkStepStars(s, l);
      LinksKeepStars(RewriteLink(s, l));
    }
  }

  lemma EntityIsPlain(c: char)
    ensures if c == '*' then Entity(c) == "*" else |Entity(c)| > 0 && '*' !in Entity(c)
  {
  }

  lemma EscapedStart(text: string)
    ensures StartsPlain(EscapeEach(text)) <==> StartsPlain(text)
  {
    if |text| > 0 {
      EntityIsPlain(text[0]);
      assert EscapeEach(text)[0] == Entity(text[0])[0];
      assert Entity(text[0])[0] in Entity(text[0]);
    }
  }

  lemma {:induction false} EscapingKeepsStars(text: string)
    ensures DoubleStars(EscapeEach(text)) == DoubleStars(text) && LastIsTriple(EscapeEach(text)) == LastIsTriple(text)
    ensures Count(EscapeEach(text), '*') == Count(text, '*')
    decreases |text|
  {
    if |text| > 0 {
      hide Entity;
      var rest := text[1..];
      EntityIsPlain(text[0]);
      EscapingKeepsStars(rest);
      CountConcat(Entity(text[0]), EscapeEach(rest), '*');
      CountFirst(text[0], rest);
      assert text == [text[0]] + rest;
      if text[0] != '*' {
        StarlessRead(Entity(text[0]));
        StarlessFirst(Entity(text[0]), EscapeEach(rest));
        StarlessFirst([text[0]], rest);
      } else if StartsPlain(rest) {
        EscapedStart(rest);
        ReadApart("*", EscapeEach(rest));
        ReadApart("*", rest);
      } else {
        EscapingKeepsStars(text[2..]);
        EscapedPair(text);
        EscapedStart(text[2..]);
      }
    }
  }

  lemma CountFirst(c: char, s: string)
    ensures Count([c] + s, '*') == (if c == '*' then 1 else 0) + Count(s, '*')
    ensures Count("*", '*') == 1
  {
    assert ([c] + s)[1..] == s;
    assert "*"[1..] == "";
  }

  lemma EscapedPair(text: string)
    requires |text| >= 2 && text[0] == '*' && text[1] == '*'
    ensures EscapeEach(text) == "**" + EscapeEach(text[2..]) && EscapeEach(text)[2..] == EscapeEach(text[2..])
  {
    hide Entity, EscapeEach;
    EntityIsPlain('*');
    EscapedCons(text);
    EscapedCons(text[1..]);
    assert text[1..][1..] == text[2..];
    assert "*" + ("*" + EscapeEach(text[2..])) == "**" + EscapeEach(text[2..]);
  }

  lemma EscapedCons(text: string)
    requires |text| > 0
    ensures EscapeEach(text) == Entity(text[0]) + EscapeEach(text[1..])
  {
  }

  // ---------- the verdict ----------

  // After the links, an unpaired triple star is what bold leaves over.
  predicate LeavesTriple(s: string) {
    DoubleStars(s) % 2 == 1 && LastIsTriple(s)
  }

  predicate ItalicsClosed(text: string) {
    Depth(Tokens(BeforeItalics(text), 0, false)) == 0
  }

  // All italics are closed exactly when the message holds an even number of
  // stars, or an odd one with an unpaired triple star among them.
  lemma ItalicsClosedIff(text: string)
    ensures ItalicsClosed(text) <==> (Count(text, '*') % 2 == 0) != LeavesTriple(Links(EscapeHtml(text)))
    ensures DoubleStars(Links(EscapeHtml(text))) == DoubleStars(text)
  {
    hide LoneStars, Count, DoubleStars, LastIsTriple, Links, Pairs, EscapeHtml, Tokens, Depth;
    var s := Links(EscapeHtml(text));
    EscapeIsCharwise(text);
    EscapingKeepsStars(text);
    LinksKeepStars(EscapeHtml(text));
    BoldLone(s);
    CodeKeepsLone(Pairs(s, BOLD));
    DepthBehind(BeforeItalics(text), 0, false);
  }

  // Judged by the message alone: whenever its double stars are even in number, and
  // always when it holds no bracket.
  lemma ItalicsClosedByMessage(text: string)
    requires DoubleStars(text) % 2 == 0 || '[' !in text
    ensures ItalicsClosed(text) <==> (Count(text, '*') % 2 == 0) != LeavesTriple(text)
  {
    hide Count, DoubleStars, LastIsTriple, Links, Pairs, EscapeHtml, ItalicsClosed;
    ItalicsClosedIff(text);
    if '[' !in text {
      EscapeIsCharwise(text);
      EscapingAddsNoMark(text, '[');
      NoBracketNoLink(EscapeHtml(text));
      EscapingKeepsStars(text);
    }
  }

  lemma TripleRead(y: string)
    ensures DoubleStars("***" + y) == 1 + DoubleStars("*" + y)
    ensures StartsPlain(y) ==> DoubleStars("*" + y) == DoubleStars(y)
    ensures StartsPlain(y) ==> LastIsTriple("***" + y) == (DoubleStars(y) == 0 || LastIsTriple(y))
  {
    assert ("***" + y)[2..] == "*" + y;
    if StartsPlain(y) {
      ReadPlain("*", y);
    }
  }

  lemma PairRead(y: string)
    requires StartsPlain(y)
    ensures DoubleStars("**" + y) == 1 + DoubleStars(y)
            && LastIsTriple("**" + y) == (DoubleStars(y) > 0 && LastIsTriple(y))
  {
    assert ("**" + y)[2..] == y;
  }

  // Two double stars with starless text around and between, in either order with
  // a triple one
  lemma TripleMoves(v: string, w: string, x: string, y: string)
    requires '*' !in v && '*' !in w && '*' !in x && '*' !in y && |w| > 0 && |x| > 0
    ensures LeavesTriple(v + ("**" + (w + ("**" + (x + ("***" + y))))))
    ensures |y| > 0 ==> !LeavesTriple(v + ("***" + (x + ("**" + (w + ("**" + y))))))
  {
    hide DoubleStars, LastIsTriple;
    StarlessRead(y);
    assert w[0] in w && x[0] in x && (|y| > 0 ==> y[0] in y);
    TripleRead(y);
    StarlessFirst(x, "***" + y);
    PairRead(x + ("***" + y));
    StarlessFirst(w, "**" + (x + ("***" + y)));
    PairRead(w + ("**" + (x + ("***" + y))));
    StarlessFirst(v, "**" + (w + ("**" + (x + ("***" + y)))));
    PairRead(y);
    StarlessFirst(w, "**" + y);
    PairRead(w + ("**" + y));
    StarlessFirst(x, "**" + (w + ("**" + y)));
    TripleRead(x + ("**" + (w + ("**" + y))));
    StarlessFirst(v, "***" + (x + ("**" + (w + ("**" + y)))));
  }

  // A bracket may decide the verdict: the link puts its address, and the triple
  // star in it, before its text.
  lemma LinkMovesTriple(w: string)
    requires |w| > 0 && '*' !in w && '[' !in w && ']' !in w && '&' !in w && '<' !in w && '>' !in w
    ensures var text := "[" + ("**" + w + "**") + "](" + "***" + ")" + "";
            LeavesTriple(text) && !LeavesTriple(Links(EscapeHtml(text)))
  {
    hide DoubleStars, LastIsTriple, LeavesTriple, Links, EscapeHtml;
    var t := "**" + w + "**";
    var text := "[" + t + "](" + "***" + ")" + "";
    BareText(w);
    LinkRendered(t, "***", "");
    NoBracketNoLink("");
    TripleMoves("[", w, "](", ")");
    GroupMessage("[", w, "](", ")");
    TripleMoves("<a href=\"", w, "\">", "</a>");
    GroupHtml("<a href=\"", w, "\">", "</a>");
  }

  lemma BareText(w: string)
    requires '&' !in w && '<' !in w && '>' !in w
    ensures var text := "[" + ("**" + w + "**") + "](" + "***" + ")" + "";
            EscapeHtml(text) == text
  {
    hide Replace;
    var text := "[" + ("**" + w + "**") + "](" + "***" + ")" + "";
    ReplaceAbsent(text, '&', "&amp;");
    ReplaceAbsent(text, '<', "&lt;");
    ReplaceAbsent(text, '>', "&gt;");
  }

  lemma GroupMessage(v: string, w: string, x: string, y: string)
    ensures v + ("**" + w + "**") + x + "***" + y + "" == v + ("**" + (w + ("**" + (x + ("***" + y)))))
  {
  }

  lemma GroupHtml(v: string, w: string, x: string, y: string)
    ensures v + "***" + x + ("**" + w + "**") + y + "" == v + ("***" + (x + ("**" + (w + ("**" + y)))))
  {
  }
}
