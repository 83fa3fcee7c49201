/** The three styling loops, each rewriting until nothing matches, amount to one
    reading of the linked text from left to right. */
module FormatterOnePass {
  import opened Wrappers
  import opened Text
  import opened FormatterInline
  import opened FormatterTags
  import opened FormatterItalics
  import opened FormatterStars
  import opened FormatterFlat

  predicate Occurs(s: string, mark: string) {
    mark <= s || (|s| > 0 && Occurs(s[1..], mark))
  }

  // ---------- one loop: a mark toggles its style, an unpaired one is text ----------

  function Toggled(s: string, k: Style, on: bool): string
    requires IsStyle(k)
    decreases |s|
  {
    if |s| == 0 then []
    else if k.mark <= s then
      if on then k.close + Toggled(s[|k.mark|..], k, false)
      else if Occurs(s[|k.mark|..], k.mark) then k.open + Toggled(s[|k.mark|..], k, true)
      else s
    else [s[0]] + Toggled(s[1..], k, on)
  }

  lemma StyleMark(k: Style)
    requires IsStyle(k)
    ensures |k.mark| > 0
  {
  }

  lemma MatchInFront(s: string, mark: string)
    ensures MatchAt(s, mark, 0) <==> mark <= s
  {
    if |mark| <= |s| {
      assert s[0..0 + |mark|] == s[..|mark|];
    }
  }

  lemma {:induction false} OccursIff(s: string, mark: string)
    requires |mark| > 0
    ensures Occurs(s, mark) <==> !NoMatch(s, mark, 0, |s| + 1)
    decreases |s|
  {
    hide MatchAt;
    MatchInFront(s, mark);
    if |s| > 0 {
      OccursIff(s[1..], mark);
      MatchesBehind(s, mark);
    } else {
      MatchesEnd(s, mark);
    }
  }

  lemma MatchesBehind(s: string, mark: string)
    requires |s| > 0
    ensures forall q: nat :: q > 0 ==> (MatchAt(s, mark, q) <==> MatchAt(s[1..], mark, q - 1))
    ensures NoMatch(s, mark, 0, |s| + 1) <==> !MatchAt(s, mark, 0) && NoMatch(s[1..], mark, 0, |s|)
  {
    forall q: nat | q > 0 ensures MatchAt(s, mark, q) <==> MatchAt(s[1..], mark, q - 1) {
      if q + |mark| <= |s| {
        assert s[1..][q - 1..q - 1 + |mark|] == s[q..q + |mark|];
      }
    }
    hide MatchAt;
    if !MatchAt(s, mark, 0) && NoMatch(s[1..], mark, 0, |s|) {
      forall q: nat | q <= |s| ensures !MatchAt(s, mark, q) {
        assert q > 0 ==> !MatchAt(s[1..], mark, q - 1);
      }
    } else if NoMatch(s, mark, 0, |s| + 1) {
      forall q: nat | q < |s| ensures !MatchAt(s[1..], mark, q) {
        assert !MatchAt(s, mark, q + 1);
      }
    }
  }

  lemma MatchesEnd(s: string, mark: string)
    requires |s| == 0 && |mark| > 0
    ensures !Occurs(s, mark) && NoMatch(s, mark, 0, 1)
  {
  }

  // Text before the first mark is copied.
  lemma {:induction false} ToggledSkip(a: string, y: string, k: Style, on: bool)
    requires IsStyle(k) && NoMatch(a + y, k.mark, 0, |a|)
    ensures Toggled(a + y, k, on) == a + Toggled(y, k, on)
    decreases |a|
  {
    hide MatchAt, IsStyle, Toggled;
    var s := a + y;
    if |a| == 0 {
      assert s == y;
    } else {
      MatchInFront(s, k.mark);
      assert !MatchAt(s, k.mark, 0);
      assert s[0] == a[0] && s[1..] == a[1..] + y;
      MatchInTail(s, k.mark, 1, |a|);
      ToggledSkip(a[1..], y, k, on);
      ToggledChar(s, k, on);
    }
  }

  lemma ToggledChar(s: string, k: Style, on: bool)
    requires IsStyle(k) && |s| > 0 && !(k.mark <= s)
    ensures Toggled(s, k, on) == [s[0]] + Toggled(s[1..], k, on)
  {
  }

  lemma ToggledUnmarked(s: string, k: Style, on: bool)
    requires IsStyle(k) && !Occurs(s, k.mark)
    ensures Toggled(s, k, on) == s
  {
    hide Toggled, Occurs, IsStyle;
    StyleMark(k);
    OccursIff(s, k.mark);
    assert s + [] == s;
    ToggledSkip(s, [], k, on);
    assert Toggled([], k, on) == [] by { NothingToToggle(k, on); }
  }

  lemma NothingToToggle(k: Style, on: bool)
    requires IsStyle(k)
    ensures Toggled([], k, on) == []
  {
  }

  lemma ToggledMark(y: string, k: Style, on: bool)
    requires IsStyle(k)
    ensures Toggled(k.mark + y, k, on)
         == if on then k.close + Toggled(y, k, false)
            else if Occurs(y, k.mark) then k.open + Toggled(y, k, true)
            else k.mark + y
  {
    assert (k.mark + y)[|k.mark|..] == y;
  }

  // s == a + mark + rest with its first mark there
  lemma CutAtMark(s: string, mark: string, p: nat)
    requires MatchAt(s, mark, p)
    ensures s == s[..p] + (mark + s[p + |mark|..])
  {
    assert s[p..p + |mark|] == mark;
  }

  // A rewritten part is never come back to.
  lemma RewrittenIsDone(a: string, t: string, r: string, k: Style)
    requires IsStyle(k)
    requires NoMatch(a + (k.mark + (t + (k.mark + r))), k.mark, 0, |a|)
    requires NoMatch(t + (k.mark + r), k.mark, 0, |t|)
    ensures Pairs(a + k.open + t + k.close + r, k) == a + k.open + t + k.close + Pairs(r, k)
  {
    hide Pairs;
    var done := a + k.open + t + k.close;
    if k == BOLD {
      NoStarsLeft(a, "**" + (t + ("**" + r)));
      NoStarsLeft(t, "**" + r);
      BoldBehind(done, r);
    } else {
      NoBacktickLeft(a, "`" + (t + ("`" + r)));
      NoBacktickLeft(t, "`" + r);
      PairsSkip(done, r, CODE);
    }
  }

  lemma NoStarsLeft(a: string, y: string)
    requires NoMatch(a + y, "**", 0, |a|)
    ensures NoPair(a)
  {
    var s := a + y;
    forall i | 0 <= i < |a| - 1 ensures a[i] != '*' || a[i + 1] != '*' {
      assert !MatchAt(s, "**", i);
      assert s[i..i + 2] == [a[i], a[i + 1]];
    }
  }

  lemma NoBacktickLeft(a: string, y: string)
    requires NoMatch(a + y, "`", 0, |a|)
    ensures '`' !in a
  {
    var s := a + y;
    forall i | 0 <= i < |a| ensures a[i] != '`' {
      assert !MatchAt(s, "`", i);
      assert s[i..i + 1] == [a[i]];
    }
  }

  // The rewriting loop computes the reading from left to right.
  lemma {:induction false} PairsIsToggle(s: string, k: Style)
    requires IsStyle(k)
    ensures Pairs(s, k) == Toggled(s, k, false)
    decreases |s|
  {
    hide Find, NextPair, MatchAt, NoMatch, Occurs, Toggled, RewritePair, IsStyle;
    StyleMark(k);
    NextPairIs(s, k.mark);
    OccursIff(s, k.mark);
    if Find(s, k.mark, 0).None? {
      ToggledUnmarked(s, k, false);
    } else {
      var p, m := Find(s, k.mark, 0).value, |k.mark|;
      CutAtMark(s, k.mark, p);
      var a, rest := s[..p], s[p + m..];
      ToggledSkip(a, k.mark + rest, k, false);
      ToggledMark(rest, k, false);
      OccursIff(rest, k.mark);
      if NextPair(s, k.mark).None? {
        MatchInTail(s, k.mark, p + m, |s| + 1);
      } else {
        PairIsToggle(s, k, p, NextPair(s, k.mark).value.end);
      }
    }
  }

  lemma PairIsToggle(s: string, k: Style, p: nat, e: nat)
    requires IsStyle(k) && NextPair(s, k.mark) == Some(Pair(p, e))
    requires p + |k.mark| <= e && MatchAt(s, k.mark, p) && MatchAt(s, k.mark, e)
    requires NoMatch(s, k.mark, 0, p) && NoMatch(s, k.mark, p + |k.mark|, e)
    ensures Pairs(s, k) == Toggled(s, k, false)
    decreases |s|, 0
  {
    hide Find, NextPair, MatchAt, NoMatch, Occurs, Toggled, Pairs, IsStyle;
    StyleMark(k);
    var m := |k.mark|;
    CutAtMark(s, k.mark, p);
    var a, rest := s[..p], s[p + m..];
    MatchInTail(s, k.mark, p + m, e);
    CutAtMark(rest, k.mark, e - p - m);
    var t, r := rest[..e - p - m], rest[e - p..];
    assert r == s[e + m..] && t == s[p + m..e];
    PairsStep(s, k, Pair(p, e));
    RewrittenIsDone(a, t, r, k);
    PairsIsToggle(r, k);
    MatchMeansOccurs(rest, k.mark, |t|);
    TogglePieces(a, t, r, k);
  }

  lemma TogglePieces(a: string, t: string, r: string, k: Style)
    requires IsStyle(k) && Occurs(t + (k.mark + r), k.mark)
    requires NoMatch(a + (k.mark + (t + (k.mark + r))), k.mark, 0, |a|)
    requires NoMatch(t + (k.mark + r), k.mark, 0, |t|)
    ensures Toggled(a + (k.mark + (t + (k.mark + r))), k, false) == a + k.open + t + k.close + Toggled(r, k, false)
  {
    hide NoMatch, Occurs, Toggled, IsStyle;
    ToggledSkip(a, k.mark + (t + (k.mark + r)), k, false);
    ToggledMark(t + (k.mark + r), k, false);
    ToggledSkip(t, k.mark + r, k, true);
    ToggledMark(r, k, true);
    Regroup(a, k.open, t, k.close, Toggled(r, k, false));
  }

  lemma Regroup(a: string, b: string, c: string, d: string, e: string)
    ensures a + (b + (c + (d + e))) == a + b + c + d + e
  {
  }

  lemma MatchMeansOccurs(s: string, mark: string, q: nat)
    requires |mark| > 0 && MatchAt(s, mark, q)
    ensures Occurs(s, mark)
  {
    OccursIff(s, mark);
  }

  lemma PairsStep(s: string, k: Style, p: Pair)
    requires IsStyle(k) && NextPair(s, k.mark) == Some(p)
    ensures p.start + |k.mark| <= p.end && p.end + |k.mark| <= |s|
    ensures Pairs(s, k) == Pairs(s[..p.start] + k.open + s[p.start + |k.mark|..p.end] + k.close
            + s[p.end + |k.mark|..], k)
  {
    hide NextPair, IsPair, IsStyle, Count;
    PairOrder(s, k.mark, p);
    PairUsesMarks(s, k, p);
  }

  // ---------- all three loops in one reading ----------

  // b, c and t say whether bold, code and italics are open. The last double star or
  // backtick is text when it has no partner; a lone star always toggles.
  function OnePass(s: string, b: bool, c: bool, t: bool): string
    decreases |s|
  {
    if |s| == 0 then []
    else if "**" <= s then
      if b then "</b>" + OnePass(s[2..], false, c, t)
      else if Occurs(s[2..], "**") then "<b>" + OnePass(s[2..], true, c, t)
      else s[..StarRun(s)] + OnePass(s[StarRun(s)..], false, c, t)
    else if s[0] == '`' then
      if c then "</code>" + OnePass(s[1..], b, false, t)
      else if '`' in s[1..] then "<code>" + OnePass(s[1..], b, true, t)
      else "`" + OnePass(s[1..], b, false, t)
    else if s[0] == '*' then (if t then "</i>" else "<i>") + OnePass(s[1..], b, c, !t)
    else [s[0]] + OnePass(s[1..], b, c, t)
  }

  // Two stars, or three
  function StarRun(s: string): nat
    requires "**" <= s
    ensures 2 <= StarRun(s) <= |s|
  {
    if |s| > 2 && s[2] == '*' then 3 else 2
  }

  function Passes(s: string, b: bool, c: bool, t: bool): string {
    Italics(Toggled(Toggled(s, BOLD, b), CODE, c), 0, t)
  }

  // What holds no star passes the italics loop.
  lemma ItalicsPrefix(w: string, y: string, t: bool)
    requires '*' !in w && |w| > 0
    ensures Italics(w + y, 0, t) == w + Italics(y, 0, t)
  {
    hide Italics, LoneStars;
    StarlessRead(w);
    assert forall j :: 0 <= j < |w| ==> w[j] in w;
    assert w[|w| - 1] in w;
    ItalicsCopies(w, 0, |w|, t);
    ItalicsEnd(w, t);
    assert w[0..|w|] == w && w + [] == w;
    ItalicsApart(w, y, 0, t);
  }

  lemma ItalicsLone(y: string, t: bool)
    requires StartsPlain(y)
    ensures Italics("*" + y, 0, t) == (if t then "</i>" else "<i>") + Italics(y, 0, !t)
  {
    hide Italics;
    ItalicsStep("*" + y, 0, t);
    ItalicsBehind("*", y, 0, !t);
  }

  // Stars next to each other are no italics.
  lemma ItalicsRun(w: string, y: string, t: bool)
    requires w == "**" || w == "***"
    requires StartsPlain(y)
    ensures Italics(w + y, 0, t) == w + Italics(y, 0, t)
  {
    hide Italics;
    var s := w + y;
    assert forall i :: 0 <= i < |w| ==> s[i] == '*' && !LoneStar(s, i);
    ItalicsStep(s, 0, t);
    ItalicsStep(s, 1, t);
    if |w| == 3 {
      ItalicsStep(s, 2, t);
    }
    ItalicsBehind(w, y, 0, t);
  }

  // A loop leaves the other loops' marks alone.
  lemma {:induction false} BackticksStay(s: string, on: bool)
    ensures '`' in Toggled(s, BOLD, on) <==> '`' in s
    decreases |s|
  {
    hide Occurs;
    if |s| > 0 {
      if "**" <= s {
        BackticksStay(s[2..], !on);
        assert s == "**" + s[2..];
        assert '`' !in "**" && '`' !in "<b>" && '`' !in "</b>";
      } else {
        BackticksStay(s[1..], on);
        assert s == [s[0]] + s[1..];
      }
    }
  }

  lemma {:induction false} BacktickOccurs(s: string)
    ensures Occurs(s, "`") <==> '`' in s
  {
    if |s| > 0 {
      BacktickOccurs(s[1..]);
      assert s == [s[0]] + s[1..];
      assert "`" <= s <==> s[0] == '`';
    }
  }

  lemma FirstStaysPlain(s: string, k: Style, on: bool)
    requires IsStyle(k) && StartsPlain(s)
    ensures StartsPlain(Toggled(s, k, on))
  {
    if |s| > 0 && k.mark <= s {
      assert k == CODE;
      hide Toggled;
      ToggledMark(s[1..], k, on);
      assert s == k.mark + s[1..];
    }
  }

  // What the code loop does behind a text without backticks
  lemma CodePrefix(w: string, y: string, c: bool)
    requires '`' !in w
    ensures Toggled(w + y, CODE, c) == w + Toggled(y, CODE, c)
  {
    forall q: nat | q < |w| ensures !MatchAt(w + y, "`", q) {
      if q + 1 <= |w + y| {
        assert (w + y)[q..q + 1] == [w[q]];
      }
    }
    ToggledSkip(w, y, CODE, c);
  }

  lemma TagPasses(tag: string, s: string, b: bool, c: bool, t: bool)
    requires tag == "<b>" || tag == "</b>"
    ensures Italics(Toggled(tag + Toggled(s, BOLD, b), CODE, c), 0, t) == tag + Passes(s, b, c, t)
  {
    hide Toggled, Italics;
    CodePrefix(tag, Toggled(s, BOLD, b), c);
    ItalicsPrefix(tag, Toggled(Toggled(s, BOLD, b), CODE, c), t);
  }

  lemma BoldCase(s: string, b: bool, c: bool, t: bool)
    requires "**" <= s && (b || Occurs(s[2..], "**"))
    ensures Passes(s, b, c, t) == (if b then "</b>" else "<b>") + Passes(s[2..], !b, c, t)
  {
    hide Toggled, Italics, Occurs;
    ToggledMark(s[2..], BOLD, b);
    assert s == "**" + s[2..];
    TagPasses(if b then "</b>" else "<b>", s[2..], !b, c, t);
  }

  lemma UnpairedCase(s: string, c: bool, t: bool)
    requires "**" <= s && !Occurs(s[2..], "**")
    ensures Passes(s, false, c, t) == s[..StarRun(s)] + Passes(s[StarRun(s)..], false, c, t)
  {
    hide Toggled, Italics;
    var n := StarRun(s);
    var w, y := s[..n], s[n..];
    assert s == "**" + s[2..] && s == w + y;
    ToggledMark(s[2..], BOLD, false);
    UnpairedRest(s);
    ToggledUnmarked(y, BOLD, false);
    assert w == if n == 2 then "**" else "***";
    CodePrefix(w, y, c);
    FirstStaysPlain(y, CODE, c);
    ItalicsRun(w, Toggled(y, CODE, c), t);
  }

  lemma UnpairedRest(s: string)
    requires "**" <= s && !Occurs(s[2..], "**")
    ensures !Occurs(s[StarRun(s)..], "**") && StartsPlain(s[StarRun(s)..])
  {
    var rest := s[2..];
    if StarRun(s) == 3 {
      assert s[3..] == rest[1..] && rest[0] == '*';
      assert !("**" <= rest);
    }
  }

  lemma CodeCase(s: string, b: bool, c: bool, t: bool)
    requires |s| > 0 && s[0] == '`'
    ensures Passes(s, b, c, t)
         == if c then "</code>" + Passes(s[1..], b, false, t)
            else if '`' in s[1..] then "<code>" + Passes(s[1..], b, true, t)
            else "`" + Passes(s[1..], b, false, t)
  {
    hide Toggled, Italics, Occurs;
    var x := Toggled(s[1..], BOLD, b);
    ToggledChar(s, BOLD, b);
    assert Toggled(s, BOLD, b) == "`" + x;
    ToggledMark(x, CODE, c);
    BacktickOccurs(x);
    BackticksStay(s[1..], b);
    if c || '`' in s[1..] {
      ItalicsPrefix(if c then "</code>" else "<code>", Toggled(x, CODE, !c), t);
    } else {
      ToggledUnmarked(x, CODE, false);
      ItalicsPrefix("`", x, t);
    }
  }

  lemma LoneStarAhead(s: string)
    requires |s| > 0 && s[0] == '*'
    ensures "**" <= s <==> !StartsPlain(s[1..])
  {
  }

  lemma PlainCase(s: string, b: bool, c: bool, t: bool)
    requires |s| > 0 && s[0] != '`' && !("**" <= s)
    ensures Passes(s, b, c, t)
         == if s[0] == '*' then (if t then "</i>" else "<i>") + Passes(s[1..], b, c, !t)
            else [s[0]] + Passes(s[1..], b, c, t)
  {
    hide Toggled, Italics, Occurs;
    ToggledChar(s, BOLD, b);
    var x := Toggled(s[1..], BOLD, b);
    CodePrefix([s[0]], x, c);
    if s[0] == '*' {
      LoneStarAhead(s);
      FirstStaysPlain(s[1..], BOLD, b);
      FirstStaysPlain(x, CODE, c);
      assert [s[0]] == "*";
      ItalicsLone(Toggled(x, CODE, c), t);
    } else {
      ItalicsPrefix([s[0]], Toggled(x, CODE, c), t);
    }
  }

  lemma {:induction false} PassesAreOne(s: string, b: bool, c: bool, t: bool)
    ensures Passes(s, b, c, t) == OnePass(s, b, c, t)
    decreases |s|
  {
    hide Passes, Occurs;
    if |s| == 0 {
      NothingPasses(b, c, t);
    } else if "**" <= s {
      if b || Occurs(s[2..], "**") {
        BoldCase(s, b, c, t);
        PassesAreOne(s[2..], !b, c, t);
      } else {
        UnpairedCase(s, c, t);
        PassesAreOne(s[StarRun(s)..], false, c, t);
      }
    } else if s[0] == '`' {
      CodeCase(s, b, c, t);
      PassesAreOne(s[1..], b, !c && '`' in s[1..], t);
    } else {
      PlainCase(s, b, c, t);
      PassesAreOne(s[1..], b, c, t != (s[0] == '*'));
    }
  }

  lemma NothingPasses(b: bool, c: bool, t: bool)
    ensures Passes([], b, c, t) == []
  {
  }

  function Linked(text: string): string {
    Links(EscapeHtml(text))
  }

  // For every line, rewriting bold, code and italics one after the other gives what
  // one reading of the linked text gives.
  lemma RenderIsOnePass(text: string)
    ensures RenderInline(text) == OnePass(Linked(text), false, false, false)
  {
    hide Links, EscapeHtml, Pairs, Toggled, Italics, OnePass;
    PairsIsToggle(Linked(text), BOLD);
    PairsIsToggle(Toggled(Linked(text), BOLD, false), CODE);
    PassesAreOne(Linked(text), false, false, false);
  }
}
