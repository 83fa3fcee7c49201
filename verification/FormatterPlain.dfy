/** Markdown to plain text: bold and italic markers and backticks are stripped,
    then links become "text (url)". */
module FormatterPlain {
  import opened Wrappers
  import opened Text
  import opened FormatterInline

  // str::replace("**", ""): pairs of adjacent stars, found from left to right
  function RemovePairs(s: string): string {
    if |s| == 0 then []
    else if "**" <= s then RemovePairs(s[2..])
    else [s[0]] + RemovePairs(s[1..])
  }

  // The star pass: stars with no star beside them are skipped
  function RemoveLone(s: string, i: nat): string
    requires i <= |s|
    decreases |s| - i
  {
    if i == |s| then []
    else if LoneStar(s, i) then RemoveLone(s, i + 1)
    else [s[i]] + RemoveLone(s, i + 1)
  }

  function StripMarkers(text: string): string {
    Replace(RemoveLone(RemovePairs(text), 0), '`', "")
  }

  function RewritePlainLink(s: string, l: Span): string
    requires IsLink(s, l)
  {
    s[..l.start] + s[l.start + 1..l.mid] + " (" + s[l.mid + 2..l.end] + ")" + s[l.end + 1..]
  }

  lemma PlainLinkUsesBracket(s: string, l: Span)
    requires NextLink(s) == Some(l)
    ensures Count(RewritePlainLink(s, l), '[') == Count(s, '[') - 1
  {
    hide Count, NextLink;
    LinkPieces(s, l);
    NoBracketsAdded();
    CountZero(" (", '[');
    var a, t, u, b := s[..l.start], s[l.start + 1..l.mid], s[l.mid + 2..l.end], s[l.end + 1..];
    Count7(a, "[", t, "](", u, ")", b, '[');
    Count7(a, t, " (", u, ")", b, "", '[');
    CountZero("", '[');
    assert a + t + " (" + u + ")" + b + "" == a + t + " (" + u + ")" + b;
  }

  function PlainLinks(s: string): string
    decreases Count(s, '[')
  {
    match NextLink(s)
    case None => s
    case Some(l) =>
      PlainLinkUsesBracket(s, l);
      PlainLinks(RewritePlainLink(s, l))
  }

  function PlainText(text: string): string {
    PlainLinks(StripMarkers(text))
  }

  // ---------- the three passes are one filter ----------

  ghost predicate NoAdjacentStars(s: string) {
    forall i :: 0 <= i < |s| - 1 ==> !(s[i] == '*' && s[i + 1] == '*')
  }

  // What is left of a run of stars is at most one star, and runs stay apart.
  lemma {:induction false} PairsRemoved(s: string)
    ensures NoAdjacentStars(RemovePairs(s))
    ensures |s| > 0 && s[0] != '*' ==> |RemovePairs(s)| > 0 && RemovePairs(s)[0] == s[0]
    decreases |s|
  {
    if "**" <= s {
      PairsRemoved(s[2..]);
    } else if |s| > 0 {
      PairsRemoved(s[1..]);
      var r := RemovePairs(s[1..]);
      assert s[0] == '*' && |s| > 1 ==> s[1] != '*';
      assert s[0] == '*' && |r| > 0 ==> r[0] != '*';
      assert RemovePairs(s) == [s[0]] + r;
    }
  }

  lemma {:induction false} PairsRemovedKeepsRest(s: string)
    ensures Without(RemovePairs(s), {'*'}) == Without(s, {'*'})
    decreases |s|
  {
    if "**" <= s {
      PairsRemovedKeepsRest(s[2..]);
      assert s[1..][1..] == s[2..];
      assert Without(s, {'*'}) == Without(s[1..], {'*'}) == Without(s[2..], {'*'});
    } else if |s| > 0 {
      PairsRemovedKeepsRest(s[1..]);
      assert ([s[0]] + RemovePairs(s[1..]))[1..] == RemovePairs(s[1..]);
    }
  }

  lemma {:induction false} LoneRemoved(s: string, i: nat)
    requires NoAdjacentStars(s) && i <= |s|
    ensures RemoveLone(s, i) == Without(s[i..], {'*'})
    decreases |s| - i
  {
    if i < |s| {
      LoneRemoved(s, i + 1);
      assert s[i..][1..] == s[i + 1..];
    }
  }

  lemma {:induction false} ReplaceDeletes(s: string, c: char)
    ensures Replace(s, c, "") == Without(s, {c})
  {
    if |s| > 0 {
      ReplaceDeletes(s[1..], c);
    }
  }

  lemma {:induction false} WithoutTwice(s: string, a: set<char>, b: set<char>)
    ensures Without(Without(s, a), b) == Without(s, a + b)
  {
    if |s| > 0 {
      WithoutTwice(s[1..], a, b);
      if s[0] !in a {
        assert ([s[0]] + Without(s[1..], a))[1..] == Without(s[1..], a);
      }
    }
  }

  // Stripping bold, italic and code markers deletes every star and backtick
  // and nothing else.
  lemma StrippingIsFilter(text: string)
    ensures StripMarkers(text) == Without(text, {'*', '`'})
  {
    var paired := RemovePairs(text);
    PairsRemoved(text);
    PairsRemovedKeepsRest(text);
    LoneRemoved(paired, 0);
    assert paired[0..] == paired;
    ReplaceDeletes(Without(text, {'*'}), '`');
    WithoutTwice(text, {'*'}, {'`'});
    assert {'*'} + {'`'} == {'*', '`'};
  }

  // ---------- the link loop moves no text ----------

  const LINK_MARKS: set<char> := {'[', ']', '(', ')', ' '}

  lemma Without7(a: string, b: string, d: string, e: string, f: string, g: string, h: string, drop: set<char>)
    ensures Without(a + b + d + e + f + g + h, drop)
         == Without(a, drop) + Without(b, drop) + Without(d, drop) + Without(e, drop) + Without(f, drop)
             + Without(g, drop) + Without(h, drop)
  {
    hide Without;
    WithoutConcat(a, b, drop);
    WithoutConcat(a + b, d, drop);
    WithoutConcat(a + b + d, e, drop);
    WithoutConcat(a + b + d + e, f, drop);
    WithoutConcat(a + b + d + e + f, g, drop);
    WithoutConcat(a + b + d + e + f + g, h, drop);
  }

  lemma LinkMarksVanish()
    ensures Without("[", LINK_MARKS) == Without("](", LINK_MARKS) == Without(")", LINK_MARKS)
            == Without(" (", LINK_MARKS) == ""
  {
    assert "["[1..] == "" && ")"[1..] == "" && "]("[1..] == "(" && " ("[1..] == "(" && "("[1..] == "";
  }

  lemma PlainLinkKeepsText(s: string, l: Span)
    requires NextLink(s) == Some(l)
    ensures Without(RewritePlainLink(s, l), LINK_MARKS) == Without(s, LINK_MARKS)
  {
    hide Without, NextLink;
    LinkPieces(s, l);
    LinkMarksVanish();
    var a, t, u, b := s[..l.start], s[l.start + 1..l.mid], s[l.mid + 2..l.end], s[l.end + 1..];
    Without7(a, "[", t, "](", u, ")", b, LINK_MARKS);
    Without7(a, t, " (", u, ")", b, "", LINK_MARKS);
    assert a + t + " (" + u + ")" + b + "" == a + t + " (" + u + ")" + b;
    WithoutNothing();
  }

  lemma WithoutNothing()
    ensures Without("", LINK_MARKS) == ""
  {
  }

  lemma {:induction false} PlainLinksKeepText(s: string)
    ensures Without(PlainLinks(s), LINK_MARKS) == Without(s, LINK_MARKS)
    decreases Count(s, '[')
  {
    hide Without, RewritePlainLink;
    if NextLink(s).Some? {
      var l := NextLink(s).value;
      PlainLinkUsesBracket(s, l);
      PlainLinkKeepsText(s, l);
      PlainLinksKeepText(RewritePlainLink(s, l));
    }
  }

  // The link loop brings no star and no backtick back.
  lemma {:induction false} PlainLinksAddNoMarkers(s: string)
    requires '*' !in s && '`' !in s
    ensures '*' !in PlainLinks(s) && '`' !in PlainLinks(s)
    decreases Count(s, '[')
  {
    hide Find, Count;
    if NextLink(s).Some? {
      var l := NextLink(s).value;
      PlainLinkUsesBracket(s, l);
      PlainLinksAddNoMarkers(RewritePlainLink(s, l));
    }
  }

  lemma {:induction false} WithoutHasNone(s: string, drop: set<char>, c: char)
    requires c in drop
    ensures c !in Without(s, drop)
  {
    if |s| > 0 {
      WithoutHasNone(s[1..], drop, c);
    }
  }

  // For every message: all text but the markers and the link punctuation
  // survives, in its order, and no marker is left.
  lemma PlainTextKeepsText(text: string)
    ensures Without(PlainText(text), LINK_MARKS) == Without(text, LINK_MARKS + {'*', '`'})
    ensures '*' !in PlainText(text) && '`' !in PlainText(text)
  {
    hide RemoveLone, RemovePairs, Replace;
    StrippingIsFilter(text);
    PlainLinksKeepText(StripMarkers(text));
    WithoutTwice(text, {'*', '`'}, LINK_MARKS);
    assert {'*', '`'} + LINK_MARKS == LINK_MARKS + {'*', '`'};
    WithoutHasNone(text, {'*', '`'}, '*');
    WithoutHasNone(text, {'*', '`'}, '`');
    PlainLinksAddNoMarkers(StripMarkers(text));
  }

  // Text before the first bracket is left alone by the link loop.
  lemma {:induction false} PlainLinksSkip(a: string, y: string)
    requires '[' !in a
    ensures PlainLinks(a + y) == a + PlainLinks(y)
    decreases Count(y, '[')
  {
    hide Find, Count, NextLink, RewritePlainLink;
    NextLinkBehind(a, y);
    if NextLink(y).Some? {
      var l := NextLink(y).value;
      PlainLinkUsesBracket(y, l);
      PlainLinkBehind(a, y, l);
      PlainLinksSkip(a, RewritePlainLink(y, l));
    }
  }

  lemma PlainLinkBehind(a: string, y: string, l: Span)
    requires IsLink(y, l) && IsLink(a + y, Span(|a| + l.start, |a| + l.mid, |a| + l.end))
    ensures RewritePlainLink(a + y, Span(|a| + l.start, |a| + l.mid, |a| + l.end)) == a + RewritePlainLink(y, l)
  {
    var s := a + y;
    hide IsLink, RewritePlainLink;
    RewrittenPieces(y, l);
    RewrittenPieces(s, Span(|a| + l.start, |a| + l.mid, |a| + l.end));
    assert s[..|a| + l.start] == a + y[..l.start];
    assert s[|a| + l.mid + 2..|a| + l.end] == y[l.mid + 2..l.end];
    assert s[|a| + l.start + 1..|a| + l.mid] == y[l.start + 1..l.mid];
    assert s[|a| + l.end + 1..] == y[l.end + 1..];
    InParens(a, y[..l.start], y[l.start + 1..l.mid], y[l.mid + 2..l.end], y[l.end + 1..]);
  }

  lemma RewrittenPieces(s: string, l: Span)
    requires IsLink(s, l)
    ensures l.start < l.mid && l.mid + 2 <= l.end < |s|
    ensures RewritePlainLink(s, l)
         == s[..l.start] + s[l.start + 1..l.mid] + " (" + s[l.mid + 2..l.end] + ")" + s[l.end + 1..]
  {
  }

  lemma InParens(a: string, p: string, text: string, url: string, b: string)
    ensures (a + p) + text + " (" + url + ")" + b == a + (p + text + " (" + url + ")" + b)
  {
  }

  // [t](u) becomes "t (u)".
  lemma PlainLinkRendered(t: string, u: string, b: string)
    requires '[' !in t && ']' !in t && '[' !in u && ')' !in u
    ensures PlainLinks("[" + t + "](" + u + ")" + b) == t + " (" + u + ")" + PlainLinks(b)
  {
    hide Find, Count, NextLink, RewritePlainLink;
    var s := "[" + t + "](" + u + ")" + b;
    WellFormedLinkFound(t, u, b);
    var l := Span(0, 1 + |t|, 3 + |t| + |u|);
    PlainLinkUsesBracket(s, l);
    WellFormedPlainLink(t, u, b);
    assert '[' !in " (" && '[' !in ")";
    PlainLinksSkip(t + " (" + u + ")", b);
  }

  lemma WellFormedPlainLink(t: string, u: string, b: string)
    ensures var s := "[" + t + "](" + u + ")" + b;
            var l := Span(0, 1 + |t|, 3 + |t| + |u|);
            IsLink(s, l) && RewritePlainLink(s, l) == (t + " (" + u + ")") + b
  {
    var s := "[" + t + "](" + u + ")" + b;
    assert s[..0] == "" && s[1 + |t| + 2..3 + |t| + |u|] == u && s[1..1 + |t|] == t && s[3 + |t| + |u| + 1..] == b;
  }

  // ---------- the loops themselves ----------

  method RemoveLoneStars(text: string) returns (out: string)
    ensures out == RemoveLone(text, 0)
  {
    out := "";
    for i := 0 to |text|
      invariant out + RemoveLone(text, i) == RemoveLone(text, 0)
    {
      if LoneStar(text, i) {
        continue;
      }
      assert out + ([text[i]] + RemoveLone(text, i + 1)) == (out + [text[i]]) + RemoveLone(text, i + 1);
      out := out + [text[i]];
    }
    assert out + [] == out;
  }

  method MarkdownToPlain(text: string) returns (result: string)
    ensures result == PlainText(text)
  {
    result := RemovePairs(text);
    result := RemoveLoneStars(result);
    result := Replace(result, '`', "");
    while true
      invariant PlainLinks(result) == PlainText(text)
      decreases Count(result, '[')
    {
      var l := NextLink(result);
      if l.None? {
        break;
      }
      PlainLinkUsesBracket(result, l.value);
      result := RewritePlainLink(result, l.value);
    }
  }
}
