/** Inline Markdown to Telegram HTML: escape, then rewrite links, bold, code
    and italics until nothing matches. */
module FormatterInline {
  import opened Wrappers
  import opened Text

  // ---------- escaping ----------

  function EscapeHtml(text: string): string {
    Replace(Replace(Replace(text, '&', "&amp;"), '<', "&lt;"), '>', "&gt;")
  }

  function Entity(c: char): string {
    if c == '&' then "&amp;" else if c == '<' then "&lt;" else if c == '>' then "&gt;" else [c]
  }

  function EscapeEach(text: string): string {
    if |text| == 0 then [] else Entity(text[0]) + EscapeEach(text[1..])
  }

  // The inverse: what a reader of the HTML makes of the entities
  function Unescape(html: string): string {
    if |html| == 0 then []
    else if "&amp;" <= html then ['&'] + Unescape(html[5..])
    else if "&lt;" <= html then ['<'] + Unescape(html[4..])
    else if "&gt;" <= html then ['>'] + Unescape(html[4..])
    else [html[0]] + Unescape(html[1..])
  }

  lemma {:induction false} ReplaceConcat(a: string, b: string, c: char, sub: string)
    ensures Replace(a + b, c, sub) == Replace(a, c, sub) + Replace(b, c, sub)
  {
    if |a| == 0 {
      assert a + b == b;
    } else {
      assert (a + b)[1..] == a[1..] + b;
      ReplaceConcat(a[1..], b, c, sub);
    }
  }

  lemma {:induction false} ReplaceAbsent(s: string, c: char, sub: string)
    requires c !in s
    ensures Replace(s, c, sub) == s
  {
    if |s| > 0 {
      assert s == [s[0]] + s[1..];
      ReplaceAbsent(s[1..], c, sub);
    }
  }

  // One pass over the three replacements never disturbs an earlier one: the
  // result is the same as escaping each character on its own.
  lemma {:induction false} EscapeIsCharwise(text: string)
    ensures EscapeHtml(text) == EscapeEach(text)
  {
    if |text| > 0 {
      var rest := text[1..];
      EscapeOne(text[0]);
      EscapeIsCharwise(rest);
      hide Replace;
      var c := [text[0]];
      assert text == c + rest;
      ReplaceConcat(c, rest, '&', "&amp;");
      ReplaceConcat(Replace(c, '&', "&amp;"), Replace(rest, '&', "&amp;"), '<', "&lt;");
      ReplaceConcat(Replace(Replace(c, '&', "&amp;"), '<', "&lt;"), Replace(Replace(rest, '&', "&amp;"), '<', "&lt;"),
                    '>', "&gt;");
    }
  }

  lemma EscapeOne(ch: char)
    ensures EscapeHtml([ch]) == Entity(ch)
  {
    var amp := if ch == '&' then "&amp;" else [ch];
    var lt := if ch == '<' then "&lt;" else amp;
    ReplaceOne(ch, '&', "&amp;");
    if ch == '<' {
      ReplaceOne(ch, '<', "&lt;");
    } else {
      ReplaceAbsent(amp, '<', "&lt;");
    }
    if ch == '>' {
      ReplaceOne(ch, '>', "&gt;");
    } else {
      ReplaceAbsent(lt, '>', "&gt;");
    }
  }

  lemma ReplaceOne(ch: char, c: char, sub: string)
    ensures Replace([ch], c, sub) == if ch == c then sub else [ch]
  {
    assert [ch][1..] == [];
    assert sub + [] == sub;
  }

  lemma {:induction false} UnescapeEach(text: string)
    ensures Unescape(EscapeEach(text)) == text
  {
    if |text| > 0 {
      var html, tail := EscapeEach(text), EscapeEach(text[1..]);
      assert html == Entity(text[0]) + tail;
      UnescapeEach(text[1..]);
      if text[0] == '&' {
        assert html[5..] == tail;
      } else if text[0] == '<' || text[0] == '>' {
        assert html[4..] == tail && html[1] != 'a';
        assert text[0] == '>' ==> html[1] == 'g';
      } else {
        assert html[0] != '&' && html[1..] == tail;
      }
      assert text == [text[0]] + text[1..];
    }
  }

  // Escaping loses nothing.
  lemma EscapeRoundTrip(text: string)
    ensures Unescape(EscapeHtml(text)) == text
  {
    EscapeIsCharwise(text);
    UnescapeEach(text);
  }

  lemma {:induction false} EscapedHasNoAngles(text: string)
    ensures '<' !in EscapeEach(text) && '>' !in EscapeEach(text)
  {
    if |text| > 0 {
      EscapedHasNoAngles(text[1..]);
    }
  }

  // ---------- the rewriting loops ----------

  // A match of open ... middle ... close, the first of each in turn
  datatype Span = Span(start: nat, mid: nat, end: nat)

  // [text](url): the first '[', the first "](" after it, the first ')' after that
  function NextLink(s: string): (r: Option<Span>)
    ensures r.Some? ==> IsLink(s, r.value)
  {
    FindIsMatch(s, "[", 0);
    match Find(s, "[", 0)
    case None => None
    case Some(start) =>
      FindIsMatch(s, "](", start);
      match Find(s, "](", start)
      case None => None
      case Some(mid) =>
        FindIsMatch(s, ")", mid + 2);
        match Find(s, ")", mid + 2)
        case None => None
        case Some(end) => Some(Span(start, mid, end))
  }

  predicate IsLink(s: string, l: Span) {
    && l.start < l.mid && l.mid + 2 <= l.end < |s|
    && s[l.start] == '[' && s[l.mid] == ']' && s[l.mid + 1] == '(' && s[l.end] == ')'
  }

  // The link found is the first bracket with the first middle and the first end
  // behind it, and one is found whenever the text holds a link at all.
  lemma LinkIsFirst(s: string)
    ensures var r := NextLink(s);
            if r.None? then forall l: Span :: !IsLink(s, l)
            else
              && NoMatch(s, "[", 0, r.value.start)
              && NoMatch(s, "](", r.value.start, r.value.mid)
              && NoMatch(s, ")", r.value.mid + 2, r.value.end)
  {
    hide Find, NoMatch;
    FindIsFirst(s, "[", 0);
    if NextLink(s).Some? {
      FindIsFirst(s, "](", NextLink(s).value.start);
      FindIsFirst(s, ")", NextLink(s).value.mid + 2);
    } else {
      forall l: Span ensures !IsLink(s, l) {
        if IsLink(s, l) {
          LinkIsFound(s, l);
        }
      }
    }
  }

  lemma MatchIsFound(s: string, pattern: string, from: nat, p: nat)
    requires from <= p && MatchAt(s, pattern, p)
    ensures Find(s, pattern, from).Some? && from <= Find(s, pattern, from).value <= p
    ensures MatchAt(s, pattern, Find(s, pattern, from).value)
  {
    hide Find, MatchAt;
    MatchInside(s, pattern, p);
    FindIsFirst(s, pattern, from);
  }

  lemma MatchInside(s: string, pattern: string, p: nat)
    requires MatchAt(s, pattern, p)
    ensures p + |pattern| <= |s|
  {
  }

  lemma LinkIsFound(s: string, l: Span)
    requires IsLink(s, l)
    ensures NextLink(s).Some?
  {
    hide Find, MatchAt;
    LinkMatches(s, l);
    MatchIsFound(s, "[", 0, l.start);
    MatchIsFound(s, "](", Find(s, "[", 0).value, l.mid);
    MatchIsFound(s, ")", Find(s, "](", Find(s, "[", 0).value).value + 2, l.end);
  }

  lemma LinkMatches(s: string, l: Span)
    requires IsLink(s, l)
    ensures MatchAt(s, "[", l.start) && MatchAt(s, "](", l.mid) && MatchAt(s, ")", l.end)
  {
    assert s[l.mid..l.mid + 2] == [s[l.mid], s[l.mid + 1]];
  }

  function Anchored(a: string, url: string, text: string, b: string): string {
    a + "<a href=\"" + url + "\">" + text + "</a>" + b
  }

  function RewriteLink(s: string, l: Span): string
    requires l.start < l.mid && l.mid + 2 <= l.end < |s|
  {
    Anchored(s[..l.start], s[l.mid + 2..l.end], s[l.start + 1..l.mid], s[l.end + 1..])
  }

  lemma LinkPieces(s: string, l: Span)
    requires NextLink(s) == Some(l)
    ensures s == s[..l.start] + "[" + s[l.start + 1..l.mid] + "](" + s[l.mid + 2..l.end] + ")" + s[l.end + 1..]
  {
  }

  lemma NoBracketsAdded()
    ensures Count("[", '[') == 1 && Count("](", '[') == Count(")", '[') == 0
    ensures Count("<a href=\"", '[') == Count("\">", '[') == Count("</a>", '[') == 0
  {
    CountZero("<a href=\"", '[');
    CountZero("\">", '[');
    CountZero("</a>", '[');
    CountZero("](", '[');
    CountZero(")", '[');
    assert "["[1..] == "";
  }

  // Each round uses up one '['.
  lemma LinkUsesBracket(s: string, l: Span)
    requires NextLink(s) == Some(l)
    ensures Count(RewriteLink(s, l), '[') == Count(s, '[') - 1
  {
    hide Count, NextLink;
    LinkPieces(s, l);
    NoBracketsAdded();
    var a, t, u, b := s[..l.start], s[l.start + 1..l.mid], s[l.mid + 2..l.end], s[l.end + 1..];
    Count7(a, "[", t, "](", u, ")", b, '[');
    Count7(a, "<a href=\"", u, "\">", t, "</a>", b, '[');
  }

  function Links(s: string): string
    decreases Count(s, '[')
  {
    match NextLink(s)
    case None => s
    case Some(l) =>
      LinkUsesBracket(s, l);
      Links(RewriteLink(s, l))
  }

  // mark text mark: bold for "**", code for a backtick
  datatype Style = Style(mark: string, open: string, close: string)

  const BOLD := Style("**", "<b>", "</b>")
  const CODE := Style("`", "<code>", "</code>")

  predicate IsStyle(k: Style) {
    k == BOLD || k == CODE
  }

  datatype Pair = Pair(start: nat, end: nat)

  predicate IsPair(s: string, mark: string, p: Pair) {
    p.start + |mark| <= p.end && p.end + |mark| <= |s|
    && s[p.start..p.start + |mark|] == mark && s[p.end..p.end + |mark|] == mark
  }

  function NextPair(s: string, mark: string): (r: Option<Pair>)
    ensures r.Some? ==> IsPair(s, mark, r.value)
  {
    FindIsFirst(s, mark, 0);
    match Find(s, mark, 0)
    case None => None
    case Some(start) =>
      FindIsFirst(s, mark, start + |mark|);
      match Find(s, mark, start + |mark|)
      case None => None
      case Some(end) => Some(Pair(start, end))
  }

  // The pair found is the first mark and the first one behind it, and one is
  // found whenever two marks stand apart.
  lemma PairIsFirst(s: string, mark: string)
    requires |mark| > 0
    ensures var r := NextPair(s, mark);
            if r.None? then forall p: Pair :: !IsPair(s, mark, p)
            else NoMatch(s, mark, 0, r.value.start) && NoMatch(s, mark, r.value.start + |mark|, r.value.end)
  {
    hide Find, NoMatch;
    FindIsFirst(s, mark, 0);
    if NextPair(s, mark).Some? {
      FindIsFirst(s, mark, NextPair(s, mark).value.start + |mark|);
    } else {
      forall p: Pair ensures !IsPair(s, mark, p) {
        if IsPair(s, mark, p) {
          PairIsFound(s, mark, p);
        }
      }
    }
  }

  lemma PairIsFound(s: string, mark: string, p: Pair)
    requires IsPair(s, mark, p) && |mark| > 0
    ensures NextPair(s, mark).Some?
  {
    hide Find;
    assert MatchAt(s, mark, p.start) && MatchAt(s, mark, p.end);
    MatchIsFound(s, mark, 0, p.start);
    MatchIsFound(s, mark, Find(s, mark, 0).value + |mark|, p.end);
  }

  function Styled(a: string, k: Style, text: string, b: string): string {
    a + k.open + text + k.close + b
  }

  function RewritePair(s: string, k: Style, p: Pair): string
    requires IsPair(s, k.mark, p)
  {
    Styled(s[..p.start], k, s[p.start + |k.mark|..p.end], s[p.end + |k.mark|..])
  }

  lemma PairPieces(s: string, mark: string, p: Pair)
    requires IsPair(s, mark, p)
    ensures s == s[..p.start] + mark + s[p.start + |mark|..p.end] + mark + s[p.end + |mark|..]
  {
    hide IsPair;
    PairOrder(s, mark, p);
    assert s == s[..p.start] + s[p.start..p.start + |mark|] + s[p.start + |mark|..p.end] + s[p.end..p.end + |mark|]
        + s[p.end + |mark|..];
  }

  lemma PairOrder(s: string, mark: string, p: Pair)
    requires IsPair(s, mark, p)
    ensures p.start + |mark| <= p.end && p.end + |mark| <= |s|
    ensures s[p.start..p.start + |mark|] == mark && s[p.end..p.end + |mark|] == mark
  {
  }

  lemma MarksUsed(k: Style)
    requires IsStyle(k)
    ensures Count(k.mark, k.mark[0]) > 0
    ensures Count(k.open, k.mark[0]) == 0 && Count(k.close, k.mark[0]) == 0
  {
    CountZero(k.open, k.mark[0]);
    CountZero(k.close, k.mark[0]);
  }

  // Each round uses up two marks.
  lemma PairUsesMarks(s: string, k: Style, p: Pair)
    requires IsStyle(k) && IsPair(s, k.mark, p)
    ensures Count(RewritePair(s, k, p), k.mark[0]) < Count(s, k.mark[0])
  {
    hide Count;
    PairPieces(s, k.mark, p);
    MarksUsed(k);
    var a, t, b := s[..p.start], s[p.start + |k.mark|..p.end], s[p.end + |k.mark|..];
    Count5(a, k.mark, t, k.mark, b, k.mark[0]);
    Count5(a, k.open, t, k.close, b, k.mark[0]);
  }

  function Pairs(s: string, k: Style): string
    requires IsStyle(k)
    decreases Count(s, k.mark[0])
  {
    match NextPair(s, k.mark)
    case None => s
    case Some(p) =>
      PairUsesMarks(s, k, p);
      Pairs(RewritePair(s, k, p), k)
  }

  // A star with no star next to it
  predicate LoneStar(s: string, i: nat)
    requires i < |s|
  {
    s[i] == '*' && (i == 0 || s[i - 1] != '*') && (i + 1 >= |s| || s[i + 1] != '*')
  }

  // Lone stars open and close italics in turn
  function Italics(s: string, i: nat, inItalic: bool): string
    requires i <= |s|
    decreases |s| - i
  {
    if i == |s| then []
    else if LoneStar(s, i) then (if inItalic then "</i>" else "<i>") + Italics(s, i + 1, !inItalic)
    else [s[i]] + Italics(s, i + 1, inItalic)
  }

  lemma ItalicsStep(s: string, i: nat, inItalic: bool)
    requires i < |s|
    ensures Italics(s, i, inItalic)
         == (if LoneStar(s, i) then (if inItalic then "</i>" else "<i>") else [s[i]])
             + Italics(s, i + 1, inItalic != LoneStar(s, i))
  {
    hide LoneStar;
  }

  lemma ItalicsEnd(s: string, inItalic: bool)
    ensures Italics(s, |s|, inItalic) == []
  {
  }

  function BeforeItalics(text: string): string {
    Pairs(Pairs(Links(EscapeHtml(text)), BOLD), CODE)
  }

  function RenderInline(text: string): string {
    Italics(BeforeItalics(text), 0, false)
  }

  // ---------- the loops themselves ----------

  method RewriteLinks(text: string) returns (result: string)
    ensures result == Links(text)
  {
    result := text;
    while true
      invariant Links(result) == Links(text)
      decreases Count(result, '[')
    {
      var l := NextLink(result);
      if l.None? {
        break;
      }
      LinkUsesBracket(result, l.value);
      result := RewriteLink(result, l.value);
    }
  }

  method RewritePairs(text: string, k: Style) returns (result: string)
    requires IsStyle(k)
    ensures result == Pairs(text, k)
  {
    result := text;
    while true
      invariant Pairs(result, k) == Pairs(text, k)
      decreases Count(result, k.mark[0])
    {
      var p := NextPair(result, k.mark);
      if p.None? {
        break;
      }
      PairUsesMarks(result, k, p.value);
      result := RewritePair(result, k, p.value);
    }
  }

  method RewriteItalics(text: string) returns (out: string)
    ensures out == Italics(text, 0, false)
  {
    hide LoneStar, Italics;
    out := "";
    var i, inItalic := 0, false;
    while i < |text|
      invariant 0 <= i <= |text|
      invariant out + Italics(text, i, inItalic) == Italics(text, 0, false)
    {
      ItalicsStep(text, i, inItalic);
      if LoneStar(text, i) {
        var tag := if inItalic then "</i>" else "<i>";
        assert out + (tag + Italics(text, i + 1, !inItalic)) == (out + tag) + Italics(text, i + 1, !inItalic);
        out := out + tag;
        inItalic := !inItalic;
      } else {
        assert out + ([text[i]] + Italics(text, i + 1, inItalic)) == (out + [text[i]]) + Italics(text, i + 1, inItalic);
        out := out + [text[i]];
      }
      i := i + 1;
    }
    ItalicsEnd(text, inItalic);
    assert out + [] == out;
  }

  method RenderInlineMarkdown(text: string) returns (html: string)
    ensures html == RenderInline(text)
  {
    html := EscapeHtml(text);
    html := RewriteLinks(html);
    html := RewritePairs(html, BOLD);
    html := RewritePairs(html, CODE);
    html := RewriteItalics(html);
  }

  // ---------- what well-formed markup turns into ----------

  // Text before the first bracket is left alone.
  lemma {:induction false} LinksSkip(a: string, y: string)
    requires '[' !in a
    ensures Links(a + y) == a + Links(y)
    decreases Count(y, '[')
  {
    hide Find, Count, NextLink, RewriteLink;
    NextLinkBehind(a, y);
    if NextLink(y).Some? {
      var l := NextLink(y).value;
      var shifted := Span(|a| + l.start, |a| + l.mid, |a| + l.end);
      LinkUsesBracket(y, l);
      RewriteLinkBehind(a, y, l);
      LinksSkip(a, RewriteLink(y, l));
    }
  }

  lemma NextLinkBehind(a: string, y: string)
    requires '[' !in a
    ensures NextLink(a + y) == var r := NextLink(y);
            if r.None? then None else Some(Span(|a| + r.value.start, |a| + r.value.mid, |a| + r.value.end))
  {
    hide Find;
    FindBehind(a, y, "[");
    FindIsFirst(y, "[", 0);
    if Find(y, "[", 0).Some? {
      var start := Find(y, "[", 0).value;
      FindShift(a, y, "](", start);
      FindIsFirst(y, "](", start);
      if Find(y, "](", start).Some? {
        FindShift(a, y, ")", Find(y, "](", start).value + 2);
      }
    }
  }

  lemma AnchoredBehind(a: string, c: string, url: string, text: string, b: string)
    ensures Anchored(a + c, url, text, b) == a + Anchored(c, url, text, b)
  {
  }

  lemma RewriteLinkBehind(a: string, y: string, l: Span)
    requires IsLink(y, l)
    ensures RewriteLink(a + y, Span(|a| + l.start, |a| + l.mid, |a| + l.end)) == a + RewriteLink(y, l)
  {
    hide Anchored;
    var s := a + y;
    assert s[..|a| + l.start] == a + y[..l.start];
    assert s[|a| + l.mid + 2..|a| + l.end] == y[l.mid + 2..l.end];
    assert s[|a| + l.start + 1..|a| + l.mid] == y[l.start + 1..l.mid];
    assert s[|a| + l.end + 1..] == y[l.end + 1..];
    AnchoredBehind(a, y[..l.start], y[l.mid + 2..l.end], y[l.start + 1..l.mid], y[l.end + 1..]);
  }

  // [t](u) becomes <a href="u">t</a>; what follows is rendered on its own.
  lemma LinkRendered(t: string, u: string, b: string)
    requires '[' !in t && ']' !in t && '[' !in u && ')' !in u
    ensures Links("[" + t + "](" + u + ")" + b) == "<a href=\"" + u + "\">" + t + "</a>" + Links(b)
  {
    var s := "[" + t + "](" + u + ")" + b;
    WellFormedLinkFound(t, u, b);
    var l := Span(0, 1 + |t|, 3 + |t| + |u|);
    LinkUsesBracket(s, l);
    var anchor := "<a href=\"" + u + "\">" + t + "</a>";
    WellFormedLinkRewritten(t, u, b);
    AnchorHasNoBracket(t, u);
    LinksSkip(anchor, b);
  }

  lemma AnchorHasNoBracket(t: string, u: string)
    requires '[' !in t && '[' !in u
    ensures '[' !in "<a href=\"" + u + "\">" + t + "</a>"
  {
    assert '[' !in "<a href=\"" && '[' !in "\">" && '[' !in "</a>";
  }

  lemma WellFormedLinkRewritten(t: string, u: string, b: string)
    ensures RewriteLink("[" + t + "](" + u + ")" + b, Span(0, 1 + |t|, 3 + |t| + |u|))
         == ("<a href=\"" + u + "\">" + t + "</a>") + b
  {
    var s := "[" + t + "](" + u + ")" + b;
    assert s[..0] == "";
    assert s[1 + |t| + 2..3 + |t| + |u|] == u;
    assert s[1..1 + |t|] == t;
    assert s[3 + |t| + |u| + 1..] == b;
  }

  lemma WellFormedLinkFound(t: string, u: string, b: string)
    requires ']' !in t && ')' !in u
    ensures NextLink("[" + t + "](" + u + ")" + b) == Some(Span(0, 1 + |t|, 3 + |t| + |u|))
  {
    hide Find;
    var s := "[" + t + "](" + u + ")" + b;
    assert MatchAt(s, "[", 0);
    FirstMatchIsFound(s, "[", 0, 0);
    assert forall q: nat :: 0 <= q < 1 + |t| ==> s[q] != ']';
    NoMatchWithout(s, "](", 0, 1 + |t|);
    assert MatchAt(s, "](", 1 + |t|);
    FirstMatchIsFound(s, "](", 0, 1 + |t|);
    assert forall q: nat :: 3 + |t| <= q < 3 + |t| + |u| ==> s[q] == u[q - 3 - |t|];
    NoMatchWithout(s, ")", 3 + |t|, 3 + |t| + |u|);
    assert MatchAt(s, ")", 3 + |t| + |u|);
    FirstMatchIsFound(s, ")", 3 + |t|, 3 + |t| + |u|);
  }

  lemma NextPairBehind(a: string, y: string, mark: string)
    requires |mark| > 0 && mark[0] !in a
    ensures NextPair(a + y, mark) == var r := NextPair(y, mark);
            if r.None? then None else Some(Pair(|a| + r.value.start, |a| + r.value.end))
  {
    hide Find;
    FindBehind(a, y, mark);
    FindIsFirst(y, mark, 0);
    if Find(y, mark, 0).Some? {
      FindShift(a, y, mark, Find(y, mark, 0).value + |mark|);
    }
  }

  lemma StyledBehind(a: string, c: string, k: Style, text: string, b: string)
    ensures Styled(a + c, k, text, b) == a + Styled(c, k, text, b)
  {
  }

  lemma RewritePairBehind(a: string, y: string, k: Style, p: Pair)
    requires IsPair(y, k.mark, p) && IsPair(a + y, k.mark, Pair(|a| + p.start, |a| + p.end))
    ensures RewritePair(a + y, k, Pair(|a| + p.start, |a| + p.end)) == a + RewritePair(y, k, p)
  {
    hide IsPair, Styled;
    var s, n := a + y, |k.mark|;
    PairOrder(y, k.mark, p);
    assert s[..|a| + p.start] == a + y[..p.start];
    assert s[|a| + p.start + n..|a| + p.end] == y[p.start + n..p.end];
    assert s[|a| + p.end + n..] == y[p.end + n..];
    StyledBehind(a, y[..p.start], k, y[p.start + n..p.end], y[p.end + n..]);
  }

  lemma {:induction false} PairsSkip(a: string, y: string, k: Style)
    requires IsStyle(k) && k.mark[0] !in a
    ensures Pairs(a + y, k) == a + Pairs(y, k)
    decreases Count(y, k.mark[0])
  {
    hide Find, Count, NextPair, RewritePair, IsPair;
    NextPairBehind(a, y, k.mark);
    if NextPair(y, k.mark).Some? {
      var p := NextPair(y, k.mark).value;
      PairUsesMarks(y, k, p);
      RewritePairBehind(a, y, k, p);
      PairsSkip(a, RewritePair(y, k, p), k);
    }
  }

  // **t** becomes <b>t</b> and `t` becomes <code>t</code>.
  lemma PairRendered(t: string, b: string, k: Style)
    requires IsStyle(k) && k.mark[0] !in t
    ensures Pairs(k.mark + t + k.mark + b, k) == k.open + t + k.close + Pairs(b, k)
  {
    hide Count, NextPair, RewritePair, Find;
    var s, n := k.mark + t + k.mark + b, |k.mark|;
    var p := Pair(0, n + |t|);
    WellFormedPairFound(t, b, k.mark);
    PairUsesMarks(s, k, p);
    WellFormedPairRewritten(t, b, k);
    assert k.mark[0] !in k.open && k.mark[0] !in k.close;
    PairsSkip(k.open + t + k.close, b, k);
  }

  lemma WellFormedPairRewritten(t: string, b: string, k: Style)
    requires IsPair(k.mark + t + k.mark + b, k.mark, Pair(0, |k.mark| + |t|))
    ensures RewritePair(k.mark + t + k.mark + b, k, Pair(0, |k.mark| + |t|)) == (k.open + t + k.close) + b
  {
    hide IsPair;
    MarkedPieces(k.mark, t, b);
  }

  lemma MarkedPieces(mark: string, t: string, b: string)
    ensures var s, n := mark + t + mark + b, |mark|;
            s[..0] == "" && s[n..n + |t|] == t && s[n + |t| + n..] == b
  {
  }

  lemma WellFormedPairFound(t: string, b: string, mark: string)
    requires |mark| > 0 && mark[0] !in t
    ensures NextPair(mark + t + mark + b, mark) == Some(Pair(0, |mark| + |t|))
  {
    hide Find;
    var s, n := mark + t + mark + b, |mark|;
    assert s[0..n] == mark && s[n + |t|..n + |t| + n] == mark;
    assert MatchAt(s, mark, 0) && MatchAt(s, mark, n + |t|);
    FirstMatchIsFound(s, mark, 0, 0);
    assert forall q: nat :: n <= q < n + |t| ==> s[q] == t[q - n];
    NoMatchWithout(s, mark, n, n + |t|);
    FirstMatchIsFound(s, mark, n, n + |t|);
  }
}
