/** Escaping survives the rewriting: in the rendered HTML every '<' begins one
    of the formatter's own tags, and angle brackets come in equal numbers. */
module FormatterTags {
  import opened Wrappers
  import opened Text
  import opened FormatterInline

  function Tags(): seq<string> {
    ["<b>", "</b>", "<i>", "</i>", "<code>", "</code>", "<pre>", "</pre>",
     "<blockquote>", "</blockquote>", "<a href=\"", "</a>"]
  }

  // The characters at which the rewriting loops cut a string
  predicate IsMarkup(c: char) {
    c == '[' || c == ']' || c == '(' || c == ')' || c == '*' || c == '`'
  }

  // A tag literal: one '<', in front, and nothing a loop could cut at
  predicate TagShaped(t: string) {
    |t| > 0 && t[0] == '<' && (forall i :: 0 < i < |t| ==> t[i] != '<') && forall i :: 0 <= i < |t| ==> !IsMarkup(t[i])
  }

  lemma InlineTagsShaped()
    ensures TagShaped("<b>") && TagShaped("</b>") && TagShaped("<i>") && TagShaped("</i>")
  {
  }

  lemma CodeTagsShaped()
    ensures TagShaped("<code>") && TagShaped("</code>") && TagShaped("<pre>") && TagShaped("</pre>")
  {
  }

  lemma WideTagsShaped()
    ensures TagShaped("<blockquote>") && TagShaped("</blockquote>")
    ensures TagShaped("<a href=\"") && TagShaped("</a>")
  {
  }

  lemma TagsAreShaped()
    ensures forall k :: 0 <= k < |Tags()| ==> TagShaped(Tags()[k])
  {
    hide TagShaped;
    InlineTagsShaped();
    CodeTagsShaped();
    WideTagsShaped();
  }

  predicate StartsWithTag(s: string) {
    exists k :: 0 <= k < |Tags()| && Tags()[k] <= s
  }

  ghost predicate TagSafe(s: string) {
    forall i :: 0 <= i < |s| && s[i] == '<' ==> StartsWithTag(s[i..])
  }

  function Excess(s: string): int {
    Count(s, '<') - Count(s, '>')
  }

  // ---------- building tag-safe strings ----------

  lemma TagExtends(s: string, t: string)
    requires StartsWithTag(s)
    ensures StartsWithTag(s + t)
  {
    hide Tags;
    var k :| 0 <= k < |Tags()| && Tags()[k] <= s;
    assert Tags()[k] <= s + t;
  }

  lemma TagBeforeMarkup(s: string, p: nat)
    requires StartsWithTag(s) && p < |s| && IsMarkup(s[p])
    ensures StartsWithTag(s[..p])
  {
    TagsAreShaped();
    hide Tags;
    var k :| 0 <= k < |Tags()| && Tags()[k] <= s;
    assert Tags()[k] <= s[..p];
  }

  lemma SafeConcat(a: string, b: string)
    requires TagSafe(a) && TagSafe(b)
    ensures TagSafe(a + b)
  {
    hide StartsWithTag;
    forall i | 0 <= i < |a + b| && (a + b)[i] == '<' ensures StartsWithTag((a + b)[i..]) {
      if i < |a| {
        assert (a + b)[i..] == a[i..] + b;
        TagExtends(a[i..], b);
      } else {
        assert (a + b)[i..] == b[i - |a|..];
      }
    }
  }

  lemma SafeSuffix(s: string, p: nat)
    requires TagSafe(s) && p <= |s|
    ensures TagSafe(s[p..])
  {
    hide StartsWithTag;
    forall i | 0 <= i < |s[p..]| && s[p..][i] == '<' ensures StartsWithTag(s[p..][i..]) {
      assert s[p..][i..] == s[p + i..];
    }
  }

  lemma SafePrefix(s: string, p: nat)
    requires TagSafe(s) && p < |s| && IsMarkup(s[p])
    ensures TagSafe(s[..p])
  {
    hide StartsWithTag, IsMarkup;
    forall i | 0 <= i < |s[..p]| && s[..p][i] == '<' ensures StartsWithTag(s[..p][i..]) {
      assert s[..p][i..] == s[i..][..p - i];
      TagBeforeMarkup(s[i..], p - i);
    }
  }

  lemma SafeSlice(s: string, lo: nat, hi: nat)
    requires TagSafe(s) && lo <= hi < |s| && IsMarkup(s[hi])
    ensures TagSafe(s[lo..hi])
  {
    hide TagSafe, IsMarkup;
    SafePrefix(s, hi);
    SafeSuffix(s[..hi], lo);
    assert s[..hi][lo..] == s[lo..hi];
  }

  lemma SafeWithoutAngles(s: string)
    requires '<' !in s
    ensures TagSafe(s)
  {
  }

  lemma TagIsSafe(k: nat)
    requires k < |Tags()|
    ensures TagSafe(Tags()[k])
  {
    TagsAreShaped();
    hide Tags;
    assert Tags()[k][0..] == Tags()[k];
  }

  lemma MarkupTagsSafe()
    ensures TagSafe("<b>") && TagSafe("</b>") && TagSafe("<i>") && TagSafe("</i>") && TagSafe("<code>")
            && TagSafe("</code>")
    ensures TagSafe("<a href=\"") && TagSafe("\">") && TagSafe("</a>")
    ensures TagSafe("<pre><code>") && TagSafe("</code></pre>") && TagSafe("<blockquote>") && TagSafe("</blockquote>")
  {
    hide TagSafe;
    TagIsSafe(0); TagIsSafe(1); TagIsSafe(2); TagIsSafe(3); TagIsSafe(4); TagIsSafe(5);
    TagIsSafe(6); TagIsSafe(7); TagIsSafe(8); TagIsSafe(9); TagIsSafe(10); TagIsSafe(11);
    SafeWithoutAngles("\">");
    assert "<pre><code>" == "<pre>" + "<code>" && "</code></pre>" == "</code>" + "</pre>";
    SafeConcat("<pre>", "<code>");
    SafeConcat("</code>", "</pre>");
  }

  // ---------- angle brackets in equal numbers ----------

  lemma ExcessConcat(a: string, b: string)
    ensures Excess(a + b) == Excess(a) + Excess(b)
  {
    CountConcat(a, b, '<');
    CountConcat(a, b, '>');
  }

  lemma NoExcess(s: string)
    requires '<' !in s && '>' !in s
    ensures Excess(s) == 0
  {
    CountZero(s, '<');
    CountZero(s, '>');
  }

  lemma BracketExcess()
    ensures Excess("<") == 1 && Excess(">") == -1
  {
    assert "<"[1..] == "" && ">"[1..] == "";
  }

  lemma TagExcess(name: string)
    requires '<' !in name && '>' !in name
    ensures Excess("<" + name) == 1 && Excess("<" + name + ">") == 0 && Excess(name + ">") == -1
  {
    hide Excess;
    BracketExcess();
    NoExcess(name);
    ExcessConcat("<", name);
    ExcessConcat("<" + name, ">");
    ExcessConcat(name, ">");
  }

  lemma MarkupExcess()
    ensures Excess("<b>") == Excess("</b>") == Excess("<i>") == Excess("</i>") == Excess("<code>")
            == Excess("</code>") == 0
    ensures Excess("<a href=\"") == 1 && Excess("\">") == -1 && Excess("</a>") == 0
    ensures Excess("<pre><code>") == Excess("</code></pre>") == Excess("<blockquote>") == Excess("</blockquote>") == 0
  {
    hide Excess;
    InlineTagExcess();
    TagExcess("pre"); TagExcess("/pre"); TagExcess("blockquote"); TagExcess("/blockquote");
    assert "<" + "blockquote" + ">" == "<blockquote>" && "<" + "/blockquote" + ">" == "</blockquote>";
    ExcessConcat("<" + "pre" + ">", "<code>");
    ExcessConcat("</code>", "<" + "/pre" + ">");
    assert "<" + "pre" + ">" + "<code>" == "<pre><code>" && "</code>" + ("<" + "/pre" + ">") == "</code></pre>";
  }

  lemma InlineTagExcess()
    ensures Excess("<b>") == Excess("</b>") == Excess("<i>") == Excess("</i>") == Excess("<code>")
            == Excess("</code>") == 0
    ensures Excess("<a href=\"") == 1 && Excess("\">") == -1 && Excess("</a>") == 0
  {
    hide Excess;
    TagExcess("b"); TagExcess("/b"); TagExcess("i"); TagExcess("/i"); TagExcess("code"); TagExcess("/code");
    TagExcess("a href=\""); TagExcess("\""); TagExcess("/a");
    assert "<" + "b" + ">" == "<b>" && "<" + "/b" + ">" == "</b>" && "<" + "i" + ">" == "<i>"
        && "<" + "/i" + ">" == "</i>";
    assert "<" + "code" + ">" == "<code>" && "<" + "/code" + ">" == "</code>" && "<" + "/a" + ">" == "</a>";
    assert "<" + "a href=\"" == "<a href=\"" && "\"" + ">" == "\">";
  }

  // What every string on the way from the escaped text to the HTML satisfies
  ghost predicate WellTagged(s: string) {
    TagSafe(s) && Excess(s) == 0
  }

  lemma EscapedWellTagged(text: string)
    ensures WellTagged(EscapeHtml(text))
  {
    EscapeIsCharwise(text);
    EscapedHasNoAngles(text);
    SafeWithoutAngles(EscapeHtml(text));
    NoExcess(EscapeHtml(text));
  }

  lemma JoinWellTagged(a: string, b: string)
    requires WellTagged(a) && WellTagged(b)
    ensures WellTagged(a + b)
  {
    SafeConcat(a, b);
    ExcessConcat(a, b);
  }

  // ---------- each rewriting step ----------

  lemma LinkStepSafe(s: string, l: Span)
    requires TagSafe(s) && IsLink(s, l)
    ensures TagSafe(RewriteLink(s, l))
  {
    hide TagSafe;
    MarkupTagsSafe();
    var a, t, u, b := s[..l.start], s[l.start + 1..l.mid], s[l.mid + 2..l.end], s[l.end + 1..];
    SafePrefix(s, l.start);
    SafeSlice(s, l.start + 1, l.mid);
    SafeSlice(s, l.mid + 2, l.end);
    SafeSuffix(s, l.end + 1);
    SafeConcat(a, "<a href=\"");
    SafeConcat(a + "<a href=\"", u);
    SafeConcat(a + "<a href=\"" + u, "\">");
    SafeConcat(a + "<a href=\"" + u + "\">", t);
    SafeConcat(a + "<a href=\"" + u + "\">" + t, "</a>");
    SafeConcat(a + "<a href=\"" + u + "\">" + t + "</a>", b);
  }

  lemma Excess7(a: string, b: string, c: string, d: string, e: string, f: string, g: string)
    ensures Excess(a + b + c + d + e + f + g)
            == Excess(a) + Excess(b) + Excess(c) + Excess(d) + Excess(e) + Excess(f) + Excess(g)
  {
    Count7(a, b, c, d, e, f, g, '<');
    Count7(a, b, c, d, e, f, g, '>');
  }

  lemma Excess5(a: string, b: string, c: string, d: string, e: string)
    ensures Excess(a + b + c + d + e) == Excess(a) + Excess(b) + Excess(c) + Excess(d) + Excess(e)
  {
    Count5(a, b, c, d, e, '<');
    Count5(a, b, c, d, e, '>');
  }

  lemma LinkStepExcess(s: string, l: Span)
    requires NextLink(s) == Some(l)
    ensures Excess(RewriteLink(s, l)) == Excess(s)
  {
    hide Excess, NextLink;
    LinkPieces(s, l);
    MarkupExcess();
    NoExcess("["); NoExcess("]("); NoExcess(")");
    var a, t, u, b := s[..l.start], s[l.start + 1..l.mid], s[l.mid + 2..l.end], s[l.end + 1..];
    Excess7(a, "[", t, "](", u, ")", b);
    Excess7(a, "<a href=\"", u, "\">", t, "</a>", b);
  }

  lemma {:induction false} LinksWellTagged(s: string)
    requires WellTagged(s)
    ensures WellTagged(Links(s))
    decreases Count(s, '[')
  {
    hide TagSafe, Excess, RewriteLink;
    if NextLink(s).Some? {
      var l := NextLink(s).value;
      LinkUsesBracket(s, l);
      LinkStepSafe(s, l);
      LinkStepExcess(s, l);
      LinksWellTagged(RewriteLink(s, l));
    }
  }

  lemma MarksAreMarkup(s: string, k: Style, p: Pair)
    requires IsStyle(k) && IsPair(s, k.mark, p)
    ensures IsMarkup(s[p.start]) && IsMarkup(s[p.end])
  {
    assert s[p.start..p.start + |k.mark|][0] == s[p.start];
    assert s[p.end..p.end + |k.mark|][0] == s[p.end];
  }

  lemma PairStepSafe(s: string, k: Style, p: Pair)
    requires TagSafe(s) && IsStyle(k) && IsPair(s, k.mark, p)
    ensures TagSafe(RewritePair(s, k, p))
  {
    hide TagSafe, IsMarkup;
    MarkupTagsSafe();
    MarksAreMarkup(s, k, p);
    var n := |k.mark|;
    var a, t, b := s[..p.start], s[p.start + n..p.end], s[p.end + n..];
    SafePrefix(s, p.start);
    SafeSlice(s, p.start + n, p.end);
    SafeSuffix(s, p.end + n);
    SafeConcat(a, k.open);
    SafeConcat(a + k.open, t);
    SafeConcat(a + k.open + t, k.close);
    SafeConcat(a + k.open + t + k.close, b);
  }

  lemma PairStepExcess(s: string, k: Style, p: Pair)
    requires IsStyle(k) && IsPair(s, k.mark, p)
    ensures Excess(RewritePair(s, k, p)) == Excess(s)
  {
    hide Excess, IsPair;
    PairPieces(s, k.mark, p);
    PairOrder(s, k.mark, p);
    MarkupExcess();
    NoExcess(k.mark);
    var n := |k.mark|;
    var a, t, b := s[..p.start], s[p.start + n..p.end], s[p.end + n..];
    Excess5(a, k.mark, t, k.mark, b);
    Excess5(a, k.open, t, k.close, b);
  }

  lemma {:induction false} PairsWellTagged(s: string, k: Style)
    requires WellTagged(s) && IsStyle(k)
    ensures WellTagged(Pairs(s, k))
    decreases Count(s, k.mark[0])
  {
    hide TagSafe, Excess, RewritePair;
    if NextPair(s, k.mark).Some? {
      var p := NextPair(s, k.mark).value;
      PairUsesMarks(s, k, p);
      PairStepSafe(s, k, p);
      PairStepExcess(s, k, p);
      PairsWellTagged(RewritePair(s, k, p), k);
    }
  }

  lemma ItalicsCopiesOne(s: string, i: nat, inItalic: bool)
    requires i < |s| && s[i] != '*'
    ensures Italics(s, i, inItalic) == [s[i]] + Italics(s, i + 1, inItalic)
  {
  }

  // Where there is no star, the italics pass copies.
  lemma {:induction false} ItalicsCopies(s: string, i: nat, n: nat, inItalic: bool)
    requires i + n <= |s| && forall j :: i <= j < i + n ==> s[j] != '*'
    ensures Italics(s, i, inItalic) == s[i..i + n] + Italics(s, i + n, inItalic)
    decreases n
  {
    hide Italics;
    if n > 0 {
      ItalicsCopiesOne(s, i, inItalic);
      ItalicsCopies(s, i + 1, n - 1, inItalic);
      assert s[i..i + n] == [s[i]] + s[i + 1..i + n];
    }
  }

  lemma TagSurvivesItalics(s: string, i: nat, inItalic: bool)
    requires i <= |s| && StartsWithTag(s[i..])
    ensures StartsWithTag(Italics(s, i, inItalic))
  {
    TagsAreShaped();
    hide Tags;
    var k :| 0 <= k < |Tags()| && Tags()[k] <= s[i..];
    var n := |Tags()[k]|;
    assert s[i..i + n] == Tags()[k];
    assert forall j :: i <= j < i + n ==> s[j] == Tags()[k][j - i];
    ItalicsCopies(s, i, n, inItalic);
  }

  lemma SafeCons(c: char, s: string)
    requires TagSafe(s) && (c == '<' ==> StartsWithTag([c] + s))
    ensures TagSafe([c] + s)
  {
    hide StartsWithTag;
    forall i | 0 <= i < |[c] + s| && ([c] + s)[i] == '<' ensures StartsWithTag(([c] + s)[i..]) {
      if i > 0 {
        assert ([c] + s)[i..] == s[i - 1..];
      } else {
        assert ([c] + s)[0..] == [c] + s;
      }
    }
  }

  lemma {:induction false} ItalicsSafe(s: string, i: nat, inItalic: bool)
    requires TagSafe(s) && i <= |s|
    ensures TagSafe(Italics(s, i, inItalic))
    decreases |s| - i
  {
    hide StartsWithTag;
    MarkupTagsSafe();
    if i < |s| {
      if LoneStar(s, i) {
        ItalicsSafe(s, i + 1, !inItalic);
        SafeConcat(if inItalic then "</i>" else "<i>", Italics(s, i + 1, !inItalic));
      } else {
        ItalicsSafe(s, i + 1, inItalic);
        if s[i] == '<' {
          TagSurvivesItalics(s, i, inItalic);
        }
        SafeCons(s[i], Italics(s, i + 1, inItalic));
      }
    }
  }

  lemma {:induction false} ItalicsExcess(s: string, i: nat, inItalic: bool)
    requires i <= |s|
    ensures Excess(Italics(s, i, inItalic)) == Excess(s[i..])
    decreases |s| - i
  {
    hide Excess;
    MarkupExcess();
    NoExcess("");
    if i < |s| {
      assert s[i..] == [s[i]] + s[i + 1..];
      ExcessConcat([s[i]], s[i + 1..]);
      if LoneStar(s, i) {
        ItalicsExcess(s, i + 1, !inItalic);
        NoExcess([s[i]]);
        ExcessConcat(if inItalic then "</i>" else "<i>", Italics(s, i + 1, !inItalic));
      } else {
        ItalicsExcess(s, i + 1, inItalic);
        ExcessConcat([s[i]], Italics(s, i + 1, inItalic));
      }
    }
  }

  // For every input text: no '<' but the formatter's own tags, and as many '<' as '>'.
  lemma InlineWellTagged(text: string)
    ensures WellTagged(RenderInline(text))
  {
    hide TagSafe, Excess, EscapeHtml, Links, Pairs, Italics;
    EscapedWellTagged(text);
    LinksWellTagged(EscapeHtml(text));
    PairsWellTagged(Links(EscapeHtml(text)), BOLD);
    PairsWellTagged(Pairs(Links(EscapeHtml(text)), BOLD), CODE);
    var s := Pairs(Pairs(Links(EscapeHtml(text)), BOLD), CODE);
    ItalicsSafe(s, 0, false);
    ItalicsExcess(s, 0, false);
    assert s[0..] == s;
  }
}
