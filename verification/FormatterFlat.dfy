/** Lines whose markup does not nest: four rewriting passes over the whole line
    render each piece by itself, so the tags nest properly and stay out of
    addresses. Lines whose markup overlaps need not. */
module FormatterFlat {
  import opened Text
  import opened FormatterInline
  import opened FormatterTags
  import opened FormatterItalics
  import opened FormatterStars

  datatype Segment =
    | Plain(text: string)
    | Link(text: string, url: string)
    | Bold(text: string)
    | Code(text: string)
    | Italic(text: string)

  predicate Unmarked(t: string) {
    '[' !in t && '*' !in t && '`' !in t
  }

  predicate WellFormed(g: Segment) {
    && Unmarked(g.text)
    && (g.Link? ==> Unmarked(g.url) && ']' !in g.text && ')' !in g.url)
    && (g.Plain? || g.Italic? ==> |g.text| > 0)
  }

  predicate Starred(g: Segment) {
    g.Bold? || g.Italic?
  }

  // Nothing starred directly behind an italic piece, whose star would pair up
  ghost predicate FlatLine(line: seq<Segment>) {
    && (forall i :: 0 <= i < |line| ==> WellFormed(line[i]))
    && (forall i :: 0 <= i < |line| - 1 && line[i].Italic? ==> !Starred(line[i + 1]))
  }

  // A piece after the first n passes: links, bold, code, italics
  function Piece(g: Segment, n: nat): string {
    match g
    case Plain(t) => t
    case Link(t, u) => if n >= 1 then "<a href=\"" + u + "\">" + t + "</a>" else "[" + t + "](" + u + ")"
    case Bold(t) => if n >= 2 then "<b>" + t + "</b>" else "**" + t + "**"
    case Code(t) => if n >= 3 then "<code>" + t + "</code>" else "`" + t + "`"
    case Italic(t) => if n >= 4 then "<i>" + t + "</i>" else "*" + t + "*"
  }

  function After(line: seq<Segment>, n: nat): string {
    if |line| == 0 then [] else Piece(line[0], n) + After(line[1..], n)
  }

  function Markdown(line: seq<Segment>): string {
    After(line, 0)
  }

  function EscapedSegment(g: Segment): Segment {
    match g
    case Plain(t) => Plain(EscapeEach(t))
    case Link(t, u) => Link(EscapeEach(t), EscapeEach(u))
    case Bold(t) => Bold(EscapeEach(t))
    case Code(t) => Code(EscapeEach(t))
    case Italic(t) => Italic(EscapeEach(t))
  }

  function EscapedLine(line: seq<Segment>): (r: seq<Segment>)
    ensures |r| == |line| && forall i :: 0 <= i < |line| ==> r[i] == EscapedSegment(line[i])
  {
    if |line| == 0 then [] else [EscapedSegment(line[0])] + EscapedLine(line[1..])
  }

  // The HTML one would write by hand: each piece escaped, in its own tags
  function Html(line: seq<Segment>): string {
    After(EscapedLine(line), 4)
  }

  lemma TailIsFlat(line: seq<Segment>)
    requires FlatLine(line) && |line| > 0
    ensures WellFormed(line[0]) && FlatLine(line[1..])
    ensures line[0].Italic? && |line| > 1 ==> !Starred(line[1])
  {
  }

  // ---------- escaping ----------

  lemma {:induction false} EscapeConcat(a: string, b: string)
    ensures EscapeEach(a + b) == EscapeEach(a) + EscapeEach(b)
  {
    hide Entity;
    if |a| == 0 {
      assert a + b == b;
    } else {
      assert (a + b)[0] == a[0] && (a + b)[1..] == a[1..] + b;
      EscapeConcat(a[1..], b);
    }
  }

  lemma MarksNotEscaped()
    ensures EscapeEach("[") == "[" && EscapeEach("](") == "](" && EscapeEach(")") == ")"
    ensures EscapeEach("*") == "*" && EscapeEach("**") == "**" && EscapeEach("`") == "`"
  {
    assert "["[1..] == "" && ")"[1..] == "" && "*"[1..] == "" && "`"[1..] == "";
    assert "]("[1..] == "(" && "("[1..] == "" && "**"[1..] == "*";
  }

  lemma EscapedPiece(g: Segment)
    ensures EscapeEach(Piece(g, 0)) == Piece(EscapedSegment(g), 0)
  {
    hide EscapeEach;
    MarksNotEscaped();
    match g
    case Plain(_) =>
    case Link(t, u) =>
      EscapeConcat("[", t);
      EscapeConcat("[" + t, "](");
      EscapeConcat("[" + t + "](", u);
      EscapeConcat("[" + t + "](" + u, ")");
    case Bold(t) => EscapedBetween("**", t);
    case Code(t) => EscapedBetween("`", t);
    case Italic(t) => EscapedBetween("*", t);
  }

  lemma EscapedBetween(mark: string, t: string)
    ensures EscapeEach(mark + t + mark) == EscapeEach(mark) + EscapeEach(t) + EscapeEach(mark)
  {
    EscapeConcat(mark, t);
    EscapeConcat(mark + t, mark);
  }

  lemma {:induction false} EscapedMarkdown(line: seq<Segment>)
    ensures EscapeEach(Markdown(line)) == After(EscapedLine(line), 0)
  {
    if |line| > 0 {
      hide EscapeEach, Piece;
      EscapeConcat(Piece(line[0], 0), Markdown(line[1..]));
      EscapedPiece(line[0]);
      EscapedMarkdown(line[1..]);
      assert EscapedLine(line)[1..] == EscapedLine(line[1..]);
    } else {
      assert Markdown(line) == "";
    }
  }

  lemma EscapedText(t: string)
    ensures Unmarked(t) ==> Unmarked(EscapeEach(t))
    ensures ']' !in t ==> ']' !in EscapeEach(t)
    ensures ')' !in t ==> ')' !in EscapeEach(t)
    ensures |t| > 0 ==> |EscapeEach(t)| > 0
  {
    hide EscapeEach;
    if Unmarked(t) {
      EscapingAddsNoMark(t, '[');
      EscapingAddsNoMark(t, '*');
      EscapingAddsNoMark(t, '`');
    }
    if ']' !in t { EscapingAddsNoMark(t, ']'); }
    if ')' !in t { EscapingAddsNoMark(t, ')'); }
    if |t| > 0 { EscapedCons(t); EntityIsPlain(t[0]); }
  }

  lemma EscapedIsFlat(line: seq<Segment>)
    requires FlatLine(line)
    ensures FlatLine(EscapedLine(line))
  {
    hide EscapeEach;
    forall i | 0 <= i < |line| ensures WellFormed(EscapedLine(line)[i]) {
      EscapedText(line[i].text);
      if line[i].Link? {
        EscapedText(line[i].url);
      }
    }
  }

  // ---------- one pass after the other ----------

  lemma NotBetween(c: char, open: string, t: string, close: string)
    requires c !in open && c !in t && c !in close
    ensures c !in open + t + close
  {
  }

  lemma AnchorHasNo(t: string, u: string, c: char)
    requires c !in t && c !in u && c in {'[', '*', '`'}
    ensures c !in "<a href=\"" + u + "\">" + t + "</a>"
    ensures c != '[' ==> c !in "[" + t + "](" + u + ")"
  {
    hide Unmarked;
    assert c !in "<a href=\"" && c !in "\">" && c !in "</a>";
    NotBetween(c, "<a href=\"", u, "\">");
    NotBetween(c, "<a href=\"" + u + "\">", t, "</a>");
    if c != '[' {
      NotBetween(c, "[", t, "](");
      NotBetween(c, "[" + t + "](", u, ")");
    }
  }

  lemma PieceHasNo(g: Segment, n: nat)
    requires WellFormed(g)
    ensures !g.Link? || n >= 1 ==> '[' !in Piece(g, n)
    ensures !g.Code? || n >= 3 ==> '`' !in Piece(g, n)
    ensures !Starred(g) || (g.Bold? && n >= 2) || n >= 4 ==> '*' !in Piece(g, n) && |Piece(g, n)| > 0
  {
    if g.Link? {
      AnchorHasNo(g.text, g.url, '[');
      AnchorHasNo(g.text, g.url, '*');
      AnchorHasNo(g.text, g.url, '`');
    }
  }

  lemma {:induction false} LinkPass(line: seq<Segment>)
    requires FlatLine(line)
    ensures Links(After(line, 0)) == After(line, 1)
  {
    hide Links;
    if |line| == 0 {
      NoBracketNoLink("");
    } else {
      var g, rest := line[0], After(line[1..], 0);
      TailIsFlat(line);
      LinkPass(line[1..]);
      if g.Link? {
        LinkRendered(g.text, g.url, rest);
      } else {
        PieceHasNo(g, 0);
        LinksSkip(Piece(g, 0), rest);
      }
    }
  }

  lemma {:induction false} NextStartsPlain(line: seq<Segment>, n: nat)
    requires FlatLine(line) && (|line| > 0 ==> !Starred(line[0]))
    ensures StartsPlain(After(line, n))
  {
    if |line| > 0 {
      TailIsFlat(line);
      PieceHasNo(line[0], n);
      var p := Piece(line[0], n);
      assert p[0] in p;
    }
  }

  lemma ItalicStars(t: string)
    requires '*' !in t && |t| > 0
    ensures NoPair("*" + t + "*") && LoneStars("*" + t + "*", 0) == 2
  {
    var p := "*" + t + "*";
    assert t[0] in t && t[|t| - 1] in t;
    assert forall i :: 0 < i <= |t| ==> p[i] == t[i - 1] && t[i - 1] in t;
    AllLone(p, 0);
    assert p[0..] == p;
    CountConcat("*" + t, "*", '*');
    CountConcat("*", t, '*');
    CountFirst('*', t);
    CountZero(t, '*');
  }

  lemma {:induction false} BoldPass(line: seq<Segment>)
    requires FlatLine(line)
    ensures Pairs(After(line, 1), BOLD) == After(line, 2)
  {
    hide Pairs, DoubleStars, NoPair;
    if |line| == 0 {
      NoMatchWithout("", "**", 0, 1);
      NoMarkNoPair("", BOLD);
    } else {
      var g, rest := line[0], After(line[1..], 1);
      TailIsFlat(line);
      BoldPass(line[1..]);
      match g
      case Bold(t) =>
        PairRendered(t, rest, BOLD);
        assert "**" + t + "**" + rest == Piece(g, 1) + rest;
      case Italic(t) =>
        ItalicStars(t);
        NextStartsPlain(line[1..], 1);
        BoldBehind(Piece(g, 1), rest);
      case _ =>
        PieceHasNo(g, 1);
        PairsSkip(Piece(g, 1), rest, BOLD);
    }
  }

  lemma {:induction false} CodePass(line: seq<Segment>)
    requires FlatLine(line)
    ensures Pairs(After(line, 2), CODE) == After(line, 3)
  {
    hide Pairs;
    if |line| == 0 {
      NoMatchWithout("", "`", 0, 1);
      NoMarkNoPair("", CODE);
    } else {
      var g, rest := line[0], After(line[1..], 2);
      TailIsFlat(line);
      CodePass(line[1..]);
      if g.Code? {
        PairRendered(g.text, rest, CODE);
        assert "`" + g.text + "`" + rest == Piece(g, 2) + rest;
      } else {
        PieceHasNo(g, 2);
        PairsSkip(Piece(g, 2), rest, CODE);
      }
    }
  }

  // ---------- italics piece by piece ----------

  lemma SeamLone(a: string, y: string)
    requires SeamIsPlain(a, y)
    ensures forall j :: 0 <= j < |y| ==> LoneStar(a + y, |a| + j) == LoneStar(y, j) && (a + y)[|a| + j] == y[j]
    ensures forall i :: 0 <= i < |a| ==> LoneStar(a + y, i) == LoneStar(a, i) && (a + y)[i] == a[i]
  {
  }

  lemma {:induction false} ItalicsBehind(a: string, y: string, j: nat, inItalic: bool)
    requires SeamIsPlain(a, y) && j <= |y|
    ensures Italics(a + y, |a| + j, inItalic) == Italics(y, j, inItalic)
    decreases |y| - j
  {
    hide LoneStar, SeamIsPlain, Italics;
    if j < |y| {
      SeamLone(a, y);
      ItalicsStep(a + y, |a| + j, inItalic);
      ItalicsStep(y, j, inItalic);
      ItalicsBehind(a, y, j + 1, inItalic != LoneStar(y, j));
    } else {
      ItalicsEnd(a + y, inItalic);
      ItalicsEnd(y, inItalic);
    }
  }

  lemma {:induction false} ItalicsApart(a: string, y: string, i: nat, inItalic: bool)
    requires SeamIsPlain(a, y) && i <= |a|
    ensures Italics(a + y, i, inItalic)
            == Italics(a, i, inItalic) + Italics(y, 0, inItalic != (LoneStars(a, i) % 2 == 1))
    decreases |a| - i
  {
    hide LoneStar, SeamIsPlain, Italics, LoneStars;
    if i < |a| {
      SeamLone(a, y);
      ItalicsStep(a + y, i, inItalic);
      ItalicsStep(a, i, inItalic);
      StarStep(a, i, inItalic);
      ItalicsApart(a, y, i + 1, inItalic != LoneStar(a, i));
    } else {
      ItalicsBehind(a, y, 0, inItalic);
      ItalicsEnd(a, inItalic);
      assert LoneStars(a, |a|) == 0 by { NoneBehind(a); }
    }
  }

  lemma NoneBehind(s: string)
    ensures LoneStars(s, |s|) == 0
  {
  }

  lemma StarlessItalics(w: string)
    requires '*' !in w
    ensures Italics(w, 0, false) == w && LoneStars(w, 0) == 0
  {
    hide Italics, LoneStars;
    StarlessRead(w);
    assert forall j :: 0 <= j < |w| ==> w[j] in w;
    ItalicsCopies(w, 0, |w|, false);
    ItalicsEnd(w, false);
    assert w[0..|w|] == w && w + [] == w;
  }

  lemma ItalicRun(s: string, n: nat)
    requires |s| == n + 2 && LoneStar(s, 0) && LoneStar(s, n + 1) && '*' !in s[1..n + 1]
    ensures Italics(s, 0, false) == "<i>" + s[1..n + 1] + "</i>"
  {
    hide Italics, LoneStar;
    var t := s[1..n + 1];
    assert forall j :: 1 <= j < 1 + n ==> s[j] == t[j - 1] && t[j - 1] in t;
    ItalicsStep(s, 0, false);
    ItalicsCopies(s, 1, n, true);
    ItalicsStep(s, n + 1, true);
    ItalicsEnd(s, false);
    assert Italics(s, n + 1, true) == "</i>" + [];
    assert "<i>" + (t + ("</i>" + [])) == "<i>" + t + "</i>";
  }

  lemma ItalicRendered(t: string)
    requires '*' !in t && |t| > 0
    ensures Italics("*" + t + "*", 0, false) == "<i>" + t + "</i>"
  {
    hide Italics;
    var p := "*" + t + "*";
    assert t[0] in t && t[|t| - 1] in t;
    assert p[1..|t| + 1] == t;
    ItalicRun(p, |t|);
  }

  lemma PieceItalics(g: Segment)
    requires WellFormed(g)
    ensures Italics(Piece(g, 3), 0, false) == Piece(g, 4) && LoneStars(Piece(g, 3), 0) % 2 == 0
  {
    hide Italics, LoneStars;
    if g.Italic? {
      ItalicRendered(g.text);
      ItalicStars(g.text);
    } else {
      PieceHasNo(g, 3);
      StarlessItalics(Piece(g, 3));
    }
  }

  lemma PieceSeam(line: seq<Segment>)
    requires FlatLine(line) && |line| > 0
    ensures SeamIsPlain(Piece(line[0], 3), After(line[1..], 3))
  {
    TailIsFlat(line);
    PieceHasNo(line[0], 3);
    var p := Piece(line[0], 3);
    if line[0].Italic? {
      NextStartsPlain(line[1..], 3);
    } else {
      assert p[|p| - 1] in p;
    }
  }

  lemma {:induction false} ItalicPass(line: seq<Segment>)
    requires FlatLine(line)
    ensures Italics(After(line, 3), 0, false) == After(line, 4)
  {
    hide Italics, LoneStars, Piece, SeamIsPlain;
    if |line| == 0 {
      ItalicsEnd("", false);
    } else {
      TailIsFlat(line);
      PieceSeam(line);
      PieceItalics(line[0]);
      ItalicsApart(Piece(line[0], 3), After(line[1..], 3), 0, false);
      ItalicPass(line[1..]);
    }
  }

  // The rendered line is its pieces, each escaped and in its own tags, in order.
  lemma FlatLineRendered(line: seq<Segment>)
    requires FlatLine(line)
    ensures RenderInline(Markdown(line)) == Html(line)
  {
    hide EscapeHtml, Links, Pairs, Italics, After, FlatLine;
    var escaped := EscapedLine(line);
    EscapeIsCharwise(Markdown(line));
    EscapedMarkdown(line);
    EscapedIsFlat(line);
    LinkPass(escaped);
    BoldPass(escaped);
    CodePass(escaped);
    ItalicPass(escaped);
  }

  // ---------- lines whose markup overlaps ----------

  lemma StarlessDone(s: string, html: string)
    requires BeforeItalics(s) == html && '*' !in html
    ensures RenderInline(s) == html
  {
    hide Italics, BeforeItalics;
    StarlessItalics(html);
  }

  lemma EscapedSame(s: string)
    requires '&' !in s && '<' !in s && '>' !in s
    ensures EscapeHtml(s) == s
  {
    ReplaceAbsent(s, '&', "&amp;");
    ReplaceAbsent(s, '<', "&lt;");
    ReplaceAbsent(s, '>', "&gt;");
  }

  lemma UnpairedSame(s: string, k: Style)
    requires IsStyle(k) && k.mark[0] !in s
    ensures Pairs(s, k) == s
  {
    assert forall q :: 0 <= q < |s| ==> s[q] in s;
    NoMatchWithout(s, k.mark, 0, |s| + 1);
    NoMarkNoPair(s, k);
  }

  predicate Bare(t: string) {
    Unmarked(t) && '&' !in t && '<' !in t && '>' !in t
  }

  lemma CrossedBold(a: string, b: string, c: string)
    requires Bare(a) && Bare(b) && Bare(c)
    ensures Pairs("**" + a + "`" + b + "**" + c + "`", BOLD) == "<b>" + a + "`" + b + "</b>" + c + "`"
  {
    hide Pairs;
    PairRendered(a + "`" + b, c + "`", BOLD);
    UnpairedSame(c + "`", BOLD);
    assert "**" + a + "`" + b + "**" + c + "`" == "**" + (a + "`" + b) + "**" + (c + "`");
    assert "<b>" + a + "`" + b + "</b>" + c + "`" == "<b>" + (a + "`" + b) + "</b>" + (c + "`");
  }

  lemma CrossedCode(a: string, b: string, c: string)
    requires Bare(a) && Bare(b) && Bare(c)
    ensures Pairs("<b>" + a + "`" + b + "</b>" + c + "`", CODE) == "<b>" + a + "<code>" + b + "</b>" + c + "</code>"
  {
    hide Pairs;
    var inner := b + "</b>" + c;
    PairsSkip("<b>" + a, "`" + inner + "`" + "", CODE);
    PairRendered(inner, "", CODE);
    UnpairedSame("", CODE);
    assert "<b>" + a + "`" + b + "</b>" + c + "`" == ("<b>" + a) + ("`" + inner + "`" + "");
    assert "<b>" + a + "<code>" + b + "</b>" + c + "</code>" == ("<b>" + a) + ("<code>" + inner + "</code>" + "");
  }

  // Bold and code that overlap leave tags that cross.
  lemma TagsCanCross(a: string, b: string, c: string)
    requires Bare(a) && Bare(b) && Bare(c)
    ensures RenderInline("**" + a + "`" + b + "**" + c + "`") == "<b>" + a + "<code>" + b + "</b>" + c + "</code>"
  {
    hide Links, Pairs, EscapeHtml;
    var s := "**" + a + "`" + b + "**" + c + "`";
    EscapedSame(s);
    NoBracketNoLink(s);
    CrossedBold(a, b, c);
    CrossedCode(a, b, c);
    StarlessDone(s, "<b>" + a + "<code>" + b + "</b>" + c + "</code>");
  }

  lemma AddressLink(t: string, u: string, x: string)
    requires Bare(t) && Bare(u) && Bare(x) && ']' !in t && ')' !in u
    ensures Links("[" + t + "](" + u + "**)" + x + "**") == "<a href=\"" + u + "**\">" + t + "</a>" + x + "**"
  {
    hide Links;
    LinkRendered(t, u + "**", x + "**");
    NoBracketNoLink(x + "**");
    assert "[" + t + "](" + u + "**)" + x + "**" == "[" + t + "](" + (u + "**") + ")" + (x + "**");
    assert "<a href=\"" + u + "**\">" + t + "</a>" + x + "**"
        == "<a href=\"" + (u + "**") + "\">" + t + "</a>" + (x + "**");
  }

  lemma AddressGroups(t: string, u: string, x: string, close: string, open: string, end: string)
    ensures "<a href=\"" + u + open + close + t + "</a>" + x + end
         == ("<a href=\"" + u) + (open + (close + t + "</a>" + x) + end + "")
  {
    var inner := close + t + "</a>" + x;
    assert open + inner + end + "" == open + inner + end;
    assert open + close + t + "</a>" + x + end == open + inner + end;
  }

  lemma AddressBold(t: string, u: string, x: string)
    requires Bare(t) && Bare(u) && Bare(x)
    ensures Pairs("<a href=\"" + u + "**\">" + t + "</a>" + x + "**", BOLD)
            == "<a href=\"" + u + "<b>\">" + t + "</a>" + x + "</b>"
  {
    hide Pairs;
    var inner := "\">" + t + "</a>" + x;
    NotBetween('*', "\">", t, "</a>");
    NotBetween('*', "\">" + t + "</a>", x, "");
    assert "\">" + t + "</a>" + x + "" == inner;
    AddressGroups(t, u, x, "\">", "**", "**");
    AddressGroups(t, u, x, "\">", "<b>", "</b>");
    assert "<a href=\"" + u + "**" + "\">" == "<a href=\"" + u + "**\">";
    assert "<a href=\"" + u + "<b>" + "\">" == "<a href=\"" + u + "<b>\">";
    StyledInside("<a href=\"" + u, inner);
  }

  lemma StyledInside(p: string, inner: string)
    requires '*' !in p && '*' !in inner
    ensures Pairs(p + ("**" + inner + "**" + ""), BOLD) == p + ("<b>" + inner + "</b>" + "")
  {
    hide Pairs;
    PairsSkip(p, "**" + inner + "**" + "", BOLD);
    PairRendered(inner, "", BOLD);
    UnpairedSame("", BOLD);
  }

  lemma AddressHtmlHasNo(t: string, u: string, x: string, c: char)
    requires c !in t && c !in u && c !in x && c in {'*', '`'}
    ensures c !in "<a href=\"" + u + "<b>\">" + t + "</a>" + x + "</b>"
  {
    assert c !in "<a href=\"" && c !in "<b>\">" && c !in "</a>" && c !in "</b>";
    NotBetween(c, "<a href=\"", u, "<b>\">");
    NotBetween(c, "<a href=\"" + u + "<b>\">", t, "</a>");
    NotBetween(c, "<a href=\"" + u + "<b>\">" + t + "</a>", x, "</b>");
  }

  lemma AddressSourceHasNo(t: string, u: string, x: string, c: char)
    requires c !in t && c !in u && c !in x && c in {'&', '<', '>'}
    ensures c !in "[" + t + "](" + u + "**)" + x + "**"
  {
    NotBetween(c, "[", t, "](");
    NotBetween(c, "[" + t + "](", u, "**)");
    NotBetween(c, "[" + t + "](" + u + "**)", x, "**");
  }

  // A mark inside an address puts a tag there.
  lemma TagInAddress(t: string, u: string, x: string)
    requires Bare(t) && Bare(u) && Bare(x) && ']' !in t && ')' !in u
    ensures RenderInline("[" + t + "](" + u + "**)" + x + "**") == "<a href=\"" + u + "<b>\">" + t + "</a>" + x + "</b>"
  {
    hide Links, Pairs, EscapeHtml;
    var s, html := "[" + t + "](" + u + "**)" + x + "**", "<a href=\"" + u + "<b>\">" + t + "</a>" + x + "</b>";
    AddressSourceHasNo(t, u, x, '&');
    AddressSourceHasNo(t, u, x, '<');
    AddressSourceHasNo(t, u, x, '>');
    AddressHtmlHasNo(t, u, x, '*');
    AddressHtmlHasNo(t, u, x, '`');
    EscapedSame(s);
    AddressLink(t, u, x);
    AddressBold(t, u, x);
    UnpairedSame(html, CODE);
    StarlessDone(s, html);
  }
}
