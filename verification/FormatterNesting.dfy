/** The tags of the rendered HTML, read off the marks of the message, and exactly
    when they nest and stay out of addresses. */
module FormatterNesting {
  import opened Wrappers
  import opened Text
  import opened FormatterInline
  import opened FormatterItalics
  import opened FormatterStars
  import opened FormatterFlat
  import opened FormatterOnePass

  datatype Tag =
    | BoldOn | BoldOff | ItalicOn | ItalicOff | CodeOn | CodeOff
    | AddressOn   // opens the address of a link
    | AddressOff  // ends it and opens the text of the link
    | LinkOff

  function Literal(tag: Tag): string {
    match tag
    case BoldOn => "<b>"
    case BoldOff => "</b>"
    case ItalicOn => "<i>"
    case ItalicOff => "</i>"
    case CodeOn => "<code>"
    case CodeOff => "</code>"
    case AddressOn => "<a href=\""
    case AddressOff => "\">"
    case LinkOff => "</a>"
  }

  // The tag a string begins with
  function TagHere(s: string): (r: Option<Tag>)
    ensures r.Some? ==> Literal(r.value) <= s
  {
    if Literal(BoldOn) <= s then Some(BoldOn)
    else if Literal(BoldOff) <= s then Some(BoldOff)
    else if Literal(ItalicOn) <= s then Some(ItalicOn)
    else if Literal(ItalicOff) <= s then Some(ItalicOff)
    else if Literal(CodeOn) <= s then Some(CodeOn)
    else if Literal(CodeOff) <= s then Some(CodeOff)
    else if Literal(AddressOn) <= s then Some(AddressOn)
    else if Literal(AddressOff) <= s then Some(AddressOff)
    else if Literal(LinkOff) <= s then Some(LinkOff)
    else None
  }

  // The tags a reader of the HTML comes across
  function HtmlTags(html: string): seq<Tag>
    decreases |html|
  {
    if |html| == 0 then []
    else if TagHere(html).Some? then [TagHere(html).value] + HtmlTags(html[|Literal(TagHere(html).value)|..])
    else HtmlTags(html[1..])
  }

  datatype Element = InBold | InItalic | InCode | InLink

  // Reading the tags with the elements that are open, innermost last
  predicate Nested(tags: seq<Tag>, open: seq<Element>, inAddress: bool) {
    if |tags| == 0 then open == [] && !inAddress
    else if tags[0] == AddressOff then inAddress && Nested(tags[1..], open + [InLink], false)
    else
      && !inAddress
      && match tags[0]
         case BoldOn => Nested(tags[1..], open + [InBold], false)
         case ItalicOn => Nested(tags[1..], open + [InItalic], false)
         case CodeOn => Nested(tags[1..], open + [InCode], false)
         case AddressOn => Nested(tags[1..], open, true)
         case BoldOff => Closes(open, InBold) && Nested(tags[1..], open[..|open| - 1], false)
         case ItalicOff => Closes(open, InItalic) && Nested(tags[1..], open[..|open| - 1], false)
         case CodeOff => Closes(open, InCode) && Nested(tags[1..], open[..|open| - 1], false)
         case LinkOff => Closes(open, InLink) && Nested(tags[1..], open[..|open| - 1], false)
  }

  predicate Closes(open: seq<Element>, e: Element) {
    |open| > 0 && open[|open| - 1] == e
  }

  // Every tag is closed, the last opened first, and no tag stands in an address.
  predicate WellNested(html: string) {
    Nested(HtmlTags(html), [], false)
  }

  // ---------- the tags the marks of a text stand for ----------

  // b, c and t say whether bold, code and italics are open; tags already in the text
  // (those of its links) are read as they stand.
  function MarkTags(s: string, b: bool, c: bool, t: bool): seq<Tag>
    decreases |s|
  {
    if |s| == 0 then []
    else if "**" <= s then
      if b || Occurs(s[2..], "**") then [if b then BoldOff else BoldOn] + MarkTags(s[2..], !b, c, t)
      else MarkTags(s[StarRun(s)..], false, c, t)
    else if s[0] == '`' then
      if c || '`' in s[1..] then [if c then CodeOff else CodeOn] + MarkTags(s[1..], b, !c, t)
      else MarkTags(s[1..], b, false, t)
    else if s[0] == '*' then [if t then ItalicOff else ItalicOn] + MarkTags(s[1..], b, c, !t)
    else if TagHere(s).Some? then [TagHere(s).value] + MarkTags(s[|Literal(TagHere(s).value)|..], b, c, t)
    else MarkTags(s[1..], b, c, t)
  }

  predicate IsMark(ch: char) {
    ch == '*' || ch == '`'
  }

  predicate IsPlain(w: string) {
    forall i :: 0 <= i < |w| ==> !IsMark(w[i])
  }

  lemma OnePassChar(s: string, b: bool, c: bool, t: bool)
    requires |s| > 0 && !IsMark(s[0])
    ensures OnePass(s, b, c, t) == [s[0]] + OnePass(s[1..], b, c, t)
  {
  }

  // A mark becomes a tag or stays what it is.
  lemma OnePassMark(s: string, b: bool, c: bool, t: bool)
    requires |s| > 0 && IsMark(s[0])
    ensures var html := OnePass(s, b, c, t);
            |html| > 0 && (html[0] == '<' || IsMark(html[0]))
  {
  }

  lemma {:induction false} OnePassSkip(w: string, y: string, b: bool, c: bool, t: bool)
    requires IsPlain(w)
    ensures OnePass(w + y, b, c, t) == w + OnePass(y, b, c, t)
  {
    hide OnePass;
    if |w| == 0 {
      assert w + y == y;
    } else {
      assert (w + y)[0] == w[0] && (w + y)[1..] == w[1..] + y;
      OnePassChar(w + y, b, c, t);
      OnePassSkip(w[1..], y, b, c, t);
    }
  }

  // Plain text at the front of the HTML stood at the front of the text.
  lemma {:induction false} PlainFront(w: string, s: string, b: bool, c: bool, t: bool)
    requires IsPlain(w) && '<' !in w
    ensures w <= OnePass(s, b, c, t) <==> w <= s
    decreases |w|
  {
    hide OnePass;
    if |w| > 0 && |s| > 0 {
      assert w[0] in w;
      if IsMark(s[0]) {
        OnePassMark(s, b, c, t);
      } else {
        OnePassChar(s, b, c, t);
        PlainFront(w[1..], s[1..], b, c, t);
        FrontStep(w, s);
        FrontStep(w, OnePass(s, b, c, t));
        assert OnePass(s, b, c, t)[1..] == OnePass(s[1..], b, c, t);
      }
    } else if |s| == 0 {
      NothingToPass(b, c, t);
    }
  }

  lemma FrontStep(w: string, s: string)
    requires |w| > 0 && |s| > 0
    ensures w <= s <==> w[0] == s[0] && w[1..] <= s[1..]
  {
    if w[0] == s[0] && w[1..] <= s[1..] {
      assert w == [w[0]] + w[1..] && s == [s[0]] + s[1..];
    }
  }

  lemma NothingToPass(b: bool, c: bool, t: bool)
    ensures OnePass([], b, c, t) == []
  {
  }

  lemma LiteralIsPlain(tag: Tag)
    ensures |Literal(tag)| > 0 && IsPlain(Literal(tag)) && IsPlain(Literal(tag)[1..]) && '<' !in Literal(tag)[1..]
  {
    match tag
    case BoldOn => case BoldOff => case ItalicOn => case ItalicOff => case CodeOn =>
    case CodeOff => case AddressOn => case AddressOff => case LinkOff =>
  }

  lemma LiteralStays(tag: Tag, s: string, b: bool, c: bool, t: bool)
    requires |s| > 0 && !IsMark(s[0])
    ensures Literal(tag) <= OnePass(s, b, c, t) <==> Literal(tag) <= s
  {
    hide OnePass, Literal;
    LiteralIsPlain(tag);
    OnePassChar(s, b, c, t);
    FrontStep(Literal(tag), s);
    FrontStep(Literal(tag), OnePass(s, b, c, t));
    PlainFront(Literal(tag)[1..], s[1..], b, c, t);
    assert OnePass(s, b, c, t)[1..] == OnePass(s[1..], b, c, t);
  }

  lemma TagStays(s: string, b: bool, c: bool, t: bool)
    requires |s| > 0 && !IsMark(s[0])
    ensures TagHere(OnePass(s, b, c, t)) == TagHere(s)
  {
    hide OnePass, Literal;
    forall tag: Tag ensures Literal(tag) <= OnePass(s, b, c, t) <==> Literal(tag) <= s {
      LiteralStays(tag, s, b, c, t);
    }
  }

  // A tag at the front is read as that tag.
  lemma TagInFront(tag: Tag, y: string)
    ensures HtmlTags(Literal(tag) + y) == [tag] + HtmlTags(y)
  {
    var html := Literal(tag) + y;
    assert TagHere(html) == Some(tag) by {
      if tag == AddressOff {
        AddressOffFound(y);
      } else {
        TagFound(tag, y);
      }
    }
    assert html[|Literal(tag)|..] == y;
  }

  lemma AddressOffFound(y: string)
    ensures TagHere(Literal(AddressOff) + y) == Some(AddressOff)
  {
    var html := Literal(AddressOff) + y;
    assert html[0] == '"' && html[..2] == Literal(AddressOff);
  }

  lemma TagFound(tag: Tag, y: string)
    requires tag != AddressOff
    ensures TagHere(Literal(tag) + y) == Some(tag)
  {
    var html := Literal(tag) + y;
    assert html[0] == Literal(tag)[0] && html[1] == Literal(tag)[1] && html[2] == Literal(tag)[2];
    forall u: Tag | Literal(u) <= html && |Literal(u)| > 2
        ensures Literal(u)[1] == html[1] && Literal(u)[2] == html[2] {
      assert html[..|Literal(u)|] == Literal(u);
    }
    assert Literal(AddressOff)[0] != html[0];
  }

  // A mark that stays text is no tag.
  lemma {:induction false} MarksAreNoTags(w: string, y: string)
    requires forall i :: 0 <= i < |w| ==> IsMark(w[i])
    ensures HtmlTags(w + y) == HtmlTags(y)
  {
    if |w| == 0 {
      assert w + y == y;
    } else {
      assert (w + y)[1..] == w[1..] + y;
      MarksAreNoTags(w[1..], y);
      NoTagAtMark(w + y);
    }
  }

  lemma NoTagAtMark(s: string)
    requires |s| > 0 && IsMark(s[0])
    ensures TagHere(s).None?
  {
  }

  // The tags of the HTML are those the marks of the text stand for, in that order.
  lemma {:induction false} TagsAreMarks(s: string, b: bool, c: bool, t: bool)
    ensures HtmlTags(OnePass(s, b, c, t)) == MarkTags(s, b, c, t)
    decreases |s|
  {
    hide HtmlTags, TagHere, Occurs, Literal;
    if |s| == 0 {
      NothingToRead();
    } else if "**" <= s {
      BoldTags(s, b, c, t);
      if b || Occurs(s[2..], "**") {
        TagsAreMarks(s[2..], !b, c, t);
      } else {
        TagsAreMarks(s[StarRun(s)..], false, c, t);
      }
    } else if s[0] == '`' {
      CodeTags(s, b, c, t);
      TagsAreMarks(s[1..], b, !c && '`' in s[1..], t);
    } else if s[0] == '*' {
      ItalicTags(s, b, c, t);
      TagsAreMarks(s[1..], b, c, !t);
    } else {
      TextTags(s, b, c, t);
      if TagHere(s).Some? {
        LiteralIsPlain(TagHere(s).value);
        TagsAreMarks(s[|Literal(TagHere(s).value)|..], b, c, t);
      } else {
        TagsAreMarks(s[1..], b, c, t);
      }
    }
  }

  lemma NothingToRead()
    ensures HtmlTags([]) == []
  {
  }

  lemma BoldTags(s: string, b: bool, c: bool, t: bool)
    requires "**" <= s
    ensures HtmlTags(OnePass(s, b, c, t))
         == if b || Occurs(s[2..], "**") then [if b then BoldOff else BoldOn] + HtmlTags(OnePass(s[2..], !b, c, t))
            else HtmlTags(OnePass(s[StarRun(s)..], false, c, t))
  {
    hide HtmlTags, TagHere, Occurs;
    if b || Occurs(s[2..], "**") {
      TagInFront(if b then BoldOff else BoldOn, OnePass(s[2..], !b, c, t));
    } else {
      assert s[..StarRun(s)] == if StarRun(s) == 2 then "**" else "***";
      MarksAreNoTags(s[..StarRun(s)], OnePass(s[StarRun(s)..], false, c, t));
    }
  }

  lemma CodeTags(s: string, b: bool, c: bool, t: bool)
    requires |s| > 0 && s[0] == '`'
    ensures HtmlTags(OnePass(s, b, c, t))
         == if c || '`' in s[1..] then [if c then CodeOff else CodeOn] + HtmlTags(OnePass(s[1..], b, !c, t))
            else HtmlTags(OnePass(s[1..], b, false, t))
  {
    hide HtmlTags, TagHere;
    if c || '`' in s[1..] {
      TagInFront(if c then CodeOff else CodeOn, OnePass(s[1..], b, !c, t));
    } else {
      MarksAreNoTags("`", OnePass(s[1..], b, false, t));
    }
  }

  lemma ItalicTags(s: string, b: bool, c: bool, t: bool)
    requires |s| > 0 && s[0] == '*' && !("**" <= s)
    ensures HtmlTags(OnePass(s, b, c, t)) == [if t then ItalicOff else ItalicOn] + HtmlTags(OnePass(s[1..], b, c, !t))
  {
    hide HtmlTags, TagHere;
    TagInFront(if t then ItalicOff else ItalicOn, OnePass(s[1..], b, c, !t));
  }

  lemma TextTags(s: string, b: bool, c: bool, t: bool)
    requires |s| > 0 && !IsMark(s[0])
    ensures HtmlTags(OnePass(s, b, c, t))
         == if TagHere(s).None? then HtmlTags(OnePass(s[1..], b, c, t))
            else [TagHere(s).value] + HtmlTags(OnePass(s[|Literal(TagHere(s).value)|..], b, c, t))
  {
    hide OnePass, TagHere, Literal;
    var html := OnePass(s, b, c, t);
    TagStays(s, b, c, t);
    OnePassChar(s, b, c, t);
    if TagHere(s).None? {
      assert html[1..] == OnePass(s[1..], b, c, t);
    } else {
      var w := Literal(TagHere(s).value);
      LiteralIsPlain(TagHere(s).value);
      assert s == w + s[|w|..];
      OnePassSkip(w, s[|w|..], b, c, t);
      assert html[|w|..] == OnePass(s[|w|..], b, c, t);
    }
  }

  // ---------- when the HTML nests ----------

  // For every line: the HTML nests exactly when each mark of the linked text closes
  // what was opened last, and none stands in an address.
  lemma NestsIff(text: string)
    ensures HtmlTags(RenderInline(text)) == MarkTags(Linked(text), false, false, false)
    ensures WellNested(RenderInline(text)) <==> Nested(MarkTags(Linked(text), false, false, false), [], false)
  {
    hide RenderInline, OnePass, Links, EscapeHtml, HtmlTags, MarkTags;
    RenderIsOnePass(text);
    TagsAreMarks(Linked(text), false, false, false);
  }

  // Without links the message alone decides.
  lemma NestsByMessage(text: string)
    requires '[' !in text
    ensures WellNested(RenderInline(text)) <==> Nested(MarkTags(EscapeEach(text), false, false, false), [], false)
  {
    hide RenderInline, EscapeHtml, HtmlTags, MarkTags;
    EscapeIsCharwise(text);
    EscapingAddsNoMark(text, '[');
    NoBracketNoLink(EscapeHtml(text));
    NestsIff(text);
  }

  // ---------- lines whose verdict is plain ----------

  lemma NoTagAhead(s: string)
    requires |s| > 0 && s[0] != '<' && !(|s| > 1 && s[0] == '"' && s[1] == '>')
    ensures TagHere(s).None?
  {
  }

  lemma {:induction false} TextSkipped(w: string, y: string)
    requires '<' !in w && '>' !in w && (|y| > 0 ==> y[0] != '>')
    ensures HtmlTags(w + y) == HtmlTags(y)
  {
    hide TagHere;
    if |w| == 0 {
      assert w + y == y;
    } else {
      var s := w + y;
      assert s[0] in w && (|w| > 1 ==> w[1] in w);
      assert s[1..] == w[1..] + y;
      NoTagAhead(s);
      TextSkipped(w[1..], y);
    }
  }

  // A tag, text without angle brackets, and what follows
  lemma TagThenText(tag: Tag, w: string, y: string)
    requires '<' !in w && '>' !in w && (|y| > 0 ==> y[0] != '>')
    ensures HtmlTags(Literal(tag) + w + y) == [tag] + HtmlTags(y)
  {
    hide HtmlTags, Literal;
    assert Literal(tag) + w + y == Literal(tag) + (w + y);
    TagInFront(tag, w + y);
    TextSkipped(w, y);
  }

  function PieceTags(g: Segment): seq<Tag> {
    match g
    case Plain(_) => []
    case Link(_, _) => [AddressOn, AddressOff, LinkOff]
    case Bold(_) => [BoldOn, BoldOff]
    case Code(_) => [CodeOn, CodeOff]
    case Italic(_) => [ItalicOn, ItalicOff]
  }

  lemma PieceRead(g: Segment, y: string)
    requires |y| > 0 ==> y[0] != '>'
    ensures HtmlTags(Piece(EscapedSegment(g), 4) + y) == PieceTags(g) + HtmlTags(y)
  {
    hide HtmlTags, EscapeEach;
    EscapedHasNoAngles(g.text);
    var t := EscapeEach(g.text);
    match g
    case Plain(_) =>
      TextSkipped(t, y);
    case Link(_, _) =>
      EscapedHasNoAngles(g.url);
      LinkRead(EscapeEach(g.url), t, y);
    case Bold(_) => StyleRead(BoldOn, BoldOff, t, y);
    case Code(_) => StyleRead(CodeOn, CodeOff, t, y);
    case Italic(_) => StyleRead(ItalicOn, ItalicOff, t, y);
  }

  lemma StyleRead(on: Tag, off: Tag, t: string, y: string)
    requires off.BoldOff? || off.CodeOff? || off.ItalicOff?
    requires '<' !in t && '>' !in t && (|y| > 0 ==> y[0] != '>')
    ensures HtmlTags(Literal(on) + t + Literal(off) + y) == [on, off] + HtmlTags(y)
  {
    hide HtmlTags;
    TagInFront(off, y);
    TagThenText(on, t, Literal(off) + y);
    assert Literal(on) + t + Literal(off) + y == Literal(on) + t + (Literal(off) + y);
    assert [on] + ([off] + HtmlTags(y)) == [on, off] + HtmlTags(y);
  }

  lemma LinkRead(u: string, t: string, y: string)
    requires '<' !in u && '>' !in u && '<' !in t && '>' !in t
    ensures HtmlTags("<a href=\"" + u + "\">" + t + "</a>" + y) == [AddressOn, AddressOff, LinkOff] + HtmlTags(y)
  {
    hide HtmlTags;
    TagInFront(LinkOff, y);
    TagThenText(AddressOff, t, "</a>" + y);
    TagThenText(AddressOn, u, "\">" + t + ("</a>" + y));
    assert "<a href=\"" + u + "\">" + t + "</a>" + y == "<a href=\"" + u + ("\">" + t + ("</a>" + y));
    assert [AddressOn] + ([AddressOff] + ([LinkOff] + HtmlTags(y))) == [AddressOn, AddressOff, LinkOff] + HtmlTags(y);
  }

  // Each piece closes what it opens.
  lemma PieceNests(g: Segment, tags: seq<Tag>)
    ensures Nested(PieceTags(g) + tags, [], false) <==> Nested(tags, [], false)
  {
    match g
    case Plain(_) => assert [] + tags == tags;
    case Link(_, _) =>
      var all := [AddressOn, AddressOff, LinkOff] + tags;
      assert all[1..] == [AddressOff, LinkOff] + tags;
      assert Nested(all, [], false) <==> Nested([AddressOff, LinkOff] + tags, [], true);
      assert ([AddressOff, LinkOff] + tags)[1..] == [LinkOff] + tags;
      ClosesAtOnce(LinkOff, InLink, tags);
    case Bold(_) => OpensAndCloses(BoldOn, BoldOff, InBold, tags);
    case Code(_) => OpensAndCloses(CodeOn, CodeOff, InCode, tags);
    case Italic(_) => OpensAndCloses(ItalicOn, ItalicOff, InItalic, tags);
  }

  predicate Matches(off: Tag, e: Element) {
    match off
    case BoldOff => e == InBold
    case ItalicOff => e == InItalic
    case CodeOff => e == InCode
    case LinkOff => e == InLink
    case _ => false
  }

  lemma ClosesAtOnce(off: Tag, e: Element, tags: seq<Tag>)
    requires Matches(off, e)
    ensures Nested([off] + tags, [] + [e], false) <==> Nested(tags, [], false)
  {
    assert ([off] + tags)[1..] == tags && ([] + [e])[..0] == [];
  }

  lemma OpensAndCloses(on: Tag, off: Tag, e: Element, tags: seq<Tag>)
    requires (on == BoldOn && e == InBold) || (on == CodeOn && e == InCode) || (on == ItalicOn && e == InItalic)
    requires Matches(off, e)
    ensures Nested([on, off] + tags, [], false) <==> Nested(tags, [], false)
  {
    assert ([on, off] + tags)[1..] == [off] + tags;
    ClosesAtOnce(off, e, tags);
  }

  lemma {:induction false} PiecesNest(line: seq<Segment>)
    ensures var html := Html(line);
            Nested(HtmlTags(html), [], false) && (|html| > 0 ==> html[0] != '>')
  {
    hide HtmlTags, EscapeEach;
    if |line| == 0 {
      NothingToRead();
    } else {
      PiecesNest(line[1..]);
      PieceRead(line[0], Html(line[1..]));
      PieceNests(line[0], HtmlTags(Html(line[1..])));
      EscapedTail(line);
      EscapedHasNoAngles(line[0].text);
    }
  }

  lemma EscapedTail(line: seq<Segment>)
    requires |line| > 0
    ensures Html(line) == Piece(EscapedSegment(line[0]), 4) + Html(line[1..])
  {
    hide EscapeEach, EscapedSegment;
    assert EscapedLine(line)[1..] == EscapedLine(line[1..]);
  }

  // Markup that does not overlap always nests.
  lemma FlatLineNests(line: seq<Segment>)
    requires FlatLine(line)
    ensures WellNested(RenderInline(Markdown(line)))
  {
    hide RenderInline, HtmlTags, Html, FlatLine;
    FlatLineRendered(line);
    PiecesNest(line);
  }

  // Bold and code that overlap never do, whatever the texts.
  lemma CrossedNeverNests(a: string, b: string, c: string)
    requires Bare(a) && Bare(b) && Bare(c)
    ensures !WellNested(RenderInline("**" + a + "`" + b + "**" + c + "`"))
  {
    hide RenderInline, HtmlTags, Nested;
    TagsCanCross(a, b, c);
    NothingToRead();
    assert "</code>" + [] == "</code>";
    TagInFront(CodeOff, []);
    TagThenText(BoldOff, c, "</code>");
    TagThenText(CodeOn, b, "</b>" + c + "</code>");
    TagThenText(BoldOn, a, "<code>" + b + ("</b>" + c + "</code>"));
    assert "<b>" + a + "<code>" + b + "</b>" + c + "</code>" == "<b>" + a + ("<code>" + b + ("</b>" + c + "</code>"));
    assert [BoldOn] + ([CodeOn] + ([BoldOff] + ([CodeOff] + []))) == [BoldOn, CodeOn, BoldOff, CodeOff];
    CrossedTags();
  }

  lemma CrossedTags()
    ensures !Nested([BoldOn, CodeOn, BoldOff, CodeOff], [], false)
  {
    assert [BoldOn, CodeOn, BoldOff, CodeOff][1..] == [CodeOn, BoldOff, CodeOff];
    assert [CodeOn, BoldOff, CodeOff][1..] == [BoldOff, CodeOff];
  }

  // Nor does a mark in an address whose partner stands behind the link.
  lemma AddressNeverNests(t: string, u: string, x: string)
    requires Bare(t) && Bare(u) && Bare(x) && ']' !in t && ')' !in u
    ensures !WellNested(RenderInline("[" + t + "](" + u + "**)" + x + "**"))
  {
    hide RenderInline, HtmlTags, Nested;
    TagInAddress(t, u, x);
    var rest := "\">" + t + "</a>" + x + "</b>";
    TagInFront(BoldOn, rest);
    TagThenText(AddressOn, u, "<b>" + rest);
    assert "<a href=\"" + u + "<b>\">" + t + "</a>" + x + "</b>" == "<a href=\"" + u + ("<b>" + rest);
    TagBeforeEnd(HtmlTags(rest));
  }

  lemma TagBeforeEnd(tags: seq<Tag>)
    ensures !Nested([AddressOn] + ([BoldOn] + tags), [], false)
  {
    assert ([AddressOn] + ([BoldOn] + tags))[1..] == [BoldOn] + tags;
  }
}
