/** Markdown to Telegram HTML, block by block: fences, headings, quotes, lists
    and paragraphs, each rendered and joined by blank lines. */
module FormatterBlocks {
  import opened Wrappers
  import opened Text
  import opened FormatterInline
  import opened FormatterTags

  // ---------- lines ----------

  function CrLfToLf(s: string): string {
    if |s| == 0 then []
    else if "\r\n" <= s then "\n" + CrLfToLf(s[2..])
    else [s[0]] + CrLfToLf(s[1..])
  }

  // str::lines on a text without carriage returns
  function Lines(s: string): seq<string>
    decreases |s|
  {
    if |s| == 0 then []
    else if LineEnd(s) == |s| then [s]
    else [s[..LineEnd(s)]] + Lines(s[LineEnd(s) + 1..])
  }

  function NormalizedLines(text: string): seq<string> {
    Lines(Replace(CrLfToLf(text), '\r', "\n"))
  }

  // ---------- what a trimmed line is ----------

  function FenceDelimiter(line: string): Option<string> {
    if "```" <= line then Some("```") else if "~~~" <= line then Some("~~~") else None
  }

  function LeadingHashes(line: string): (n: nat)
    ensures n <= |line|
  {
    if |line| > 0 && line[0] == '#' then 1 + LeadingHashes(line[1..]) else 0
  }

  function HeadingText(line: string): Option<string> {
    var hashes := LeadingHashes(line);
    if 1 <= hashes <= 6 && hashes < |line| && line[hashes] == ' ' then Some(line[hashes + 1..]) else None
  }

  function UnorderedItem(line: string): Option<string> {
    if "- " <= line || "* " <= line || "+ " <= line then Some(line[2..]) else None
  }

  function LeadingDigits(line: string): (n: nat)
    ensures n <= |line|
  {
    if |line| > 0 && '0' <= line[0] <= '9' then 1 + LeadingDigits(line[1..]) else 0
  }

  function OrderedItem(line: string): Option<string> {
    var digits := LeadingDigits(line);
    if digits > 0 && (". " <= line[digits..] || ") " <= line[digits..]) then Some(line[digits + 2..]) else None
  }

  predicate IsQuote(line: string) {
    |line| > 0 && line[0] == '>'
  }

  // strip_prefix('>') and trim_start
  function QuoteText(line: string): string
    requires IsQuote(line)
  {
    TrimStart(line[1..])
  }

  predicate EndsParagraph(line: string) {
    || |line| == 0
    || FenceDelimiter(line).Some?
    || HeadingText(line).Some?
    || IsQuote(line)
    || UnorderedItem(line).Some?
    || OrderedItem(line).Some?
  }

  // ---------- blocks ----------

  datatype Block =
    | Code(lines: seq<string>)
    | Heading(text: string)
    | Quote(quoted: seq<string>)
    | Bullets(items: seq<string>)
    | Numbered(items: seq<string>)
    | Paragraph(lines: seq<string>)

  // Contents from line i on, and the line to go on with
  datatype Body = Body(contents: seq<string>, next: nat)

  function Prepend(content: string, b: Body): Body {
    Body([content] + b.contents, b.next)
  }

  function FenceBody(lines: seq<string>, i: nat, fence: string): (b: Body)
    requires i <= |lines|
    ensures i <= b.next <= |lines|
    decreases |lines| - i
  {
    if i == |lines| then Body([], i)
    else if fence <= Trim(lines[i]) then Body([], i + 1)
    else Prepend(lines[i], FenceBody(lines, i + 1, fence))
  }

  function QuoteBody(lines: seq<string>, i: nat): (b: Body)
    requires i <= |lines|
    ensures i <= b.next <= |lines|
    decreases |lines| - i
  {
    if i == |lines| || !IsQuote(Trim(lines[i])) then Body([], i)
    else Prepend(QuoteText(Trim(lines[i])), QuoteBody(lines, i + 1))
  }

  // One blank line ends a list and is skipped with it.
  function ListBody(lines: seq<string>, i: nat, ordered: bool): (b: Body)
    requires i <= |lines|
    ensures i <= b.next <= |lines|
    decreases |lines| - i
  {
    if i == |lines| then Body([], i)
    else if ItemOf(Trim(lines[i]), ordered).Some? then
      Prepend(ItemOf(Trim(lines[i]), ordered).value, ListBody(lines, i + 1, ordered))
    else if |Trim(lines[i])| == 0 then Body([], i + 1)
    else Body([], i)
  }

  function ItemOf(line: string, ordered: bool): Option<string> {
    if ordered then OrderedItem(line) else UnorderedItem(line)
  }

  function ParagraphBody(lines: seq<string>, i: nat): (b: Body)
    requires i <= |lines|
    ensures i <= b.next <= |lines|
    decreases |lines| - i
  {
    if i == |lines| || EndsParagraph(Trim(lines[i])) then Body([], i)
    else Prepend(Trim(lines[i]), ParagraphBody(lines, i + 1))
  }

  datatype Parsed = Parsed(block: Block, next: nat)

  function NextBlock(lines: seq<string>, i: nat): (p: Parsed)
    requires i < |lines| && |Trim(lines[i])| > 0
    ensures i < p.next <= |lines|
  {
    var trimmed := Trim(lines[i]);
    if FenceDelimiter(trimmed).Some? then
      var b := FenceBody(lines, i + 1, FenceDelimiter(trimmed).value);
      Parsed(Code(b.contents), b.next)
    else if HeadingText(trimmed).Some? then Parsed(Heading(HeadingText(trimmed).value), i + 1)
    else if IsQuote(trimmed) then
      var b := QuoteBody(lines, i);
      assert b.next > i;
      Parsed(Quote(b.contents), b.next)
    else if UnorderedItem(trimmed).Some? then
      var b := ListBody(lines, i + 1, false);
      Parsed(Bullets([UnorderedItem(trimmed).value] + b.contents), b.next)
    else if OrderedItem(trimmed).Some? then
      var b := ListBody(lines, i + 1, true);
      Parsed(Numbered([OrderedItem(trimmed).value] + b.contents), b.next)
    else
      var b := ParagraphBody(lines, i + 1);
      Parsed(Paragraph([trimmed] + b.contents), b.next)
  }

  function Blocks(lines: seq<string>, i: nat): seq<Block>
    requires i <= |lines|
    decreases |lines| - i
  {
    if i == |lines| then []
    else if |Trim(lines[i])| == 0 then Blocks(lines, i + 1)
    else [NextBlock(lines, i).block] + Blocks(lines, NextBlock(lines, i).next)
  }

  // ---------- rendering ----------

  function Decimal(n: nat): string {
    if n < 10 then [(n as char) + '0'] else Decimal(n / 10) + [((n % 10) as char) + '0']
  }

  function RenderQuoted(lines: seq<string>): seq<string> {
    if |lines| == 0 then [] else [RenderInline(lines[0])] + RenderQuoted(lines[1..])
  }

  function RenderBullets(items: seq<string>): seq<string> {
    if |items| == 0 then [] else ["\U{2022} " + RenderInline(Trim(items[0]))] + RenderBullets(items[1..])
  }

  function RenderNumbered(items: seq<string>, number: nat): seq<string> {
    if |items| == 0 then []
    else [Decimal(number) + ". " + RenderInline(Trim(items[0]))] + RenderNumbered(items[1..], number + 1)
  }

  function Render(b: Block): string {
    match b
    case Code(lines) => "<pre><code>" + EscapeHtml(Join(lines, "\n")) + "</code></pre>"
    case Heading(text) => "<b>" + RenderInline(Trim(text)) + "</b>"
    case Quote(lines) => "<blockquote>" + Join(RenderQuoted(lines), "\n") + "</blockquote>"
    case Bullets(items) => Join(RenderBullets(items), "\n")
    case Numbered(items) => Join(RenderNumbered(items, 1), "\n")
    case Paragraph(lines) => RenderInline(Join(lines, "\n"))
  }

  function RenderAll(blocks: seq<Block>): seq<string> {
    if |blocks| == 0 then [] else [Render(blocks[0])] + RenderAll(blocks[1..])
  }

  function TelegramHtml(text: string): string {
    Join(RenderAll(Blocks(NormalizedLines(text), 0)), "\n\n")
  }

  // ---------- the whole document is tag-safe ----------

  ghost predicate AllWellTagged(parts: seq<string>) {
    forall i :: 0 <= i < |parts| ==> WellTagged(parts[i])
  }

  lemma PlainWellTagged(s: string)
    requires '<' !in s && '>' !in s
    ensures WellTagged(s)
  {
    SafeWithoutAngles(s);
    NoExcess(s);
  }

  lemma {:induction false} JoinAllWellTagged(parts: seq<string>, separator: string)
    requires AllWellTagged(parts) && WellTagged(separator)
    ensures WellTagged(Join(parts, separator))
  {
    hide WellTagged;
    PlainWellTagged("");
    if |parts| > 1 {
      JoinAllWellTagged(parts[1..], separator);
      JoinWellTagged(parts[0], separator);
      JoinWellTagged(parts[0] + separator, Join(parts[1..], separator));
    }
  }

  lemma WrapWellTagged(open: string, s: string, close: string)
    requires WellTagged(open) && WellTagged(s) && WellTagged(close)
    ensures WellTagged(open + s + close)
  {
    JoinWellTagged(open, s);
    JoinWellTagged(open + s, close);
  }

  lemma {:induction false} DecimalHasNoAngles(n: nat)
    ensures '<' !in Decimal(n) && '>' !in Decimal(n)
  {
    if n >= 10 {
      DecimalHasNoAngles(n / 10);
    }
  }

  lemma {:induction false} QuotedWellTagged(lines: seq<string>)
    ensures AllWellTagged(RenderQuoted(lines))
  {
    hide WellTagged, RenderInline;
    if |lines| > 0 {
      InlineWellTagged(lines[0]);
      QuotedWellTagged(lines[1..]);
    }
  }

  lemma {:induction false} BulletsWellTagged(items: seq<string>)
    ensures AllWellTagged(RenderBullets(items))
  {
    hide WellTagged, RenderInline;
    if |items| > 0 {
      InlineWellTagged(Trim(items[0]));
      PlainWellTagged("\U{2022} ");
      JoinWellTagged("\U{2022} ", RenderInline(Trim(items[0])));
      BulletsWellTagged(items[1..]);
    }
  }

  lemma {:induction false} NumberedWellTagged(items: seq<string>, number: nat)
    ensures AllWellTagged(RenderNumbered(items, number))
    decreases |items|
  {
    hide WellTagged, RenderInline, Decimal;
    if |items| > 0 {
      InlineWellTagged(Trim(items[0]));
      DecimalHasNoAngles(number);
      PlainWellTagged(Decimal(number) + ". ");
      JoinWellTagged(Decimal(number) + ". ", RenderInline(Trim(items[0])));
      NumberedWellTagged(items[1..], number + 1);
    }
  }

  lemma BlockTagsWellTagged()
    ensures WellTagged("<b>") && WellTagged("</b>")
    ensures WellTagged("<pre><code>") && WellTagged("</code></pre>") && WellTagged("<blockquote>")
            && WellTagged("</blockquote>")
  {
    hide TagSafe, Excess;
    MarkupTagsSafe();
    MarkupExcess();
  }

  lemma BlockWellTagged(b: Block)
    ensures WellTagged(Render(b))
  {
    hide WellTagged, RenderInline, EscapeHtml;
    BlockTagsWellTagged();
    PlainWellTagged("\n");
    match b
    case Code(lines) =>
      EscapedWellTagged(Join(lines, "\n"));
      WrapWellTagged("<pre><code>", EscapeHtml(Join(lines, "\n")), "</code></pre>");
    case Heading(text) =>
      InlineWellTagged(Trim(text));
      WrapWellTagged("<b>", RenderInline(Trim(text)), "</b>");
    case Quote(lines) =>
      QuotedWellTagged(lines);
      JoinAllWellTagged(RenderQuoted(lines), "\n");
      WrapWellTagged("<blockquote>", Join(RenderQuoted(lines), "\n"), "</blockquote>");
    case Bullets(items) =>
      BulletsWellTagged(items);
      JoinAllWellTagged(RenderBullets(items), "\n");
    case Numbered(items) =>
      NumberedWellTagged(items, 1);
      JoinAllWellTagged(RenderNumbered(items, 1), "\n");
    case Paragraph(lines) => InlineWellTagged(Join(lines, "\n"));
  }

  lemma {:induction false} AllBlocksWellTagged(blocks: seq<Block>)
    ensures AllWellTagged(RenderAll(blocks))
  {
    hide WellTagged, Render;
    if |blocks| > 0 {
      BlockWellTagged(blocks[0]);
      AllBlocksWellTagged(blocks[1..]);
    }
  }

  // For every message: each '<' begins one of the formatter's tags, and there
  // are as many '<' as '>'.
  lemma DocumentWellTagged(text: string)
    ensures TagSafe(TelegramHtml(text))
    ensures Count(TelegramHtml(text), '<') == Count(TelegramHtml(text), '>')
  {
    AllBlocksWellTagged(Blocks(NormalizedLines(text), 0));
    PlainWellTagged("\n\n");
    JoinAllWellTagged(RenderAll(Blocks(NormalizedLines(text), 0)), "\n\n");
  }

  // ---------- nothing is lost between the lines ----------

  datatype Kind = CodeLine | HeadingLine | QuoteLine | BulletLine | NumberedLine | PlainLine

  datatype Piece = Piece(kind: Kind, text: string)

  function Tagged(kind: Kind, contents: seq<string>): seq<Piece> {
    if |contents| == 0 then [] else [Piece(kind, contents[0])] + Tagged(kind, contents[1..])
  }

  function Pieces(b: Block): seq<Piece> {
    match b
    case Code(lines) => Tagged(CodeLine, lines)
    case Heading(text) => [Piece(HeadingLine, text)]
    case Quote(lines) => Tagged(QuoteLine, lines)
    case Bullets(items) => Tagged(BulletLine, items)
    case Numbered(items) => Tagged(NumberedLine, items)
    case Paragraph(lines) => Tagged(PlainLine, lines)
  }

  function AllPieces(blocks: seq<Block>): seq<Piece> {
    if |blocks| == 0 then [] else Pieces(blocks[0]) + AllPieces(blocks[1..])
  }

  // What one line outside a fence contributes, whatever stands around it
  function Classified(line: string): Piece {
    if HeadingText(line).Some? then Piece(HeadingLine, HeadingText(line).value)
    else if IsQuote(line) then Piece(QuoteLine, QuoteText(line))
    else if UnorderedItem(line).Some? then Piece(BulletLine, UnorderedItem(line).value)
    else if OrderedItem(line).Some? then Piece(NumberedLine, OrderedItem(line).value)
    else Piece(PlainLine, line)
  }

  // The text read line by line, remembering only which fence is open
  function Scan(lines: seq<string>, i: nat, fence: Option<string>): seq<Piece>
    requires i <= |lines|
    decreases |lines| - i
  {
    if i == |lines| then []
    else
      var line := Trim(lines[i]);
      if fence.Some? then
        if fence.value <= line then Scan(lines, i + 1, None)
        else [Piece(CodeLine, lines[i])] + Scan(lines, i + 1, fence)
      else if |line| == 0 then Scan(lines, i + 1, None)
      else if FenceDelimiter(line).Some? then Scan(lines, i + 1, FenceDelimiter(line))
      else [Classified(line)] + Scan(lines, i + 1, None)
  }

  // The line kinds exclude each other, so the order of the tests cannot matter.
  lemma KindsExclude(line: string)
    ensures IsQuote(line) ==> FenceDelimiter(line).None? && HeadingText(line).None?
    ensures UnorderedItem(line).Some? ==> FenceDelimiter(line).None? && HeadingText(line).None? && !IsQuote(line)
    ensures OrderedItem(line).Some?
            ==> FenceDelimiter(line).None? && HeadingText(line).None? && !IsQuote(line) && UnorderedItem(line).None?
    ensures HeadingText(line).Some? ==> FenceDelimiter(line).None?
  {
  }

  lemma {:induction false} FenceScan(lines: seq<string>, i: nat, fence: string)
    requires i <= |lines|
    ensures var b := FenceBody(lines, i, fence);
            Scan(lines, i, Some(fence)) == Tagged(CodeLine, b.contents) + Scan(lines, b.next, None)
    decreases |lines| - i
  {
    hide Trim;
    if i < |lines| && !(fence <= Trim(lines[i])) {
      FenceScan(lines, i + 1, fence);
      TaggedPrepend(CodeLine, lines[i], FenceBody(lines, i + 1, fence),
          Scan(lines, FenceBody(lines, i + 1, fence).next, None));
    }
  }

  lemma TaggedPrepend(kind: Kind, content: string, b: Body, rest: seq<Piece>)
    ensures Tagged(kind, Prepend(content, b).contents) + rest
            == [Piece(kind, content)] + (Tagged(kind, b.contents) + rest)
  {
    assert ([content] + b.contents)[1..] == b.contents;
  }

  lemma {:induction false} QuoteScan(lines: seq<string>, i: nat)
    requires i <= |lines|
    ensures var b := QuoteBody(lines, i);
            Scan(lines, i, None) == Tagged(QuoteLine, b.contents) + Scan(lines, b.next, None)
    decreases |lines| - i
  {
    hide Trim, FenceDelimiter, HeadingText;
    if i < |lines| && IsQuote(Trim(lines[i])) {
      KindsExclude(Trim(lines[i]));
      QuoteScan(lines, i + 1);
      TaggedPrepend(QuoteLine, QuoteText(Trim(lines[i])), QuoteBody(lines, i + 1),
          Scan(lines, QuoteBody(lines, i + 1).next, None));
    }
  }

  lemma {:induction false} ListScan(lines: seq<string>, i: nat, ordered: bool)
    requires i <= |lines|
    ensures var b := ListBody(lines, i, ordered);
            Scan(lines, i, None)
                == Tagged(if ordered then NumberedLine else BulletLine, b.contents) + Scan(lines, b.next, None)
    decreases |lines| - i
  {
    hide Trim, FenceDelimiter, HeadingText, IsQuote, UnorderedItem, OrderedItem;
    if i < |lines| && ItemOf(Trim(lines[i]), ordered).Some? {
      var kind := if ordered then NumberedLine else BulletLine;
      KindsExclude(Trim(lines[i]));
      BlankIsNoItem(Trim(lines[i]), ordered);
      ListScan(lines, i + 1, ordered);
      TaggedPrepend(kind, ItemOf(Trim(lines[i]), ordered).value, ListBody(lines, i + 1, ordered),
                    Scan(lines, ListBody(lines, i + 1, ordered).next, None));
    }
  }

  lemma BlankIsNoItem(line: string, ordered: bool)
    ensures ItemOf(line, ordered).Some? ==> |line| > 0
  {
  }

  lemma {:induction false} ParagraphScan(lines: seq<string>, i: nat)
    requires i <= |lines|
    ensures var b := ParagraphBody(lines, i);
            Scan(lines, i, None) == Tagged(PlainLine, b.contents) + Scan(lines, b.next, None)
    decreases |lines| - i
  {
    hide Trim, FenceDelimiter, HeadingText, IsQuote, UnorderedItem, OrderedItem;
    if i < |lines| && !EndsParagraph(Trim(lines[i])) {
      ParagraphScan(lines, i + 1);
      TaggedPrepend(PlainLine, Trim(lines[i]), ParagraphBody(lines, i + 1),
          Scan(lines, ParagraphBody(lines, i + 1).next, None));
    }
  }

  lemma BlockScan(lines: seq<string>, i: nat)
    requires i < |lines| && |Trim(lines[i])| > 0
    ensures var p := NextBlock(lines, i);
            Scan(lines, i, None) == Pieces(p.block) + Scan(lines, p.next, None)
  {
    hide Trim, FenceDelimiter, HeadingText, IsQuote, QuoteText, UnorderedItem, OrderedItem, Scan, Tagged, FenceBody,
        ListBody, ParagraphBody, QuoteBody;
    var trimmed := Trim(lines[i]);
    KindsExclude(trimmed);
    ScanStep(lines, i);
    if FenceDelimiter(trimmed).Some? {
      FenceScan(lines, i + 1, FenceDelimiter(trimmed).value);
    } else if HeadingText(trimmed).Some? {
    } else if IsQuote(trimmed) {
      QuoteScan(lines, i);
    } else if UnorderedItem(trimmed).Some? {
      ListScan(lines, i + 1, false);
      TaggedPrepend(BulletLine, UnorderedItem(trimmed).value, ListBody(lines, i + 1, false),
          Scan(lines, ListBody(lines, i + 1, false).next, None));
    } else if OrderedItem(trimmed).Some? {
      ListScan(lines, i + 1, true);
      TaggedPrepend(NumberedLine, OrderedItem(trimmed).value, ListBody(lines, i + 1, true),
          Scan(lines, ListBody(lines, i + 1, true).next, None));
    } else {
      ParagraphScan(lines, i + 1);
      TaggedPrepend(PlainLine, trimmed, ParagraphBody(lines, i + 1),
          Scan(lines, ParagraphBody(lines, i + 1).next, None));
    }
  }

  lemma ScanStep(lines: seq<string>, i: nat)
    requires i < |lines| && |Trim(lines[i])| > 0
    ensures var line := Trim(lines[i]);
            Scan(lines, i, None) == if FenceDelimiter(line).Some? then Scan(lines, i + 1, FenceDelimiter(line))
                                    else [Classified(line)] + Scan(lines, i + 1, None)
  {
  }

  // The nested loops find exactly what a line-by-line reader finds: every line
  // outside a fence is rendered once by its own kind, every line inside a fence
  // is kept verbatim, all in the order of the text; only blank lines and fence
  // delimiters are dropped.
  lemma {:induction false} BlocksKeepEveryLine(lines: seq<string>, i: nat)
    requires i <= |lines|
    ensures AllPieces(Blocks(lines, i)) == Scan(lines, i, None)
    decreases |lines| - i
  {
    hide Trim, NextBlock, Pieces;
    if i < |lines| {
      if |Trim(lines[i])| == 0 {
        BlocksKeepEveryLine(lines, i + 1);
      } else {
        var p := NextBlock(lines, i);
        BlockScan(lines, i);
        BlocksKeepEveryLine(lines, p.next);
        var blocks := Blocks(lines, p.next);
        assert ([p.block] + blocks)[1..] == blocks;
      }
    }
  }

  // ---------- the loops themselves ----------

  method ReadFence(lines: seq<string>, start: nat, fence: string) returns (code: seq<string>, i: nat)
    requires start <= |lines|
    ensures Body(code, i) == FenceBody(lines, start, fence)
  {
    hide Trim;
    i, code := start, [];
    while i < |lines|
      invariant start <= i <= |lines|
      invariant FenceBody(lines, start, fence)
                == Body(code + FenceBody(lines, i, fence).contents, FenceBody(lines, i, fence).next)
    {
      var candidate := Trim(lines[i]);
      if fence <= candidate {
        i := i + 1;
        assert code + [] == code;
        return;
      }
      assert code + ([lines[i]] + FenceBody(lines, i + 1, fence).contents)
          == (code + [lines[i]]) + FenceBody(lines, i + 1, fence).contents;
      code := code + [lines[i]];
      i := i + 1;
    }
    assert code + [] == code;
  }

  method ReadQuote(lines: seq<string>, start: nat) returns (quoted: seq<string>, i: nat)
    requires start <= |lines|
    ensures quoted == RenderQuoted(QuoteBody(lines, start).contents) && i == QuoteBody(lines, start).next
  {
    hide Trim, RenderInline;
    i, quoted := start, [];
    while i < |lines|
      invariant start <= i <= |lines|
      invariant QuoteBody(lines, start).next == QuoteBody(lines, i).next
      invariant RenderQuoted(QuoteBody(lines, start).contents) == quoted + RenderQuoted(QuoteBody(lines, i).contents)
    {
      var current := Trim(lines[i]);
      if |current| == 0 || !IsQuote(current) {
        break;
      }
      var html := RenderInlineMarkdown(QuoteText(current));
      ghost var rest := QuoteBody(lines, i + 1).contents;
      assert ([QuoteText(current)] + rest)[1..] == rest;
      assert quoted + ([html] + RenderQuoted(rest)) == (quoted + [html]) + RenderQuoted(rest);
      quoted := quoted + [html];
      i := i + 1;
    }
    assert quoted + [] == quoted;
  }

  method ReadBullets(lines: seq<string>, start: nat, first: string) returns (items: seq<string>, i: nat)
    requires start <= |lines|
    ensures items == RenderBullets([first] + ListBody(lines, start, false).contents)
            && i == ListBody(lines, start, false).next
  {
    hide Trim, RenderInline, UnorderedItem;
    var html := RenderInlineMarkdown(Trim(first));
    i, items := start, ["\U{2022} " + html];
    assert ([first] + ListBody(lines, start, false).contents)[1..] == ListBody(lines, start, false).contents;
    while i < |lines|
      invariant start <= i <= |lines|
      invariant ListBody(lines, start, false).next == ListBody(lines, i, false).next
      invariant RenderBullets([first] + ListBody(lines, start, false).contents)
                == items + RenderBullets(ListBody(lines, i, false).contents)
    {
      var current := Trim(lines[i]);
      if UnorderedItem(current).Some? {
        var item := UnorderedItem(current).value;
        html := RenderInlineMarkdown(Trim(item));
        ghost var rest := ListBody(lines, i + 1, false).contents;
        assert ([item] + rest)[1..] == rest;
        assert items + (["\U{2022} " + html] + RenderBullets(rest))
            == (items + ["\U{2022} " + html]) + RenderBullets(rest);
        items := items + ["\U{2022} " + html];
        i := i + 1;
      } else {
        if |current| == 0 {
          i := i + 1;
        }
        assert items + [] == items;
        return;
      }
    }
    assert items + [] == items;
  }

  method ReadNumbered(lines: seq<string>, start: nat, first: string) returns (items: seq<string>, i: nat)
    requires start <= |lines|
    ensures items == RenderNumbered([first] + ListBody(lines, start, true).contents, 1)
            && i == ListBody(lines, start, true).next
  {
    hide Trim, RenderInline, OrderedItem, Decimal;
    var html := RenderInlineMarkdown(Trim(first));
    DecimalOne();
    assert "1" + ". " + html == "1. " + html;
    i, items := start, ["1. " + html];
    var counter := 2;
    assert ([first] + ListBody(lines, start, true).contents)[1..] == ListBody(lines, start, true).contents;
    while i < |lines|
      invariant start <= i <= |lines|
      invariant ListBody(lines, start, true).next == ListBody(lines, i, true).next
      invariant RenderNumbered([first] + ListBody(lines, start, true).contents, 1)
             == items + RenderNumbered(ListBody(lines, i, true).contents, counter)
    {
      var current := Trim(lines[i]);
      if OrderedItem(current).Some? {
        var item := OrderedItem(current).value;
        html := RenderInlineMarkdown(Trim(item));
        var entry := Decimal(counter) + ". " + html;
        ghost var rest := ListBody(lines, i + 1, true).contents;
        assert ([item] + rest)[1..] == rest;
        assert items + ([entry] + RenderNumbered(rest, counter + 1))
            == (items + [entry]) + RenderNumbered(rest, counter + 1);
        items := items + [entry];
        counter := counter + 1;
        i := i + 1;
      } else {
        if |current| == 0 {
          i := i + 1;
        }
        assert items + [] == items;
        return;
      }
    }
    assert items + [] == items;
  }

  lemma DecimalOne()
    ensures Decimal(1) == "1"
  {
  }

  method ReadParagraph(lines: seq<string>, start: nat, first: string) returns (paragraph: seq<string>, i: nat)
    requires start <= |lines|
    ensures paragraph == [first] + ParagraphBody(lines, start).contents && i == ParagraphBody(lines, start).next
  {
    hide Trim, EndsParagraph;
    i, paragraph := start, [first];
    while i < |lines|
      invariant start <= i <= |lines|
      invariant ParagraphBody(lines, start).next == ParagraphBody(lines, i).next
      invariant [first] + ParagraphBody(lines, start).contents == paragraph + ParagraphBody(lines, i).contents
    {
      var current := Trim(lines[i]);
      if EndsParagraph(current) {
        break;
      }
      ghost var rest := ParagraphBody(lines, i + 1).contents;
      assert paragraph + ([current] + rest) == (paragraph + [current]) + rest;
      paragraph := paragraph + [current];
      i := i + 1;
    }
    assert paragraph + [] == paragraph;
  }

  method ReadBlock(lines: seq<string>, start: nat) returns (html: string, i: nat)
    requires start < |lines| && |Trim(lines[start])| > 0
    ensures html == Render(NextBlock(lines, start).block) && i == NextBlock(lines, start).next
  {
    hide Trim, RenderInline, EscapeHtml, FenceDelimiter, HeadingText, UnorderedItem, OrderedItem, FenceBody,
        QuoteBody, ListBody, ParagraphBody, Join;
    var trimmed := Trim(lines[start]);
    var parts;
    if FenceDelimiter(trimmed).Some? {
      parts, i := ReadFence(lines, start + 1, FenceDelimiter(trimmed).value);
      html := "<pre><code>" + EscapeHtml(Join(parts, "\n")) + "</code></pre>";
    } else if HeadingText(trimmed).Some? {
      html := RenderInlineMarkdown(Trim(HeadingText(trimmed).value));
      html, i := "<b>" + html + "</b>", start + 1;
    } else if IsQuote(trimmed) {
      parts, i := ReadQuote(lines, start);
      html := "<blockquote>" + Join(parts, "\n") + "</blockquote>";
    } else if UnorderedItem(trimmed).Some? {
      parts, i := ReadBullets(lines, start + 1, UnorderedItem(trimmed).value);
      html := Join(parts, "\n");
    } else if OrderedItem(trimmed).Some? {
      parts, i := ReadNumbered(lines, start + 1, OrderedItem(trimmed).value);
      html := Join(parts, "\n");
    } else {
      parts, i := ReadParagraph(lines, start + 1, trimmed);
      html := RenderInlineMarkdown(Join(parts, "\n"));
    }
  }

  method MarkdownToTelegramHtml(text: string) returns (html: string)
    ensures html == TelegramHtml(text)
  {
    hide Trim, Render, NextBlock;
    var lines := NormalizedLines(text);
    var blocks, i := [], 0;
    while i < |lines|
      invariant 0 <= i <= |lines|
      invariant RenderAll(Blocks(lines, 0)) == blocks + RenderAll(Blocks(lines, i))
    {
      if |Trim(lines[i])| == 0 {
        i := i + 1;
      } else {
        ghost var p := NextBlock(lines, i);
        ghost var later := Blocks(lines, p.next);
        assert ([p.block] + later)[1..] == later;
        var block;
        block, i := ReadBlock(lines, i);
        assert blocks + ([block] + RenderAll(later)) == (blocks + [block]) + RenderAll(later);
        blocks := blocks + [block];
      }
    }
    assert blocks + [] == blocks;
    html := Join(blocks, "\n\n");
  }
}
