/** The layout of a Telegram document: which lines make a heading, an item, a
    quote or a fence, how far a block reaches, and what stands around its text. */
module FormatterLayout {
  import opened Wrappers
  import opened Text
  import opened FormatterInline
  import opened FormatterBlocks

  // ---------- what a trimmed line is ----------

  ghost predicate AllAre(s: string, c: char) {
    forall i :: 0 <= i < |s| ==> s[i] == c
  }

  ghost predicate AllDigits(s: string) {
    forall i :: 0 <= i < |s| ==> '0' <= s[i] <= '9'
  }

  lemma {:induction false} LeadingHashesMeans(line: string)
    ensures var n := LeadingHashes(line); AllAre(line[..n], '#') && (n < |line| ==> line[n] != '#')
  {
    if |line| > 0 && line[0] == '#' {
      LeadingHashesMeans(line[1..]);
      var n := LeadingHashes(line[1..]);
      assert forall i :: 1 <= i <= n ==> line[i] == line[1..][..n][i - 1];
    }
  }

  lemma {:induction false} LeadingDigitsMeans(line: string)
    ensures var n := LeadingDigits(line); AllDigits(line[..n]) && (n < |line| ==> !('0' <= line[n] <= '9'))
  {
    if |line| > 0 && '0' <= line[0] <= '9' {
      LeadingDigitsMeans(line[1..]);
      var n := LeadingDigits(line[1..]);
      assert forall i :: 1 <= i <= n ==> line[i] == line[1..][..n][i - 1];
    }
  }

  ghost predicate HeadingOf(line: string, marks: string, text: string) {
    AllAre(marks, '#') && 1 <= |marks| <= 6 && line == marks + " " + text
  }

  // A heading is one to six hashes, a space and its text.
  lemma HeadingIff(line: string, text: string)
    ensures HeadingText(line) == Some(text) <==> exists marks :: HeadingOf(line, marks, text)
  {
    LeadingHashesMeans(line);
    var n := LeadingHashes(line);
    if HeadingText(line) == Some(text) {
      assert line == line[..n] + " " + text;
      assert HeadingOf(line, line[..n], text);
    }
    forall marks | HeadingOf(line, marks, text)
      ensures HeadingText(line) == Some(text)
    {
      var k := |marks|;
      assert line[..k] == marks && line[k] == ' ' && line[k + 1..] == text;
      assert forall i :: 0 <= i < n ==> line[i] == line[..n][i];
      assert forall i :: 0 <= i < k ==> line[i] == marks[i];
    }
  }

  // A bullet is one of three marks and a space.
  lemma BulletIff(line: string, text: string)
    ensures UnorderedItem(line) == Some(text) <==> line == "- " + text || line == "* " + text || line == "+ " + text
  {
    if UnorderedItem(line) == Some(text) {
      assert line == line[..2] + text;
    }
  }

  ghost predicate NumberedOf(line: string, digits: string, text: string) {
    AllDigits(digits) && |digits| > 0 && (line == digits + ". " + text || line == digits + ") " + text)
  }

  lemma NumberedHasDigits(line: string, text: string)
    requires OrderedItem(line) == Some(text)
    ensures NumberedOf(line, line[..LeadingDigits(line)], text)
  {
    hide LeadingDigits, AllDigits;
    LeadingDigitsMeans(line);
    SplitAtMark(line, LeadingDigits(line), if ". " <= line[LeadingDigits(line)..] then ". " else ") ");
  }

  lemma SplitAtMark(line: string, n: nat, mark: string)
    requires n <= |line| && |mark| == 2 && mark <= line[n..]
    ensures n + 2 <= |line| && line == line[..n] + mark + line[n + 2..]
  {
    assert line[n..] == mark + line[n..][2..];
    assert line[n..][2..] == line[n + 2..];
  }

  lemma DigitsAreLeading(line: string, digits: string, mark: string, text: string)
    requires AllDigits(digits) && |digits| > 0 && |mark| > 0 && !('0' <= mark[0] <= '9')
    requires line == digits + (mark + text)
    ensures LeadingDigits(line) == |digits| && line[|digits|..] == mark + text
  {
    hide LeadingDigits;
    LeadingDigitsMeans(line);
    var n, k := LeadingDigits(line), |digits|;
    assert line[k] == mark[0];
    assert forall i :: 0 <= i < n ==> line[i] == line[..n][i];
    assert forall i :: 0 <= i < k ==> line[i] == digits[i];
  }

  lemma DigitsMakeNumbered(line: string, digits: string, text: string)
    requires NumberedOf(line, digits, text)
    ensures OrderedItem(line) == Some(text)
  {
    hide LeadingDigits;
    var mark := if line == digits + ". " + text then ". " else ") ";
    assert line == digits + (mark + text);
    DigitsAreLeading(line, digits, mark, text);
    assert line[|digits| + 2..] == text;
  }

  // A numbered item is some digits, a dot or a parenthesis, and a space.
  lemma NumberedIff(line: string, text: string)
    ensures OrderedItem(line) == Some(text) <==> exists digits :: NumberedOf(line, digits, text)
  {
    hide OrderedItem, NumberedOf;
    if OrderedItem(line) == Some(text) {
      NumberedHasDigits(line, text);
    }
    forall digits | NumberedOf(line, digits, text)
      ensures OrderedItem(line) == Some(text)
    {
      DigitsMakeNumbered(line, digits, text);
    }
  }

  // A quote is '>' and a text behind white space that is not part of it.
  lemma QuoteIff(line: string)
    ensures IsQuote(line) <==> exists rest :: line == ">" + rest
    ensures IsQuote(line) ==>
              exists n: nat ::
                && n <= |line| - 1
                && (forall i :: 0 <= i < n ==> IsSpace(line[1..][i]))
                && QuoteText(line) == line[1..][n..]
                && (n < |line| - 1 ==> !IsSpace(line[1..][n]))
  {
    hide IsSpace, TrimStart;
    if IsQuote(line) {
      assert line == ">" + line[1..];
      var n := TrimStartMeans(line[1..]);
    }
  }

  // A fence is three backticks or three tildes, whatever follows.
  lemma FenceIff(line: string)
    ensures FenceDelimiter(line) == Some("```") <==> exists rest :: line == "```" + rest
    ensures FenceDelimiter(line) == Some("~~~") <==> exists rest :: line == "~~~" + rest
    ensures FenceDelimiter(line) in {None, Some("```"), Some("~~~")}
  {
    if "```" <= line {
      assert line == "```" + line[3..];
    }
    if "~~~" <= line {
      assert line == "~~~" + line[3..];
    }
    assert "```"[0] != "~~~"[0];
  }

  // ---------- how far a block reaches ----------

  // The code of a fence: the lines behind it as they are, up to the first whose
  // trimmed text begins with the same fence, which is dropped, or to the end.
  lemma {:induction false} FenceReaches(lines: seq<string>, i: nat, fence: string)
    requires i <= |lines|
    ensures var b := FenceBody(lines, i, fence);
            var end := i + |b.contents|;
            && end <= |lines| && b.contents == lines[i..end]
            && (forall k :: i <= k < end ==> !(fence <= Trim(lines[k])))
            && (if end < |lines| then fence <= Trim(lines[end]) && b.next == end + 1 else b.next == end)
    decreases |lines| - i
  {
    hide Trim;
    if i < |lines| && !(fence <= Trim(lines[i])) {
      FenceReaches(lines, i + 1, fence);
      var rest := FenceBody(lines, i + 1, fence).contents;
      assert lines[i..i + 1 + |rest|] == [lines[i]] + lines[i + 1..i + 1 + |rest|];
    }
  }

  // A quote goes on as long as the lines begin with '>'.
  lemma {:induction false} QuoteReaches(lines: seq<string>, i: nat)
    requires i <= |lines|
    ensures var b := QuoteBody(lines, i);
            && b.next == i + |b.contents|
            && (forall k :: i <= k < b.next ==>
                  IsQuote(Trim(lines[k])) && b.contents[k - i] == QuoteText(Trim(lines[k])))
            && (b.next < |lines| ==> !IsQuote(Trim(lines[b.next])))
    decreases |lines| - i
  {
    hide Trim, QuoteText;
    if i < |lines| && IsQuote(Trim(lines[i])) {
      QuoteReaches(lines, i + 1);
    }
  }

  // A list goes on as long as the lines are items of its kind; one blank line
  // behind it is skipped with it.
  lemma {:induction false} ListReaches(lines: seq<string>, i: nat, ordered: bool)
    requires i <= |lines|
    ensures var b := ListBody(lines, i, ordered);
            var end := i + |b.contents|;
            && end <= |lines|
            && (forall k :: i <= k < end ==> ItemOf(Trim(lines[k]), ordered) == Some(b.contents[k - i]))
            && (end < |lines| ==> ItemOf(Trim(lines[end]), ordered).None?)
            && (b.next == if end < |lines| && Trim(lines[end]) == "" then end + 1 else end)
    decreases |lines| - i
  {
    hide Trim, ItemOf;
    if i < |lines| && ItemOf(Trim(lines[i]), ordered).Some? {
      ListReaches(lines, i + 1, ordered);
    }
  }

  // A paragraph goes on up to a blank line or a line of another kind.
  lemma {:induction false} ParagraphReaches(lines: seq<string>, i: nat)
    requires i <= |lines|
    ensures var b := ParagraphBody(lines, i);
            && b.next == i + |b.contents|
            && (forall k :: i <= k < b.next ==> !EndsParagraph(Trim(lines[k])) && b.contents[k - i] == Trim(lines[k]))
            && (b.next < |lines| ==> EndsParagraph(Trim(lines[b.next])))
    decreases |lines| - i
  {
    hide Trim, EndsParagraph;
    if i < |lines| && !EndsParagraph(Trim(lines[i])) {
      ParagraphReaches(lines, i + 1);
    }
  }

  // The items of a list from line i on, and where it ends
  ghost predicate IsList(lines: seq<string>, i: nat, items: seq<string>, ordered: bool, next: nat) {
    var end := i + |items|;
    && |items| > 0 && end <= |lines|
    && (forall k :: i <= k < end ==> ItemOf(Trim(lines[k]), ordered) == Some(items[k - i]))
    && (end < |lines| ==> ItemOf(Trim(lines[end]), ordered).None?)
    && next == if end < |lines| && Trim(lines[end]) == "" then end + 1 else end
  }

  // The block that begins at line i holds the lines it should and reaches as far
  // as it should, whatever its kind.
  ghost predicate Reaches(lines: seq<string>, i: nat, b: Block, next: nat)
    requires i < |lines|
  {
    match b
    case Code(code) =>
      var end := i + 1 + |code|;
      && FenceDelimiter(Trim(lines[i])).Some? && end <= |lines| && code == lines[i + 1..end]
      && (forall k :: i < k < end ==> !(FenceDelimiter(Trim(lines[i])).value <= Trim(lines[k])))
      && (if end < |lines| then FenceDelimiter(Trim(lines[i])).value <= Trim(lines[end]) && next == end + 1
          else next == end)
    case Heading(text) => HeadingText(Trim(lines[i])) == Some(text) && next == i + 1
    case Quote(quoted) =>
      && |quoted| > 0 && next == i + |quoted| <= |lines|
      && (forall k :: i <= k < next ==> IsQuote(Trim(lines[k])) && quoted[k - i] == QuoteText(Trim(lines[k])))
      && (next < |lines| ==> !IsQuote(Trim(lines[next])))
    case Bullets(items) => IsList(lines, i, items, false, next)
    case Numbered(items) => IsList(lines, i, items, true, next)
    case Paragraph(texts) =>
      && |texts| > 0 && next == i + |texts| <= |lines|
      && (forall k :: i <= k < next ==> !EndsParagraph(Trim(lines[k])) && texts[k - i] == Trim(lines[k]))
      && (next < |lines| ==> EndsParagraph(Trim(lines[next])))
  }

  lemma ListIsList(lines: seq<string>, i: nat, first: string, ordered: bool)
    requires i < |lines| && ItemOf(Trim(lines[i]), ordered) == Some(first)
    ensures var b := ListBody(lines, i + 1, ordered);
            IsList(lines, i, [first] + b.contents, ordered, b.next)
  {
    hide Trim, ItemOf, ListBody;
    ListReaches(lines, i + 1, ordered);
  }

  lemma BlockReaches(lines: seq<string>, i: nat)
    requires i < |lines| && Trim(lines[i]) != ""
    ensures Reaches(lines, i, NextBlock(lines, i).block, NextBlock(lines, i).next)
  {
    hide Trim, FenceBody, QuoteBody, ListBody, ParagraphBody, FenceDelimiter, HeadingText, UnorderedItem, OrderedItem,
        IsList, QuoteText;
    var line := Trim(lines[i]);
    match NextBlock(lines, i).block
    case Code(_) => FenceReaches(lines, i + 1, FenceDelimiter(line).value);
    case Heading(_) =>
    case Quote(_) => QuoteReaches(lines, i);
    case Bullets(_) => ListIsList(lines, i, UnorderedItem(line).value, false);
    case Numbered(_) => ListIsList(lines, i, OrderedItem(line).value, true);
    case Paragraph(_) => ParagraphReaches(lines, i + 1);
  }

  ghost predicate AllBlank(lines: seq<string>, lo: nat, hi: nat)
    requires hi <= |lines|
  {
    forall k :: lo <= k < hi ==> Trim(lines[k]) == ""
  }

  // Block k begins at line at[k] and the next one at the first line behind it
  // that is not blank; nothing but blank lines lies between blocks.
  ghost predicate LaidOut(lines: seq<string>, i: nat, blocks: seq<Block>, at: seq<nat>)
    requires i <= |lines|
  {
    && |at| == |blocks|
    && (forall k :: 0 <= k < |at| ==>
          at[k] < |lines| && Trim(lines[at[k]]) != "" && NextBlock(lines, at[k]).block == blocks[k]
          && Reaches(lines, at[k], blocks[k], NextBlock(lines, at[k]).next))
    && AllBlank(lines, i, StartOf(lines, at, 0))
    && (forall k :: 0 <= k < |at| ==> AllBlank(lines, NextBlock(lines, at[k]).next, StartOf(lines, at, k + 1)))
  }

  // Where block k begins; behind the last one, the end of the text
  function StartOf(lines: seq<string>, at: seq<nat>, k: nat): nat {
    if k < |at| && at[k] <= |lines| then at[k] else |lines|
  }

  lemma LaidOutFirst(lines: seq<string>, i: nat, blocks: seq<Block>, at: seq<nat>)
    requires i < |lines| && Trim(lines[i]) != "" && LaidOut(lines, NextBlock(lines, i).next, blocks, at)
    ensures LaidOut(lines, i, [NextBlock(lines, i).block] + blocks, [i] + at)
  {
    hide Trim, NextBlock, AllBlank, Reaches;
    BlockReaches(lines, i);
    var all, every := [i] + at, [NextBlock(lines, i).block] + blocks;
    forall k | 0 <= k < |all|
      ensures all[k] < |lines| && Trim(lines[all[k]]) != "" && NextBlock(lines, all[k]).block == every[k]
      ensures Reaches(lines, all[k], every[k], NextBlock(lines, all[k]).next)
      ensures AllBlank(lines, NextBlock(lines, all[k]).next, StartOf(lines, all, k + 1))
    {
      assert StartOf(lines, all, k + 1) == StartOf(lines, at, k);
      if k > 0 {
        assert all[k] == at[k - 1] && every[k] == blocks[k - 1];
      }
    }
    NoneBetween(lines, i);
  }

  lemma NoneBetween(lines: seq<string>, i: nat)
    requires i <= |lines|
    ensures AllBlank(lines, i, i)
  {
  }

  lemma LaidOutBlank(lines: seq<string>, i: nat, blocks: seq<Block>, at: seq<nat>)
    requires i < |lines| && Trim(lines[i]) == "" && LaidOut(lines, i + 1, blocks, at)
    ensures LaidOut(lines, i, blocks, at)
  {
    hide Trim, NextBlock, Reaches;
  }

  lemma {:induction false} BlocksAreLaidOut(lines: seq<string>, i: nat) returns (at: seq<nat>)
    requires i <= |lines|
    ensures LaidOut(lines, i, Blocks(lines, i), at)
    decreases |lines| - i
  {
    hide Trim, NextBlock, Reaches;
    if i == |lines| {
      at := [];
    } else {
      hide LaidOut;
      if |Trim(lines[i])| == 0 {
        at := BlocksAreLaidOut(lines, i + 1);
        LaidOutBlank(lines, i, Blocks(lines, i + 1), at);
      } else {
        var p := NextBlock(lines, i);
        var rest := BlocksAreLaidOut(lines, p.next);
        at := [i] + rest;
        LaidOutFirst(lines, i, Blocks(lines, p.next), rest);
      }
    }
  }

  // ---------- what stands around the text of a block ----------

  // Reading the digits of a number
  function NumberOf(digits: string): nat
    requires forall i :: 0 <= i < |digits| ==> '0' <= digits[i] <= '9'
  {
    if |digits| == 0 then 0 else NumberOf(digits[..|digits| - 1]) * 10 + (digits[|digits| - 1] - '0') as nat
  }

  // A number is written in decimal digits, without a leading zero.
  lemma {:induction false} DecimalReads(n: nat)
    ensures AllDigits(Decimal(n)) && |Decimal(n)| > 0
    ensures NumberOf(Decimal(n)) == n
    ensures n > 0 ==> Decimal(n)[0] != '0'
  {
    if n < 10 {
      assert Decimal(n)[..0] == "";
    } else {
      DecimalReads(n / 10);
      assert Decimal(n)[..|Decimal(n)| - 1] == Decimal(n / 10);
    }
  }

  lemma {:induction false} BulletsAt(items: seq<string>)
    ensures var parts := RenderBullets(items);
            && |parts| == |items|
            && forall k :: 0 <= k < |items| ==> parts[k] == "\U{2022} " + RenderInline(Trim(items[k]))
  {
    hide RenderInline, Trim;
    if |items| > 0 {
      BulletsAt(items[1..]);
    }
  }

  lemma {:induction false} NumbersAt(items: seq<string>, number: nat)
    ensures var parts := RenderNumbered(items, number);
            && |parts| == |items|
            && forall k :: 0 <= k < |items| ==> parts[k] == Decimal(number + k) + ". " + RenderInline(Trim(items[k]))
    decreases |items|
  {
    hide RenderInline, Trim, Decimal;
    if |items| > 0 {
      NumbersAt(items[1..], number + 1);
    }
  }

  lemma {:induction false} QuotedAt(lines: seq<string>)
    ensures var parts := RenderQuoted(lines);
            && |parts| == |lines|
            && forall k :: 0 <= k < |lines| ==> parts[k] == RenderInline(lines[k])
  {
    hide RenderInline;
    if |lines| > 0 {
      QuotedAt(lines[1..]);
    }
  }

  // The parts one after the other, with the separator between any two
  function Chain(parts: seq<string>, separator: string): string {
    if |parts| == 0 then ""
    else
      var front := Chain(parts[..|parts| - 1], separator);
      if |parts| == 1 then parts[0] else front + separator + parts[|parts| - 1]
  }

  lemma {:induction false} ChainCons(first: string, parts: seq<string>, separator: string)
    requires |parts| > 0
    ensures Chain([first] + parts, separator) == first + separator + Chain(parts, separator)
  {
    var all, n := [first] + parts, |parts| - 1;
    assert all[..|all| - 1] == [first] + parts[..n];
    if n > 0 {
      ChainCons(first, parts[..n], separator);
    } else {
      assert all[..1] == [first];
    }
  }

  lemma {:induction false} JoinIsChain(parts: seq<string>, separator: string)
    ensures Join(parts, separator) == Chain(parts, separator)
  {
    if |parts| > 1 {
      JoinIsChain(parts[1..], separator);
      ChainCons(parts[0], parts[1..], separator);
      assert [parts[0]] + parts[1..] == parts;
    }
  }

  // The HTML of each kind of block: code escaped between its tags with its line
  // breaks, a heading in bold, a quote line by line, bullets, numbers from 1 on,
  // and a paragraph as one line of markup.
  lemma BlockLayout(b: Block) returns (parts: seq<string>)
    ensures match b
            case Code(lines) =>
              && |parts| == 1 && Render(b) == "<pre><code>" + parts[0] + "</code></pre>"
              && '<' !in parts[0] && '>' !in parts[0] && Unescape(parts[0]) == Chain(lines, "\n")
            case Heading(text) => Render(b) == "<b>" + RenderInline(Trim(text)) + "</b>"
            case Quote(lines) =>
              && |parts| == |lines| && (forall k :: 0 <= k < |lines| ==> parts[k] == RenderInline(lines[k]))
              && Render(b) == "<blockquote>" + Chain(parts, "\n") + "</blockquote>"
            case Bullets(items) =>
              && |parts| == |items|
              && (forall k :: 0 <= k < |items| ==> parts[k] == "\U{2022} " + RenderInline(Trim(items[k])))
              && Render(b) == Chain(parts, "\n")
            case Numbered(items) =>
              && |parts| == |items|
              && (forall k :: 0 <= k < |items| ==> parts[k] == Decimal(k + 1) + ". " + RenderInline(Trim(items[k])))
              && Render(b) == Chain(parts, "\n")
            case Paragraph(lines) => Render(b) == RenderInline(Chain(lines, "\n"))
  {
    hide RenderInline, Trim, Decimal, EscapeHtml, Unescape, RenderQuoted, RenderBullets, RenderNumbered, Join, Chain;
    match b
    case Code(lines) =>
      parts := [EscapeHtml(Join(lines, "\n"))];
      EscapeRoundTrip(Join(lines, "\n"));
      EscapedHasNoAngles(Join(lines, "\n"));
      EscapeIsCharwise(Join(lines, "\n"));
      JoinIsChain(lines, "\n");
    case Heading(_) => parts := [];
    case Quote(lines) =>
      parts := RenderQuoted(lines);
      QuotedAt(lines);
      JoinIsChain(parts, "\n");
    case Bullets(items) =>
      parts := RenderBullets(items);
      BulletsAt(items);
      JoinIsChain(parts, "\n");
    case Numbered(items) =>
      parts := RenderNumbered(items, 1);
      NumbersAt(items, 1);
      JoinIsChain(parts, "\n");
    case Paragraph(lines) =>
      parts := [];
      JoinIsChain(lines, "\n");
  }

  lemma {:induction false} RenderAllAt(blocks: seq<Block>)
    ensures var parts := RenderAll(blocks);
            |parts| == |blocks| && forall k :: 0 <= k < |blocks| ==> parts[k] == Render(blocks[k])
  {
    hide Render;
    if |blocks| > 0 {
      RenderAllAt(blocks[1..]);
    }
  }

  // The document is the HTML of its blocks, a blank line between any two.
  lemma DocumentLayout(text: string) returns (blocks: seq<Block>, at: seq<nat>, parts: seq<string>)
    ensures LaidOut(NormalizedLines(text), 0, blocks, at)
    ensures |parts| == |blocks| && forall k :: 0 <= k < |blocks| ==> parts[k] == Render(blocks[k])
    ensures TelegramHtml(text) == Chain(parts, "\n\n")
  {
    hide Render, NormalizedLines, Blocks, RenderAll, LaidOut, Chain, Join;
    blocks := Blocks(NormalizedLines(text), 0);
    at := BlocksAreLaidOut(NormalizedLines(text), 0);
    parts := RenderAll(blocks);
    RenderAllAt(blocks);
    JoinIsChain(parts, "\n\n");
  }

  // ---------- the lines of a message ----------

  // Every line break as one newline: CR LF, a lone CR, or a newline
  function Unified(s: string): string {
    if |s| == 0 then ""
    else if "\r\n" <= s then "\n" + Unified(s[2..])
    else if s[0] == '\r' then "\n" + Unified(s[1..])
    else [s[0]] + Unified(s[1..])
  }

  lemma {:induction false} BreaksAreUnified(s: string)
    ensures Replace(CrLfToLf(s), '\r', "\n") == Unified(s)
  {
    if |s| > 0 {
      if "\r\n" <= s {
        BreaksAreUnified(s[2..]);
        assert ("\n" + CrLfToLf(s[2..]))[1..] == CrLfToLf(s[2..]);
      } else {
        BreaksAreUnified(s[1..]);
        assert ([s[0]] + CrLfToLf(s[1..]))[1..] == CrLfToLf(s[1..]);
      }
    }
  }

  lemma {:induction false} LinesHaveNoBreaks(s: string)
    ensures forall k :: 0 <= k < |Lines(s)| ==> '\n' !in Lines(s)[k]
    decreases |s|
  {
    hide LineEnd;
    var n := LineEnd(s);
    if n < |s| {
      LinesHaveNoBreaks(s[n + 1..]);
    } else {
      assert s[..n] == s;
    }
  }

  // The newline at the end of a text gives no line.
  function FinalBreak(s: string): string {
    if s != "" && s[|s| - 1] == '\n' then "\n" else ""
  }

  // The lines joined by newlines give the text back, but for a newline at its end.
  lemma {:induction false} LinesGiveBack(s: string)
    ensures s == Join(Lines(s), "\n") + FinalBreak(s)
    decreases |s|
  {
    var n := LineEnd(s);
    if n < |s| {
      hide Join, LineEnd, FinalBreak, Lines;
      var head, tail := s[..n], s[n + 1..];
      LinesGiveBack(tail);
      LinesCons(s);
      JoinCons(head, Lines(tail));
      CutAtBreak(s, n);
      FinalBreakBehind(head, tail);
      LinesEmpty(tail);
      if tail != "" {
        Regroup(head + "\n", Join(Lines(tail), "\n"), FinalBreak(tail));
      }
    } else {
      assert s[..n] == s;
    }
  }

  lemma CutAtBreak(s: string, n: nat)
    requires n < |s| && s[n] == '\n'
    ensures s == s[..n] + "\n" + s[n + 1..]
  {
  }

  lemma Regroup(a: string, b: string, c: string)
    ensures a + (b + c) == (a + b) + c
  {
  }

  lemma LinesCons(s: string)
    requires LineEnd(s) < |s|
    ensures Lines(s) == [s[..LineEnd(s)]] + Lines(s[LineEnd(s) + 1..])
  {
  }

  lemma LinesEmpty(s: string)
    ensures Lines(s) == [] <==> s == ""
  {
  }

  lemma JoinCons(first: string, parts: seq<string>)
    ensures Join([first] + parts, "\n") == if parts == [] then first else first + "\n" + Join(parts, "\n")
  {
    assert ([first] + parts)[1..] == parts;
  }

  lemma FinalBreakBehind(head: string, tail: string)
    ensures FinalBreak(head + "\n" + tail) == if tail == "" then "\n" else FinalBreak(tail)
  {
  }
}
