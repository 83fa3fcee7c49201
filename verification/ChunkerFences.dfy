/** The promise that a chunk never splits a fenced code block, and the exact
    settings for which it holds. */
module ChunkerFences {
  import opened Utf8
  import opened Wrappers
  import opened ChunkerSpec
  import opened ChunkerRuns
  import opened ChunkerDrain

  // A text that ends inside a fence when it is rendered on its own
  predicate LeavesFenceOpen(text: Bytes) {
    FenceLines(Lines(text)) % 2 == 1
  }

  // Chunk n of a drained chunker, if there is one, does not end inside a fence.
  ghost predicate ChunkIsClosed(c: Chunker, min: nat, max: nat, n: nat) {
    var flush := TryFlush(After(c, min, max, n), min, max);
    flush.chunk.Some? ==> !LeavesFenceOpen(flush.chunk.value)
  }

  // The promise for a text pushed in one piece and drained to the end
  ghost predicate NeverSplitsFence(min: nat, max: nat) {
    forall text: Bytes, n: nat :: Valid(text) ==> ChunkIsClosed(PushText(EMPTY, text), min, max, n)
  }

  // It is kept for every text and every chunk exactly when there is no room for a
  // single byte: then each chunk is the whole buffer.
  lemma NeverSplitsFenceIff(min: nat, max: nat)
    ensures NeverSplitsFence(min, max) <==> max == 0
  {
    if max == 0 {
      forall text: Bytes, n: nat | Valid(text) ensures ChunkIsClosed(PushText(EMPTY, text), min, max, n) {
        PushedFresh(text);
        WholeBuffersStay(PushText(EMPTY, text), min, n);
        WholeChunkIsClosed(After(PushText(EMPTY, text), min, 0, n), min);
      }
    } else {
      var text, n := FenceSplitWitness(min, max);
      assert !ChunkIsClosed(PushText(EMPTY, text), min, max, n);
    }
  }

  // ---------- one flush, judged before it is made ----------

  // Where the third backtick of a fence line ends
  function FenceEnd(line: Bytes): Option<int> {
    if FENCE <= TrimStart(line) then Some(|line| - |TrimStart(line)| + |FENCE|) else None
  }

  // How many fence lines of the text have their three backticks before p
  function FencesBefore(text: Bytes, p: nat): nat
    decreases |text|
  {
    if |text| == 0 then 0
    else
      var n := FirstLine(text);
      var end := FenceEnd(text[..n]);
      (if end.Some? && end.value <= p then 1 else 0) + (if p <= n then 0 else FencesBefore(text[n..], p - n))
  }

  // A chunk that is about to be flushed splits a code block exactly when an odd
  // number of the buffer's fences stand before the cut; inside a fence, where the
  // whole buffer goes and is closed, exactly when an even number stand in it.
  lemma FlushSplitsFenceIff(c: Chunker, min: nat, max: nat)
    requires MarkerAgrees(c) && TryFlush(c, min, max).chunk.Some?
    ensures var chunk := TryFlush(c, min, max).chunk.value;
            LeavesFenceOpen(chunk) <==>
            if c.inCodeFence then FencesBefore(c.buffer, |c.buffer|) % 2 == 0
            else FencesBefore(c.buffer, BreakPoint(c.buffer, min, max).value) % 2 == 1
  {
    hide FencesBefore, Lines, FenceLines;
    if c.inCodeFence {
      ForcedCloseTogglesFence(c.buffer);
      FencesOfPrefix(c.buffer, |c.buffer|);
      assert c.buffer[..|c.buffer|] == c.buffer;
    } else {
      BreakPointInRange(c.buffer, min, max);
      FencesOfPrefix(c.buffer, BreakPoint(c.buffer, min, max).value);
    }
  }

  // A line cut at p, as the only line of a text
  lemma FencesOfCutLine(line: Bytes, p: nat)
    requires 0 < p <= |line| && forall i :: 0 <= i < |line| - 1 ==> line[i] != NEWLINE
    ensures FenceLines(Lines(line[..p])) == if FenceEnd(line).Some? && FenceEnd(line).value <= p then 1 else 0
  {
    hide Lines, FenceLines, FenceEnd, IsFenceLine;
    NoTextNoFence();
    FenceOfPrefix(line, p);
    FenceLinesOfLine(line[..p], []);
    assert line[..p] + [] == line[..p];
  }

  lemma FencesOfWholeLine(line: Bytes, rest: Bytes)
    requires |line| > 0 && (forall i :: 0 <= i < |line| - 1 ==> line[i] != NEWLINE)
    requires line[|line| - 1] == NEWLINE || |rest| == 0
    ensures FenceLines(Lines(line + rest)) == (if FenceEnd(line).Some? then 1 else 0) + FenceLines(Lines(rest))
    ensures FenceEnd(line).Some? ==> FenceEnd(line).value <= |line|
  {
    hide Lines, FenceLines, IsFenceLine;
    FenceLineByStart(line);
    TrimStartShrinks(line);
    FenceLinesOfLine(line, rest);
  }

  lemma {:induction false} FencesOfPrefix(text: Bytes, p: nat)
    requires p <= |text|
    ensures FenceLines(Lines(text[..p])) == FencesBefore(text, p)
    decreases |text|
  {
    hide Lines, FenceLines, FenceEnd, IsFenceLine, FirstLine, FencesBefore;
    if p == 0 {
      NoTextNoFence();
      assert text[..0] == [];
      NoFenceBeforeStart(text);
    } else {
      var n := FirstLine(text);
      var line := text[..n];
      assert forall i :: 0 <= i < n ==> line[i] == text[i];
      if p <= n {
        FencesOfCutLine(line, p);
        TextsOfCut(text, p, n);
        FencesBeforeWithin(text, p);
      } else {
        FencesBeforePast(text, p);
        FencesOfPrefix(text[n..], p - n);
        FencesOfWholeLine(line, text[n..][..p - n]);
        TextsOfCut(text, n, p);
      }
    }
  }

  lemma TextsOfCut(text: Bytes, a: nat, b: nat)
    requires a <= b <= |text|
    ensures text[..b][..a] == text[..a] && text[..a] + text[a..][..b - a] == text[..b]
  {
  }

  lemma FencesBeforeWithin(text: Bytes, p: nat)
    requires |text| > 0 && p <= FirstLine(text)
    ensures var end := FenceEnd(text[..FirstLine(text)]);
            FencesBefore(text, p) == if end.Some? && end.value <= p then 1 else 0
  {
  }

  lemma FencesBeforePast(text: Bytes, p: nat)
    requires |text| > 0 && p > FirstLine(text)
    ensures var n := FirstLine(text);
            var end := FenceEnd(text[..n]);
            FencesBefore(text, p) == (if end.Some? then 1 else 0) + FencesBefore(text[n..], p - n)
  {
    hide FirstLine;
    TrimStartShrinks(text[..FirstLine(text)]);
  }

  lemma NoFenceBeforeStart(text: Bytes)
    ensures FencesBefore(text, 0) == 0
  {
    if |text| > 0 {
      TrimStartShrinks(text[..FirstLine(text)]);
    }
  }

  // Cutting a line keeps it a fence line exactly when the three backticks stay.
  lemma FenceOfPrefix(line: Bytes, p: nat)
    requires p <= |line|
    ensures IsFenceLine(line[..p]) <==> FenceEnd(line).Some? && FenceEnd(line).value <= p
  {
    hide IsFenceLine;
    FenceLineByStart(line[..p]);
    TrimStartOfPrefix(line, p);
    TrimStartShrinks(line);
  }

  lemma {:induction false} TrimStartOfPrefix(line: Bytes, p: nat)
    requires p <= |line|
    ensures FENCE <= TrimStart(line[..p]) <==> FENCE <= TrimStart(line) && |line| - |TrimStart(line)| + |FENCE| <= p
    decreases |line|
  {
    TrimStartShrinks(line);
    var k := SpaceLength(line);
    if 0 < k <= p {
      assert SpaceLength(line[..p]) == k;
      assert line[..p][k..] == line[k..][..p - k];
      TrimStartOfPrefix(line[k..], p - k);
    } else {
      assert SpaceLength(line[..p]) == 0;
      assert TrimStart(line[..p]) == line[..p];
      if k > 0 {
        TrimStartShrinks(line[k..]);
        assert p > 0 ==> line[0] != BACKTICK;
      } else if p >= 3 {
        assert line[..3] == line[..p][..3];
      }
    }
  }

  // ---------- no room for a byte: every chunk is a whole buffer ----------

  lemma PushedFresh(text: Bytes)
    ensures var c := PushText(EMPTY, text);
            MarkerAgrees(c) && c.buffer == text && (c.inCodeFence <==> LeavesFenceOpen(text))
  {
    PushKeepsMarker(EMPTY, Lines(text));
    PushAppends(EMPTY, text);
    PushCountsFences(EMPTY, Lines(text));
    assert [] + text == text;
  }

  // The flag tells the fence state at the end of this very buffer.
  ghost predicate BufferIsWhole(c: Chunker) {
    MarkerAgrees(c) && (c.inCodeFence <==> LeavesFenceOpen(c.buffer))
  }

  lemma NoRoomCutsAtEnd(s: Bytes, min: nat)
    ensures BreakPoint(s, min, 0) == Some(|s|)
  {
    CutAfterInRange(s, PARAGRAPH, min, 0);
    CutAfterInRange(s, LINE, min, 0);
    CutAfterInRange(s, PERIOD, min, 0);
    CutAfterInRange(s, EXCLAMATION, min, 0);
    CutAfterInRange(s, QUESTION, min, 0);
  }

  lemma WholeChunkIsClosed(c: Chunker, min: nat)
    requires BufferIsWhole(c)
    ensures var f := TryFlush(c, min, 0);
            BufferIsWhole(f.next) && (f.chunk.Some? ==> !LeavesFenceOpen(f.chunk.value))
  {
    hide Lines, FenceLines, BreakPoint;
    if c.inCodeFence {
      ReopenSeed();
      FenceLinesOfReopen();
      ForcedCloseTogglesFence(c.buffer);
    } else {
      NoTextNoFence();
      NoRoomCutsAtEnd(c.buffer, min);
      assert c.buffer[..|c.buffer|] == c.buffer && c.buffer[|c.buffer|..] == [];
    }
  }

  lemma {:induction false} WholeBuffersStay(c: Chunker, min: nat, n: nat)
    requires BufferIsWhole(c)
    ensures BufferIsWhole(After(c, min, 0, n))
    decreases n
  {
    hide TryFlush, BufferIsWhole;
    if n > 0 && TryFlush(c, min, 0).chunk.Some? {
      WholeChunkIsClosed(c, min);
      WholeBuffersStay(TryFlush(c, min, 0).next, min, n - 1);
    }
  }

  // ---------- what makes a line a fence line ----------

  lemma {:induction false} TrimEndIsPrefix(s: Bytes)
    ensures TrimEnd(s) <= s
    decreases |s|
  {
    if SpaceLengthBack(s) > 0 {
      TrimEndIsPrefix(s[..|s| - SpaceLengthBack(s)]);
    }
  }

  lemma {:induction false} TrimStartShrinks(s: Bytes)
    ensures |TrimStart(s)| <= |s|
    decreases |s|
  {
    if SpaceLength(s) > 0 {
      TrimStartShrinks(s[SpaceLength(s)..]);
    }
  }

  lemma SpaceIsNoBacktick(s: Bytes)
    ensures var k := SpaceLengthBack(s);
            k > 0 ==> k <= |s| && s[|s| - k] != BACKTICK
  {
    var k := SpaceLengthBack(s);
    if k > 0 {
      assert s[|s| - k..][0] == s[|s| - k];
    }
  }

  lemma {:induction false} TrimEndKeepsFence(s: Bytes)
    requires FENCE <= s
    ensures FENCE <= TrimEnd(s)
    decreases |s|
  {
    var k := SpaceLengthBack(s);
    SpaceIsNoBacktick(s);
    if k > 0 {
      assert s[..3] == FENCE;
      TrimEndKeepsFence(s[..|s| - k]);
    }
  }

  // Only the white space before the backticks matters.
  lemma FenceLineByStart(line: Bytes)
    ensures IsFenceLine(line) <==> FENCE <= TrimStart(line)
  {
    TrimEndIsPrefix(TrimStart(line));
    if FENCE <= TrimStart(line) {
      TrimEndKeepsFence(TrimStart(line));
    }
  }

  lemma {:induction false} TrimStartBeforeNewline(s: Bytes)
    ensures FENCE <= TrimStart(s + LINE) <==> FENCE <= TrimStart(s)
    decreases |s|
  {
    var k := SpaceLength(s);
    if k > 0 {
      assert SpaceLength(s + LINE) == k;
      assert (s + LINE)[k..] == s[k..] + LINE;
      TrimStartBeforeNewline(s[k..]);
    } else if |s| == 0 {
      assert s + LINE == LINE && LINE[1..] == [];
      assert TrimStart(LINE) == [];
    } else {
      assert SpaceLength(s + LINE) == 0;
      assert TrimStart(s + LINE) == s + LINE && TrimStart(s) == s;
      if FENCE <= s + LINE {
        assert (s + LINE)[2] == BACKTICK;
      }
    }
  }

  lemma FenceLineIgnoresNewline(line: Bytes)
    ensures IsFenceLine(line + LINE) <==> IsFenceLine(line)
  {
    FenceLineByStart(line);
    FenceLineByStart(line + LINE);
    TrimStartBeforeNewline(line);
  }

  lemma ShortLineIsNoFence(line: Bytes)
    requires |line| <= 2
    ensures !IsFenceLine(line)
  {
    FenceLineByStart(line);
    TrimStartShrinks(line);
  }

  lemma PlainLineIsNoFence(line: Bytes)
    requires |line| > 0 && IsAscii(line[0]) && line[0] > 0x20 && line[0] != BACKTICK
    ensures !IsFenceLine(line)
  {
    hide IsFenceLine;
    FenceLineByStart(line);
    assert TrimStart(line) == line;
  }

  lemma FenceIsFenceLine()
    ensures IsFenceLine(FENCE) && IsFenceLine(REOPEN)
  {
    FenceLineByStart(FENCE);
    FenceLineByStart(REOPEN);
    assert TrimStart(FENCE) == FENCE && TrimStart(REOPEN) == REOPEN;
  }

  // ---------- counting fence lines from the front ----------

  lemma {:induction false} FenceLinesCons(head: Bytes, lines: seq<Bytes>)
    ensures FenceLines([head] + lines) == (if IsFenceLine(head) then 1 else 0) + FenceLines(lines)
  {
    var all := [head] + lines;
    if |lines| == 0 {
      assert all[..0] == [];
    } else {
      FenceLinesCons(head, lines[..|lines| - 1]);
      assert all[..|all| - 1] == [head] + lines[..|lines| - 1];
    }
  }

  lemma FirstLineIs(text: Bytes, n: nat)
    requires 0 < n <= |text|
    requires forall i :: 0 <= i < n - 1 ==> text[i] != NEWLINE
    requires text[n - 1] == NEWLINE || n == |text|
    ensures FirstLine(text) == n
  {
  }

  lemma FenceLinesOfLine(line: Bytes, rest: Bytes)
    requires |line| > 0 && (forall i :: 0 <= i < |line| - 1 ==> line[i] != NEWLINE)
    requires line[|line| - 1] == NEWLINE || |rest| == 0
    ensures FenceLines(Lines(line + rest)) == (if IsFenceLine(line) then 1 else 0) + FenceLines(Lines(rest))
  {
    FirstLineIs(line + rest, |line|);
    assert (line + rest)[..|line|] == line && (line + rest)[|line|..] == rest;
    FenceLinesCons(line, Lines(rest));
  }

  lemma {:induction false} ShortTextHasNoFence(text: Bytes)
    requires |text| <= 2
    ensures FenceLines(Lines(text)) == 0
    decreases |text|
  {
    if |text| > 0 {
      var n := FirstLine(text);
      ShortTextHasNoFence(text[n..]);
      ShortLineIsNoFence(text[..n]);
      FenceLinesCons(text[..n], Lines(text[n..]));
    }
  }

  lemma NoTextNoFence()
    ensures FenceLines(Lines([])) == 0
  {
  }

  lemma FenceLinesOfReopen()
    ensures FenceLines(Lines(REOPEN)) == 1
  {
    hide Lines, FenceLines, IsFenceLine;
    NoTextNoFence();
    FenceIsFenceLine();
    FenceLinesOfLine(REOPEN, []);
    assert REOPEN + [] == REOPEN;
  }

  // ---------- thresholds too small for a re-opened fence ----------

  lemma PushReopen()
    ensures PushText(EMPTY, REOPEN) == Chunker(REOPEN, true, FENCE)
  {
    hide Lines, FenceLines, PushText, IsFenceLine;
    PushedFresh(REOPEN);
    FenceLinesOfReopen();
  }

  // With both thresholds at or below the seed, opening a fence is enough to make
  // draining endless.
  lemma SmallThresholdsLoop(min: nat, max: nat)
    requires max <= |REOPEN| && min <= |REOPEN|
    ensures !DrainEnds(PushText(EMPTY, REOPEN), min, max)
  {
    hide PushText;
    PushReopen();
    AsciiIsValid(REOPEN);
    DrainEndsIff(Chunker(REOPEN, true, FENCE), min, max);
  }

  // ---------- the forced close ----------

  // An unfinished last line ends at the newline of the forced close.
  lemma ForcedCloseAfterLine(text: Bytes)
    requires forall i :: 0 <= i < |text| ==> text[i] != NEWLINE
    ensures FenceLines(Lines(text + FORCED_CLOSE)) == (if IsFenceLine(text) then 1 else 0) + 1
  {
    hide Lines, FenceLines, IsFenceLine;
    FenceLinesOfReopen();
    FenceLineIgnoresNewline(text);
    FenceLinesOfLine(text + LINE, REOPEN);
    assert (text + LINE) + REOPEN == text + FORCED_CLOSE;
  }

  // The forced close really closes the fence it cuts, whatever came before.
  lemma {:induction false} ForcedCloseTogglesFence(text: Bytes)
    ensures FenceLines(Lines(text + FORCED_CLOSE)) == FenceLines(Lines(text)) + 1
    decreases |text|
  {
    hide Lines, FenceLines, IsFenceLine;
    NoTextNoFence();
    if |text| == 0 {
      ForcedCloseAfterLine(text);
      ShortLineIsNoFence(text);
    } else {
      var n := FirstLine(text);
      var line, rest := text[..n], text[n..];
      assert line + rest == text;
      FenceLinesOfLine(line, rest);
      if text[n - 1] == NEWLINE {
        ForcedCloseTogglesFence(rest);
        FenceLinesOfLine(line, rest + FORCED_CLOSE);
        assert line + (rest + FORCED_CLOSE) == text + FORCED_CLOSE;
      } else {
        ForcedCloseAfterLine(text);
        assert line == text && rest == [];
      }
    }
  }

  // ---------- the family of texts that are split ----------

  function Letters(n: nat): (s: Bytes)
    ensures |s| == n && forall i :: 0 <= i < n ==> s[i] == 0x61
  {
    seq(n, _ => 0x61)
  }

  // A complete code block whose one line of code has n letters
  function CodeBlock(n: nat): (s: Bytes)
    ensures |s| == n + 9
  {
    REOPEN + (Letters(n) + LINE + REOPEN)
  }

  // A code block around a character of three bytes, which no chunk of one or two
  // bytes can hold: the rest of the buffer goes in one chunk.
  const EURO: Bytes := [0xE2, 0x82, 0xAC]

  function EuroBlock(n: nat): (s: Bytes)
    ensures |s| == n + 12
  {
    REOPEN + EuroRest(n)
  }

  function EuroRest(n: nat): (s: Bytes)
    ensures |s| == n + 8
  {
    EURO + LINE + REOPEN + Letters(n)
  }

  lemma EuroRestIsOpen(n: nat)
    ensures FenceLines(Lines(EuroRest(n))) == 1
  {
    hide Lines, FenceLines, IsFenceLine;
    FenceLineByStart(EURO + LINE);
    assert SpaceLength(EURO + LINE) == 0;
    FenceIsFenceLine();
    LettersHaveNoFence(n);
    FenceLinesOfLine(REOPEN, Letters(n));
    FenceLinesOfLine(EURO + LINE, REOPEN + Letters(n));
    assert (EURO + LINE) + (REOPEN + Letters(n)) == EuroRest(n);
  }

  lemma EuroBlockIsValid(n: nat)
    ensures Valid(EuroBlock(n)) && FenceLines(Lines(EuroBlock(n))) == 2 && EuroBlock(n)[4..] == EuroRest(n)
  {
    hide Lines, FenceLines, IsFenceLine;
    AsciiIsValid(REOPEN);
    AsciiIsValid(LINE + REOPEN + Letters(n));
    assert Valid(EURO) by {
      assert EURO[3..] == [];
    }
    ValidConcat(EURO, LINE + REOPEN + Letters(n));
    assert EURO + (LINE + REOPEN + Letters(n)) == EuroRest(n);
    ValidConcat(REOPEN, EuroRest(n));
    FenceIsFenceLine();
    EuroRestIsOpen(n);
    FenceLinesOfLine(REOPEN, EuroRest(n));
  }

  lemma PairCut(s: Bytes, pattern: Bytes, min: nat, hi: nat)
    requires |pattern| == 2 && hi <= 2 && hi <= |s|
    ensures var p := CutAfter(s, pattern, min, hi);
            p.Some? ==> p.value == hi == 2 && s[0] == pattern[0] && s[1] == pattern[1]
  {
    hide CutAfter;
    CutAfterInRange(s, pattern, min, hi);
    if CutAfter(s, pattern, min, hi).Some? {
      assert s[0..2][0] == s[0] && s[0..2][1] == s[1];
    }
  }

  lemma LineCut(s: Bytes, min: nat, hi: nat)
    requires hi <= |s|
    ensures var p := CutAfter(s, LINE, min, hi);
            p.Some? ==> 0 < p.value <= hi && s[p.value - 1] == NEWLINE
  {
    hide CutAfter;
    CutAfterInRange(s, LINE, min, hi);
    var p := CutAfter(s, LINE, min, hi);
    if p.Some? {
      assert s[p.value - 1..p.value][0] == s[p.value - 1];
    }
  }

  // One or two bytes leave together as long as a whole character ends there; a
  // longer character takes the whole rest with it.
  lemma SmallCut(s: Bytes, min: nat, max: nat)
    requires 0 < max <= 2 && |s| > 2 && IsCharBoundary(s, max)
    requires max == 2 ==> s[0] != NEWLINE && s[1] != 0x20
    ensures BreakPoint(s, min, max) == Some(max)
  {
    hide CutAfter, IsCharBoundary;
    PairCut(s, PARAGRAPH, min, max);
    LineCut(s, min, max);
    PairCut(s, PERIOD, min, max);
    PairCut(s, EXCLAMATION, min, max);
    PairCut(s, QUESTION, min, max);
    assert FloorBoundary(s, max) == max;
  }

  lemma EuroGoesWhole(n: nat, min: nat, max: nat)
    requires 0 < max <= 2
    ensures BreakPoint(EuroRest(n), min, max) == Some(|EuroRest(n)|)
  {
    hide CutAfter, FloorBoundary;
    var s := EuroRest(n);
    assert s[0] == 0xE2 && s[1] == 0x82 && s[2] == 0xAC;
    PairCut(s, PARAGRAPH, min, max);
    LineCut(s, min, max);
    PairCut(s, PERIOD, min, max);
    PairCut(s, EXCLAMATION, min, max);
    PairCut(s, QUESTION, min, max);
    FloorBoundaryIsFloor(s, max);
  }

  // Four bytes of the opening line leave in pieces of one or two.
  function Gone(k: nat, max: nat): nat {
    if max == 1 then k else 2 * k
  }

  lemma OpeningCut(n: nat, at: nat, min: nat, max: nat)
    requires 0 < max <= 2 && at + max <= 4 && (max == 2 ==> at != 1)
    ensures BreakPoint(EuroBlock(n)[at..], min, max) == Some(max)
  {
    hide BreakPoint;
    var text := EuroBlock(n);
    var s := text[at..];
    assert text[..4] == REOPEN && text[4] == 0xE2;
    assert s[0] == text[at] && s[1] == text[at + 1] && s[max] == text[at + max];
    SmallCut(s, min, max);
  }

  lemma {:induction false} OpeningLeaves(n: nat, k: nat, min: nat, max: nat)
    requires 0 < max <= 2 && Gone(k, max) <= 4 && min <= n
    ensures var c := Chunker(EuroBlock(n), false, []);
            After(c, min, max, k) == c.(buffer := EuroBlock(n)[Gone(k, max)..])
  {
    hide After, BreakPoint;
    var text := EuroBlock(n);
    var c := Chunker(text, false, []);
    if k == 0 {
      assert text[0..] == text;
      NoFlush(c, min, max);
    } else {
      OpeningLeaves(n, k - 1, min, max);
      var at := Gone(k - 1, max);
      OpeningCut(n, at, min, max);
      AfterOne(c, min, max, k - 1);
      assert text[at..][max..] == text[Gone(k, max)..];
    }
  }

  lemma NoFlush(c: Chunker, min: nat, max: nat)
    ensures After(c, min, max, 0) == c
  {
  }

  // The last flush split off
  lemma {:induction false} AfterOne(c: Chunker, min: nat, max: nat, n: nat)
    ensures After(c, min, max, n + 1) == TryFlush(After(c, min, max, n), min, max).next
    decreases n
  {
    hide TryFlush;
    QuietFlush(c, min, max);
    if n > 0 && TryFlush(c, min, max).chunk.Some? {
      AfterOne(TryFlush(c, min, max).next, min, max, n - 1);
    }
  }

  lemma QuietFlush(c: Chunker, min: nat, max: nat)
    ensures TryFlush(c, min, max).chunk.None? ==> TryFlush(c, min, max).next == c
  {
  }

  // For every setting with room for a byte, a complete code block is split.
  lemma FenceSplitWitness(min: nat, max: nat) returns (text: Bytes, n: nat)
    requires max > 0
    ensures Valid(text) && FenceLines(Lines(text)) == 2
    ensures var f := TryFlush(After(PushText(EMPTY, text), min, max, n), min, max);
            f.chunk.Some? && LeavesFenceOpen(f.chunk.value)
  {
    hide Valid, Lines, FenceLines, BreakPoint, PushText, After, CodeBlock, EuroBlock, EuroRest;
    if max >= 3 {
      var letters := min + max + 1;
      text, n := CodeBlock(letters), 0;
      CodeBlockIsClosed(letters);
      CodeBlockCut(letters, min, max);
      CodeBlockPrefixIsOpen(letters, BreakPoint(text, min, max).value);
      PushedFresh(text);
      NoFlush(PushText(EMPTY, text), min, max);
    } else {
      text, n := EuroBlock(min), if max == 1 then 4 else 2;
      EuroBlockIsValid(min);
      PushedFresh(text);
      OpeningLeaves(min, n, min, max);
      var rest := EuroRest(min);
      EuroGoesWhole(min, min, max);
      EuroRestIsOpen(min);
      assert rest[..|rest|] == rest;
    }
  }

  lemma CodeBlockIsClosed(n: nat)
    requires n > 0
    ensures FenceLines(Lines(CodeBlock(n))) == 2 && Valid(CodeBlock(n))
  {
    hide Lines, FenceLines, IsFenceLine, Valid;
    AsciiIsValid(CodeBlock(n));
    NoTextNoFence();
    FenceIsFenceLine();
    FenceLinesOfLine(REOPEN, Letters(n) + LINE + REOPEN);
    PlainLineIsNoFence(Letters(n) + LINE);
    FenceLinesOfLine(Letters(n) + LINE, REOPEN);
    FenceLinesOfLine(REOPEN, []);
    assert REOPEN + [] == REOPEN;
  }

  // The chunk is cut after the opening line or in the middle of the code.
  lemma CodeBlockCut(n: nat, min: nat, max: nat)
    requires max >= 3 && n > min + max
    ensures var p := BreakPoint(CodeBlock(n), min, max);
            p.Some? && 3 <= p.value <= max
  {
    var text := CodeBlock(n);
    assert forall i :: 4 <= i < max ==> text[i] == 0x61;
    CodeBlockNoCut(n, PARAGRAPH, min, max);
    CodeBlockNoCut(n, PERIOD, min, max);
    CodeBlockNoCut(n, EXCLAMATION, min, max);
    CodeBlockNoCut(n, QUESTION, min, max);
    CutAfterInRange(text, LINE, min, max);
    if CutAfter(text, LINE, min, max).Some? {
      var p := CutAfter(text, LINE, min, max).value;
      assert text[p - 1..p][0] == text[p - 1];
    }
    assert IsCharBoundary(text, max);
    assert FloorBoundary(text, max) == max;
  }

  lemma CodeBlockNoCut(n: nat, pattern: Bytes, min: nat, max: nat)
    requires n > min + max && |pattern| == 2
    requires pattern[1] == 0x20 || pattern == PARAGRAPH
    ensures |CodeBlock(n)| >= max && CutAfter(CodeBlock(n), pattern, min, max).None?
  {
    CutAfterInRange(CodeBlock(n), pattern, min, max);
  }

  lemma CodeBlockPrefixIsOpen(n: nat, p: nat)
    requires 3 <= p <= n
    ensures LeavesFenceOpen(CodeBlock(n)[..p])
  {
    hide Lines, FenceLines, IsFenceLine;
    FenceIsFenceLine();
    NoTextNoFence();
    var s := CodeBlock(n)[..p];
    if p == 3 {
      assert s == FENCE && FENCE + [] == FENCE;
      FenceLinesOfLine(FENCE, []);
    } else {
      assert s == REOPEN + Letters(p - 4);
      FenceLinesOfLine(REOPEN, Letters(p - 4));
      LettersHaveNoFence(p - 4);
    }
  }

  lemma LettersHaveNoFence(n: nat)
    ensures FenceLines(Lines(Letters(n))) == 0
  {
    if n > 0 {
      PlainLineIsNoFence(Letters(n));
      FenceLinesOfLine(Letters(n), []);
      assert Letters(n) + [] == Letters(n);
    }
  }

  // ---------- any cut into pushes ----------

  ghost predicate PushesAndFlushes(calls: seq<Call>) {
    ValidPushes(calls) && forall i :: 0 <= i < |calls| ==> !calls[i].Remaining?
  }

  lemma RunMore(calls: seq<Call>, call: Call, min: nat, max: nat)
    ensures Run(calls + [call], min, max) == Perform(Run(calls, min, max), call, min, max)
  {
    assert (calls + [call])[..|calls|] == calls;
  }

  // Pushing a text and flushing n times runs the drain.
  lemma {:induction false} RunDrains(text: Bytes, n: nat, min: nat, max: nat) returns (calls: seq<Call>)
    requires Valid(text)
    ensures PushesAndFlushes(calls) && Run(calls, min, max).chunker == After(PushText(EMPTY, text), min, max, n)
  {
    hide Run, PushText, TryFlush;
    var c := PushText(EMPTY, text);
    if n == 0 {
      RunMore([], Push(text), min, max);
      NoCalls(min, max);
      calls := [] + [Push(text)];
    } else {
      calls := RunDrains(text, n - 1, min, max);
      RunMore(calls, Flush, min, max);
      AfterOne(c, min, max, n - 1);
      calls := calls + [Flush];
    }
  }

  lemma NoCalls(min: nat, max: nat)
    ensures Run([], min, max) == Trace(EMPTY, [])
  {
  }

  // A fence whose backticks arrive in two pushes is never noticed, so without
  // room for a byte it leaves open in a whole buffer.
  lemma UnnoticedFence(min: nat) returns (calls: seq<Call>)
    ensures PushesAndFlushes(calls)
    ensures var f := TryFlush(Run(calls, min, 0).chunker, min, 0);
            f.chunk.Some? && LeavesFenceOpen(f.chunk.value)
  {
    hide Run, Lines, FenceLines, IsFenceLine, BreakPoint, PushLines;
    var two, rest: Bytes := [BACKTICK, BACKTICK], [BACKTICK, NEWLINE] + Letters(min);
    AsciiIsValid(two);
    AsciiIsValid(rest);
    NoCalls(min, 0);
    RunMore([], Push(two), min, 0);
    RunMore([] + [Push(two)], Push(rest), min, 0);
    calls := [] + [Push(two)] + [Push(rest)];
    var c := PushText(EMPTY, two);
    PushedFresh(two);
    ShortTextHasNoFence(two);
    PushAppends(c, rest);
    PushCountsFences(c, Lines(rest));
    SplitFenceIsNoFence(min);
    NoRoomCutsAtEnd(two + rest, min);
    assert two + rest == REOPEN + Letters(min) && (two + rest)[..|two + rest|] == two + rest;
    FenceIsFenceLine();
    LettersHaveNoFence(min);
    FenceLinesOfLine(REOPEN, Letters(min));
  }

  lemma SplitFenceIsNoFence(n: nat)
    ensures FenceLines(Lines([BACKTICK, NEWLINE] + Letters(n))) == 0
  {
    hide Lines, FenceLines, IsFenceLine;
    ShortLineIsNoFence([BACKTICK, NEWLINE]);
    LettersHaveNoFence(n);
    FenceLinesOfLine([BACKTICK, NEWLINE], Letters(n));
  }

  // When the text may arrive in any pieces, no setting keeps the promise, even if
  // the rest is never flushed by force.
  lemma EverySettingSplits(min: nat, max: nat) returns (calls: seq<Call>)
    ensures PushesAndFlushes(calls)
    ensures var f := TryFlush(Run(calls, min, max).chunker, min, max);
            f.chunk.Some? && LeavesFenceOpen(f.chunk.value)
  {
    if max == 0 {
      calls := UnnoticedFence(min);
    } else {
      var text, n := FenceSplitWitness(min, max);
      calls := RunDrains(text, n, min, max);
    }
  }
}
