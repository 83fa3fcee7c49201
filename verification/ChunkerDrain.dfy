/** Draining: calling try_flush until it returns nothing. When that ends, what
    is then left, and how long the chunks are. */
module ChunkerDrain {
  import opened Utf8
  import opened ChunkerSpec

  // The chunker after at most n flushes, stopping at the first that returns nothing
  function After(c: Chunker, min: nat, max: nat, n: nat): Chunker
    decreases n
  {
    if n == 0 || TryFlush(c, min, max).chunk.None? then c
    else After(TryFlush(c, min, max).next, min, max, n - 1)
  }

  ghost predicate DrainedWithin(c: Chunker, min: nat, max: nat, n: nat) {
    TryFlush(After(c, min, max, n), min, max).chunk.None?
  }

  ghost predicate DrainEnds(c: Chunker, min: nat, max: nat) {
    exists n: nat :: DrainedWithin(c, min, max, n)
  }

  // Checked on the chunker before draining it
  predicate CanDrain(c: Chunker, min: nat, max: nat) {
    if c.inCodeFence
    then max > |REOPEN| || min > |REOPEN| || |c.buffer| < max || |c.buffer| < min
    else max > 0 || min > 0
  }

  // The condition is exact: where it fails, a fence is re-opened (or an empty
  // chunk is cut off) for ever.
  lemma DrainEndsIff(c: Chunker, min: nat, max: nat)
    requires Valid(c.buffer) && MarkerAgrees(c)
    ensures DrainEnds(c, min, max) <==> CanDrain(c, min, max)
  {
    if CanDrain(c, min, max) {
      DrainShrinks(c, min, max);
      assert DrainedWithin(c, min, max, |c.buffer|);
    } else {
      forall n: nat ensures !DrainedWithin(c, min, max, n) {
        DrainLoops(c, min, max, n);
      }
    }
  }

  // With either threshold above the seed, draining ends from every state, and
  // what it leaves behind is shorter than one full chunk.
  lemma DrainAlwaysEnds(c: Chunker, min: nat, max: nat)
    requires Valid(c.buffer) && MarkerAgrees(c)
    requires max > |REOPEN| || min > |REOPEN|
    ensures exists n: nat :: DrainedWithin(c, min, max, n) && (min <= max ==> |After(c, min, max, n).buffer| < max)
  {
    DrainShrinks(c, min, max);
  }

  lemma FlushShrinks(c: Chunker, min: nat, max: nat)
    requires Valid(c.buffer) && MarkerAgrees(c) && CanDrain(c, min, max)
    requires TryFlush(c, min, max).chunk.Some?
    ensures var next := TryFlush(c, min, max).next;
            && |next.buffer| < |c.buffer|
            && Valid(next.buffer) && MarkerAgrees(next) && CanDrain(next, min, max)
  {
    if c.inCodeFence {
      ReopenSeed();
      AsciiIsValid(REOPEN);
    } else {
      CutIsNotEmpty(c.buffer, min, max);
      BreakPointAtBoundary(c.buffer, min, max);
      ValidSplit(c.buffer, BreakPoint(c.buffer, min, max).value);
    }
  }

  // Outside a fence every cut of a non-empty buffer takes at least one byte.
  lemma CutIsNotEmpty(s: Bytes, min: nat, max: nat)
    requires Valid(s) && (|s| > 0 || max > 0)
    ensures BreakPoint(s, min, max).Some? ==> 0 < BreakPoint(s, min, max).value <= |s|
  {
    var hi := Min(|s|, max);
    CutAfterInRange(s, PARAGRAPH, min, hi);
    CutAfterInRange(s, LINE, min, hi);
    CutAfterInRange(s, PERIOD, min, hi);
    CutAfterInRange(s, EXCLAMATION, min, hi);
    CutAfterInRange(s, QUESTION, min, hi);
    if |s| >= max {
      ForcedBreakNearMax(s, max);
      BreakPointInRange(s, min, max);
    }
  }

  lemma {:induction false} DrainShrinks(c: Chunker, min: nat, max: nat)
    requires Valid(c.buffer) && MarkerAgrees(c) && CanDrain(c, min, max)
    ensures DrainedWithin(c, min, max, |c.buffer|)
    decreases |c.buffer|
  {
    hide TryFlush, Valid, CanDrain, MarkerAgrees;
    if TryFlush(c, min, max).chunk.Some? {
      FlushShrinks(c, min, max);
      var next := TryFlush(c, min, max).next;
      DrainShrinks(next, min, max);
      MoreFlushesStayDrained(next, min, max, |next.buffer|, |c.buffer| - 1);
    }
  }

  lemma {:induction false} MoreFlushesStayDrained(c: Chunker, min: nat, max: nat, n: nat, m: nat)
    requires DrainedWithin(c, min, max, n) && n <= m
    ensures DrainedWithin(c, min, max, m)
    decreases n
  {
    hide TryFlush;
    if TryFlush(c, min, max).chunk.Some? {
      MoreFlushesStayDrained(TryFlush(c, min, max).next, min, max, n - 1, m - 1);
    }
  }

  lemma {:induction false} DrainLoops(c: Chunker, min: nat, max: nat, n: nat)
    requires MarkerAgrees(c) && !CanDrain(c, min, max)
    ensures !DrainedWithin(c, min, max, n)
    decreases n
  {
    LoopStep(c, min, max);
    if n > 0 {
      DrainLoops(TryFlush(c, min, max).next, min, max, n - 1);
    }
  }

  lemma LoopStep(c: Chunker, min: nat, max: nat)
    requires MarkerAgrees(c) && !CanDrain(c, min, max)
    ensures var f := TryFlush(c, min, max);
            f.chunk.Some? && MarkerAgrees(f.next) && !CanDrain(f.next, min, max)
  {
    if c.inCodeFence {
      ReopenSeed();
    }
  }

  // The first positive boundary is the end of the first character.
  lemma FirstCharacter(s: Bytes)
    requires Valid(s) && |s| > 0
    ensures 0 < CharLength(s) <= |s| && CharLength(s) <= 4
    ensures IsCharBoundary(s, CharLength(s))
    ensures forall j :: 0 < j < CharLength(s) ==> !IsCharBoundary(s, j)
  {
    var n := CharLength(s);
    if n < |s| {
      assert Valid(s[n..]) && s[n..][0] == s[n];
    }
  }

  lemma ForcedBreakFits(s: Bytes, max: nat)
    requires Valid(s) && |s| > 0 && |s| >= max
    ensures ForcedBreak(s, max) <= max <==> CharLength(s) <= max
  {
    hide Valid, CharLength, FloorBoundary;
    FirstCharacter(s);
    FloorBoundaryIsFloor(s, max);
  }

  lemma CutUpToMax(s: Bytes, min: nat, max: nat)
    ensures var p := BreakPoint(s, min, max);
            p.Some? ==> p.value <= max || (|s| >= max && p.value == ForcedBreak(s, max))
  {
    hide CutAfter, ForcedBreak;
    var hi := Min(|s|, max);
    CutAfterInRange(s, PARAGRAPH, min, hi);
    CutAfterInRange(s, LINE, min, hi);
    CutAfterInRange(s, PERIOD, min, hi);
    CutAfterInRange(s, EXCLAMATION, min, hi);
    CutAfterInRange(s, QUESTION, min, hi);
  }

  // Outside a fence a chunk is empty only when the buffer is, and it exceeds max
  // exactly when the first character alone does, which takes a max of three or less.
  lemma ChunkSize(c: Chunker, min: nat, max: nat)
    requires Valid(c.buffer) && !c.inCodeFence
    requires TryFlush(c, min, max).chunk.Some?
    ensures var chunk := TryFlush(c, min, max).chunk.value;
            && (|chunk| > 0 <==> |c.buffer| > 0)
            && (|chunk| <= max <==> CharLength(c.buffer) <= max)
            && CharLength(c.buffer) <= 4
  {
    hide Valid, CharLength, BreakPoint, ForcedBreak, IsCharBoundary;
    var s := c.buffer;
    BreakPointInRange(s, min, max);
    if |s| == 0 {
      NoCharacter();
    } else {
      FirstCharacter(s);
      CutIsNotEmpty(s, min, max);
      BreakPointAtBoundary(s, min, max);
      CutUpToMax(s, min, max);
      if |s| >= max {
        ForcedBreakFits(s, max);
      }
    }
  }

  lemma NoCharacter()
    ensures CharLength([]) == 0
  {
  }
}
