/** The stream chunker as it runs: three mutable fields, updated in place.
    Every slice goes through Utf8.Slice, so verifying a body shows that no
    slice can panic. */
module StreamChunkerModel {
  import opened Utf8
  import opened Wrappers
  import opened ChunkerSpec

  class StreamChunker {
    var buffer: Bytes
    var inCodeFence: bool
    var fenceMarker: Bytes
    const minChunk: nat
    const maxChunk: nat

    function State(): Chunker
      reads this
    {
      Chunker(buffer, inCodeFence, fenceMarker)
    }

    // buffer is a String; the marker is set and cleared with the flag
    ghost predicate WellFormed()
      reads this
    {
      Valid(buffer) && MarkerAgrees(State())
    }

    constructor (minChunk: nat, maxChunk: nat)
      ensures WellFormed() && State() == EMPTY
      ensures this.minChunk == minChunk && this.maxChunk == maxChunk
    {
      buffer, inCodeFence, fenceMarker := [], false, [];
      this.minChunk, this.maxChunk := minChunk, maxChunk;
    }

    method Push(text: Bytes)
      requires WellFormed() && Valid(text)
      modifies this
      ensures WellFormed()
      ensures State() == PushText(old(State()), text)
    {
      var lines := Lines(text);
      for k := 0 to |lines|
        invariant State() == PushLines(old(State()), lines[..k])
        invariant MarkerAgrees(State())
      {
        var line := lines[k];
        assert lines[..k + 1][..k] == lines[..k];
        buffer := buffer + line;
        var trimmed := Trim(line);
        if FENCE <= trimmed {
          if inCodeFence {
            if trimmed == FENCE || fenceMarker <= trimmed {
              inCodeFence := false;
              fenceMarker := [];
            }
          } else {
            inCodeFence := true;
            fenceMarker := FENCE;
          }
        }
      }
      assert lines[..|lines|] == lines;
      PushAppends(old(State()), text);
      ValidConcat(old(buffer), text);
    }

    method Flush() returns (chunk: Option<Bytes>)
      requires WellFormed()
      modifies this
      ensures WellFormed()
      ensures Flushed(State(), chunk) == TryFlush(old(State()), minChunk, maxChunk)
      ensures chunk.Some? ==> Valid(chunk.value)
    {
      if |buffer| < minChunk {
        return None;
      }
      if inCodeFence && |buffer| < maxChunk {
        return None;
      }
      if inCodeFence && |buffer| >= maxChunk {
        var taken := buffer + FORCED_CLOSE;
        AsciiIsValid(FORCED_CLOSE);
        ValidConcat(buffer, FORCED_CLOSE);
        buffer := FENCE + DropBackticks(fenceMarker) + LINE;
        ReopenSeed();
        AsciiIsValid(REOPEN);
        return Some(taken);
      }

      var at := FindBreak();
      if at.None? {
        return None;
      }
      BreakPointAtBoundary(buffer, minChunk, maxChunk);
      chunk := CutAt(at.value);
    }

    // The break rules in their order of priority
    method FindBreak() returns (at: Option<nat>)
      requires Valid(buffer)
      ensures at == BreakPoint(buffer, minChunk, maxChunk)
    {
      hide LastMatch, Valid, IsCharBoundary, FloorBoundary;
      var last := Min(|buffer|, maxChunk);
      var pos := FindLastInRange(buffer, PARAGRAPH, minChunk, last);
      if pos.Some? {
        return Some(pos.value + 2);
      }
      pos := FindLastInRange(buffer, LINE, minChunk, last);
      if pos.Some? {
        return Some(pos.value + 1);
      }
      at := FindSentenceEnd();
      if at.None? && |buffer| >= maxChunk {
        var breakAt := StepBack();
        if breakAt == 0 {
          breakAt := |buffer|;
        }
        at := Some(breakAt);
      }
    }

    method FindSentenceEnd() returns (at: Option<nat>)
      requires Valid(buffer)
      ensures var hi := Min(|buffer|, maxChunk);
              at == if CutAfter(buffer, PERIOD, minChunk, hi).Some? then CutAfter(buffer, PERIOD, minChunk, hi)
                    else if CutAfter(buffer, EXCLAMATION, minChunk, hi).Some? then
                      CutAfter(buffer, EXCLAMATION, minChunk, hi)
                    else CutAfter(buffer, QUESTION, minChunk, hi)
    {
      hide LastMatch, Valid;
      var last := Min(|buffer|, maxChunk);
      var endings := [PERIOD, EXCLAMATION, QUESTION];
      for k := 0 to |endings|
        invariant k > 0 ==> CutAfter(buffer, PERIOD, minChunk, last).None?
        invariant k > 1 ==> CutAfter(buffer, EXCLAMATION, minChunk, last).None?
        invariant k > 2 ==> CutAfter(buffer, QUESTION, minChunk, last).None?
      {
        var ending := endings[k];
        assert k == 0 ==> ending == PERIOD;
        assert k == 1 ==> ending == EXCLAMATION;
        assert k == 2 ==> ending == QUESTION;
        var pos := FindLastInRange(buffer, ending, minChunk, last);
        if pos.Some? {
          return Some(pos.value + |ending|);
        }
      }
      return None;
    }

    // From max down to a character boundary, at most three steps
    method StepBack() returns (breakAt: nat)
      requires Valid(buffer) && |buffer| >= maxChunk
      ensures breakAt == FloorBoundary(buffer, maxChunk)
      ensures maxChunk - 3 <= breakAt <= maxChunk
    {
      breakAt := maxChunk;
      while breakAt > 0 && !IsCharBoundary(buffer, breakAt)
        invariant FloorBoundary(buffer, breakAt) == FloorBoundary(buffer, maxChunk)
        invariant breakAt <= maxChunk
      {
        breakAt := breakAt - 1;
      }
      FloorBoundaryIsFloor(buffer, maxChunk);
      BoundaryNearby(buffer, maxChunk);
    }

    // The common tail of the break rules: emit buffer[..at], keep buffer[at..]
    method CutAt(at: nat) returns (chunk: Option<Bytes>)
      requires WellFormed() && at <= |buffer| && IsCharBoundary(buffer, at)
      modifies this`buffer
      ensures WellFormed()
      ensures chunk == Some(old(buffer)[..at]) && buffer == old(buffer)[at..]
      ensures Valid(chunk.value)
    {
      ValidSplit(buffer, at);
      assert buffer[0..at] == buffer[..at] && buffer[at..|buffer|] == buffer[at..];
      chunk := Some(Slice(buffer, 0, at));
      buffer := Slice(buffer, at, |buffer|);
    }

    method Remaining() returns (chunk: Option<Bytes>)
      requires WellFormed()
      modifies this
      ensures WellFormed()
      ensures Flushed(State(), chunk) == FlushRemaining(old(State()))
      ensures State() == old(State()).(buffer := [])
      ensures chunk == if old(buffer) == [] then None else Some(old(buffer))
      ensures chunk.Some? ==> Valid(chunk.value)
    {
      if |buffer| == 0 {
        chunk := None;
      } else {
        chunk := Some(buffer);
        buffer := [];
      }
    }
  }

  // Both ends are clamped to character boundaries before slicing; for an ASCII
  // pattern the clamping never changes which match is found.
  method FindLastInRange(text: Bytes, pattern: Bytes, first: nat, last: nat) returns (pos: Option<nat>)
    requires Valid(text) && AllAscii(pattern) && |pattern| > 0
    ensures pos == LastMatch(text, pattern, first, Min(|text|, last))
    ensures pos.Some? ==> pos.value + |pattern| <= |text|
  {
    hide LastMatch, Valid, AllAscii, MatchAt;
    var hi: nat := Min(last, |text|);
    while hi > 0 && !IsCharBoundary(text, hi)
      invariant hi <= Min(|text|, last)
      invariant forall j: nat :: hi < j <= Min(|text|, last) ==> !IsCharBoundary(text, j)
    {
      hi := hi - 1;
    }
    var lo: nat := Min(first, hi);
    while lo < hi && !IsCharBoundary(text, lo)
      invariant Min(first, hi) <= lo <= hi
      invariant forall j: nat :: first <= j < lo ==> !IsCharBoundary(text, j)
    {
      lo := lo + 1;
    }
    var searchText := Slice(text, lo, hi);
    var found := LastMatch(searchText, pattern, 0, |searchText|);
    pos := if found.Some? then Some(lo + found.value) else None;
    SliceSearch(text, pattern, lo, hi, |searchText|);
    ClampingInvisible(text, pattern, first, Min(|text|, last), lo, hi);
    LastMatchIsLast(text, pattern, first, Min(|text|, last));
  }

  lemma SliceOfSlice(s: Bytes, lo: nat, hi: nat, a: nat, b: nat)
    requires lo <= hi <= |s| && a <= b <= hi - lo
    ensures s[lo..hi][a..b] == s[lo + a..lo + b]
  {
    forall i | 0 <= i < b - a ensures s[lo..hi][a..b][i] == s[lo + a..lo + b][i] {
      assert s[lo..hi][a..b][i] == s[lo..hi][a + i] == s[lo + a + i];
    }
  }

  // rfind in the slice is the search in the whole text, shifted
  lemma SliceMatches(s: Bytes, pattern: Bytes, lo: nat, hi: nat, p: nat)
    requires lo <= hi <= |s| && p + |pattern| <= hi - lo
    ensures MatchAt(s[lo..hi], pattern, p) <==> MatchAt(s, pattern, lo + p)
  {
    SliceOfSlice(s, lo, hi, p, p + |pattern|);
  }

  // Two texts that match at the same places, one of them shifted
  lemma {:induction false} SearchShifted(s: Bytes, t: Bytes, pattern: Bytes, lo: nat, n: nat)
    requires |pattern| > 0 && n <= |t| && lo + n <= |s|
    requires forall p: nat :: p + |pattern| <= n ==> (MatchAt(t, pattern, p) <==> MatchAt(s, pattern, lo + p))
    ensures var r := LastMatch(t, pattern, 0, n);
            LastMatch(s, pattern, lo, lo + n) == if r.Some? then Some(lo + r.value) else None
  {
    hide MatchAt;
    if n >= |pattern| && !MatchAt(t, pattern, n - |pattern|) {
      SearchShifted(s, t, pattern, lo, n - 1);
    }
  }

  lemma SliceSearch(s: Bytes, pattern: Bytes, lo: nat, hi: nat, n: nat)
    requires |pattern| > 0 && lo <= hi <= |s| && n <= hi - lo
    ensures var r := LastMatch(s[lo..hi], pattern, 0, n);
            LastMatch(s, pattern, lo, lo + n) == if r.Some? then Some(lo + r.value) else None
  {
    hide MatchAt, LastMatch;
    var t := s[lo..hi];
    forall p: nat | p + |pattern| <= n ensures MatchAt(t, pattern, p) <==> MatchAt(s, pattern, lo + p) {
      SliceMatches(s, pattern, lo, hi, p);
    }
    SearchShifted(s, t, pattern, lo, n);
  }

  ghost predicate Clamped(s: Bytes, lo: nat, hi: nat, lo': nat, hi': nat) {
    && lo' <= hi' <= hi
    && (lo <= lo' || lo' == hi')
    && (forall j: nat :: hi' < j <= hi ==> !IsCharBoundary(s, j))
    && (forall j: nat :: lo <= j < lo' ==> !IsCharBoundary(s, j))
  }

  lemma MatchInsideClamp(s: Bytes, pattern: Bytes, lo: nat, hi: nat, lo': nat, hi': nat, q: nat)
    requires Valid(s) && AllAscii(pattern) && |pattern| > 0 && hi <= |s|
    requires Clamped(s, lo, hi, lo', hi')
    requires lo <= q && q + |pattern| <= hi && MatchAt(s, pattern, q)
    ensures lo' <= q && q + |pattern| <= hi'
  {
    MatchEndsAtBoundary(s, pattern, q);
  }

  lemma ClampingInvisible(s: Bytes, pattern: Bytes, lo: nat, hi: nat, lo': nat, hi': nat)
    requires Valid(s) && AllAscii(pattern) && |pattern| > 0 && hi <= |s|
    requires Clamped(s, lo, hi, lo', hi')
    ensures LastMatch(s, pattern, lo', hi') == LastMatch(s, pattern, lo, hi)
  {
    hide LastMatch, Valid, AllAscii, MatchAt;
    LastMatchIsLast(s, pattern, lo, hi);
    LastMatchIsLast(s, pattern, lo', hi');
    var r, r' := LastMatch(s, pattern, lo, hi), LastMatch(s, pattern, lo', hi');
    if r.Some? {
      MatchInsideClamp(s, pattern, lo, hi, lo', hi', r.value);
    }
  }
}
