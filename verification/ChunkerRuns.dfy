/** Whole runs of the chunker: any interleaving of push, try_flush and
    flush_remaining, starting from an empty chunker. */
module ChunkerRuns {
  import opened Utf8
  import opened ChunkerSpec

  datatype Call = Push(text: Bytes) | Flush | Remaining

  // A chunk that was sent; forced when it was cut off inside a fence
  datatype Emission = Emission(chunk: Bytes, forced: bool)

  datatype Trace = Trace(chunker: Chunker, emitted: seq<Emission>)

  function Record(before: Trace, flush: Flushed, forced: bool): Trace {
    Trace(flush.next,
          if flush.chunk.None? then before.emitted else before.emitted + [Emission(flush.chunk.value, forced)])
  }

  function Perform(t: Trace, call: Call, min: nat, max: nat): Trace {
    match call
    case Push(text) => Trace(PushText(t.chunker, text), t.emitted)
    case Flush => Record(t, TryFlush(t.chunker, min, max), t.chunker.inCodeFence)
    case Remaining => Record(t, FlushRemaining(t.chunker), false)
  }

  function Run(calls: seq<Call>, min: nat, max: nat): Trace {
    if |calls| == 0 then Trace(EMPTY, [])
    else Perform(Run(calls[..|calls| - 1], min, max), calls[|calls| - 1], min, max)
  }

  // Everything that was pushed, in order
  function Pushed(calls: seq<Call>): Bytes {
    if |calls| == 0 then []
    else Pushed(calls[..|calls| - 1]) + (if calls[|calls| - 1].Push? then calls[|calls| - 1].text else [])
  }

  // ---------- conservation ----------

  // How many bytes at the front of the buffer are left over from the last
  // re-opened fence, judging by the emitted chunks alone
  function SeedLeft(emitted: seq<Emission>): nat {
    if |emitted| == 0 then 0
    else
      var e := emitted[|emitted| - 1];
      var left := SeedLeft(emitted[..|emitted| - 1]);
      if e.forced then |REOPEN| else if left > |e.chunk| then left - |e.chunk| else 0
  }

  // The chunk without the synthetic close and without what is left of a seed
  function Genuine(e: Emission, seedLeft: nat): Bytes {
    var body := if e.forced && |FORCED_CLOSE| <= |e.chunk| then e.chunk[..|e.chunk| - |FORCED_CLOSE|] else e.chunk;
    body[Min(seedLeft, |body|)..]
  }

  // The emitted text with every synthetic close and every seed deleted
  function Restored(emitted: seq<Emission>): Bytes {
    if |emitted| == 0 then []
    else
      var before := emitted[..|emitted| - 1];
      Restored(before) + Genuine(emitted[|emitted| - 1], SeedLeft(before))
  }

  predicate IsSeedTail(b: Bytes) {
    |b| <= |REOPEN| && b == REOPEN[|REOPEN| - |b|..]
  }

  ghost predicate Conserved(t: Trace, pushed: Bytes) {
    var left := SeedLeft(t.emitted);
    && left <= |t.chunker.buffer|
    && IsSeedTail(t.chunker.buffer[..left])
    && Restored(t.emitted) + t.chunker.buffer[left..] == pushed
  }

  lemma {:induction false} MarkerAlwaysAgrees(calls: seq<Call>, min: nat, max: nat)
    ensures MarkerAgrees(Run(calls, min, max).chunker)
  {
    if |calls| > 0 {
      MarkerAlwaysAgrees(calls[..|calls| - 1], min, max);
      var c := Run(calls[..|calls| - 1], min, max).chunker;
      if calls[|calls| - 1].Push? {
        PushKeepsMarker(c, Lines(calls[|calls| - 1].text));
      }
    }
  }

  lemma {:induction false} PushKeepsMarker(c: Chunker, lines: seq<Bytes>)
    requires MarkerAgrees(c)
    ensures MarkerAgrees(PushLines(c, lines))
  {
    if |lines| > 0 {
      PushKeepsMarker(c, lines[..|lines| - 1]);
    }
  }

  // A forced flush seals the whole buffer and seeds the next one.
  lemma ForcedFlushConserves(t: Trace, pushed: Bytes)
    requires Conserved(t, pushed)
    ensures Conserved(Trace(t.chunker.(buffer := REOPEN),
                            t.emitted + [Emission(t.chunker.buffer + FORCED_CLOSE, true)]), pushed)
  {
    var e := Emission(t.chunker.buffer + FORCED_CLOSE, true);
    assert (t.emitted + [e])[..|t.emitted|] == t.emitted;
    assert e.chunk[..|e.chunk| - |FORCED_CLOSE|] == t.chunker.buffer;
    assert Genuine(e, SeedLeft(t.emitted)) == t.chunker.buffer[SeedLeft(t.emitted)..];
  }

  lemma CutSplitsBuffer(buffer: Bytes, left: nat, at: nat)
    requires left <= |buffer| && at <= |buffer|
    ensures var left' := if left > at then left - at else 0;
            && buffer[..at][Min(left, at)..] + buffer[at..][left'..] == buffer[left..]
            && (left > at ==> buffer[at..][..left'] == buffer[..left][at..])
  {
    if left <= at {
      assert buffer[..at][left..] == buffer[left..at];
      assert buffer[left..at] + buffer[at..] == buffer[left..];
    } else {
      assert buffer[..at][at..] == [] && buffer[at..][left - at..] == buffer[left..];
      assert buffer[at..][..left - at] == buffer[..left][at..];
    }
  }

  lemma SeedTailTail(b: Bytes, at: nat)
    requires IsSeedTail(b) && at <= |b|
    ensures IsSeedTail(b[at..])
  {
  }

  // Cutting the buffer in two moves bytes from one side to the other.
  lemma CutConserves(t: Trace, pushed: Bytes, at: nat)
    requires Conserved(t, pushed) && at <= |t.chunker.buffer|
    ensures Conserved(Trace(t.chunker.(buffer := t.chunker.buffer[at..]),
                            t.emitted + [Emission(t.chunker.buffer[..at], false)]), pushed)
  {
    hide SeedLeft, Restored, IsSeedTail;
    var buffer, left := t.chunker.buffer, SeedLeft(t.emitted);
    CutExtends(t.emitted, buffer[..at], left);
    CutSplitsBuffer(buffer, left, at);
    if left > at {
      SeedTailTail(buffer[..left], at);
      assert buffer[at..][..left - at] == buffer[..left][at..];
    } else {
      NoSeed();
      assert buffer[at..][..0] == [];
    }
    ConcatAssociates(Restored(t.emitted), buffer[..at][Min(left, at)..],
        buffer[at..][if left > at then left - at else 0..]);
  }

  lemma NoSeed()
    ensures IsSeedTail([])
  {
  }

  lemma ConcatAssociates(a: Bytes, b: Bytes, c: Bytes)
    ensures (a + b) + c == a + (b + c)
  {
  }

  lemma CutExtends(emitted: seq<Emission>, chunk: Bytes, left: nat)
    requires left == SeedLeft(emitted)
    ensures SeedLeft(emitted + [Emission(chunk, false)]) == if left > |chunk| then left - |chunk| else 0
    ensures Restored(emitted + [Emission(chunk, false)]) == Restored(emitted) + chunk[Min(left, |chunk|)..]
  {
    assert (emitted + [Emission(chunk, false)])[..|emitted|] == emitted;
  }

  // Nothing is lost, duplicated or reordered: the chunks with the synthetic
  // text deleted, followed by the buffer, are exactly what was pushed.
  lemma {:induction false} Conservation(calls: seq<Call>, min: nat, max: nat)
    ensures Conserved(Run(calls, min, max), Pushed(calls))
  {
    if |calls| > 0 {
      var before := calls[..|calls| - 1];
      Conservation(before, min, max);
      MarkerAlwaysAgrees(before, min, max);
      var t := Run(before, min, max);
      match calls[|calls| - 1]
      case Push(text) =>
        PushConserves(t, Pushed(before), text);
      case Flush => FlushConserves(t, Pushed(before), min, max);
      case Remaining =>
        var n := |t.chunker.buffer|;
        CutConserves(t, Pushed(before), n);
        assert t.chunker.buffer[..n] == t.chunker.buffer && t.chunker.buffer[n..] == [];
    }
  }

  lemma PushConserves(t: Trace, pushed: Bytes, text: Bytes)
    requires Conserved(t, pushed)
    ensures Conserved(Trace(PushText(t.chunker, text), t.emitted), pushed + text)
  {
    hide SeedLeft, Restored, IsSeedTail, PushText;
    PushAppends(t.chunker, text);
    var buffer, left := t.chunker.buffer, SeedLeft(t.emitted);
    assert (buffer + text)[..left] == buffer[..left];
    assert (buffer + text)[left..] == buffer[left..] + text;
    ConcatAssociates(Restored(t.emitted), buffer[left..], text);
  }

  lemma FlushConserves(t: Trace, pushed: Bytes, min: nat, max: nat)
    requires Conserved(t, pushed) && MarkerAgrees(t.chunker)
    ensures Conserved(Perform(t, Flush, min, max), pushed)
  {
    var flush := TryFlush(t.chunker, min, max);
    if flush.chunk.Some? {
      if t.chunker.inCodeFence {
        ReopenSeed();
        ForcedFlushConserves(t, pushed);
      } else {
        BreakPointInRange(t.chunker.buffer, min, max);
        CutConserves(t, pushed, BreakPoint(t.chunker.buffer, min, max).value);
      }
    }
  }

  // ---------- UTF-8 safety ----------

  ghost predicate ValidPushes(calls: seq<Call>) {
    forall i :: 0 <= i < |calls| && calls[i].Push? ==> Valid(calls[i].text)
  }

  // Valid text in, valid text out: every chunk and the buffer, after any run.
  lemma {:induction false} ChunksAreValid(calls: seq<Call>, min: nat, max: nat)
    requires ValidPushes(calls)
    ensures var t := Run(calls, min, max);
            Valid(t.chunker.buffer) && forall i :: 0 <= i < |t.emitted| ==> Valid(t.emitted[i].chunk)
  {
    if |calls| > 0 {
      hide Valid, TryFlush, PushText;
      var before := calls[..|calls| - 1];
      ChunksAreValid(before, min, max);
      MarkerAlwaysAgrees(before, min, max);
      var c := Run(before, min, max).chunker;
      match calls[|calls| - 1]
      case Push(text) =>
        PushAppends(c, text);
        ValidConcat(c.buffer, text);
      case Flush =>
        FlushStaysValid(c, min, max);
      case Remaining =>
        AsciiIsValid([]);
    }
  }

  lemma FlushStaysValid(c: Chunker, min: nat, max: nat)
    requires Valid(c.buffer) && MarkerAgrees(c)
    ensures var f := TryFlush(c, min, max);
            Valid(f.next.buffer) && (f.chunk.Some? ==> Valid(f.chunk.value))
  {
    hide Valid, BreakPoint;
    if c.inCodeFence {
      ReopenSeed();
      AsciiIsValid(REOPEN);
      AsciiIsValid(FORCED_CLOSE);
      ValidConcat(c.buffer, FORCED_CLOSE);
    } else if BreakPoint(c.buffer, min, max).Some? {
      BreakPointAtBoundary(c.buffer, min, max);
      ValidSplit(c.buffer, BreakPoint(c.buffer, min, max).value);
    }
  }

  // ---------- fence state ----------

  // How many of the pushed line fragments open or close a fence
  function FenceLines(lines: seq<Bytes>): nat {
    if |lines| == 0 then 0
    else FenceLines(lines[..|lines| - 1]) + (if IsFenceLine(lines[|lines| - 1]) then 1 else 0)
  }

  function PushedFenceLines(calls: seq<Call>): nat {
    if |calls| == 0 then 0
    else PushedFenceLines(calls[..|calls| - 1])
         + (if calls[|calls| - 1].Push? then FenceLines(Lines(calls[|calls| - 1].text)) else 0)
  }

  lemma OddSum(a: nat, b: nat)
    ensures (a + b) % 2 == 1 <==> (a % 2 == 1) != (b % 2 == 1)
  {
  }

  lemma LineTogglesFence(c: Chunker, line: Bytes)
    requires MarkerAgrees(c)
    ensures PushLine(c, line).inCodeFence == (c.inCodeFence != IsFenceLine(line))
  {
  }

  lemma {:induction false} PushCountsFences(c: Chunker, lines: seq<Bytes>)
    requires MarkerAgrees(c)
    ensures PushLines(c, lines).inCodeFence == (c.inCodeFence != (FenceLines(lines) % 2 == 1))
  {
    hide PushLine, IsFenceLine;
    if |lines| > 0 {
      var before, last := lines[..|lines| - 1], lines[|lines| - 1];
      PushCountsFences(c, before);
      PushKeepsMarker(c, before);
      LineTogglesFence(PushLines(c, before), last);
      OddSum(FenceLines(before), if IsFenceLine(last) then 1 else 0);
    }
  }

  // One call toggles the fence state once per pushed fence line.
  lemma CallTogglesFence(t: Trace, call: Call, min: nat, max: nat)
    requires MarkerAgrees(t.chunker)
    ensures Perform(t, call, min, max).chunker.inCodeFence
         == (t.chunker.inCodeFence != (call.Push? && FenceLines(Lines(call.text)) % 2 == 1))
  {
    if call.Push? {
      PushCountsFences(t.chunker, Lines(call.text));
    }
  }

  lemma {:induction false} InFenceIsParity(calls: seq<Call>, min: nat, max: nat)
    ensures Run(calls, min, max).chunker.inCodeFence <==> PushedFenceLines(calls) % 2 == 1
  {
    hide FenceLines, Lines, PushText, TryFlush, FlushRemaining, PushLines, MarkerAgrees;
    if |calls| > 0 {
      var before, last := calls[..|calls| - 1], calls[|calls| - 1];
      InFenceIsParity(before, min, max);
      MarkerAlwaysAgrees(before, min, max);
      CallTogglesFence(Run(before, min, max), last, min, max);
      OddSum(PushedFenceLines(before), if last.Push? then FenceLines(Lines(last.text)) else 0);
    }
  }

  // The fence state is the parity of the pushed fence lines; no flush, forced
  // or not, ever changes it.
  lemma FenceStateIsParity(calls: seq<Call>, min: nat, max: nat)
    ensures var c := Run(calls, min, max).chunker;
            && (c.inCodeFence <==> PushedFenceLines(calls) % 2 == 1)
            && (c.fenceMarker == if PushedFenceLines(calls) % 2 == 1 then FENCE else [])
  {
    MarkerAlwaysAgrees(calls, min, max);
    InFenceIsParity(calls, min, max);
  }

  // What one more call does to a run
  lemma RunExtends(calls: seq<Call>, call: Call, min: nat, max: nat)
    ensures Run(calls + [call], min, max) == Perform(Run(calls, min, max), call, min, max)
    ensures Pushed(calls + [call]) == Pushed(calls) + (if call.Push? then call.text else [])
  {
    assert (calls + [call])[..|calls|] == calls;
  }

  // Inside a fence the only chunk try_flush can return is the whole buffer
  // closed by force, and the next buffer starts by re-opening the fence.
  lemma InsideFenceOnlyForcedFlush(calls: seq<Call>, min: nat, max: nat)
    requires PushedFenceLines(calls) % 2 == 1
    ensures var before, after := Run(calls, min, max), Run(calls + [Flush], min, max);
            var buffer := before.chunker.buffer;
            if min <= |buffer| && max <= |buffer| then
              && after.chunker == Chunker([0x60, 0x60, 0x60, 0x0A], true, [0x60, 0x60, 0x60])
              && after.emitted == before.emitted + [Emission(buffer + [0x0A, 0x60, 0x60, 0x60, 0x0A], true)]
            else after == before
  {
    FenceStateIsParity(calls, min, max);
    ReopenSeed();
    RunExtends(calls, Flush, min, max);
  }

  // Outside a fence a buffer of at least min bytes is cut in two at its break
  // point, and a buffer without one is left alone.
  lemma OutsideFenceFlush(calls: seq<Call>, min: nat, max: nat)
    requires PushedFenceLines(calls) % 2 == 0
    ensures var before, after := Run(calls, min, max), Run(calls + [Flush], min, max);
            var buffer := before.chunker.buffer;
            var at := BreakPoint(buffer, min, max);
            if min <= |buffer| && at.Some? then
              && at.value <= |buffer|
              && after.chunker == before.chunker.(buffer := buffer[at.value..])
              && after.emitted == before.emitted + [Emission(buffer[..at.value], false)]
            else after == before
  {
    FenceStateIsParity(calls, min, max);
    BreakPointInRange(Run(calls, min, max).chunker.buffer, min, max);
    RunExtends(calls, Flush, min, max);
  }

  // ---------- the final flush ----------

  // Whatever was called before, flush_remaining hands over the whole buffer as
  // it is, or nothing when the buffer is empty, and leaves nothing behind.
  lemma RemainingHandsOver(calls: seq<Call>, min: nat, max: nat)
    ensures var before, after := Run(calls, min, max), Run(calls + [Remaining], min, max);
            var rest := before.chunker.buffer;
            && after.chunker == before.chunker.(buffer := [])
            && after.emitted == before.emitted + (if rest == [] then [] else [Emission(rest, false)])
  {
    RunExtends(calls, Remaining, min, max);
  }

  // A stream that ends in flush_remaining has sent everything that was pushed.
  lemma EverythingIsSent(calls: seq<Call>, min: nat, max: nat)
    ensures Restored(Run(calls + [Remaining], min, max).emitted) == Pushed(calls)
  {
    RemainingHandsOver(calls, min, max);
    RunExtends(calls, Remaining, min, max);
    Conservation(calls + [Remaining], min, max);
    assert SeedLeft(Run(calls + [Remaining], min, max).emitted) == 0;
    assert Pushed(calls) + [] == Pushed(calls);
  }
}
