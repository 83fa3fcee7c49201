/** The OpenAI-compatible forwarder: stream events become chunks whose tool
    calls are numbered within each LLM iteration. */
module ToolIndexer {
  import opened Utf8
  import opened Wrappers
  import opened StreamEvents

  // One chat.completion.chunk, as far as the client can tell them apart
  datatype Chunk =
    | Content(text: Bytes)
    | ToolStart(index: nat, id: string, name: string)
    | ToolArguments(index: nat, arguments: Bytes)
    | Finish
    | DoneMarker

  // saturating_sub(1)
  function Previous(index: nat): nat {
    if index == 0 then 0 else index - 1
  }

  function NextIndex(index: nat, e: StreamEvent): nat {
    match e
    case ToolUseStart(_, _) => index + 1
    case ContentComplete(reason, _) => if reason == ToolUse then 0 else index
    case _ => index
  }

  function ChunkOf(index: nat, e: StreamEvent): Option<Chunk> {
    match e
    case TextDelta(text) => Some(Content(text))
    case ToolUseStart(id, name) => Some(ToolStart(index, id, name))
    case ToolInputDelta(text) => Some(ToolArguments(Previous(index), text))
    case _ => None
  }

  function IndexAfter(index: nat, events: seq<StreamEvent>): nat {
    if |events| == 0 then index
    else NextIndex(IndexAfter(index, events[..|events| - 1]), events[|events| - 1])
  }

  function Emitted(chunk: Option<Chunk>): seq<Chunk> {
    if chunk.Some? then [chunk.value] else []
  }

  // The chunks for a run of events that starts with the given index
  function Chunks(index: nat, events: seq<StreamEvent>): seq<Chunk> {
    if |events| == 0 then []
    else
      var before := events[..|events| - 1];
      Chunks(index, before) + Emitted(ChunkOf(IndexAfter(index, before), events[|events| - 1]))
  }

  // ---------- what the client puts together ----------

  datatype ToolCall = ToolCall(id: string, name: string, input: Bytes)

  // The calls of one iteration: each input delta belongs to the last start
  function Calls(events: seq<StreamEvent>): seq<ToolCall> {
    if |events| == 0 then [] else Extended(Calls(events[..|events| - 1]), events[|events| - 1])
  }

  function Extended(calls: seq<ToolCall>, e: StreamEvent): seq<ToolCall> {
    match e
    case ToolUseStart(id, name) => calls + [ToolCall(id, name, [])]
    case ToolInputDelta(text) =>
      if |calls| == 0 then calls
      else calls[|calls| - 1 := calls[|calls| - 1].(input := calls[|calls| - 1].input + text)]
    case _ => calls
  }

  // Input that came before any call was started
  function Orphans(events: seq<StreamEvent>): Bytes {
    if |events| == 0 then []
    else Orphans(events[..|events| - 1]) + Orphaned(Calls(events[..|events| - 1]), events[|events| - 1])
  }

  function Orphaned(calls: seq<ToolCall>, e: StreamEvent): Bytes {
    if e.ToolInputDelta? && |calls| == 0 then e.text else []
  }

  // The starts the client sees, in order
  function Starts(chunks: seq<Chunk>): seq<Chunk> {
    if |chunks| == 0 then []
    else Starts(chunks[..|chunks| - 1]) + (if chunks[|chunks| - 1].ToolStart? then [chunks[|chunks| - 1]] else [])
  }

  // The arguments the client concatenates under one index
  function Arguments(chunks: seq<Chunk>, index: nat): Bytes {
    if |chunks| == 0 then []
    else
      var c := chunks[|chunks| - 1];
      Arguments(chunks[..|chunks| - 1], index) + (if c.ToolArguments? && c.index == index then c.arguments else [])
  }

  function Contents(chunks: seq<Chunk>): Bytes {
    if |chunks| == 0 then []
    else Contents(chunks[..|chunks| - 1]) + (if chunks[|chunks| - 1].Content? then chunks[|chunks| - 1].text else [])
  }

  function Texts(events: seq<StreamEvent>): Bytes {
    if |events| == 0 then []
    else Texts(events[..|events| - 1]) + (if events[|events| - 1].TextDelta? then events[|events| - 1].text else [])
  }

  // Within one LLM iteration the index is never reset.
  ghost predicate OneIteration(events: seq<StreamEvent>) {
    forall i :: 0 <= i < |events| && events[i].ContentComplete? ==> events[i].stopReason != ToolUse
  }

  lemma AppendChunk(chunks: seq<Chunk>, c: Chunk)
    ensures Starts(chunks + [c]) == Starts(chunks) + (if c.ToolStart? then [c] else [])
    ensures forall index: nat ::
            Arguments(chunks + [c], index)
            == Arguments(chunks, index) + (if c.ToolArguments? && c.index == index then c.arguments else [])
    ensures Contents(chunks + [c]) == Contents(chunks) + (if c.Content? then c.text else [])
  {
    assert (chunks + [c])[..|chunks|] == chunks;
  }

  // Start number i carries index i and the id and name of call i.
  ghost predicate StartsMatch(starts: seq<Chunk>, calls: seq<ToolCall>) {
    && |starts| == |calls|
    && forall i :: 0 <= i < |calls| ==> starts[i] == ToolStart(i, calls[i].id, calls[i].name)
  }

  // The client's arguments under index i are the input of call i; what came
  // before the first start ends up in call 0.
  ghost predicate ArgumentsMatch(chunks: seq<Chunk>, calls: seq<ToolCall>, orphans: Bytes) {
    && (forall i: nat :: 0 < i < |calls| ==> Arguments(chunks, i) == calls[i].input)
    && (forall i: nat :: 0 < i && i >= |calls| ==> Arguments(chunks, i) == [])
    && Arguments(chunks, 0) == orphans + (if |calls| > 0 then calls[0].input else [])
  }

  ghost predicate Reassembled(chunks: seq<Chunk>, calls: seq<ToolCall>, orphans: Bytes) {
    StartsMatch(Starts(chunks), calls) && ArgumentsMatch(chunks, calls, orphans)
  }

  lemma StartReassembles(chunks: seq<Chunk>, calls: seq<ToolCall>, orphans: Bytes, e: StreamEvent)
    requires Reassembled(chunks, calls, orphans) && e.ToolUseStart?
    ensures Reassembled(chunks + Emitted(ChunkOf(|calls|, e)), Extended(calls, e), orphans)
  {
    hide Starts, Arguments;
    AppendChunk(chunks, ToolStart(|calls|, e.id, e.name));
    assert forall i: nat :: Arguments(chunks, i) + [] == Arguments(chunks, i);
  }

  lemma InputReassembles(chunks: seq<Chunk>, calls: seq<ToolCall>, orphans: Bytes, e: StreamEvent)
    requires Reassembled(chunks, calls, orphans) && e.ToolInputDelta?
    ensures Reassembled(chunks + Emitted(ChunkOf(|calls|, e)), Extended(calls, e), orphans + Orphaned(calls, e))
  {
    hide Starts, Arguments;
    var n := |calls|;
    AppendChunk(chunks, ToolArguments(Previous(n), e.text));
    assert Starts(chunks) + [] == Starts(chunks);
    assert orphans + [] == orphans && (orphans + e.text) + [] == orphans + e.text;
    assert forall i: nat :: Arguments(chunks, i) + [] == Arguments(chunks, i);
    if n == 1 {
      assert orphans + (calls[0].input + e.text) == (orphans + calls[0].input) + e.text;
    }
  }

  lemma OtherReassembles(chunks: seq<Chunk>, calls: seq<ToolCall>, orphans: Bytes, e: StreamEvent)
    requires Reassembled(chunks, calls, orphans) && !e.ToolUseStart? && !e.ToolInputDelta?
    ensures Reassembled(chunks + Emitted(ChunkOf(|calls|, e)), Extended(calls, e), orphans)
  {
    hide Starts, Arguments;
    if e.TextDelta? {
      AppendChunk(chunks, Content(e.text));
      assert Starts(chunks) + [] == Starts(chunks);
      assert forall i: nat :: Arguments(chunks, i) + [] == Arguments(chunks, i);
    } else {
      assert chunks + [] == chunks;
    }
  }

  lemma StepReassembles(chunks: seq<Chunk>, calls: seq<ToolCall>, orphans: Bytes, e: StreamEvent)
    requires Reassembled(chunks, calls, orphans)
    requires e.ContentComplete? ==> e.stopReason != ToolUse
    ensures Reassembled(chunks + Emitted(ChunkOf(|calls|, e)), Extended(calls, e), orphans + Orphaned(calls, e))
    ensures NextIndex(|calls|, e) == |Extended(calls, e)|
  {
    hide Reassembled, ChunkOf;
    assert orphans + [] == orphans;
    if e.ToolUseStart? {
      StartReassembles(chunks, calls, orphans, e);
    } else if e.ToolInputDelta? {
      InputReassembles(chunks, calls, orphans, e);
    } else {
      OtherReassembles(chunks, calls, orphans, e);
    }
  }

  // Grouping by index and concatenating gives back the calls in order: ids,
  // names and full inputs, numbered 0 to k-1.
  lemma {:induction false} CallsReassemble(events: seq<StreamEvent>)
    requires OneIteration(events)
    ensures IndexAfter(0, events) == |Calls(events)|
    ensures Reassembled(Chunks(0, events), Calls(events), Orphans(events))
  {
    if |events| > 0 {
      hide Reassembled, Extended, Orphaned, NextIndex, ChunkOf;
      var before, e := events[..|events| - 1], events[|events| - 1];
      CallsReassemble(before);
      StepReassembles(Chunks(0, before), Calls(before), Orphans(before), e);
    }
  }

  // ---------- one chunk for one event ----------

  // The events that give a chunk
  function Forwarded(events: seq<StreamEvent>): seq<StreamEvent> {
    if |events| == 0 then []
    else
      var e := events[|events| - 1];
      Forwarded(events[..|events| - 1])
      + (if e.TextDelta? || e.ToolUseStart? || e.ToolInputDelta? then [e] else [])
  }

  // The chunk carries what the event carries.
  predicate Carries(c: Chunk, e: StreamEvent) {
    match e
    case TextDelta(text) => c == Content(text)
    case ToolUseStart(id, name) => c.ToolStart? && c.id == id && c.name == name
    case ToolInputDelta(text) => c.ToolArguments? && c.arguments == text
    case _ => false
  }

  // Text deltas, starts and input deltas give one chunk each, in their order,
  // and no other event gives any.
  lemma {:induction false} ChunksFollowEvents(index: nat, events: seq<StreamEvent>)
    ensures |Chunks(index, events)| == |Forwarded(events)|
    ensures forall k :: 0 <= k < |Forwarded(events)| ==> Carries(Chunks(index, events)[k], Forwarded(events)[k])
  {
    if |events| > 0 {
      hide IndexAfter;
      ChunksFollowEvents(index, events[..|events| - 1]);
    }
  }

  // ---------- a whole response, of any number of iterations ----------

  predicate EndsIteration(e: StreamEvent) {
    e.ContentComplete? && e.stopReason == ToolUse
  }

  // The response cut after each call that ended in tool use; those ends are left out.
  function Iterations(events: seq<StreamEvent>): (its: seq<seq<StreamEvent>>)
    ensures |its| > 0
  {
    if |events| == 0 then [[]]
    else
      var its, e := Iterations(events[..|events| - 1]), events[|events| - 1];
      if EndsIteration(e) then its + [[]] else its[|its| - 1 := its[|its| - 1] + [e]]
  }

  // What one iteration sends under an index: the input of its call of that number,
  // and under 0 also what came before its first start
  function Share(it: seq<StreamEvent>, index: nat): Bytes {
    (if index == 0 then Orphans(it) else []) + (if index < |Calls(it)| then Calls(it)[index].input else [])
  }

  function Shares(its: seq<seq<StreamEvent>>, index: nat): Bytes {
    if |its| == 0 then [] else Shares(its[..|its| - 1], index) + Share(its[|its| - 1], index)
  }

  lemma SharesAppend(its: seq<seq<StreamEvent>>, it: seq<StreamEvent>, index: nat)
    ensures Shares(its + [it], index) == Shares(its, index) + Share(it, index)
  {
    assert (its + [it])[..|its|] == its;
  }

  lemma IterationShare(it: seq<StreamEvent>, index: nat)
    requires OneIteration(it)
    ensures Arguments(Chunks(0, it), index) == Share(it, index)
  {
    hide Chunks, Calls, Orphans, Arguments, Starts, OneIteration;
    CallsReassemble(it);
    assert Orphans(it) + [] == Orphans(it);
    if 0 < index < |Calls(it)| {
      assert [] + Calls(it)[index].input == Calls(it)[index].input;
    }
  }

  // Nothing in the chunks tells iterations apart: what the client gathers under an
  // index is the shares of all iterations, one after the other.
  lemma {:induction false} ResponseGathers(events: seq<StreamEvent>, index: nat)
    ensures Arguments(Chunks(0, events), index) == Shares(Iterations(events), index)
    ensures var its := Iterations(events);
            && IndexAfter(0, events) == IndexAfter(0, its[|its| - 1])
            && forall k :: 0 <= k < |its| ==> OneIteration(its[k])
  {
    hide Chunks, IndexAfter, Arguments, Share, Shares;
    if |events| == 0 {
      NoChunks();
      NoShares(index);
      var none: seq<seq<StreamEvent>> := [[]];
      SharesAppend([], [], index);
      assert [] + none == none;
    } else {
      var before, e := events[..|events| - 1], events[|events| - 1];
      var its := Iterations(before);
      ResponseGathers(before, index);
      assert events == before + [e];
      SnocChunks(0, before, e);
      if EndsIteration(e) {
        NoChunks();
        NoShares(index);
        SharesAppend(its, [], index);
        assert Chunks(0, before) + [] == Chunks(0, before);
        assert Shares(its, index) + [] == Shares(its, index);
      } else {
        GathersMore(before, its, e, index);
      }
    }
  }

  lemma NoShares(index: nat)
    ensures Share([], index) == [] && Shares([], index) == [] && Arguments([], index) == []
  {
  }

  lemma GathersMore(before: seq<StreamEvent>, its: seq<seq<StreamEvent>>, e: StreamEvent, index: nat)
    requires |its| > 0 && !EndsIteration(e) && OneIteration(its[|its| - 1])
    requires Arguments(Chunks(0, before), index) == Shares(its, index)
    requires IndexAfter(0, before) == IndexAfter(0, its[|its| - 1])
    ensures var grown := its[|its| - 1] + [e];
            && OneIteration(grown) && IndexAfter(0, before + [e]) == IndexAfter(0, grown)
            && Arguments(Chunks(0, before + [e]), index) == Shares(its[|its| - 1 := grown], index)
  {
    hide Chunks, IndexAfter, Arguments, Share, Shares, ChunkOf, Emitted, NextIndex;
    var front, last := its[..|its| - 1], its[|its| - 1];
    StaysOneIteration(last, e);
    hide OneIteration, EndsIteration;
    SnocChunks(0, before, e);
    SnocChunks(0, last, e);
    var more := Emitted(ChunkOf(IndexAfter(0, last), e));
    ArgumentsConcat(Chunks(0, before), more, index);
    ArgumentsConcat(Chunks(0, last), more, index);
    IterationShare(last, index);
    IterationShare(last + [e], index);
    SharesAppend(front, last, index);
    SharesAppend(front, last + [e], index);
    assert its == front + [last] && its[|its| - 1 := last + [e]] == front + [last + [e]];
    Regroup(Shares(front, index), Share(last, index), Arguments(more, index));
  }

  lemma StaysOneIteration(it: seq<StreamEvent>, e: StreamEvent)
    requires OneIteration(it) && !EndsIteration(e)
    ensures OneIteration(it + [e])
  {
  }

  lemma Regroup(a: Bytes, b: Bytes, c: Bytes)
    ensures (a + b) + c == a + (b + c)
  {
  }

  lemma ArgumentsSnoc(chunks: seq<Chunk>, c: Chunk, index: nat)
    ensures Arguments(chunks + [c], index)
         == Arguments(chunks, index) + (if c.ToolArguments? && c.index == index then c.arguments else [])
  {
    assert (chunks + [c])[..|chunks|] == chunks;
  }

  lemma {:induction false} ArgumentsConcat(a: seq<Chunk>, b: seq<Chunk>, index: nat)
    ensures Arguments(a + b, index) == Arguments(a, index) + Arguments(b, index)
  {
    hide Arguments;
    if |b| == 0 {
      NoShares(index);
      assert a + b == a && b == [];
    } else {
      var front, c := b[..|b| - 1], b[|b| - 1];
      ArgumentsConcat(a, front, index);
      ArgumentsSnoc(a + front, c, index);
      ArgumentsSnoc(front, c, index);
      assert a + b == (a + front) + [c] && b == front + [c];
    }
  }

  // Every call of the response is what the client gathers under its index.
  ghost predicate InputsIntact(events: seq<StreamEvent>) {
    forall k: nat, i: nat :: k < |Iterations(events)| && i < |Calls(Iterations(events)[k])|
                             ==> Arguments(Chunks(0, events), i) == Calls(Iterations(events)[k])[i].input
  }

  // Of two calls of the same number in different iterations neither has input.
  ghost predicate NumbersApart(its: seq<seq<StreamEvent>>) {
    forall k: nat, l: nat, i: nat :: k < |its| && l < |its| && k != l && i < |Calls(its[k])| && i < |Calls(its[l])|
                                     ==> Calls(its[k])[i].input == [] == Calls(its[l])[i].input
  }

  ghost predicate StartsFirst(its: seq<seq<StreamEvent>>) {
    forall k: nat :: k < |its| ==> Orphans(its[k]) == []
  }

  ghost predicate NoCalls(its: seq<seq<StreamEvent>>) {
    forall k: nat :: k < |its| ==> Calls(its[k]) == []
  }

  // The inputs come back unchanged exactly when in every iteration a start precedes
  // all input, and no two iterations give input to calls of the same number.
  lemma InputsIntactIff(events: seq<StreamEvent>)
    ensures var its := Iterations(events);
            InputsIntact(events) <==> NoCalls(its) || (StartsFirst(its) && NumbersApart(its))
  {
    hide Chunks, Arguments, Share, Shares, Calls, Orphans, Iterations;
    var its := Iterations(events);
    forall k: nat, i: nat | k < |its| && i < |Calls(its[k])|
      ensures Arguments(Chunks(0, events), i) == Calls(its[k])[i].input <==> OnlyShare(its, k, i)
    {
      ResponseGathers(events, i);
      ShareAloneIff(its, k, i);
    }
    if InputsIntact(events) && !NoCalls(its) {
      var k: nat :| k < |its| && Calls(its[k]) != [];
      assert OnlyShare(its, k, 0);
      OnlyShareStarts(its, k);
      forall k: nat, l: nat, i: nat | k < |its| && l < |its| && k != l && i < |Calls(its[k])| && i < |Calls(its[l])|
        ensures Calls(its[k])[i].input == [] == Calls(its[l])[i].input
      {
        assert OnlyShare(its, k, i) && OnlyShare(its, l, i);
        ShareParts(its[k], i);
        ShareParts(its[l], i);
      }
    } else if StartsFirst(its) && NumbersApart(its) {
      forall k: nat, i: nat | k < |its| && i < |Calls(its[k])| ensures OnlyShare(its, k, i) {
        forall l: nat | l < |its| ensures l == k || Share(its[l], i) == [] {
          ShareParts(its[l], i);
        }
      }
    }
  }

  // Under index i there is nothing but the input of call i of iteration k.
  ghost predicate OnlyShare(its: seq<seq<StreamEvent>>, k: nat, i: nat)
    requires k < |its|
  {
    && (i == 0 ==> Orphans(its[k]) == [])
    && forall l: nat :: l < |its| ==> l == k || Share(its[l], i) == []
  }

  lemma ShareParts(it: seq<StreamEvent>, i: nat)
    ensures Share(it, i) == [] <==> (i == 0 ==> Orphans(it) == []) && (i < |Calls(it)| ==> Calls(it)[i].input == [])
  {
  }

  lemma OnlyShareStarts(its: seq<seq<StreamEvent>>, k: nat)
    requires k < |its| && OnlyShare(its, k, 0)
    ensures StartsFirst(its)
  {
    hide Share, Orphans, Calls;
    forall l: nat | l < |its| ensures Orphans(its[l]) == [] {
      ShareParts(its[l], 0);
    }
  }

  lemma ShareAloneIff(its: seq<seq<StreamEvent>>, k: nat, i: nat)
    requires k < |its| && i < |Calls(its[k])|
    ensures Shares(its, i) == Calls(its[k])[i].input <==> OnlyShare(its, k, i)
  {
    hide Shares, Orphans, Calls;
    SharesAround(its, k, i);
    var a, b := its[..k], its[k + 1..];
    var early := if i == 0 then Orphans(its[k]) else [];
    var input := Calls(its[k])[i].input;
    assert Share(its[k], i) == early + input;
    hide Share;
    SharesEmptyIff(a, i);
    SharesEmptyIff(b, i);
    AroundIsAlone(Shares(a, i), early, input, Shares(b, i));
    if OnlyShare(its, k, i) {
      assert forall l: nat :: l < |b| ==> b[l] == its[k + 1 + l];
    }
    if Shares(its, i) == input {
      forall l: nat | l < |its| ensures l == k || Share(its[l], i) == [] {
        if l < k {
          assert its[l] == a[l];
        } else if l > k {
          assert its[l] == b[l - k - 1];
        }
      }
    }
  }

  lemma AroundIsAlone(a: Bytes, early: Bytes, input: Bytes, b: Bytes)
    ensures a + (early + input) + b == input <==> a == [] && early == [] && b == []
  {
    if a == [] && early == [] && b == [] {
      assert a + (early + input) + b == input;
    } else {
      assert |a + (early + input) + b| > |input|;
    }
  }

  lemma {:induction false} SharesEmptyIff(its: seq<seq<StreamEvent>>, i: nat)
    ensures Shares(its, i) == [] <==> forall l: nat :: l < |its| ==> Share(its[l], i) == []
  {
    hide Share;
    if |its| > 0 {
      SharesEmptyIff(its[..|its| - 1], i);
      assert forall l: nat :: l < |its| - 1 ==> its[..|its| - 1][l] == its[l];
    }
  }

  lemma {:induction false} SharesAround(its: seq<seq<StreamEvent>>, k: nat, i: nat)
    requires k < |its|
    ensures Shares(its, i) == Shares(its[..k], i) + Share(its[k], i) + Shares(its[k + 1..], i)
  {
    hide Share, Shares;
    var n := |its| - 1;
    SharesAppend(its[..n], its[n], i);
    assert its[..n] + [its[n]] == its;
    if k == n {
      NoShares(i);
      assert its[k + 1..] == [];
      assert Shares(its, i) + [] == Shares(its, i);
    } else {
      SharesAround(its[..n], k, i);
      assert its[..n][..k] == its[..k] && its[..n][k + 1..] == its[k + 1..n];
      SharesAppend(its[k + 1..n], its[n], i);
      assert its[k + 1..n] + [its[n]] == its[k + 1..];
      Regroup(Shares(its[..k], i) + Share(its[k], i), Shares(its[k + 1..n], i), Share(its[n], i));
    }
  }

  // Two iterations with one call each: the client gathers both inputs under 0.
  lemma IterationsMerge(x: string, y: string, first: Bytes, second: Bytes, usage: TokenUsage)
    requires first != [] || second != []
    ensures var events := [ToolUseStart(x, x), ToolInputDelta(first), ContentComplete(ToolUse, usage),
                           ToolUseStart(y, y), ToolInputDelta(second)];
            Arguments(Chunks(0, events), 0) == first + second && !InputsIntact(events)
  {
    hide Chunks, Arguments, Calls, Orphans, Iterations, Share, Shares, IndexAfter, ChunkOf;
    var a, b := OneCall(x, first), OneCall(y, second);
    var events := a + [ContentComplete(ToolUse, usage)] + b;
    assert events == [ToolUseStart(x, x), ToolInputDelta(first), ContentComplete(ToolUse, usage),
                      ToolUseStart(y, y), ToolInputDelta(second)];
    OneCallReads(x, first);
    OneCallReads(y, second);
    IterationsAreIndependent(a, usage, b);
    ArgumentsConcat(Chunks(0, a), Chunks(0, b), 0);
    TwoIterations(x, y, first, second, usage);
    var both := first + second;
    assert |both| == |first| + |second|;
    assert both != first || both != second;
    assert Calls(Iterations(events)[0])[0].input == first && Calls(Iterations(events)[1])[0].input == second;
  }

  function OneCall(x: string, input: Bytes): seq<StreamEvent> {
    [ToolUseStart(x, x), ToolInputDelta(input)]
  }

  lemma OneCallReads(x: string, input: Bytes)
    ensures Calls(OneCall(x, input)) == [ToolCall(x, x, input)] && Orphans(OneCall(x, input)) == []
    ensures Arguments(Chunks(0, OneCall(x, input)), 0) == input
  {
    var it := OneCall(x, input);
    assert it[..1] == [ToolUseStart(x, x)] && it[..1][..0] == [];
    assert Calls(it[..1]) == [ToolCall(x, x, [])];
    assert [] + input == input;
    assert Calls(it) == [ToolCall(x, x, input)];
    assert Orphans(it[..1]) == [] && Orphans(it) == [];
    hide Chunks, Arguments, Calls, Orphans;
    IterationShare(it, 0);
  }

  lemma IterationsSnoc(before: seq<StreamEvent>, e: StreamEvent)
    ensures var its := Iterations(before);
            Iterations(before + [e]) == if EndsIteration(e) then its + [[]] else its[|its| - 1 := its[|its| - 1] + [e]]
  {
    assert (before + [e])[..|before|] == before;
  }

  lemma IterationsOfCall(before: seq<StreamEvent>, x: string, input: Bytes)
    requires var its := Iterations(before); its[|its| - 1] == []
    ensures var its := Iterations(before);
            Iterations(before + OneCall(x, input)) == its[|its| - 1 := OneCall(x, input)]
  {
    hide Iterations;
    var start, delta := ToolUseStart(x, x), ToolInputDelta(input);
    IterationsSnoc(before, start);
    IterationsSnoc(before + [start], delta);
    assert before + OneCall(x, input) == (before + [start]) + [delta];
    assert [] + [start] == [start] && [start] + [delta] == OneCall(x, input);
  }

  lemma TwoIterations(x: string, y: string, first: Bytes, second: Bytes, usage: TokenUsage)
    ensures Iterations(OneCall(x, first) + [ContentComplete(ToolUse, usage)] + OneCall(y, second))
         == [OneCall(x, first), OneCall(y, second)]
  {
    assert Iterations([]) == [[]];
    hide Iterations, OneCall;
    IterationsOfCall([], x, first);
    assert [] + OneCall(x, first) == OneCall(x, first);
    IterationsSnoc(OneCall(x, first), ContentComplete(ToolUse, usage));
    IterationsOfCall(OneCall(x, first) + [ContentComplete(ToolUse, usage)], y, second);
  }

  // The content deltas are the text deltas.
  lemma {:induction false} ContentIsText(index: nat, events: seq<StreamEvent>)
    ensures Contents(Chunks(index, events)) == Texts(events)
  {
    if |events| > 0 {
      var before, e := events[..|events| - 1], events[|events| - 1];
      ContentIsText(index, before);
      var emitted := ChunkOf(IndexAfter(index, before), e);
      if emitted.Some? {
        AppendChunk(Chunks(index, before), emitted.value);
      } else {
        assert Chunks(index, before) + [] == Chunks(index, before);
        assert Texts(before) + [] == Texts(before);
      }
    }
  }

  // After a call that ended in tool use, numbering starts over: each iteration
  // is chunked as if it stood alone.
  lemma {:induction false} IterationsAreIndependent(first: seq<StreamEvent>, usage: TokenUsage, later: seq<StreamEvent>)
    ensures Chunks(0, first + [ContentComplete(ToolUse, usage)] + later) == Chunks(0, first) + Chunks(0, later)
    ensures IndexAfter(0, first + [ContentComplete(ToolUse, usage)] + later) == IndexAfter(0, later)
  {
    hide Chunks, IndexAfter, ChunkOf;
    var turn := first + [ContentComplete(ToolUse, usage)];
    if |later| == 0 {
      SnocChunks(0, first, ContentComplete(ToolUse, usage));
      NoChunks();
      assert turn + later == turn && later == [];
      assert Chunks(0, first) + [] == Chunks(0, first);
    } else {
      var before, e := later[..|later| - 1], later[|later| - 1];
      IterationsAreIndependent(first, usage, before);
      SnocChunks(0, turn + before, e);
      SnocChunks(0, before, e);
      assert turn + later == (turn + before) + [e] && later == before + [e];
    }
  }

  lemma SnocChunks(index: nat, before: seq<StreamEvent>, e: StreamEvent)
    ensures Chunks(index, before + [e]) == Chunks(index, before) + Emitted(ChunkOf(IndexAfter(index, before), e))
    ensures IndexAfter(index, before + [e]) == NextIndex(IndexAfter(index, before), e)
  {
    assert (before + [e])[..|before|] == before;
  }

  lemma NoChunks()
    ensures Chunks(0, []) == [] && IndexAfter(0, []) == 0
    ensures forall index: nat, usage :: Emitted(ChunkOf(index, ContentComplete(ToolUse, usage))) == []
  {
  }

  // ---------- the forwarder task ----------

  // Sends succeed while the client listens; alive is how many it will accept.
  // The first failing send ends the loop, and the closing chunks fail with it.
  method Forward(events: seq<StreamEvent>, alive: nat) returns (delivered: seq<Chunk>)
    ensures delivered <= Chunks(0, events) + [Finish, DoneMarker]
    ensures |delivered| == if |Chunks(0, events)| + 2 <= alive then |Chunks(0, events)| + 2 else alive
  {
    hide Chunks, IndexAfter, ChunkOf, NextIndex;
    delivered := [];
    var toolIndex: nat := 0;
    NoChunks();
    assert events[..0] == [];
    var i := 0;
    ghost var full := Chunks(0, events) + [Finish, DoneMarker];
    while i < |events|
      invariant 0 <= i <= |events|
      invariant toolIndex == IndexAfter(0, events[..i])
      invariant delivered == Chunks(0, events[..i]) && |delivered| <= alive
      invariant Chunks(0, events[..i]) <= full
    {
      var event := events[i];
      assert events[..i + 1] == events[..i] + [event];
      SnocChunks(0, events[..i], event);
      ChunksGrow(events, i + 1);
      var chunk := ChunkOf(toolIndex, event);
      toolIndex := NextIndex(toolIndex, event);
      if chunk.Some? {
        if |delivered| >= alive {
          return;
        }
        delivered := delivered + [chunk.value];
      }
      i := i + 1;
    }
    assert events[..|events|] == events;
    if |delivered| < alive {
      delivered := delivered + [Finish];
      if |delivered| < alive {
        delivered := delivered + [DoneMarker];
      }
    }
  }

  lemma {:induction false} ChunksGrow(events: seq<StreamEvent>, i: nat)
    requires i <= |events|
    ensures Chunks(0, events[..i]) <= Chunks(0, events)
    decreases |events| - i
  {
    if i < |events| {
      ChunksGrow(events, i + 1);
      assert events[..i + 1][..i] == events[..i];
    } else {
      assert events[..i] == events;
    }
  }
}
