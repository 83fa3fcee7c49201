/** The WebSocket stream task: text deltas are collected and sent in larger
    frames, after 200 bytes, after 100 ms, or before any other event. */
module WsDebounce {
  import opened Utf8
  import opened Wrappers
  import opened StreamEvents

  const DEBOUNCE_MS: nat := 100
  const DEBOUNCE_CHARS: nat := 200
  // far_future: a day after the stream started
  const FAR_MS: nat := 86_400_000

  datatype Verbose = Off | On | Full

  datatype Frame =
    | TextFrame(text: Bytes)
    | Typing(tool: string)
    | ToolStart(id: string, tool: string)
    | Canvas(id: string, json: string)
    | ToolEnd(id: string, tool: string, input: string)
    | ToolResult(id: string, tool: string, result: Option<string>, isError: bool)
    | Phase(phase: string, detail: Option<string>)

  function Shortened(s: string, n: nat): string {
    if |s| <= n then s else s[..n]
  }

  // map_stream_event
  function Mapped(e: StreamEvent, verbose: Verbose): Option<Frame> {
    match e
    case ToolUseStart(id, name) => Some(ToolStart(id, name))
    case ToolUseEnd(id, name, json) =>
      if name == "canvas_present" then Some(Canvas(id, json))
      else if verbose == Off then None
      else Some(ToolEnd(id, name, Shortened(json, if verbose == On then 100 else 500)))
    case ToolExecutionResult(id, name, preview, isError) =>
      var shown := if verbose == Off then None
                   else if verbose == On then Some(Shortened(preview, 200))
                   else Some(preview);
      Some(ToolResult(id, name, shown, isError))
    case PhaseChange(phase, detail) => Some(Phase(phase, detail))
    case _ => None
  }

  datatype Stream = Stream(
    buffer: Bytes,
    accumulated: Bytes,
    usage: Option<TokenUsage>,
    calls: seq<string>,
    deadline: nat,
    far: nat,
    sent: seq<Frame>,
    done: bool)

  datatype Action =
    | Receive(event: StreamEvent, now: nat, verbose: Verbose, sendOk: bool)
    | TimerFires
    | StreamEnds

  function Started(now: nat): Stream {
    Stream([], [], None, [], now + FAR_MS, now + FAR_MS, [], false)
  }

  // flush_text_buffer: the outcome of the send is ignored
  function Flushed(s: Stream): Stream {
    if |s.buffer| == 0 then s else s.(buffer := [], sent := s.sent + [TextFrame(s.buffer)])
  }

  function Disarmed(s: Stream): Stream {
    s.(deadline := s.far)
  }

  function AddUsage(u: Option<TokenUsage>, more: TokenUsage): Option<TokenUsage> {
    var acc := if u.Some? then u.value else TokenUsage(0, 0);
    Some(TokenUsage(acc.input + more.input, acc.output + more.output))
  }

  function OnText(s: Stream, text: Bytes, now: nat): Stream {
    var grown := s.(accumulated := s.accumulated + text, buffer := s.buffer + text);
    if |grown.buffer| >= DEBOUNCE_CHARS then Disarmed(Flushed(grown))
    else if grown.deadline >= grown.far then grown.(deadline := now + DEBOUNCE_MS)
    else grown
  }

  function OnOther(s: Stream, e: StreamEvent, verbose: Verbose, sendOk: bool): Stream {
    var quiet := Disarmed(Flushed(s));
    var typed := if e.ToolUseStart? then quiet.(sent := quiet.sent + [Typing(e.name)]) else quiet;
    match Mapped(e, verbose)
    case None => typed
    case Some(frame) =>
      if sendOk then typed.(sent := typed.sent + [frame]) else typed.(done := true)
  }

  function OnEvent(s: Stream, e: StreamEvent, now: nat, verbose: Verbose, sendOk: bool): Stream {
    match e
    case ContentComplete(_, usage) => s.(usage := AddUsage(s.usage, usage))
    case CallReported(call) => s.(calls := s.calls + [call])
    case TextDelta(text) => OnText(s, text, now)
    case _ => OnOther(s, e, verbose, sendOk)
  }

  function Step(s: Stream, a: Action): Stream {
    if s.done then s
    else
      match a
      case Receive(e, now, verbose, sendOk) => OnEvent(s, e, now, verbose, sendOk)
      case TimerFires => Disarmed(Flushed(s))
      case StreamEnds => Flushed(s).(done := true)
  }

  function Run(start: nat, actions: seq<Action>): Stream {
    if |actions| == 0 then Started(start)
    else Step(Run(start, actions[..|actions| - 1]), actions[|actions| - 1])
  }

  // ---------- the client sees the same stream whatever the timing ----------

  // A stream of text bytes and frames, without the cuts between text frames
  datatype Item = Byte(b: byte) | Whole(frame: Frame)

  function TextItems(text: Bytes): seq<Item> {
    seq(|text|, i requires 0 <= i < |text| => Byte(text[i]))
  }

  function FrameItems(f: Frame): seq<Item> {
    if f.TextFrame? then TextItems(f.text) else [Whole(f)]
  }

  function Items(frames: seq<Frame>): seq<Item> {
    if |frames| == 0 then [] else Items(frames[..|frames| - 1]) + FrameItems(frames[|frames| - 1])
  }

  // What one event should show the client
  function EventItems(e: StreamEvent, verbose: Verbose, sendOk: bool): seq<Item> {
    if e.TextDelta? then TextItems(e.text)
    else
      (if e.ToolUseStart? then [Whole(Typing(e.name))] else [])
      + (if Mapped(e, verbose).Some? && sendOk then [Whole(Mapped(e, verbose).value)] else [])
  }

  // Everything received before the task ended, in order; timers do not occur in it
  function Received(start: nat, actions: seq<Action>): seq<Item> {
    if |actions| == 0 then []
    else
      var before, a := actions[..|actions| - 1], actions[|actions| - 1];
      Received(start, before)
      + (if Run(start, before).done || !a.Receive? then [] else EventItems(a.event, a.verbose, a.sendOk))
  }

  ghost predicate Delivers(s: Stream, items: seq<Item>) {
    Items(s.sent) + TextItems(s.buffer) == items
  }

  lemma ItemsAppend(frames: seq<Frame>, f: Frame)
    ensures Items(frames + [f]) == Items(frames) + FrameItems(f)
  {
    assert (frames + [f])[..|frames|] == frames;
  }

  lemma TextItemsConcat(a: Bytes, b: Bytes)
    ensures TextItems(a + b) == TextItems(a) + TextItems(b)
  {
  }

  lemma FlushDelivers(s: Stream, items: seq<Item>)
    requires Delivers(s, items)
    ensures Delivers(Flushed(s), items) && Items(Flushed(s).sent) == items
  {
    ItemsAppend(s.sent, TextFrame(s.buffer));
    assert TextItems([]) == [];
    assert Items(s.sent) + [] == Items(s.sent);
  }

  lemma TextDelivers(s: Stream, text: Bytes, now: nat, items: seq<Item>)
    requires Delivers(s, items)
    ensures Delivers(OnText(s, text, now), items + TextItems(text))
  {
    var grown := s.(accumulated := s.accumulated + text, buffer := s.buffer + text);
    TextItemsConcat(s.buffer, text);
    assert Delivers(grown, items + TextItems(text));
    FlushDelivers(grown, items + TextItems(text));
  }

  // The frames a non-text event adds after the flush
  function Extra(e: StreamEvent, verbose: Verbose, sendOk: bool): seq<Frame> {
    (if e.ToolUseStart? then [Typing(e.name)] else [])
    + (if Mapped(e, verbose).Some? && sendOk then [Mapped(e, verbose).value] else [])
  }

  lemma OtherShape(s: Stream, e: StreamEvent, verbose: Verbose, sendOk: bool)
    ensures OnOther(s, e, verbose, sendOk).sent == Flushed(s).sent + Extra(e, verbose, sendOk)
    ensures OnOther(s, e, verbose, sendOk).buffer == [] && OnOther(s, e, verbose, sendOk).accumulated == s.accumulated
  {
    hide Mapped;
  }

  lemma {:induction false} ItemsConcat(a: seq<Frame>, b: seq<Frame>)
    ensures Items(a + b) == Items(a) + Items(b)
  {
    hide FrameItems;
    if |b| == 0 {
      assert a + b == a;
    } else {
      ItemsConcat(a, b[..|b| - 1]);
      ItemsAppend(a + b[..|b| - 1], b[|b| - 1]);
      assert a + b == (a + b[..|b| - 1]) + [b[|b| - 1]];
    }
  }

  lemma ExtraItems(e: StreamEvent, verbose: Verbose, sendOk: bool)
    requires !e.TextDelta?
    ensures Items(Extra(e, verbose, sendOk)) == EventItems(e, verbose, sendOk)
  {
    hide Mapped;
    MappedIsNoText(e, verbose);
    var typing: seq<Frame> := if e.ToolUseStart? then [Typing(e.name)] else [];
    var mapped: seq<Frame> := if Mapped(e, verbose).Some? && sendOk then [Mapped(e, verbose).value] else [];
    ItemsConcat(typing, mapped);
    assert [Typing(if e.ToolUseStart? then e.name else "")][..0] == [];
    if mapped != [] {
      assert mapped[..0] == [];
    }
  }

  lemma OtherDelivers(s: Stream, e: StreamEvent, verbose: Verbose, sendOk: bool, items: seq<Item>)
    requires Delivers(s, items) && !e.TextDelta?
    ensures Delivers(OnOther(s, e, verbose, sendOk), items + EventItems(e, verbose, sendOk))
  {
    hide Items, OnOther, Extra, EventItems, Flushed;
    FlushDelivers(s, items);
    OtherShape(s, e, verbose, sendOk);
    ItemsConcat(Flushed(s).sent, Extra(e, verbose, sendOk));
    ExtraItems(e, verbose, sendOk);
    assert TextItems([]) == [];
  }

  lemma MappedIsNoText(e: StreamEvent, verbose: Verbose)
    ensures Mapped(e, verbose).Some? ==> !Mapped(e, verbose).value.TextFrame?
  {
  }

  lemma StepDelivers(s: Stream, a: Action, items: seq<Item>)
    requires Delivers(s, items)
    ensures Delivers(Step(s, a), items
            + (if s.done || !a.Receive? then [] else EventItems(a.event, a.verbose, a.sendOk)))
  {
    hide Delivers, OnText, OnOther, EventItems;
    assert items + [] == items;
    if !s.done {
      FlushDelivers(s, items);
      FlushOnlyMovesText(s, items);
      if a.Receive? {
        EventDelivers(s, a.event, a.now, a.verbose, a.sendOk, items);
      }
    }
  }

  lemma FlushOnlyMovesText(s: Stream, items: seq<Item>)
    requires Delivers(Flushed(s), items)
    ensures Delivers(Disarmed(Flushed(s)), items) && Delivers(Flushed(s).(done := true), items)
  {
  }

  lemma EventDelivers(s: Stream, e: StreamEvent, now: nat, verbose: Verbose, sendOk: bool, items: seq<Item>)
    requires Delivers(s, items)
    ensures Delivers(OnEvent(s, e, now, verbose, sendOk), items + EventItems(e, verbose, sendOk))
  {
    match e
    case TextDelta(text) => TextDelivers(s, text, now, items);
    case ContentComplete(_, _) => assert items + EventItems(e, verbose, sendOk) == items;
    case CallReported(_) => assert items + EventItems(e, verbose, sendOk) == items;
    case _ => OtherDelivers(s, e, verbose, sendOk, items);
  }

  // Frames sent plus the buffer are exactly what was received, in order: no byte
  // is lost or doubled and no event overtakes the text before it.
  lemma {:induction false} StreamPreserved(start: nat, actions: seq<Action>)
    ensures Delivers(Run(start, actions), Received(start, actions))
  {
    if |actions| == 0 {
      assert TextItems([]) == [];
    } else {
      hide Delivers, Step;
      var before := actions[..|actions| - 1];
      StreamPreserved(start, before);
      StepDelivers(Run(start, before), actions[|actions| - 1], Received(start, before));
    }
  }

  // The schedule with every time and every timer struck out
  datatype Happening = Got(event: StreamEvent, verbose: Verbose, sendOk: bool) | Ended

  function Happenings(actions: seq<Action>): seq<Happening> {
    if |actions| == 0 then []
    else
      Happenings(actions[..|actions| - 1])
      + match actions[|actions| - 1]
        case Receive(e, _, verbose, sendOk) => [Got(e, verbose, sendOk)]
        case TimerFires => []
        case StreamEnds => [Ended]
  }

  // What the happenings alone say the client is shown, and whether the task is over
  datatype Shown = Shown(items: seq<Item>, over: bool)

  predicate SendFails(e: StreamEvent, verbose: Verbose, sendOk: bool) {
    Mapped(e, verbose).Some? && !sendOk
  }

  function Show(hs: seq<Happening>): Shown {
    if |hs| == 0 then Shown([], false)
    else ShowNext(Show(hs[..|hs| - 1]), hs[|hs| - 1])
  }

  function ShowNext(before: Shown, h: Happening): Shown {
    if before.over then before
    else
      match h
      case Got(e, verbose, sendOk) =>
        Shown(before.items + EventItems(e, verbose, sendOk), SendFails(e, verbose, sendOk))
      case Ended => Shown(before.items, true)
  }

  lemma StepEnds(s: Stream, a: Action)
    ensures Step(s, a).done == (s.done || a.StreamEnds? || (a.Receive? && SendFails(a.event, a.verbose, a.sendOk)))
    ensures (s.done ==> s.buffer == []) ==> Step(s, a).done ==> Step(s, a).buffer == []
  {
  }

  // A task that is over has nothing left in its buffer.
  lemma {:induction false} NothingLeftBehind(start: nat, actions: seq<Action>)
    ensures Run(start, actions).done ==> Run(start, actions).buffer == []
  {
    if |actions| > 0 {
      hide Step;
      NothingLeftBehind(start, actions[..|actions| - 1]);
      StepEnds(Run(start, actions[..|actions| - 1]), actions[|actions| - 1]);
    }
  }

  lemma {:induction false} ReceivedIsShown(start: nat, actions: seq<Action>)
    ensures Show(Happenings(actions)) == Shown(Received(start, actions), Run(start, actions).done)
  {
    if |actions| > 0 {
      hide Step, EventItems, SendFails;
      var before, a := actions[..|actions| - 1], actions[|actions| - 1];
      ReceivedIsShown(start, before);
      StepEnds(Run(start, before), a);
      var hs := Happenings(before);
      assert Received(start, before) + [] == Received(start, before);
      match a
      case Receive(e, _, verbose, sendOk) => assert (hs + [Got(e, verbose, sendOk)])[..|hs|] == hs;
      case TimerFires => assert hs + [] == hs;
      case StreamEnds => assert (hs + [Ended])[..|hs|] == hs;
    }
  }

  // Two schedules of the same events, however timed and whatever timers fired:
  // both tasks end or neither does, what was sent and what waits is the same, and
  // once they have ended the client was shown the same stream.
  lemma TimingIsInvisible(start: nat, actions: seq<Action>, start': nat, actions': seq<Action>)
    requires Happenings(actions) == Happenings(actions')
    ensures var s, s' := Run(start, actions), Run(start', actions');
            && s.done == s'.done
            && Items(s.sent) + TextItems(s.buffer) == Items(s'.sent) + TextItems(s'.buffer)
            && (s.done ==> Items(s.sent) == Items(s'.sent))
  {
    hide Run, Items, TextItems, Received, Happenings;
    ReceivedIsShown(start, actions);
    ReceivedIsShown(start', actions');
    StreamPreserved(start, actions);
    StreamPreserved(start', actions');
    NothingLeftBehind(start, actions);
    NothingLeftBehind(start', actions');
    NoTextItems();
    assert forall items: seq<Item> :: items + [] == items;
  }

  lemma NoTextItems()
    ensures TextItems([]) == []
  {
  }

  // ---------- what the task reports when it ends ----------

  function AllText(frames: seq<Frame>): Bytes {
    if |frames| == 0 then []
    else AllText(frames[..|frames| - 1]) + (if frames[|frames| - 1].TextFrame? then frames[|frames| - 1].text else [])
  }

  lemma AllTextAppend(frames: seq<Frame>, f: Frame)
    ensures AllText(frames + [f]) == AllText(frames) + (if f.TextFrame? then f.text else [])
  {
    assert (frames + [f])[..|frames|] == frames;
  }

  ghost predicate TextAgrees(s: Stream) {
    AllText(s.sent) + s.buffer == s.accumulated
  }

  lemma FlushAgrees(s: Stream)
    requires TextAgrees(s)
    ensures AllText(Flushed(s).sent) == s.accumulated && Flushed(s).buffer == []
  {
    AllTextAppend(s.sent, TextFrame(s.buffer));
    assert AllText(s.sent) + [] == AllText(s.sent);
  }

  lemma {:induction false} NoTextAdded(a: seq<Frame>, b: seq<Frame>)
    requires forall i :: 0 <= i < |b| ==> !b[i].TextFrame?
    ensures AllText(a + b) == AllText(a)
  {
    if |b| == 0 {
      assert a + b == a;
    } else {
      NoTextAdded(a, b[..|b| - 1]);
      AllTextAppend(a + b[..|b| - 1], b[|b| - 1]);
      assert a + b == (a + b[..|b| - 1]) + [b[|b| - 1]];
    }
  }

  lemma OtherAgrees(s: Stream, e: StreamEvent, verbose: Verbose, sendOk: bool)
    requires TextAgrees(s)
    ensures TextAgrees(OnOther(s, e, verbose, sendOk))
  {
    hide OnOther, Flushed, Mapped, AllText;
    FlushAgrees(s);
    OtherShape(s, e, verbose, sendOk);
    MappedIsNoText(e, verbose);
    NoTextAdded(Flushed(s).sent, Extra(e, verbose, sendOk));
    assert s.accumulated + [] == s.accumulated;
  }

  lemma TextAgreesAfter(s: Stream, text: Bytes, now: nat)
    requires TextAgrees(s)
    ensures TextAgrees(OnText(s, text, now))
  {
    hide AllText;
    var grown := s.(accumulated := s.accumulated + text, buffer := s.buffer + text);
    assert AllText(s.sent) + (s.buffer + text) == s.accumulated + text;
    FlushAgrees(grown);
    assert grown.accumulated + [] == grown.accumulated;
  }

  lemma StepAgrees(s: Stream, a: Action)
    requires TextAgrees(s)
    ensures TextAgrees(Step(s, a))
  {
    hide AllText, OnText, OnOther;
    FlushAgrees(s);
    assert s.accumulated + [] == s.accumulated;
    if a.Receive? {
      if a.event.TextDelta? {
        TextAgreesAfter(s, a.event.text, a.now);
      } else {
        OtherAgrees(s, a.event, a.verbose, a.sendOk);
      }
    }
  }

  // The text sent so far plus the buffer is the accumulated answer.
  lemma {:induction false} TextIsAccounted(start: nat, actions: seq<Action>)
    ensures TextAgrees(Run(start, actions))
  {
    if |actions| > 0 {
      hide TextAgrees, Step;
      TextIsAccounted(start, actions[..|actions| - 1]);
      StepAgrees(Run(start, actions[..|actions| - 1]), actions[|actions| - 1]);
    }
  }

  // The usage of every call received before the task ended
  function Usages(start: nat, actions: seq<Action>): seq<TokenUsage> {
    if |actions| == 0 then []
    else
      var before, a := actions[..|actions| - 1], actions[|actions| - 1];
      Usages(start, before)
          + (if !Run(start, before).done && a.Receive? && a.event.ContentComplete? then [a.event.usage] else [])
  }

  function Total(usages: seq<TokenUsage>): TokenUsage {
    if |usages| == 0 then TokenUsage(0, 0)
    else
      var t, u := Total(usages[..|usages| - 1]), usages[|usages| - 1];
      TokenUsage(t.input + u.input, t.output + u.output)
  }

  lemma StepUsage(s: Stream, a: Action)
    ensures Step(s, a).usage ==
            if !s.done && a.Receive? && a.event.ContentComplete? then AddUsage(s.usage, a.event.usage) else s.usage
  {
  }

  // A turn of several calls is reported as their sum, not as its last call.
  lemma {:induction false} UsageIsTotal(start: nat, actions: seq<Action>)
    ensures Run(start, actions).usage ==
            if Usages(start, actions) == [] then None else Some(Total(Usages(start, actions)))
  {
    if |actions| > 0 {
      hide Step, Total;
      var before, a := actions[..|actions| - 1], actions[|actions| - 1];
      UsageIsTotal(start, before);
      StepUsage(Run(start, before), a);
      var usages := Usages(start, before);
      if !Run(start, before).done && a.Receive? && a.event.ContentComplete? {
        TotalAppend(usages, a.event.usage);
      } else {
        assert usages + [] == usages;
      }
    }
  }

  lemma TotalAppend(usages: seq<TokenUsage>, u: TokenUsage)
    ensures Total(usages + [u]) == TokenUsage(Total(usages).input + u.input, Total(usages).output + u.output)
    ensures usages == [] ==> Total(usages) == TokenUsage(0, 0)
  {
    assert (usages + [u])[..|usages|] == usages;
  }

  // ---------- the debounce itself ----------

  ghost predicate Armed(s: Stream) {
    s.deadline < s.far
  }

  // Past that point a second delta moves the deadline of text already waiting.
  lemma LateDeadlineMoves()
    ensures var first := OnText(Started(0), [65], FAR_MS - 50);
            OnText(first, [66], FAR_MS - 10).deadline > first.deadline && first.buffer == [65]
  {
  }

  // No text comes in the last 100 ms of the stream's first day, or later.
  ghost predicate WithinADay(start: nat, actions: seq<Action>) {
    forall i :: 0 <= i < |actions| && actions[i].Receive? && actions[i].event.TextDelta?
                ==> actions[i].now + DEBOUNCE_MS < start + FAR_MS
  }

  ghost predicate ClockRunsForward(start: nat, actions: seq<Action>) {
    && (forall i :: 0 <= i < |actions| && actions[i].Receive? ==> start <= actions[i].now)
    && (forall i, j :: 0 <= i <= j < |actions| && actions[i].Receive? && actions[j].Receive?
                       ==> actions[i].now <= actions[j].now)
  }

  // When the buffer last went from empty to not empty
  function FilledAt(start: nat, actions: seq<Action>): nat {
    if |actions| == 0 then start
    else
      var before, a := actions[..|actions| - 1], actions[|actions| - 1];
      if Fills(Run(start, before), a) then a.now else FilledAt(start, before)
  }

  predicate Fills(s: Stream, a: Action) {
    a.Receive? && s.buffer == [] && Step(s, a).buffer != []
  }

  function LatestTime(start: nat, actions: seq<Action>): nat {
    if |actions| == 0 then start
    else if actions[|actions| - 1].Receive? then actions[|actions| - 1].now
    else LatestTime(start, actions[..|actions| - 1])
  }

  ghost predicate Debounced(s: Stream, filled: nat, latest: nat) {
    && |s.buffer| < 200
    && (|s.buffer| > 0 && !s.done ==> Armed(s) && s.deadline <= filled + 100)
    && (Armed(s) ==> s.deadline <= latest + 100)
  }

  lemma StepDebounced(s: Stream, a: Action, filled: nat, latest: nat)
    requires Debounced(s, filled, latest) && (s.done ==> s.buffer == [])
    requires a.Receive? ==> latest <= a.now
    requires a.Receive? && a.event.TextDelta? ==> a.now + DEBOUNCE_MS < s.far
    ensures Debounced(Step(s, a), if Fills(s, a) then a.now else filled, if a.Receive? then a.now else latest)
    ensures Step(s, a).far == s.far
  {
  }

  lemma {:induction false} LatestIsPast(start: nat, actions: seq<Action>, now: nat)
    requires start <= now && forall i :: 0 <= i < |actions| && actions[i].Receive? ==> actions[i].now <= now
    ensures LatestTime(start, actions) <= now
  {
    if |actions| > 0 {
      LatestIsPast(start, actions[..|actions| - 1], now);
    }
  }

  // The buffer stays under 200 bytes, and text waiting in it always has a timer
  // that fires at most 100 ms after the first of it came in.
  lemma {:induction false} AlwaysDebounced(start: nat, actions: seq<Action>)
    requires WithinADay(start, actions) && ClockRunsForward(start, actions)
    ensures Debounced(Run(start, actions), FilledAt(start, actions), LatestTime(start, actions))
    ensures Run(start, actions).far == start + FAR_MS
  {
    if |actions| > 0 {
      hide Step;
      var before, a := actions[..|actions| - 1], actions[|actions| - 1];
      AlwaysDebounced(start, before);
      NothingLeftBehind(start, before);
      if a.Receive? {
        LatestIsPast(start, before, a.now);
      }
      StepDebounced(Run(start, before), a, FilledAt(start, before), LatestTime(start, before));
    }
  }

  ghost predicate NoEmptyDeltas(actions: seq<Action>) {
    forall i :: 0 <= i < |actions| && actions[i].Receive? && actions[i].event.TextDelta? ==> actions[i].event.text != []
  }

  // Only waiting text has a timer, 100 ms after it became waiting; a deadline past
  // the first day is none.
  ghost predicate ArmedExactly(s: Stream, filled: nat) {
    && (s.buffer == [] ==> !Armed(s))
    && (|s.buffer| > 0 ==> (Armed(s) <==> filled + DEBOUNCE_MS < s.far))
    && (Armed(s) ==> s.deadline == filled + DEBOUNCE_MS)
  }

  lemma StepArmedExactly(s: Stream, a: Action, filled: nat)
    requires !s.done && ArmedExactly(s, filled)
    requires a.Receive? && a.event.TextDelta? ==> a.event.text != [] && filled <= a.now
    ensures var next := Step(s, a);
            !next.done ==> ArmedExactly(next, if Fills(s, a) then a.now else filled)
  {
  }

  lemma StepKeepsFar(s: Stream, a: Action)
    ensures Step(s, a).far == s.far && (s.done ==> Step(s, a) == s)
  {
  }

  lemma {:induction false} FilledIsPast(start: nat, actions: seq<Action>, now: nat)
    requires start <= now && forall i :: 0 <= i < |actions| && actions[i].Receive? ==> actions[i].now <= now
    ensures FilledAt(start, actions) <= now
  {
    if |actions| > 0 {
      FilledIsPast(start, actions[..|actions| - 1], now);
    }
  }

  lemma {:induction false} RunArmedExactly(start: nat, actions: seq<Action>)
    requires ClockRunsForward(start, actions) && NoEmptyDeltas(actions)
    ensures !Run(start, actions).done ==> ArmedExactly(Run(start, actions), FilledAt(start, actions))
    ensures Run(start, actions).far == start + FAR_MS
  {
    if |actions| > 0 {
      hide Step, ArmedExactly, Fills;
      var before, a := actions[..|actions| - 1], actions[|actions| - 1];
      RunArmedExactly(start, before);
      StepKeepsFar(Run(start, before), a);
      if !Run(start, before).done {
        if a.Receive? {
          FilledIsPast(start, before, a.now);
        }
        StepArmedExactly(Run(start, before), a, FilledAt(start, before));
      }
    } else {
      assert ArmedExactly(Started(start), start);
    }
  }

  // On every schedule, waiting text has a timer exactly when it became waiting more
  // than 100 ms before the end of the stream's first day, and nothing else has one.
  lemma ArmedIff(start: nat, actions: seq<Action>)
    requires ClockRunsForward(start, actions) && NoEmptyDeltas(actions)
    requires !Run(start, actions).done
    ensures var s := Run(start, actions);
            && (s.buffer == [] ==> !Armed(s))
            && (|s.buffer| > 0 ==> (Armed(s) <==> FilledAt(start, actions) + 100 < start + 86_400_000))
  {
    hide Run;
    RunArmedExactly(start, actions);
  }

  // Without empty deltas a timer is set for exactly 100 ms after the first waiting
  // byte, and there is one only while text waits.
  lemma TimerIsExact(start: nat, actions: seq<Action>)
    requires ClockRunsForward(start, actions) && NoEmptyDeltas(actions)
    ensures var s := Run(start, actions);
            Armed(s) && !s.done ==> |s.buffer| > 0 && s.deadline == FilledAt(start, actions) + 100
  {
    hide Run;
    RunArmedExactly(start, actions);
  }

  // An empty delta arms the timer, so text that comes later waits less than 100 ms.
  lemma EmptyDeltaArms()
    ensures var first := OnText(Started(0), [], 10);
            var second := OnText(first, [65], 60);
            first.buffer == [] && second.buffer == [65] && second.deadline == 110
  {
    assert [] + [65] == [65];
  }

  // ---------- the task itself ----------

  class StreamTask {
    var textBuffer: Bytes
    var accumulatedText: Bytes
    var streamUsage: Option<TokenUsage>
    var streamCalls: seq<string>
    var flushDeadline: nat
    const farFuture: nat
    ghost var sent: seq<Frame>
    var done: bool

    ghost function State(): Stream
      reads this
    {
      Stream(textBuffer, accumulatedText, streamUsage, streamCalls, flushDeadline, farFuture, sent, done)
    }

    constructor (now: nat)
      ensures State() == Started(now)
    {
      textBuffer, accumulatedText, streamUsage, streamCalls, sent, done := [], [], None, [], [], false;
      farFuture, flushDeadline := now + FAR_MS, now + FAR_MS;
    }

    method Flush()
      modifies this`textBuffer, this`sent
      ensures State() == Flushed(old(State()))
    {
      if |textBuffer| == 0 {
        return;
      }
      sent := sent + [TextFrame(textBuffer)];
      textBuffer := [];
    }

    method HandleEvent(e: StreamEvent, now: nat, verbose: Verbose, sendOk: bool)
      requires !done
      modifies this
      ensures State() == OnEvent(old(State()), e, now, verbose, sendOk)
    {
      if e.ContentComplete? {
        streamUsage := AddUsage(streamUsage, e.usage);
        return;
      }
      if e.CallReported? {
        streamCalls := streamCalls + [e.call];
        return;
      }
      if e.TextDelta? {
        accumulatedText := accumulatedText + e.text;
        textBuffer := textBuffer + e.text;
        if |textBuffer| >= DEBOUNCE_CHARS {
          Flush();
          flushDeadline := farFuture;
        } else if flushDeadline >= farFuture {
          flushDeadline := now + DEBOUNCE_MS;
        }
      } else {
        Flush();
        flushDeadline := farFuture;
        if e.ToolUseStart? {
          sent := sent + [Typing(e.name)];
        }
        var frame := Mapped(e, verbose);
        if frame.Some? {
          if sendOk {
            sent := sent + [frame.value];
          } else {
            done := true;
          }
        }
      }
    }

    method HandleTimer()
      requires !done
      modifies this
      ensures State() == Step(old(State()), TimerFires)
    {
      Flush();
      flushDeadline := farFuture;
    }

    method HandleEnd()
      requires !done
      modifies this
      ensures State() == Step(old(State()), StreamEnds) && textBuffer == []
    {
      Flush();
      done := true;
    }
  }
}
