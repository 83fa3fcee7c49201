/** Which frames the WebSocket stream task sends at which event, over every run. */
module WsFrames {
  import opened Utf8
  import opened Wrappers
  import opened StreamEvents
  import opened WsDebounce

  // The text that waits in the buffer, as the frame it is sent in
  function Waiting(s: Stream): seq<Frame> {
    if s.buffer == [] then [] else [TextFrame(s.buffer)]
  }

  // The first characters of a text, at most n of them
  ghost predicate IsPreview(shown: string, text: string, n: nat) {
    shown <= text && (if |text| <= n then |shown| == |text| else |shown| == n)
  }

  lemma RunExtends(start: nat, actions: seq<Action>, a: Action)
    ensures Run(start, actions + [a]) == Step(Run(start, actions), a)
  {
    hide Step;
    assert (actions + [a])[..|actions|] == actions;
  }

  // A text delta sends nothing while fewer than 200 bytes wait, and then all of
  // them in one frame.
  lemma TextIsBatched(start: nat, actions: seq<Action>, text: Bytes, now: nat, verbose: Verbose, sendOk: bool)
    requires !Run(start, actions).done
    ensures var s := Run(start, actions);
            var next := Run(start, actions + [Receive(TextDelta(text), now, verbose, sendOk)]);
            && !next.done
            && (if |s.buffer| + |text| < 200 then next.sent == s.sent && next.buffer == s.buffer + text
                else next.sent == s.sent + [TextFrame(s.buffer + text)] && next.buffer == [] && !Armed(next))
  {
    hide Run;
    RunExtends(start, actions, Receive(TextDelta(text), now, verbose, sendOk));
  }

  // The timer and the end of the stream send whatever waits.
  lemma RestIsSent(start: nat, actions: seq<Action>, a: Action)
    requires !Run(start, actions).done && (a.TimerFires? || a.StreamEnds?)
    ensures var s, next := Run(start, actions), Run(start, actions + [a]);
            && next.sent == s.sent + Waiting(s) && next.buffer == []
            && (next.done <==> a.StreamEnds?)
            && (a.TimerFires? ==> !Armed(next))
  {
    hide Run;
    RunExtends(start, actions, a);
  }

  // The frame an event that the client sees gives at a verbosity; a tool's input
  // and result are cut to 100, 500 and 200 characters.
  ghost predicate Shows(e: StreamEvent, verbose: Verbose, frames: seq<Frame>) {
    match e
    case ToolUseStart(id, name) => frames == [ToolStart(id, name)]
    case ToolUseEnd(id, name, json) =>
      if name == "canvas_present" then frames == [Canvas(id, json)]
      else if verbose == Off then frames == []
      else
        && |frames| == 1 && frames[0].ToolEnd? && frames[0].id == id && frames[0].tool == name
        && IsPreview(frames[0].input, json, if verbose == On then 100 else 500)
    case ToolExecutionResult(id, name, preview, isError) =>
      && |frames| == 1 && frames[0].ToolResult? && frames[0].id == id && frames[0].tool == name
      && frames[0].isError == isError
      && (if verbose == Off then frames[0].result == None
          else if verbose == On then frames[0].result.Some? && IsPreview(frames[0].result.value, preview, 200)
          else frames[0].result == Some(preview))
    case PhaseChange(phase, detail) => frames == [Phase(phase, detail)]
    case _ => frames == []
  }

  lemma MappedShows(e: StreamEvent, verbose: Verbose)
    ensures Shows(e, verbose, if Mapped(e, verbose).Some? then [Mapped(e, verbose).value] else [])
  {
  }

  // An event other than text, usage or a reported call first sends what waits
  // and stops the timer, then a typing note for a tool that starts, then its
  // own frame; the task ends exactly when that last send fails.
  lemma EventIsShown(start: nat, actions: seq<Action>, e: StreamEvent, now: nat, verbose: Verbose, sendOk: bool)
      returns (shown: seq<Frame>)
    requires !Run(start, actions).done
    requires !e.TextDelta? && !e.ContentComplete? && !e.CallReported?
    ensures Shows(e, verbose, shown)
    ensures var s, next := Run(start, actions), Run(start, actions + [Receive(e, now, verbose, sendOk)]);
            && next.sent == s.sent + Waiting(s) + (if e.ToolUseStart? then [Typing(e.name)] else [])
                            + (if sendOk then shown else [])
            && next.buffer == [] && !Armed(next)
            && (next.done <==> shown != [] && !sendOk)
  {
    hide Run, Mapped, Shows;
    RunExtends(start, actions, Receive(e, now, verbose, sendOk));
    MappedShows(e, verbose);
    shown := if Mapped(e, verbose).Some? then [Mapped(e, verbose).value] else [];
  }

  // Usage and reported calls send nothing and leave text and timer alone.
  lemma BookkeepingIsSilent(start: nat, actions: seq<Action>, e: StreamEvent, now: nat, verbose: Verbose, sendOk: bool)
    requires e.ContentComplete? || e.CallReported?
    ensures var s, next := Run(start, actions), Run(start, actions + [Receive(e, now, verbose, sendOk)]);
            next == s.(usage := next.usage, calls := next.calls)
  {
    hide Run;
    RunExtends(start, actions, Receive(e, now, verbose, sendOk));
  }

  // The calls reported before the task ended
  function Reported(start: nat, actions: seq<Action>): seq<string> {
    if |actions| == 0 then []
    else
      var before, a := actions[..|actions| - 1], actions[|actions| - 1];
      Reported(start, before)
      + (if !Run(start, before).done && a.Receive? && a.event.CallReported? then [a.event.call] else [])
  }

  lemma StepCalls(s: Stream, a: Action)
    ensures Step(s, a).calls
         == s.calls + (if !s.done && a.Receive? && a.event.CallReported? then [a.event.call] else [])
  {
    assert s.calls + [] == s.calls;
  }

  // The rollup names every call once, in the order of the reports.
  lemma {:induction false} CallsAreReported(start: nat, actions: seq<Action>)
    ensures Run(start, actions).calls == Reported(start, actions)
  {
    if |actions| > 0 {
      hide Step;
      CallsAreReported(start, actions[..|actions| - 1]);
      StepCalls(Run(start, actions[..|actions| - 1]), actions[|actions| - 1]);
    }
  }
}
