/** Three incremental line parsers: the SSE readers of the JavaScript and the
    Python client, and the newline-JSON reader of the Gitter adapter. */
module LineParsers {
  import opened Wrappers
  import opened Text

  // ---------- lines of the whole text ----------

  // The lines that are followed by a newline
  function CompleteLines(text: string): seq<string>
    decreases |text|
  {
    if LineEnd(text) == |text| then []
    else [text[..LineEnd(text)]] + CompleteLines(text[LineEnd(text) + 1..])
  }

  // What follows the last newline
  function Rest(text: string): string
    decreases |text|
  {
    if LineEnd(text) == |text| then text else Rest(text[LineEnd(text) + 1..])
  }

  lemma {:induction false} RestHasNoNewline(text: string)
    ensures '\n' !in Rest(text)
    decreases |text|
  {
    if LineEnd(text) < |text| {
      RestHasNoNewline(text[LineEnd(text) + 1..]);
    } else {
      assert text[..|text|] == text;
    }
  }

  lemma {:induction false} LineEndIs(text: string, n: nat)
    requires n <= |text| && '\n' !in text[..n] && (n < |text| ==> text[n] == '\n')
    ensures LineEnd(text) == n
    decreases n
  {
    if n > 0 {
      assert text[..n][0] == text[0] && text[..n][1..] == text[1..][..n - 1];
      LineEndIs(text[1..], n - 1);
    }
  }

  // Cutting the text anywhere and carrying the rest over changes no line.
  lemma {:induction false} LinesCarryOver(a: string, b: string)
    ensures CompleteLines(a + b) == CompleteLines(a) + CompleteLines(Rest(a) + b)
    ensures Rest(a + b) == Rest(Rest(a) + b)
    decreases |a|
  {
    hide LineEnd, CompleteLines, Rest;
    var n := LineEnd(a);
    if n < |a| {
      assert (a + b)[..n] == a[..n] && (a + b)[n + 1..] == a[n + 1..] + b;
      LineEndIs(a + b, n);
      LinesCarryOver(a[n + 1..], b);
      FirstLineTaken(a);
      FirstLineTaken(a + b);
      assert [a[..n]] + (CompleteLines(a[n + 1..]) + CompleteLines(Rest(a) + b))
          == ([a[..n]] + CompleteLines(a[n + 1..])) + CompleteLines(Rest(a) + b);
    } else {
      OnlyRest(a);
      assert [] + CompleteLines(a + b) == CompleteLines(a + b);
    }
  }

  lemma FirstLineTaken(text: string)
    requires LineEnd(text) < |text|
    ensures var n := LineEnd(text);
            CompleteLines(text) == [text[..n]] + CompleteLines(text[n + 1..]) && Rest(text) == Rest(text[n + 1..])
  {
  }

  lemma OnlyRest(text: string)
    requires LineEnd(text) == |text|
    ensures CompleteLines(text) == [] && Rest(text) == text
  {
  }

  function Joined(chunks: seq<string>): string {
    if |chunks| == 0 then [] else Joined(chunks[..|chunks| - 1]) + chunks[|chunks| - 1]
  }

  // ---------- server-sent events ----------

  datatype SseEvent<J> = Parsed(value: J) | Raw(data: string)

  // trim and parse are those of the client's language
  datatype Client<J> = Client(trim: string -> string, parse: string -> Option<J>)

  datatype Reading<J> = Skip | Done | Event(event: SseEvent<J>)

  function Interpret<J>(c: Client<J>, line: string): Reading<J> {
    var trimmed := c.trim(line);
    if !("data: " <= trimmed) then Skip
    else
      var data := trimmed[6..];
      if data == "[DONE]" then Done
      else
        match c.parse(data)
        case Some(value) => Event(Parsed(value))
        case None => Event(Raw(data))
  }

  // Events of the lines up to the first [DONE], and whether it was reached
  datatype Outcome<J> = Outcome(events: seq<SseEvent<J>>, done: bool)

  function Events<J>(c: Client<J>, lines: seq<string>): Outcome<J> {
    if |lines| == 0 then Outcome([], false)
    else
      match Interpret(c, lines[0])
      case Done => Outcome([], true)
      case Skip => Events(c, lines[1..])
      case Event(e) => Outcome([e] + Events(c, lines[1..]).events, Events(c, lines[1..]).done)
  }

  function Then<J>(a: Outcome<J>, b: Outcome<J>): Outcome<J> {
    if a.done then a else Outcome(a.events + b.events, b.done)
  }

  lemma {:induction false} EventsConcat<J>(c: Client<J>, a: seq<string>, b: seq<string>)
    ensures Events(c, a + b) == Then(Events(c, a), Events(c, b))
  {
    if |a| == 0 {
      assert a + b == b;
      assert [] + Events(c, b).events == Events(c, b).events;
    } else {
      assert (a + b)[0] == a[0] && (a + b)[1..] == a[1..] + b;
      EventsConcat(c, a[1..], b);
    }
  }

  // The texts behind the six characters of "data: ", of the lines that begin so
  function DataOf<J>(c: Client<J>, lines: seq<string>): seq<string> {
    if |lines| == 0 then []
    else
      (if "data: " <= c.trim(lines[0]) then [c.trim(lines[0])[6..]] else []) + DataOf(c, lines[1..])
  }

  // Parsed where the text parses, raw where it does not
  ghost predicate AreEventsOf<J>(c: Client<J>, events: seq<SseEvent<J>>, data: seq<string>) {
    && |events| == |data|
    && forall k :: 0 <= k < |data| ==>
         events[k] == if c.parse(data[k]).Some? then Parsed(c.parse(data[k]).value) else Raw(data[k])
  }

  // Line n is the first "data: [DONE]", or there is none and n is the end.
  ghost predicate EndsAt<J>(c: Client<J>, lines: seq<string>, n: nat) {
    && n <= |lines|
    && (forall i :: 0 <= i < n ==> c.trim(lines[i]) != "data: [DONE]")
    && (n < |lines| ==> c.trim(lines[n]) == "data: [DONE]")
  }

  lemma DataLine(line: string)
    ensures "data: " <= line && line[6..] == "[DONE]" <==> line == "data: [DONE]"
  {
    var end := "data: [DONE]";
    assert end == "data: " + "[DONE]" && end[6..] == "[DONE]";
    if "data: " <= line {
      assert line == line[..6] + line[6..];
    }
  }

  // The end is reported exactly when some line is "data: [DONE]", and the events
  // are those of the data lines before the first such line, in order and nothing else.
  ghost predicate Reports<J>(c: Client<J>, lines: seq<string>, r: Outcome<J>) {
    && (r.done <==> exists i :: 0 <= i < |lines| && c.trim(lines[i]) == "data: [DONE]")
    && exists n: nat :: EndsAt(c, lines, n) && AreEventsOf(c, r.events, DataOf(c, lines[..n]))
  }

  lemma {:induction false} EventsUpToEnd<J>(c: Client<J>, lines: seq<string>) returns (n: nat)
    ensures EndsAt(c, lines, n) && (Events(c, lines).done <==> n < |lines|)
    ensures AreEventsOf(c, Events(c, lines).events, DataOf(c, lines[..n]))
  {
    if |lines| == 0 {
      n := 0;
    } else {
      hide AreEventsOf, EndsAt;
      var line := c.trim(lines[0]);
      DataLine(line);
      if line == "data: [DONE]" {
        n := 0;
        EndsFirst(c, lines);
      } else {
        var m := EventsUpToEnd(c, lines[1..]);
        n := m + 1;
        EndsLater(c, lines, m);
        assert lines[..n][0] == lines[0] && lines[..n][1..] == lines[1..][..m];
        if "data: " <= line {
          OneMoreEvent(c, line[6..], Events(c, lines[1..]).events, DataOf(c, lines[1..][..m]));
        }
      }
    }
  }

  // However the lines are read, this is what comes of them.
  lemma EventsAreData<J>(c: Client<J>, lines: seq<string>)
    ensures Reports(c, lines, Events(c, lines))
  {
    hide AreEventsOf, Events, DataOf;
    var n := EventsUpToEnd(c, lines);
  }

  lemma EndsFirst<J>(c: Client<J>, lines: seq<string>)
    requires |lines| > 0 && c.trim(lines[0]) == "data: [DONE]"
    ensures EndsAt(c, lines, 0) && AreEventsOf(c, [], DataOf(c, lines[..0]))
  {
  }

  lemma EndsLater<J>(c: Client<J>, lines: seq<string>, m: nat)
    requires |lines| > 0 && c.trim(lines[0]) != "data: [DONE]" && EndsAt(c, lines[1..], m)
    ensures EndsAt(c, lines, m + 1)
  {
    assert forall i :: 1 <= i < |lines| ==> lines[i] == lines[1..][i - 1];
  }

  lemma OneMoreEvent<J>(c: Client<J>, text: string, events: seq<SseEvent<J>>, data: seq<string>)
    requires AreEventsOf(c, events, data)
    ensures AreEventsOf(c, [if c.parse(text).Some? then Parsed(c.parse(text).value) else Raw(text)] + events,
                        [text] + data)
  {
  }

  // The state of the generator between two reads
  datatype Reader<J> = Reader(buffer: string, outcome: Outcome<J>)

  function Feed<J>(c: Client<J>, r: Reader<J>, chunk: string): Reader<J> {
    if r.outcome.done then r
    else Reader(Rest(r.buffer + chunk), Then(r.outcome, Events(c, CompleteLines(r.buffer + chunk))))
  }

  function Fed<J>(c: Client<J>, chunks: seq<string>): Reader<J> {
    if |chunks| == 0 then Reader([], Outcome([], false))
    else Feed(c, Fed(c, chunks[..|chunks| - 1]), chunks[|chunks| - 1])
  }

  // However the text was cut, the events are those of its complete lines up to
  // [DONE], and the buffer is the text after the last newline.
  lemma {:induction false} ChunkingIsInvisible<J>(c: Client<J>, chunks: seq<string>)
    ensures Fed(c, chunks).outcome == Events(c, CompleteLines(Joined(chunks)))
    ensures Reports(c, CompleteLines(Joined(chunks)), Fed(c, chunks).outcome)
    ensures !Fed(c, chunks).outcome.done ==> Fed(c, chunks).buffer == Rest(Joined(chunks))
  {
    hide Reports;
    EventsAreData(c, CompleteLines(Joined(chunks)));
    if |chunks| > 0 {
      var before, chunk := chunks[..|chunks| - 1], chunks[|chunks| - 1];
      ChunkingIsInvisible(c, before);
      var text := Joined(before);
      LinesCarryOver(text, chunk);
      EventsConcat(c, CompleteLines(text), CompleteLines(Rest(text) + chunk));
    }
  }

  // Two ways of cutting the same text give the same events.
  lemma SameTextSameEvents<J>(c: Client<J>, chunks: seq<string>, chunks': seq<string>)
    requires Joined(chunks) == Joined(chunks')
    ensures Fed(c, chunks).outcome == Fed(c, chunks').outcome
  {
    ChunkingIsInvisible(c, chunks);
    ChunkingIsInvisible(c, chunks');
  }

  // text.split("\n"), last part included
  function Split(text: string): seq<string> {
    CompleteLines(text) + [Rest(text)]
  }

  // The parts are the only newline-free parts that give the text back.
  lemma {:induction false} SplitIsUnique(text: string, parts: seq<string>)
    requires |parts| > 0
    ensures parts == Split(text) <==> Join(parts, "\n") == text && forall i :: 0 <= i < |parts| ==> '\n' !in parts[i]
  {
    SplitGivesBack(text);
    if Join(parts, "\n") == text && forall i :: 0 <= i < |parts| ==> '\n' !in parts[i] {
      SplitOfJoin(parts);
    }
  }

  lemma {:induction false} SplitGivesBack(text: string)
    ensures Join(Split(text), "\n") == text
    ensures forall i :: 0 <= i < |Split(text)| ==> '\n' !in Split(text)[i]
    decreases |text|
  {
    hide LineEnd, CompleteLines, Rest;
    var n := LineEnd(text);
    if n < |text| {
      SplitGivesBack(text[n + 1..]);
      FirstLineTaken(text);
      assert Split(text) == [text[..n]] + Split(text[n + 1..]);
      assert Split(text)[1..] == Split(text[n + 1..]);
      assert text == text[..n] + "\n" + text[n + 1..];
    } else {
      OnlyRest(text);
      RestHasNoNewline(text);
    }
  }

  lemma {:induction false} SplitOfJoin(parts: seq<string>)
    requires |parts| > 0 && forall i :: 0 <= i < |parts| ==> '\n' !in parts[i]
    ensures Split(Join(parts, "\n")) == parts
  {
    var text := Join(parts, "\n");
    if |parts| == 1 {
      assert text[..|text|] == text;
      LineEndIs(text, |text|);
      assert parts == [text];
    } else {
      var n := |parts[0]|;
      assert text[..n] == parts[0] && text[n + 1..] == Join(parts[1..], "\n");
      LineEndIs(text, n);
      SplitOfJoin(parts[1..]);
      assert parts == [parts[0]] + parts[1..];
    }
  }

  method Stream<J>(c: Client<J>, chunks: seq<string>) returns (events: seq<SseEvent<J>>, buffer: string, done: bool)
    ensures Outcome(events, done) == Fed(c, chunks).outcome
    ensures Reports(c, CompleteLines(Joined(chunks)), Outcome(events, done))
    ensures !done ==> buffer == Rest(Joined(chunks))
  {
    hide CompleteLines, Rest, Interpret, Joined, Reports;
    events, buffer := [], "";
    var n := 0;
    while n < |chunks|
      invariant 0 <= n <= |chunks|
      invariant Fed(c, chunks[..n]) == Reader(buffer, Outcome(events, false))
    {
      assert chunks[..n + 1][..n] == chunks[..n];
      ghost var earlier := events;
      buffer := buffer + chunks[n];
      var lines := Split(buffer);
      buffer := lines[|lines| - 1];
      lines := lines[..|lines| - 1];
      for i := 0 to |lines|
        invariant Then(Outcome(earlier, false), Events(c, lines)) == Then(Outcome(events, false), Events(c, lines[i..]))
      {
        assert lines[i..][0] == lines[i] && lines[i..][1..] == lines[i + 1..];
        match Interpret(c, lines[i])
        case Done =>
          FedStaysDone(c, chunks, n + 1);
          assert events + [] == events;
          ChunkingIsInvisible(c, chunks);
          return events, buffer, true;
        case Skip =>
        case Event(e) =>
          assert events + ([e] + Events(c, lines[i + 1..]).events) == (events + [e]) + Events(c, lines[i + 1..]).events;
          events := events + [e];
      }
      assert lines[|lines|..] == [] && events + [] == events;
      n := n + 1;
    }
    assert chunks[..|chunks|] == chunks;
    done := false;
    ChunkingIsInvisible(c, chunks);
  }

  // After [DONE] the generator has returned; later chunks are not read.
  lemma {:induction false} FedStaysDone<J>(c: Client<J>, chunks: seq<string>, n: nat)
    requires n <= |chunks|
    ensures Fed(c, chunks[..n]).outcome.done ==> Fed(c, chunks) == Fed(c, chunks[..n])
    decreases |chunks| - n
  {
    if n == |chunks| {
      assert chunks[..n] == chunks;
    } else {
      assert chunks[..n + 1][..n] == chunks[..n];
      FedStaysDone(c, chunks, n + 1);
    }
  }

  // ---------- newline-separated JSON ----------

  // accept: the message a line stands for, if it is one and not our own
  function Messages<M>(accept: string -> Option<M>, lines: seq<string>): seq<M> {
    if |lines| == 0 then []
    else
      var line := Trim(lines[0]);
      (if |line| > 0 && accept(line).Some? then [accept(line).value] else []) + Messages(accept, lines[1..])
  }

  lemma {:induction false} MessagesConcat<M>(accept: string -> Option<M>, a: seq<string>, b: seq<string>)
    ensures Messages(accept, a + b) == Messages(accept, a) + Messages(accept, b)
  {
    hide Trim;
    if |a| == 0 {
      assert a + b == b;
    } else {
      assert (a + b)[0] == a[0] && (a + b)[1..] == a[1..] + b;
      MessagesConcat(accept, a[1..], b);
    }
  }

  // One more line gives one more message exactly when something is left of it
  // after trimming and that is accepted; no line gives two, or another's.
  lemma OneMoreLine<M>(accept: string -> Option<M>, lines: seq<string>, line: string)
    ensures Messages(accept, []) == []
    ensures var text := Trim(line);
            Messages(accept, lines + [line]) ==
            if text != "" && accept(text).Some? then Messages(accept, lines) + [accept(text).value]
            else Messages(accept, lines)
  {
    hide Trim;
    MessagesConcat(accept, lines, [line]);
    assert [line][1..] == [];
  }

  predicate AllSpace(s: string) {
    forall i :: 0 <= i < |s| ==> IsSpace(s[i])
  }

  // A trimmed line is blank only when it is empty.
  lemma TrimmedHasText(s: string)
    ensures AllSpace(Trim(s)) <==> Trim(s) == []
  {
    hide IsSpace;
    TrimEndHasText(TrimStart(s));
  }

  lemma {:induction false} TrimEndHasText(s: string)
    ensures var r := TrimEnd(s); |r| > 0 ==> !IsSpace(r[|r| - 1])
  {
    hide IsSpace;
    if |s| > 0 && IsSpace(s[|s| - 1]) {
      TrimEndHasText(s[..|s| - 1]);
    }
  }

  lemma MessagesFirst<M>(accept: string -> Option<M>, text: string)
    ensures var n := LineEnd(text);
            if n == |text| then Messages(accept, CompleteLines(text)) == [] && Rest(text) == text
            else
              && Rest(text) == Rest(text[n + 1..])
              && var line := Trim(text[..n]);
                 Messages(accept, CompleteLines(text))
                 == (if |line| > 0 && accept(line).Some? then [accept(line).value] else [])
                     + Messages(accept, CompleteLines(text[n + 1..]))
  {
    hide Trim, LineEnd;
    var n := LineEnd(text);
    if n < |text| {
      assert CompleteLines(text)[1..] == CompleteLines(text[n + 1..]);
    }
  }

  // The loop over one buffer: take lines off the front while there is a newline.
  method DrainLines<M>(accept: string -> Option<M>, text: string) returns (messages: seq<M>, lineBuffer: string)
    ensures messages == Messages(accept, CompleteLines(text)) && lineBuffer == Rest(text)
  {
    hide Trim, LineEnd, CompleteLines, Rest, Messages, AllSpace;
    messages, lineBuffer := [], text;
    while LineEnd(lineBuffer) < |lineBuffer|
      invariant Messages(accept, CompleteLines(text)) == messages + Messages(accept, CompleteLines(lineBuffer))
      invariant Rest(lineBuffer) == Rest(text)
      decreases |lineBuffer|
    {
      var newline := LineEnd(lineBuffer);
      MessagesFirst(accept, lineBuffer);
      var line := Trim(lineBuffer[..newline]);
      TrimmedHasText(lineBuffer[..newline]);
      lineBuffer := lineBuffer[newline + 1..];
      if |line| == 0 || AllSpace(line) {
        continue;
      }
      if accept(line).Some? {
        messages := messages + [accept(line).value];
      }
    }
    MessagesFirst(accept, lineBuffer);
    assert messages + [] == messages;
  }

  // Every message of the complete lines of the whole text, however it was cut.
  method ReadMessages<M>(accept: string -> Option<M>, chunks: seq<string>)
      returns (messages: seq<M>, lineBuffer: string)
    ensures messages == Messages(accept, CompleteLines(Joined(chunks))) && lineBuffer == Rest(Joined(chunks))
  {
    messages, lineBuffer := [], "";
    for n := 0 to |chunks|
      invariant messages == Messages(accept, CompleteLines(Joined(chunks[..n])))
                && lineBuffer == Rest(Joined(chunks[..n]))
    {
      ghost var text := Joined(chunks[..n]);
      assert chunks[..n + 1][..n] == chunks[..n];
      LinesCarryOver(text, chunks[n]);
      MessagesConcat(accept, CompleteLines(text), CompleteLines(Rest(text) + chunks[n]));
      var more;
      more, lineBuffer := DrainLines(accept, lineBuffer + chunks[n]);
      messages := messages + more;
    }
    assert chunks[..|chunks|] == chunks;
  }
}
