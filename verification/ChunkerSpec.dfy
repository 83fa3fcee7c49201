/** What one call of the stream chunker computes, as functions on its state. */
module ChunkerSpec {
  import opened Utf8
  import opened Wrappers

  const NEWLINE: byte := 0x0A
  const BACKTICK: byte := 0x60
  const FENCE: Bytes := [BACKTICK, BACKTICK, BACKTICK]
  // Appended to a chunk that is cut off inside a fence
  const FORCED_CLOSE: Bytes := [NEWLINE, BACKTICK, BACKTICK, BACKTICK, NEWLINE]
  // What the buffer is re-seeded with after a forced close
  const REOPEN: Bytes := [BACKTICK, BACKTICK, BACKTICK, NEWLINE]

  const PARAGRAPH: Bytes := [NEWLINE, NEWLINE]
  const LINE: Bytes := [NEWLINE]
  const PERIOD: Bytes := [0x2E, 0x20]
  const EXCLAMATION: Bytes := [0x21, 0x20]
  const QUESTION: Bytes := [0x3F, 0x20]

  function Min(a: nat, b: nat): nat {
    if a <= b then a else b
  }

  // ---------- str::trim, over the White_Space characters of Unicode ----------

  predicate IsSpaceTriple(a: byte, b: byte, c: byte) {
    || (a == 0xE1 && b == 0x9A && c == 0x80)
    || (a == 0xE2 && b == 0x80 && (0x80 <= c <= 0x8A || c == 0xA8 || c == 0xA9 || c == 0xAF))
    || (a == 0xE2 && b == 0x81 && c == 0x9F)
    || (a == 0xE3 && b == 0x80 && c == 0x80)
  }

  // Length of the white-space character at the front of s; 0 when there is none
  function SpaceLength(s: Bytes): (n: nat)
    ensures n <= |s|
  {
    if |s| >= 1 && (0x09 <= s[0] <= 0x0D || s[0] == 0x20) then 1
    else if |s| >= 2 && s[0] == 0xC2 && (s[1] == 0x85 || s[1] == 0xA0) then 2
    else if |s| >= 3 && IsSpaceTriple(s[0], s[1], s[2]) then 3
    else 0
  }

  // Length of the white-space character at the back of s; 0 when there is none
  function SpaceLengthBack(s: Bytes): (n: nat)
    ensures n <= |s|
  {
    if |s| >= 1 && SpaceLength(s[|s| - 1..]) == 1 then 1
    else if |s| >= 2 && SpaceLength(s[|s| - 2..]) == 2 then 2
    else if |s| >= 3 && SpaceLength(s[|s| - 3..]) == 3 then 3
    else 0
  }

  function TrimStart(s: Bytes): Bytes
    decreases |s|
  {
    if SpaceLength(s) > 0 then TrimStart(s[SpaceLength(s)..]) else s
  }

  function TrimEnd(s: Bytes): Bytes
    decreases |s|
  {
    if SpaceLengthBack(s) > 0 then TrimEnd(s[..|s| - SpaceLengthBack(s)]) else s
  }

  function Trim(s: Bytes): Bytes {
    TrimEnd(TrimStart(s))
  }

  // ---------- push ----------

  datatype Chunker = Chunker(buffer: Bytes, inCodeFence: bool, fenceMarker: Bytes)

  const EMPTY: Chunker := Chunker([], false, [])

  // Length of the first line of a non-empty text, its newline included
  function FirstLine(text: Bytes): (n: nat)
    requires |text| > 0
    ensures 0 < n <= |text|
    ensures forall i :: 0 <= i < n - 1 ==> text[i] != NEWLINE
    ensures text[n - 1] == NEWLINE || n == |text|
  {
    if text[0] == NEWLINE || |text| == 1 then 1 else 1 + FirstLine(text[1..])
  }

  // str::split_inclusive('\n')
  function Lines(text: Bytes): seq<Bytes>
    decreases |text|
  {
    if |text| == 0 then []
    else [text[..FirstLine(text)]] + Lines(text[FirstLine(text)..])
  }

  // A line whose trimmed text starts with three backticks opens or closes a fence.
  predicate IsFenceLine(line: Bytes) {
    FENCE <= Trim(line)
  }

  function PushLine(c: Chunker, line: Bytes): Chunker {
    var grown := c.(buffer := c.buffer + line);
    if !IsFenceLine(line) then grown
    else if !c.inCodeFence then grown.(inCodeFence := true, fenceMarker := FENCE)
    else if Trim(line) == FENCE || c.fenceMarker <= Trim(line) then
      grown.(inCodeFence := false, fenceMarker := [])
    else grown
  }

  function PushLines(c: Chunker, lines: seq<Bytes>): Chunker {
    if |lines| == 0 then c
    else PushLine(PushLines(c, lines[..|lines| - 1]), lines[|lines| - 1])
  }

  function PushText(c: Chunker, text: Bytes): Chunker {
    PushLines(c, Lines(text))
  }

  // ---------- try_flush ----------

  predicate MatchAt(s: Bytes, pattern: Bytes, p: int) {
    0 <= p && p + |pattern| <= |s| && s[p..p + |pattern|] == pattern
  }

  // The last match of the pattern that lies inside s[lo..hi]
  function LastMatch(s: Bytes, pattern: Bytes, lo: nat, hi: nat): Option<nat>
    requires |pattern| > 0 && hi <= |s|
    decreases hi
  {
    if hi < lo + |pattern| then None
    else if MatchAt(s, pattern, hi - |pattern|) then Some(hi - |pattern|)
    else LastMatch(s, pattern, lo, hi - 1)
  }

  // The greatest character boundary at or below i
  function FloorBoundary(s: Bytes, i: nat): nat {
    if i == 0 || IsCharBoundary(s, i) then i else FloorBoundary(s, i - 1)
  }

  function ForcedBreak(s: Bytes, max: nat): nat {
    if FloorBoundary(s, max) == 0 then |s| else FloorBoundary(s, max)
  }

  // Just after the last match of the pattern that lies inside s[lo..hi]
  function CutAfter(s: Bytes, pattern: Bytes, lo: nat, hi: nat): Option<nat>
    requires |pattern| > 0 && hi <= |s|
  {
    match LastMatch(s, pattern, lo, hi)
    case None => None
    case Some(p) => Some(p + |pattern|)
  }

  // Where a buffer outside a fence is cut: after the last paragraph break in
  // range, else the last newline, else a sentence ending, else at max bytes.
  function BreakPoint(s: Bytes, min: nat, max: nat): Option<nat> {
    var hi := Min(|s|, max);
    if CutAfter(s, PARAGRAPH, min, hi).Some? then CutAfter(s, PARAGRAPH, min, hi)
    else if CutAfter(s, LINE, min, hi).Some? then CutAfter(s, LINE, min, hi)
    else if CutAfter(s, PERIOD, min, hi).Some? then CutAfter(s, PERIOD, min, hi)
    else if CutAfter(s, EXCLAMATION, min, hi).Some? then CutAfter(s, EXCLAMATION, min, hi)
    else if CutAfter(s, QUESTION, min, hi).Some? then CutAfter(s, QUESTION, min, hi)
    else if |s| >= max then Some(ForcedBreak(s, max))
    else None
  }

  // str::trim_start_matches('`')
  function DropBackticks(s: Bytes): Bytes {
    if |s| > 0 && s[0] == BACKTICK then DropBackticks(s[1..]) else s
  }

  datatype Flushed = Flushed(next: Chunker, chunk: Option<Bytes>)

  function TryFlush(c: Chunker, min: nat, max: nat): Flushed {
    if |c.buffer| < min then Flushed(c, None)
    else if c.inCodeFence && |c.buffer| < max then Flushed(c, None)
    else if c.inCodeFence then
      Flushed(c.(buffer := FENCE + DropBackticks(c.fenceMarker) + LINE), Some(c.buffer + FORCED_CLOSE))
    else
      match BreakPoint(c.buffer, min, max)
      case None => Flushed(c, None)
      case Some(p) =>
        BreakPointInRange(c.buffer, min, max);
        Flushed(c.(buffer := c.buffer[p..]), Some(c.buffer[..p]))
  }

  function FlushRemaining(c: Chunker): Flushed {
    if |c.buffer| == 0 then Flushed(c, None) else Flushed(c.(buffer := []), Some(c.buffer))
  }

  // ---------- facts about one call ----------

  // Inside a fence the marker is always the three backticks, outside it is empty.
  ghost predicate MarkerAgrees(c: Chunker) {
    c.fenceMarker == if c.inCodeFence then FENCE else []
  }

  // Re-opening a fence always seeds the buffer with the same four bytes.
  lemma ReopenSeed()
    ensures FENCE + DropBackticks(FENCE) + LINE == REOPEN
  {
    assert DropBackticks(FENCE) == DropBackticks([BACKTICK, BACKTICK]) == DropBackticks([BACKTICK])
        == DropBackticks([]) by {
      assert FENCE[1..] == [BACKTICK, BACKTICK];
      assert FENCE[1..][1..] == [BACKTICK];
      assert FENCE[1..][1..][1..] == [];
    }
  }

  lemma {:induction false} LastMatchIsLast(s: Bytes, pattern: Bytes, lo: nat, hi: nat)
    requires |pattern| > 0 && hi <= |s|
    ensures var r := LastMatch(s, pattern, lo, hi);
            && (r.Some? ==> lo <= r.value && r.value + |pattern| <= hi && MatchAt(s, pattern, r.value))
            && forall q :: lo <= q && q + |pattern| <= hi && MatchAt(s, pattern, q) ==> r.Some? && q <= r.value
    decreases hi
  {
    if hi >= lo + |pattern| && !MatchAt(s, pattern, hi - |pattern|) {
      LastMatchIsLast(s, pattern, lo, hi - 1);
    }
  }

  lemma {:induction false} FloorBoundaryIsFloor(s: Bytes, i: nat)
    ensures FloorBoundary(s, i) <= i
    ensures IsCharBoundary(s, FloorBoundary(s, i))
    ensures forall j :: FloorBoundary(s, i) < j <= i ==> !IsCharBoundary(s, j)
  {
    if i > 0 && !IsCharBoundary(s, i) {
      FloorBoundaryIsFloor(s, i - 1);
    }
  }

  // A forced break steps back at most three bytes and never past a boundary.
  lemma {:induction false} ForcedBreakNearMax(s: Bytes, max: nat)
    requires Valid(s) && max <= |s|
    ensures ForcedBreak(s, max) <= |s| && IsCharBoundary(s, ForcedBreak(s, max))
    ensures max > 3 ==> max - 3 <= ForcedBreak(s, max) <= max
    ensures |s| > 0 ==> 0 < ForcedBreak(s, max)
  {
    hide FloorBoundary, Valid;
    FloorBoundaryIsFloor(s, max);
    BoundaryNearby(s, max);
  }

  lemma CutAfterInRange(s: Bytes, pattern: Bytes, lo: nat, hi: nat)
    requires |pattern| > 0 && hi <= |s|
    ensures var p := CutAfter(s, pattern, lo, hi);
            p.Some? ==> lo + |pattern| <= p.value <= hi && s[p.value - |pattern|..p.value] == pattern
  {
    hide LastMatch;
    LastMatchIsLast(s, pattern, lo, hi);
  }

  lemma BreakPointInRange(s: Bytes, min: nat, max: nat)
    ensures BreakPoint(s, min, max).Some? ==> BreakPoint(s, min, max).value <= |s|
  {
    hide LastMatch, CutAfter, FloorBoundary;
    var hi := Min(|s|, max);
    CutAfterInRange(s, PARAGRAPH, min, hi);
    CutAfterInRange(s, LINE, min, hi);
    CutAfterInRange(s, PERIOD, min, hi);
    CutAfterInRange(s, EXCLAMATION, min, hi);
    CutAfterInRange(s, QUESTION, min, hi);
    if |s| >= max {
      FloorBoundaryIsFloor(s, max);
    }
  }

  // x is just after a match of the pattern inside s[lo..hi]
  predicate EndsAt(s: Bytes, pattern: Bytes, lo: nat, hi: nat, x: nat) {
    lo + |pattern| <= x <= hi <= |s| && s[x - |pattern|..x] == pattern
  }

  ghost predicate LastEnd(s: Bytes, pattern: Bytes, lo: nat, hi: nat, x: nat) {
    EndsAt(s, pattern, lo, hi, x) && forall y: nat :: EndsAt(s, pattern, lo, hi, y) ==> y <= x
  }

  ghost predicate NoEnd(s: Bytes, pattern: Bytes, lo: nat, hi: nat) {
    forall y: nat :: !EndsAt(s, pattern, lo, hi, y)
  }

  lemma CutAfterIsLastEnd(s: Bytes, pattern: Bytes, lo: nat, hi: nat)
    requires |pattern| > 0 && hi <= |s|
    ensures var p := CutAfter(s, pattern, lo, hi);
            if p.Some? then LastEnd(s, pattern, lo, hi, p.value) else NoEnd(s, pattern, lo, hi)
  {
    hide LastMatch;
    LastMatchIsLast(s, pattern, lo, hi);
    forall y: nat | EndsAt(s, pattern, lo, hi, y)
      ensures CutAfter(s, pattern, lo, hi).Some? && y <= CutAfter(s, pattern, lo, hi).value
    {
      assert MatchAt(s, pattern, y - |pattern|);
    }
  }

  // x is the greatest character boundary up to max, or the end of a text that
  // has no boundary there but its start
  ghost predicate IsForced(s: Bytes, max: nat, x: nat) {
    if exists j :: 0 < j <= max && IsCharBoundary(s, j)
    then 0 < x <= max && IsCharBoundary(s, x) && forall j :: x < j <= max ==> !IsCharBoundary(s, j)
    else x == |s|
  }

  lemma ForcedBreakIsForced(s: Bytes, max: nat)
    ensures IsForced(s, max, ForcedBreak(s, max))
  {
    hide IsCharBoundary, FloorBoundary;
    FloorBoundaryIsFloor(s, max);
  }

  // The priorities, without the code: the cut follows the last paragraph break
  // in range if there is one, else the last newline, else a sentence ending;
  // with no break in range, only a buffer of at least max bytes is cut, and
  // then as close below max as a character boundary allows.
  lemma BreakPointPriority(s: Bytes, min: nat, max: nat)
    ensures var hi := Min(|s|, max);
            var p := BreakPoint(s, min, max);
            if !NoEnd(s, [0x0A, 0x0A], min, hi) then p.Some? && LastEnd(s, [0x0A, 0x0A], min, hi, p.value)
            else if !NoEnd(s, [0x0A], min, hi) then p.Some? && LastEnd(s, [0x0A], min, hi, p.value)
            else if !NoEnd(s, [0x2E, 0x20], min, hi) then p.Some? && LastEnd(s, [0x2E, 0x20], min, hi, p.value)
            else if !NoEnd(s, [0x21, 0x20], min, hi) then p.Some? && LastEnd(s, [0x21, 0x20], min, hi, p.value)
            else if !NoEnd(s, [0x3F, 0x20], min, hi) then p.Some? && LastEnd(s, [0x3F, 0x20], min, hi, p.value)
            else (p.Some? <==> |s| >= max) && (p.Some? ==> IsForced(s, max, p.value))
  {
    hide CutAfter, EndsAt, FloorBoundary, ForcedBreak, IsForced;
    ForcedBreakIsForced(s, max);
    var hi := Min(|s|, max);
    CutAfterIsLastEnd(s, PARAGRAPH, min, hi);
    CutAfterIsLastEnd(s, LINE, min, hi);
    CutAfterIsLastEnd(s, PERIOD, min, hi);
    CutAfterIsLastEnd(s, EXCLAMATION, min, hi);
    CutAfterIsLastEnd(s, QUESTION, min, hi);
  }

  lemma MatchEndsAtBoundary(s: Bytes, pattern: Bytes, p: nat)
    requires Valid(s) && AllAscii(pattern) && |pattern| > 0 && MatchAt(s, pattern, p)
    ensures IsCharBoundary(s, p) && IsCharBoundary(s, p + |pattern|)
  {
    assert s[p..p + |pattern|][0] == s[p];
    assert s[p..p + |pattern|][|pattern| - 1] == s[p + |pattern| - 1];
    AsciiEndsCharacter(s, p);
    AsciiEndsCharacter(s, p + |pattern| - 1);
  }

  lemma CutAfterAtBoundary(s: Bytes, pattern: Bytes, lo: nat, hi: nat)
    requires Valid(s) && AllAscii(pattern) && |pattern| > 0 && hi <= |s|
    ensures var p := CutAfter(s, pattern, lo, hi);
            p.Some? ==> p.value <= |s| && IsCharBoundary(s, p.value)
  {
    hide LastMatch, Valid, IsCharBoundary;
    LastMatchIsLast(s, pattern, lo, hi);
    if LastMatch(s, pattern, lo, hi).Some? {
      MatchEndsAtBoundary(s, pattern, LastMatch(s, pattern, lo, hi).value);
    }
  }

  // Whatever rule picks the cut, it falls on a character boundary.
  lemma BreakPointAtBoundary(s: Bytes, min: nat, max: nat)
    requires Valid(s)
    ensures var p := BreakPoint(s, min, max);
            p.Some? ==> p.value <= |s| && IsCharBoundary(s, p.value)
  {
    hide CutAfter, FloorBoundary, ForcedBreak, IsCharBoundary, Valid;
    var hi := Min(|s|, max);
    CutAfterAtBoundary(s, PARAGRAPH, min, hi);
    CutAfterAtBoundary(s, LINE, min, hi);
    CutAfterAtBoundary(s, PERIOD, min, hi);
    CutAfterAtBoundary(s, EXCLAMATION, min, hi);
    CutAfterAtBoundary(s, QUESTION, min, hi);
    if |s| >= max {
      ForcedBreakNearMax(s, max);
    }
  }

  // Lines only cuts: nothing is lost, and a newline can only end a line.
  function Flatten(parts: seq<Bytes>): Bytes {
    if |parts| == 0 then [] else Flatten(parts[..|parts| - 1]) + parts[|parts| - 1]
  }

  lemma {:induction false} FlattenCons(head: Bytes, parts: seq<Bytes>)
    ensures Flatten([head] + parts) == head + Flatten(parts)
  {
    var all := [head] + parts;
    if |parts| == 0 {
      assert all[..0] == [];
    } else {
      FlattenCons(head, parts[..|parts| - 1]);
      assert all[..|all| - 1] == [head] + parts[..|parts| - 1];
    }
  }

  lemma {:induction false} LinesKeepText(text: Bytes)
    ensures Flatten(Lines(text)) == text
    decreases |text|
  {
    if |text| > 0 {
      var n := FirstLine(text);
      LinesKeepText(text[n..]);
      FlattenCons(text[..n], Lines(text[n..]));
    }
  }

  lemma {:induction false} PushLinesAppends(c: Chunker, lines: seq<Bytes>)
    ensures PushLines(c, lines).buffer == c.buffer + Flatten(lines)
  {
    if |lines| > 0 {
      PushLinesAppends(c, lines[..|lines| - 1]);
    }
  }

  // push appends the text and nothing else.
  lemma PushAppends(c: Chunker, text: Bytes)
    ensures PushText(c, text).buffer == c.buffer + text
  {
    PushLinesAppends(c, Lines(text));
    LinesKeepText(text);
  }
}
