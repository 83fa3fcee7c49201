/** Which pushed lines open or close a fence, without trimming them. */
module ChunkerLines {
  import opened Utf8
  import opened ChunkerSpec

  // Nothing but white-space characters
  predicate IsBlank(s: Bytes)
    decreases |s|
  {
    s == [] || (SpaceLength(s) > 0 && IsBlank(s[SpaceLength(s)..]))
  }

  lemma SpaceInFront(s: Bytes, rest: Bytes)
    requires SpaceLength(s) > 0
    ensures SpaceLength(s + rest) == SpaceLength(s)
  {
  }

  lemma SpaceTaken(s: Bytes)
    requires SpaceLength(s) > 0
    ensures SpaceLength(s[..SpaceLength(s)]) == SpaceLength(s)
  {
  }

  lemma DropFront(front: Bytes, rest: Bytes, n: nat)
    requires n <= |front|
    ensures (front + rest)[n..] == front[n..] + rest
  {
  }

  lemma DropWhole(front: Bytes, rest: Bytes)
    ensures (front + rest)[|front|..] == rest
  {
  }

  lemma SplitFront(s: Bytes, n: nat, front: Bytes, rest: Bytes)
    requires n <= |s| && s[n..] == front + rest
    ensures s == s[..n] + front + rest
  {
    assert s == s[..n] + s[n..];
  }

  lemma {:induction false} BlankTrimmed(blank: Bytes, rest: Bytes)
    requires IsBlank(blank) && SpaceLength(rest) == 0
    ensures TrimStart(blank + rest) == rest
    decreases |blank|
  {
    if blank == [] {
      assert blank + rest == rest;
    } else {
      hide SpaceLength;
      SpaceInFront(blank, rest);
      DropFront(blank, rest, SpaceLength(blank));
      BlankTrimmed(blank[SpaceLength(blank)..], rest);
    }
  }

  lemma {:induction false} TrimStartBlank(s: Bytes) returns (blank: Bytes)
    ensures IsBlank(blank) && s == blank + TrimStart(s)
    decreases |s|
  {
    hide SpaceLength;
    var n := SpaceLength(s);
    if n == 0 {
      blank := [];
    } else {
      var more := TrimStartBlank(s[n..]);
      blank := s[..n] + more;
      SpaceTaken(s);
      SpaceInFront(s[..n], more);
      DropWhole(s[..n], more);
      SplitFront(s, n, more, TrimStart(s));
    }
  }

  lemma SpaceAtBack(s: Bytes)
    requires SpaceLengthBack(s) > 0
    ensures SpaceLength(s[|s| - SpaceLengthBack(s)..]) == SpaceLengthBack(s)
  {
    hide SpaceLength;
  }

  lemma BacktickIsNoSpace(s: Bytes)
    requires |s| > 0 && s[0] == BACKTICK
    ensures SpaceLength(s) == 0
  {
  }

  lemma FencePrefix(s: Bytes)
    ensures FENCE <= s <==> |s| >= 3 && s[0] == s[1] == s[2] == BACKTICK
  {
  }

  // Taking white space off the back never reaches three leading backticks.
  lemma {:induction false} TrimEndKeepsFence(s: Bytes)
    ensures FENCE <= TrimEnd(s) <==> FENCE <= s
    decreases |s|
  {
    hide SpaceLength, SpaceLengthBack;
    var n := SpaceLengthBack(s);
    if n > 0 {
      var kept := s[..|s| - n];
      TrimEndKeepsFence(kept);
      FencePrefix(s);
      FencePrefix(kept);
      SpaceAtBack(s);
      if FENCE <= s && |s| - n < 3 {
        BacktickIsNoSpace(s[|s| - n..]);
      }
    }
  }

  ghost predicate OpensWithTicks(line: Bytes, blank: Bytes, rest: Bytes) {
    IsBlank(blank) && line == blank + ([0x60, 0x60, 0x60] + rest)
  }

  // A fence line is three backticks behind white space, whatever follows.
  lemma FenceLineIff(line: Bytes)
    ensures IsFenceLine(line) <==> exists blank, rest :: OpensWithTicks(line, blank, rest)
  {
    hide SpaceLength, IsBlank, TrimStart, TrimEnd;
    TrimEndKeepsFence(TrimStart(line));
    if IsFenceLine(line) {
      var blank := TrimStartBlank(line);
      assert OpensWithTicks(line, blank, TrimStart(line)[3..]);
    }
    forall blank, rest | OpensWithTicks(line, blank, rest)
      ensures IsFenceLine(line)
    {
      BacktickIsNoSpace([0x60, 0x60, 0x60] + rest);
      BlankTrimmed(blank, [0x60, 0x60, 0x60] + rest);
    }
  }
}
