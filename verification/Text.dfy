/** String searching, counting and trimming as the Rust standard library does it. */
module Text {
  import opened Wrappers

  // char::is_whitespace
  predicate IsSpace(c: char) {
    || '\t' <= c <= '\r'
    || c == ' '
    || c == '\U{0085}' || c == '\U{00A0}' || c == '\U{1680}'
    || '\U{2000}' <= c <= '\U{200A}'
    || c == '\U{2028}' || c == '\U{2029}' || c == '\U{202F}' || c == '\U{205F}' || c == '\U{3000}'
  }

  function TrimStart(s: string): string {
    if |s| > 0 && IsSpace(s[0]) then TrimStart(s[1..]) else s
  }

  function TrimEnd(s: string): string {
    if |s| > 0 && IsSpace(s[|s| - 1]) then TrimEnd(s[..|s| - 1]) else s
  }

  function Trim(s: string): string {
    TrimEnd(TrimStart(s))
  }

  lemma {:induction false} TrimStartMeans(s: string) returns (lo: nat)
    ensures lo <= |s| && TrimStart(s) == s[lo..]
    ensures (forall i :: 0 <= i < lo ==> IsSpace(s[i])) && (lo < |s| ==> !IsSpace(s[lo]))
  {
    hide IsSpace;
    if |s| > 0 && IsSpace(s[0]) {
      var rest := TrimStartMeans(s[1..]);
      lo := rest + 1;
      assert s[1..][rest..] == s[lo..];
      assert forall i :: 1 <= i < lo ==> s[i] == s[1..][i - 1];
    } else {
      lo := 0;
    }
  }

  lemma {:induction false} TrimEndMeans(s: string) returns (hi: nat)
    ensures hi <= |s| && TrimEnd(s) == s[..hi]
    ensures (forall i :: hi <= i < |s| ==> IsSpace(s[i])) && (hi > 0 ==> !IsSpace(s[hi - 1]))
  {
    hide IsSpace;
    if |s| > 0 && IsSpace(s[|s| - 1]) {
      var n := |s| - 1;
      hi := TrimEndMeans(s[..n]);
      assert s[..n][..hi] == s[..hi];
      assert forall i :: hi <= i < n ==> s[i] == s[..n][i];
    } else {
      hi := |s|;
      assert s[..hi] == s;
    }
  }

  // Trimming keeps the stretch between the first and the last character that is
  // no white space, both included, and nothing of a text without one.
  lemma TrimMeans(s: string) returns (lo: nat, hi: nat)
    ensures lo <= hi <= |s| && Trim(s) == s[lo..hi]
    ensures forall i :: 0 <= i < lo || hi <= i < |s| ==> IsSpace(s[i])
    ensures lo < hi ==> !IsSpace(s[lo]) && !IsSpace(s[hi - 1])
  {
    hide IsSpace, TrimStart, TrimEnd;
    lo := TrimStartMeans(s);
    var kept := TrimEndMeans(s[lo..]);
    hi := lo + kept;
    assert s[lo..][..kept] == s[lo..hi];
    assert forall i :: hi <= i < |s| ==> s[i] == s[lo..][i - lo];
    if kept > 0 {
      assert s[hi - 1] == s[lo..][kept - 1];
    }
  }

  predicate MatchAt(s: string, pattern: string, p: nat) {
    p + |pattern| <= |s| && s[p..p + |pattern|] == pattern
  }

  // The first match at or after from
  function Find(s: string, pattern: string, from: nat): Option<nat>
    requires from <= |s|
    decreases |s| - from
  {
    if MatchAt(s, pattern, from) then Some(from)
    else if from == |s| then None
    else Find(s, pattern, from + 1)
  }

  ghost predicate NoMatch(s: string, pattern: string, from: nat, to: nat) {
    forall q: nat :: from <= q < to ==> !MatchAt(s, pattern, q)
  }

  lemma {:induction false} FindIsFirst(s: string, pattern: string, from: nat)
    requires from <= |s|
    ensures var r := Find(s, pattern, from);
            if r.Some? then from <= r.value && MatchAt(s, pattern, r.value) && NoMatch(s, pattern, from, r.value)
            else NoMatch(s, pattern, from, |s| + 1)
    decreases |s| - from
  {
    if !MatchAt(s, pattern, from) && from < |s| {
      FindIsFirst(s, pattern, from + 1);
    }
  }

  // The first two characters of a match
  lemma FindIsMatch(s: string, pattern: string, from: nat)
    requires from <= |s| && |pattern| > 0
    ensures var r := Find(s, pattern, from);
            r.Some? ==> from <= r.value && r.value + |pattern| <= |s| && s[r.value] == pattern[0]
                        && (|pattern| > 1 ==> s[r.value + 1] == pattern[1])
  {
    hide Find;
    FindIsFirst(s, pattern, from);
    var r := Find(s, pattern, from);
    if r.Some? {
      assert s[r.value..r.value + |pattern|][0] == s[r.value];
      assert |pattern| > 1 ==> s[r.value..r.value + |pattern|][1] == s[r.value + 1];
    }
  }

  lemma FirstMatchIsFound(s: string, pattern: string, from: nat, p: nat)
    requires from <= p && MatchAt(s, pattern, p) && NoMatch(s, pattern, from, p)
    ensures Find(s, pattern, from) == Some(p)
  {
    FindIsFirst(s, pattern, from);
  }

  // Where the pattern's first character does not occur, the pattern does not match.
  lemma NoMatchWithout(s: string, pattern: string, from: nat, to: nat)
    requires |pattern| > 0 && forall q :: from <= q < to && q < |s| ==> s[q] != pattern[0]
    ensures NoMatch(s, pattern, from, to)
  {
    forall q: nat | from <= q < to ensures !MatchAt(s, pattern, q) {
      if q + |pattern| <= |s| {
        assert s[q..q + |pattern|][0] == s[q];
      }
    }
  }

  lemma NoMatchIsNotFound(s: string, pattern: string, from: nat)
    requires from <= |s| && NoMatch(s, pattern, from, |s| + 1)
    ensures Find(s, pattern, from).None?
  {
    FindIsFirst(s, pattern, from);
  }

  // Searching behind a prefix is searching the rest.
  lemma {:induction false} FindShift(a: string, y: string, pattern: string, from: nat)
    requires from <= |y|
    ensures Find(a + y, pattern, |a| + from) == var r := Find(y, pattern, from);
            if r.Some? then Some(|a| + r.value) else None
    decreases |y| - from
  {
    if from + |pattern| <= |y| {
      assert (a + y)[|a| + from..|a| + from + |pattern|] == y[from..from + |pattern|];
    }
    if !MatchAt(y, pattern, from) && from < |y| {
      FindShift(a, y, pattern, from + 1);
    }
  }

  // A prefix without the pattern's first character holds no match.
  lemma {:induction false} FindSkip(a: string, y: string, pattern: string, from: nat)
    requires |pattern| > 0 && from <= |a| && (forall i :: from <= i < |a| ==> a[i] != pattern[0])
    ensures Find(a + y, pattern, from) == Find(a + y, pattern, |a|)
    decreases |a| - from
  {
    if from < |a| {
      if from + |pattern| <= |a + y| {
        assert (a + y)[from..from + |pattern|][0] == a[from];
      }
      FindSkip(a, y, pattern, from + 1);
    }
  }

  // ... so the first match behind such a prefix is the first match of the rest.
  lemma FindBehind(a: string, y: string, pattern: string)
    requires |pattern| > 0 && pattern[0] !in a
    ensures Find(a + y, pattern, 0) == var r := Find(y, pattern, 0); if r.Some? then Some(|a| + r.value) else None
  {
    hide Find;
    FindSkip(a, y, pattern, 0);
    FindShift(a, y, pattern, 0);
  }

  function Count(s: string, c: char): nat {
    if |s| == 0 then 0 else (if s[0] == c then 1 else 0) + Count(s[1..], c)
  }

  lemma {:induction false} CountConcat(a: string, b: string, c: char)
    ensures Count(a + b, c) == Count(a, c) + Count(b, c)
  {
    if |a| == 0 {
      assert a + b == b;
    } else {
      assert (a + b)[1..] == a[1..] + b;
      CountConcat(a[1..], b, c);
    }
  }

  lemma Count5(a: string, b: string, d: string, e: string, f: string, c: char)
    ensures Count(a + b + d + e + f, c) == Count(a, c) + Count(b, c) + Count(d, c) + Count(e, c) + Count(f, c)
  {
    hide Count;
    CountConcat(a, b, c);
    CountConcat(a + b, d, c);
    CountConcat(a + b + d, e, c);
    CountConcat(a + b + d + e, f, c);
  }

  lemma Count7(a: string, b: string, d: string, e: string, f: string, g: string, h: string, c: char)
    ensures Count(a + b + d + e + f + g + h, c)
         == Count(a, c) + Count(b, c) + Count(d, c) + Count(e, c) + Count(f, c) + Count(g, c) + Count(h, c)
  {
    hide Count;
    CountConcat(a, b, c);
    CountConcat(a + b, d, c);
    CountConcat(a + b + d, e, c);
    CountConcat(a + b + d + e, f, c);
    CountConcat(a + b + d + e + f, g, c);
    CountConcat(a + b + d + e + f + g, h, c);
  }

  lemma {:induction false} CountZero(s: string, c: char)
    ensures Count(s, c) == 0 <==> c !in s
  {
    if |s| > 0 {
      CountZero(s[1..], c);
    }
  }

  // s with every character of the set deleted
  function Without(s: string, drop: set<char>): string {
    if |s| == 0 then []
    else if s[0] in drop then Without(s[1..], drop)
    else [s[0]] + Without(s[1..], drop)
  }

  lemma {:induction false} WithoutConcat(a: string, b: string, drop: set<char>)
    ensures Without(a + b, drop) == Without(a, drop) + Without(b, drop)
  {
    if |a| == 0 {
      assert a + b == b;
    } else {
      assert (a + b)[0] == a[0] && (a + b)[1..] == a[1..] + b;
      WithoutConcat(a[1..], b, drop);
    }
  }

  // Length of the first line, without its newline
  function LineEnd(s: string): (n: nat)
    ensures n <= |s| && (n < |s| ==> s[n] == '\n') && '\n' !in s[..n]
  {
    if |s| == 0 || s[0] == '\n' then 0 else 1 + LineEnd(s[1..])
  }

  // str::replace for a one-character pattern
  function Replace(s: string, c: char, sub: string): string {
    if |s| == 0 then [] else (if s[0] == c then sub else [s[0]]) + Replace(s[1..], c, sub)
  }

  function Join(parts: seq<string>, separator: string): string {
    if |parts| == 0 then []
    else if |parts| == 1 then parts[0]
    else parts[0] + separator + Join(parts[1..], separator)
  }
}
