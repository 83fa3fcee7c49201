/** The duplicate detector for streamed text: two vectors kept in lockstep, and
    a normaliser that works in one pass over the characters. */
module DedupWindow {
  import opened Text

  const MIN_DEDUP_LENGTH := 10

  const DEDUP_WINDOW := 50

  // str::len counts bytes
  function ByteLength(s: string): nat {
    if |s| == 0 then 0
    else
      (if s[0] < '\U{0080}' then 1 else if s[0] < '\U{0800}' then 2 else if s[0] < '\U{10000}' then 3 else 4)
      + ByteLength(s[1..])
  }

  // One to four bytes for each character, as UTF-8 has it
  lemma {:induction false} ByteLengthSplits(s: string, c: char)
    ensures ByteLength("") == 0
    ensures ByteLength(s + [c]) == ByteLength(s) +
            if c as int < 0x80 then 1 else if c as int < 0x800 then 2 else if c as int < 0x1_0000 then 3 else 4
  {
    if |s| == 0 {
      assert s + [c] == [c] && [c][1..] == "";
    } else {
      ByteLengthSplits(s[1..], c);
      assert (s + [c])[1..] == s[1..] + [c];
    }
  }

  // ---------- words ----------

  predicate SpaceFree(s: string) {
    forall i :: 0 <= i < |s| ==> !IsSpace(s[i])
  }

  function WordEnd(s: string): (n: nat)
    ensures n <= |s| && SpaceFree(s[..n]) && (n < |s| ==> IsSpace(s[n]))
    ensures |s| > 0 && !IsSpace(s[0]) ==> n > 0
  {
    if |s| == 0 || IsSpace(s[0]) then 0 else 1 + WordEnd(s[1..])
  }

  // str::split_whitespace
  function Words(s: string): seq<string>
    decreases |s|
  {
    if |s| == 0 then []
    else if IsSpace(s[0]) then Words(s[1..])
    else [s[..WordEnd(s)]] + Words(s[WordEnd(s)..])
  }

  predicate Blank(s: string) {
    forall i :: 0 <= i < |s| ==> IsSpace(s[i])
  }

  // s is a gap, the first word up to the next space or the end, and the rest.
  ghost predicate FirstWord(s: string, gap: string, word: string, rest: string) {
    && s == gap + (word + rest) && Blank(gap)
    && |word| > 0 && SpaceFree(word) && (|rest| > 0 ==> IsSpace(rest[0]))
  }

  // s is made of these words, with white space between any two and around them.
  ghost predicate MadeOf(s: string, ws: seq<string>)
    decreases |ws|
  {
    if |ws| == 0 then Blank(s)
    else exists gap, rest :: FirstWord(s, gap, ws[0], rest) && MadeOf(rest, ws[1..])
  }

  predicate WordList(ws: seq<string>) {
    forall i :: 0 <= i < |ws| ==> |ws[i]| > 0 && SpaceFree(ws[i])
  }

  // Lower-casing keeps whitespace and text apart.
  ghost predicate KeepsText(lower: char -> char) {
    forall c: char :: !IsSpace(c) ==> !IsSpace(lower(c))
  }

  function Lower(lower: char -> char, s: string): (r: string)
    ensures |r| == |s| && forall i :: 0 <= i < |s| ==> r[i] == lower(s[i])
  {
    seq(|s|, i requires 0 <= i < |s| => lower(s[i]))
  }

  function LowerAll(lower: char -> char, ws: seq<string>): (r: seq<string>)
    ensures |r| == |ws| && forall i :: 0 <= i < |ws| ==> r[i] == Lower(lower, ws[i])
  {
    seq(|ws|, i requires 0 <= i < |ws| => Lower(lower, ws[i]))
  }

  function LowerWords(lower: char -> char, text: string): seq<string> {
    LowerAll(lower, Words(text))
  }

  lemma {:induction false} WordsAreWords(s: string)
    ensures WordList(Words(s))
    decreases |s|
  {
    if |s| > 0 {
      if IsSpace(s[0]) {
        WordsAreWords(s[1..]);
      } else {
        WordsAreWords(s[WordEnd(s)..]);
      }
    }
  }

  lemma LowerWordsAreWords(lower: char -> char, text: string)
    requires KeepsText(lower)
    ensures WordList(LowerWords(lower, text))
  {
    hide Words, IsSpace;
    WordsAreWords(text);
  }

  lemma {:induction false} BlankHasNoWords(s: string)
    requires Blank(s)
    ensures Words(s) == []
  {
    hide IsSpace;
    if |s| > 0 {
      assert IsSpace(s[0]);
      BlankHasNoWords(s[1..]);
    }
  }

  lemma {:induction false} WordsBehindGap(gap: string, s: string)
    requires Blank(gap)
    ensures Words(gap + s) == Words(s)
  {
    hide IsSpace, WordEnd;
    if |gap| == 0 {
      assert gap + s == s;
    } else {
      WordsBehindGap(gap[1..], s);
      assert (gap + s)[1..] == gap[1..] + s;
    }
  }

  lemma FirstWordTaken(s: string, gap: string, word: string, rest: string)
    requires FirstWord(s, gap, word, rest)
    ensures Words(s) == [word] + Words(rest)
  {
    hide IsSpace, WordEnd;
    var t := word + rest;
    WordsBehindGap(gap, t);
    assert t[..|word|] == word && t[|word|..] == rest && t[0] == word[0];
    WordEndIs(t, |word|);
  }

  // Splitting at white space gives the words a text is made of, and it is made
  // of no others.
  lemma {:induction false} WordsIff(s: string, ws: seq<string>)
    ensures MadeOf(s, ws) <==> ws == Words(s)
    decreases |s|, |ws|
  {
    hide IsSpace, WordEnd, Words;
    WordsMakeUp(s);
    if MadeOf(s, ws) {
      if |ws| == 0 {
        BlankHasNoWords(s);
      } else {
        var gap, rest :| FirstWord(s, gap, ws[0], rest) && MadeOf(rest, ws[1..]);
        FirstWordTaken(s, gap, ws[0], rest);
        WordsIff(rest, ws[1..]);
        assert ws == [ws[0]] + ws[1..];
      }
    }
  }

  lemma {:induction false} WordsMakeUp(s: string)
    ensures MadeOf(s, Words(s))
    decreases |s|
  {
    hide IsSpace, WordEnd;
    if |s| == 0 {
    } else if IsSpace(s[0]) {
      WordsMakeUp(s[1..]);
      GapGrows(s, Words(s));
    } else {
      var n := WordEnd(s);
      WordsMakeUp(s[n..]);
      assert s == "" + (s[..n] + s[n..]);
      var ws := [s[..n]] + Words(s[n..]);
      assert ws[1..] == Words(s[n..]);
      assert FirstWord(s, "", ws[0], s[n..]);
    }
  }

  lemma GapGrows(s: string, ws: seq<string>)
    requires |s| > 0 && IsSpace(s[0]) && MadeOf(s[1..], ws)
    ensures MadeOf(s, ws)
  {
    hide IsSpace;
    if |ws| == 0 {
      assert forall i :: 1 <= i < |s| ==> s[i] == s[1..][i - 1];
    } else {
      var gap, rest :| FirstWord(s[1..], gap, ws[0], rest) && MadeOf(rest, ws[1..]);
      assert s == ([s[0]] + gap) + (ws[0] + rest);
      assert FirstWord(s, [s[0]] + gap, ws[0], rest);
    }
  }

  // ---------- joining loses nothing ----------

  lemma {:induction false} WordEndIs(s: string, n: nat)
    requires n <= |s| && SpaceFree(s[..n]) && (n < |s| ==> IsSpace(s[n]))
    ensures WordEnd(s) == n
    decreases n
  {
    hide IsSpace;
    if n > 0 {
      assert s[..n][0] == s[0] && s[..n][1..] == s[1..][..n - 1];
      WordEndIs(s[1..], n - 1);
    }
  }

  lemma {:induction false} WordsOfJoin(ws: seq<string>)
    requires WordList(ws)
    ensures Words(Join(ws, " ")) == ws
  {
    hide WordEnd;
    if |ws| == 1 {
      WordEndIs(ws[0], |ws[0]|);
      assert ws[0][..|ws[0]|] == ws[0] && ws == [ws[0]];
    } else if |ws| > 1 {
      var w, rest := ws[0], Join(ws[1..], " ");
      var s := w + " " + rest;
      assert s[..|w|] == w && s[|w|..] == " " + rest && (" " + rest)[1..] == rest;
      WordEndIs(s, |w|);
      WordsOfJoin(ws[1..]);
      assert s[0] == w[0];
      assert ws == [w] + ws[1..];
    }
  }

  // Two texts have the same normal form exactly when they are the same words
  // in the same order, case and whitespace apart.
  lemma SameFormSameWords(lower: char -> char, a: string, b: string)
    requires KeepsText(lower)
    ensures Join(LowerWords(lower, a), " ") == Join(LowerWords(lower, b), " ")
            <==> LowerWords(lower, a) == LowerWords(lower, b)
  {
    hide LowerWords;
    LowerWordsAreWords(lower, a);
    LowerWordsAreWords(lower, b);
    WordsOfJoin(LowerWords(lower, a));
    WordsOfJoin(LowerWords(lower, b));
  }

  // ---------- the one-pass normaliser ----------

  // What the loop still appends, given whether the last character was a space
  function Collapse(lower: char -> char, s: string, lastWasSpace: bool): string {
    if |s| == 0 then []
    else if IsSpace(s[0]) then (if lastWasSpace then [] else " ") + Collapse(lower, s[1..], true)
    else [lower(s[0])] + Collapse(lower, s[1..], false)
  }

  lemma LowerFirst(lower: char -> char, c: char, s: string)
    ensures Lower(lower, [c] + s) == [lower(c)] + Lower(lower, s)
  {
  }

  lemma {:induction false} CollapseWord(lower: char -> char, s: string, n: nat, lastWasSpace: bool)
    requires 0 < n <= |s| && SpaceFree(s[..n])
    ensures Collapse(lower, s, lastWasSpace) == Lower(lower, s[..n]) + Collapse(lower, s[n..], false)
    decreases n
  {
    hide IsSpace, Lower;
    assert s[..n][0] == s[0];
    var word, rest := s[1..][..n - 1], s[n..];
    assert s[..n] == [s[0]] + word && s[1..][n - 1..] == rest;
    LowerFirst(lower, s[0], word);
    if n > 1 {
      assert SpaceFree(word) by {
        assert forall k :: 0 <= k < n - 1 ==> word[k] == s[..n][k + 1];
      }
      CollapseWord(lower, s[1..], n - 1, false);
      assert [lower(s[0])] + (Lower(lower, word) + Collapse(lower, rest, false))
          == [lower(s[0])] + Lower(lower, word) + Collapse(lower, rest, false);
    }
  }

  predicate EndsWithSpace(s: string) {
    |s| > 0 && IsSpace(s[|s| - 1])
  }

  function Space(present: bool): string {
    if present then " " else ""
  }

  lemma {:induction false} NoWordsAllSpace(s: string)
    requires Words(s) == []
    ensures forall i :: 0 <= i < |s| ==> IsSpace(s[i])
    decreases |s|
  {
    hide IsSpace, WordEnd;
    if |s| > 0 {
      assert IsSpace(s[0]);
      NoWordsAllSpace(s[1..]);
      assert forall i :: 0 < i < |s| ==> s[i] == s[1..][i - 1];
    }
  }

  lemma LowerAllSplit(lower: char -> char, word: string, rest: seq<string>)
    ensures LowerAll(lower, [word] + rest) == [Lower(lower, word)] + LowerAll(lower, rest)
  {
    hide Lower;
  }

  lemma LowerWordsSplit(lower: char -> char, s: string)
    requires |s| > 0 && !IsSpace(s[0])
    ensures LowerWords(lower, s) == [Lower(lower, s[..WordEnd(s)])] + LowerWords(lower, s[WordEnd(s)..])
  {
    hide IsSpace, WordEnd, Lower, LowerAll;
    LowerAllSplit(lower, s[..WordEnd(s)], Words(s[WordEnd(s)..]));
  }

  lemma JoinFirst(word: string, rest: seq<string>)
    ensures Join([word] + rest, " ") == if rest == [] then word else word + " " + Join(rest, " ")
  {
    assert ([word] + rest)[1..] == rest;
  }

  // The words of a text that starts with whitespace are those behind it.
  lemma SpaceFirst(lower: char -> char, s: string)
    requires |s| > 0 && IsSpace(s[0])
    ensures Collapse(lower, s, false) == " " + Collapse(lower, s[1..], true)
    ensures Collapse(lower, s, true) == Collapse(lower, s[1..], true)
    ensures Words(s) == Words(s[1..]) && LowerWords(lower, s) == LowerWords(lower, s[1..])
    ensures |LowerWords(lower, s)| > 0 ==> EndsWithSpace(s) == EndsWithSpace(s[1..])
  {
    hide IsSpace, WordEnd;
    assert [] + Collapse(lower, s[1..], true) == Collapse(lower, s[1..], true);
  }

  lemma LastOfRest(s: string, n: nat)
    requires n < |s|
    ensures EndsWithSpace(s) == EndsWithSpace(s[n..])
  {
    hide IsSpace;
    assert s[n..][|s| - n - 1] == s[|s| - 1];
  }

  lemma LoneWordEnds(s: string)
    requires |s| > 0 && SpaceFree(s)
    ensures !EndsWithSpace(s)
  {
  }

  lemma NoWordsEnds(lower: char -> char, s: string)
    requires |s| > 0 && LowerWords(lower, s) == []
    ensures EndsWithSpace(s)
  {
    hide IsSpace, Words;
    assert |Words(s)| == |LowerWords(lower, s)|;
    NoWordsAllSpace(s);
  }

  lemma EmptyForms(lower: char -> char, lastWasSpace: bool)
    ensures LowerWords(lower, []) == [] && Collapse(lower, [], lastWasSpace) == [] && Join([], " ") == []
  {
  }

  // After a space the loop leaves the joined words, and one space when a word
  // was followed by whitespace at the very end.
  lemma {:induction false} CollapseJoins(lower: char -> char, s: string)
    ensures Collapse(lower, s, true)
            == Join(LowerWords(lower, s), " ") + Space(|LowerWords(lower, s)| > 0 && EndsWithSpace(s))
    decreases |s|
  {
    hide IsSpace, Words, WordEnd, LowerWords, Collapse, Join, EndsWithSpace;
    EmptyForms(lower, true);
    EmptyForms(lower, false);
    if |s| == 0 {
    } else if IsSpace(s[0]) {
      SpaceFirst(lower, s);
      CollapseJoins(lower, s[1..]);
    } else {
      var n := WordEnd(s);
      var word, rest := Lower(lower, s[..n]), s[n..];
      CollapseWord(lower, s, n, true);
      LowerWordsSplit(lower, s);
      JoinFirst(word, LowerWords(lower, rest));
      if rest == [] {
        assert s[..n] == s;
        LoneWordEnds(s);
      } else {
        LastOfRest(s, n);
        assert rest[0] == s[n];
        if LowerWords(lower, rest) == [] {
          NoWordsEnds(lower, rest);
        }
        SpaceFirst(lower, rest);
        CollapseJoins(lower, rest[1..]);
        Apart(word, " ", Join(LowerWords(lower, rest), " "));
      }
    }
  }

  lemma Apart(a: string, b: string, c: string)
    ensures a + (b + c) == a + b + c
  {
  }

  lemma {:induction false} JoinEdges(ws: seq<string>)
    requires WordList(ws) && |ws| > 0
    ensures |Join(ws, " ")| > 0 && !IsSpace(Join(ws, " ")[0]) && !IsSpace(Join(ws, " ")[|Join(ws, " ")| - 1])
  {
    hide IsSpace;
    if |ws| > 1 {
      JoinEdges(ws[1..]);
    }
  }

  lemma TrimEdges(s: string, before: bool, after: bool)
    requires |s| > 0 && !IsSpace(s[0]) && !IsSpace(s[|s| - 1])
    ensures Trim(Space(before) + (s + Space(after))) == s
  {
    var tail := s + Space(after);
    assert tail[0] == s[0];
    assert TrimStart(tail) == tail;
    if before {
      assert (" " + tail)[1..] == tail;
    } else {
      assert "" + tail == tail;
    }
    assert TrimEnd(s) == s;
    if after {
      assert tail[..|tail| - 1] == s;
    } else {
      assert tail == s;
    }
  }

  lemma CollapseTrimmed(lower: char -> char, text: string)
    requires KeepsText(lower)
    ensures Trim(Collapse(lower, text, false)) == Join(LowerWords(lower, text), " ")
  {
    hide IsSpace, Trim, Join, LowerWords, Collapse;
    var words := LowerWords(lower, text);
    CollapseJoins(lower, text);
    LowerWordsAreWords(lower, text);
    LeadingSpace(lower, text);
    var before, after := |text| > 0 && IsSpace(text[0]), |words| > 0 && EndsWithSpace(text);
    assert Collapse(lower, text, false) == Space(before) + (Join(words, " ") + Space(after));
    if |words| > 0 {
      JoinEdges(words);
      TrimEdges(Join(words, " "), before, after);
    } else {
      EmptyForms(lower, false);
      assert Space(before) + ([] + Space(false)) == Space(before);
      SpacesTrimmed(before);
    }
  }

  lemma LeadingSpace(lower: char -> char, s: string)
    ensures Collapse(lower, s, false) == Space(|s| > 0 && IsSpace(s[0])) + Collapse(lower, s, true)
  {
    hide IsSpace;
  }

  lemma SpacesTrimmed(present: bool)
    ensures Trim(Space(present)) == []
  {
    var s := Space(present);
    assert present ==> s[0] == ' ' && s[1..] == [];
    assert TrimStart(s) == [];
  }

  lemma CollapseStep(lower: char -> char, s: string, i: nat, lastWasSpace: bool)
    requires i < |s|
    ensures Collapse(lower, s[i..], lastWasSpace)
         == (if IsSpace(s[i]) then Space(!lastWasSpace) else [lower(s[i])]) + Collapse(lower, s[i + 1..], IsSpace(s[i]))
  {
    hide IsSpace;
    assert s[i..][0] == s[i] && s[i..][1..] == s[i + 1..];
  }

  method Normalize(lower: char -> char, text: string) returns (result: string)
    requires KeepsText(lower)
    ensures result == Join(LowerWords(lower, text), " ")
  {
    hide IsSpace, LowerWords, Trim, Join, Collapse, KeepsText;
    result := "";
    var lastWasSpace := false;
    for i := 0 to |text|
      invariant result + Collapse(lower, text[i..], lastWasSpace) == Collapse(lower, text, false)
    {
      var ch := text[i];
      CollapseStep(lower, text, i, lastWasSpace);
      if IsSpace(ch) {
        if !lastWasSpace {
          result := result + " ";
          lastWasSpace := true;
        }
      } else {
        result := result + [lower(ch)];
        lastWasSpace := false;
      }
    }
    EmptyForms(lower, lastWasSpace);
    assert text[|text|..] == [] && result + [] == result;
    assert result == Collapse(lower, text, false);
    CollapseTrimmed(lower, text);
    result := Trim(result);
  }

  // The normal form is stable when lower-casing is.
  lemma NormalFormIsStable(lower: char -> char, text: string)
    requires KeepsText(lower) && forall c: char :: lower(lower(c)) == lower(c)
    ensures LowerWords(lower, Join(LowerWords(lower, text), " ")) == LowerWords(lower, text)
  {
    hide Words, IsSpace;
    var words := LowerWords(lower, text);
    LowerWordsAreWords(lower, text);
    WordsOfJoin(words);
    assert forall i :: 0 <= i < |words| ==> Lower(lower, words[i]) == words[i];
    assert LowerAll(lower, words) == words;
  }

  // ---------- the window ----------

  function LastOf(history: seq<string>): seq<string> {
    if |history| <= DEDUP_WINDOW then history else history[|history| - DEDUP_WINDOW..]
  }

  class StreamDedup {
    const lower: char -> char
    var recentChunks: seq<string>
    var recentNormalized: seq<string>
    // Every long text recorded since the last clear
    ghost var history: seq<string>

    ghost predicate Valid()
      reads this
    {
      && KeepsText(lower)
      && recentChunks == LastOf(history)
      && |recentNormalized| == |recentChunks| <= DEDUP_WINDOW
      && forall i :: 0 <= i < |recentChunks| ==> recentNormalized[i] == Join(LowerWords(lower, recentChunks[i]), " ")
    }

    constructor (lower: char -> char)
      requires KeepsText(lower)
      ensures Valid() && history == [] && this.lower == lower
    {
      this.lower := lower;
      recentChunks, recentNormalized, history := [], [], [];
    }

    // A text is a duplicate when it is long enough and one of the last fifty
    // long texts recorded consists of the same words.
    method IsDuplicate(text: string) returns (duplicate: bool)
      requires Valid()
      ensures duplicate <==> ByteLength(text) >= 10 &&
                             exists j :: 0 <= j < |history| && |history| - 50 <= j &&
                                         LowerWords(lower, history[j]) == LowerWords(lower, text)
    {
      hide ByteLength, Join, LowerWords;
      if ByteLength(text) < MIN_DEDUP_LENGTH {
        return false;
      }
      ghost var skipped := |history| - |recentChunks|;
      assert forall i :: 0 <= i < |recentChunks| ==> recentChunks[i] == history[skipped + i];
      assert forall j :: skipped <= j < |history| ==> history[j] == recentChunks[j - skipped];
      if text in recentChunks {
        ghost var i :| 0 <= i < |recentChunks| && recentChunks[i] == text;
        assert history[skipped + i] == text;
        return true;
      }
      var normalized := Normalize(lower, text);
      forall i | 0 <= i < |recentChunks|
        ensures recentNormalized[i] == normalized
                <==> LowerWords(lower, history[skipped + i]) == LowerWords(lower, text)
      {
        SameFormSameWords(lower, recentChunks[i], text);
      }
      duplicate := normalized in recentNormalized;
      if duplicate {
        ghost var i :| 0 <= i < |recentNormalized| && recentNormalized[i] == normalized;
        assert LowerWords(lower, history[skipped + i]) == LowerWords(lower, text);
      } else {
        forall j | skipped <= j < |history| ensures LowerWords(lower, history[j]) != LowerWords(lower, text) {
          assert recentNormalized[j - skipped] != normalized;
        }
      }
    }

    method RecordSent(text: string)
      requires Valid()
      modifies this
      ensures Valid()
      ensures history == if ByteLength(text) < 10 then old(history) else old(history) + [text]
    {
      hide ByteLength, Join, LowerWords;
      if ByteLength(text) < MIN_DEDUP_LENGTH {
        return;
      }
      if |recentChunks| >= DEDUP_WINDOW {
        recentChunks := recentChunks[1..];
        recentNormalized := recentNormalized[1..];
      }
      recentChunks := recentChunks + [text];
      var normalized := Normalize(lower, text);
      recentNormalized := recentNormalized + [normalized];
      history := history + [text];
    }

    method Clear()
      requires Valid()
      modifies this
      ensures Valid() && history == []
    {
      recentChunks, recentNormalized, history := [], [], [];
    }
  }
}
