/** When the italics of one line of Telegram HTML balance: single stars toggle,
    and nothing closes a tag that is still open at the end. */
module FormatterItalics {
  import opened Text
  import opened FormatterInline
  import opened FormatterTags

  // One step of the pass: a character passed on, or a tag put for a lone star
  datatype Token = Copied(c: char) | Opening | Closing

  function Tokens(s: string, i: nat, inItalic: bool): seq<Token>
    requires i <= |s|
    decreases |s| - i
  {
    if i == |s| then []
    else if LoneStar(s, i) then [if inItalic then Closing else Opening] + Tokens(s, i + 1, !inItalic)
    else [Copied(s[i])] + Tokens(s, i + 1, inItalic)
  }

  function Flatten(tokens: seq<Token>): string {
    if |tokens| == 0 then []
    else (match tokens[0] case Copied(c) => [c] case Opening => "<i>" case Closing => "</i>") + Flatten(tokens[1..])
  }

  // Italics still open behind the tokens
  function Depth(tokens: seq<Token>): int {
    if |tokens| == 0 then 0
    else (match tokens[0] case Copied(_) => 0 case Opening => 1 case Closing => -1) + Depth(tokens[1..])
  }

  function LoneStars(s: string, i: nat): nat
    requires i <= |s|
    decreases |s| - i
  {
    if i == |s| then 0 else (if LoneStar(s, i) then 1 else 0) + LoneStars(s, i + 1)
  }

  lemma {:induction false} TokensFlatten(s: string, i: nat, inItalic: bool)
    requires i <= |s|
    ensures Flatten(Tokens(s, i, inItalic)) == Italics(s, i, inItalic)
    decreases |s| - i
  {
    hide LoneStar;
    if i < |s| {
      TokensFlatten(s, i + 1, if LoneStar(s, i) then !inItalic else inItalic);
    }
  }

  function Bit(b: bool): int {
    if b then 1 else 0
  }

  // Each lone star changes the depth by one and the parity of what is to come.
  lemma StarStep(s: string, i: nat, inItalic: bool)
    requires i < |s|
    ensures var next := inItalic != LoneStar(s, i);
            Bit(inItalic) + Depth(Tokens(s, i, inItalic)) == Bit(next) + Depth(Tokens(s, i + 1, next))
    ensures LoneStars(s, i) % 2 == 1 <==> LoneStar(s, i) != (LoneStars(s, i + 1) % 2 == 1)
  {
    hide LoneStar;
    var rest := Tokens(s, i + 1, inItalic != LoneStar(s, i));
    assert Tokens(s, i, inItalic)[1..] == rest;
  }

  lemma {:induction false} DepthBehind(s: string, i: nat, inItalic: bool)
    requires i <= |s|
    ensures Bit(inItalic) + Depth(Tokens(s, i, inItalic)) == Bit(inItalic != (LoneStars(s, i) % 2 == 1))
    decreases |s| - i
  {
    if i < |s| {
      hide LoneStar, Tokens, Depth, LoneStars;
      StarStep(s, i, inItalic);
      DepthBehind(s, i + 1, inItalic != LoneStar(s, i));
    }
  }

  // No tag is closed that is not open, and none is opened twice.
  lemma {:induction false} DepthWithin(s: string, i: nat, inItalic: bool, n: nat)
    requires i <= |s| && n <= |Tokens(s, i, inItalic)|
    ensures 0 <= Bit(inItalic) + Depth(Tokens(s, i, inItalic)[..n]) <= 1
    decreases n
  {
    hide LoneStar;
    if n > 0 {
      var tokens, next := Tokens(s, i, inItalic), if LoneStar(s, i) then !inItalic else inItalic;
      assert tokens[1..] == Tokens(s, i + 1, next);
      assert tokens[..n][1..] == tokens[1..][..n - 1];
      DepthWithin(s, i + 1, next, n - 1);
    }
  }

  // Italics nest properly everywhere, but they are all closed exactly when an
  // even number of lone stars is left by the passes before.
  lemma ItalicsBalanceIff(text: string)
    ensures var s := BeforeItalics(text); var tokens := Tokens(s, 0, false);
            && RenderInline(text) == Flatten(tokens)
            && (forall n :: 0 <= n <= |tokens| ==> 0 <= Depth(tokens[..n]) <= 1)
            && (Depth(tokens) == 0 <==> LoneStars(s, 0) % 2 == 0)
  {
    hide Links, Pairs, EscapeHtml, Tokens, Italics, Depth, LoneStars;
    var s := BeforeItalics(text);
    TokensFlatten(s, 0, false);
    DepthBehind(s, 0, false);
    forall n | 0 <= n <= |Tokens(s, 0, false)| ensures 0 <= Depth(Tokens(s, 0, false)[..n]) <= 1 {
      DepthWithin(s, 0, false, n);
    }
  }

  lemma NoStarPair(s: string)
    requires forall i :: 0 <= i < |s| - 1 ==> s[i] != '*' || s[i + 1] != '*'
    ensures NoMatch(s, "**", 0, |s| + 1)
  {
    forall q: nat | q <= |s| ensures !MatchAt(s, "**", q) {
      if q + 2 <= |s| {
        assert s[q..q + 2][0] == s[q] && s[q..q + 2][1] == s[q + 1];
      }
    }
  }

  lemma NoBracketNoLink(s: string)
    requires '[' !in s
    ensures Links(s) == s
  {
    hide Find, MatchAt;
    assert forall q :: 0 <= q < |s| ==> s[q] in s;
    NoMatchWithout(s, "[", 0, |s| + 1);
    NoMatchIsNotFound(s, "[", 0);
  }

  lemma NoMarkNoPair(s: string, k: Style)
    requires IsStyle(k) && NoMatch(s, k.mark, 0, |s| + 1)
    ensures Pairs(s, k) == s
  {
    hide Find, MatchAt, NoMatch;
    NoMatchIsNotFound(s, k.mark, 0);
  }

  // Text without a bracket, a backtick or two stars in a row passes the first three rewrites.
  lemma UnmarkedUnchanged(s: string)
    requires '[' !in s && '`' !in s
    requires forall i :: 0 <= i < |s| - 1 ==> s[i] != '*' || s[i + 1] != '*'
    ensures Pairs(Pairs(Links(s), BOLD), CODE) == s
  {
    hide Links, Pairs, NoMatch;
    NoBracketNoLink(s);
    NoStarPair(s);
    NoMarkNoPair(s, BOLD);
    assert forall q :: 0 <= q < |s| ==> s[q] in s;
    NoMatchWithout(s, "`", 0, |s| + 1);
    NoMarkNoPair(s, CODE);
  }

  lemma {:induction false} EscapingAddsNoMark(text: string, mark: char)
    requires mark !in text && mark in {'[', ']', ')', '*', '`'}
    ensures mark !in EscapeEach(text)
  {
    if |text| > 0 {
      EscapingAddsNoMark(text[1..], mark);
    }
  }

  // A line without markup is only escaped: whoever reads the entities back gets
  // the very line.
  lemma PlainLineSurvives(text: string)
    requires '[' !in text && '*' !in text && '`' !in text
    ensures RenderInline(text) == EscapeHtml(text)
    ensures Unescape(RenderInline(text)) == text
  {
    hide EscapeHtml, EscapeEach, Links, Pairs, Unescape, Italics;
    EscapeRoundTrip(text);
    EscapeIsCharwise(text);
    EscapingAddsNoMark(text, '[');
    EscapingAddsNoMark(text, '*');
    EscapingAddsNoMark(text, '`');
    var s := EscapeHtml(text);
    assert forall q :: 0 <= q < |s| ==> s[q] in s;
    UnmarkedUnchanged(s);
    ItalicsCopies(s, 0, |s|, false);
    ItalicsEnd(s, false);
    assert s[0..|s|] == s && s + [] == s;
  }

  lemma OneStar(s: string, left: char, right: char)
    requires left != '*' && right != '*' && s == [left, '*', right]
    ensures Italics(s, 0, false) == [left] + "<i>" + [right]
  {
    assert Italics(s, 3, true) == [];
    assert Italics(s, 2, true) == [right];
    assert Italics(s, 1, false) == "<i>" + [right];
  }

  // "2*3" is rendered with an italic tag that nothing closes.
  lemma LoneStarStaysOpen()
    ensures RenderInline("2*3") == "2<i>3"
  {
    hide Links, Pairs, Italics, Replace;
    ReplaceAbsent("2*3", '&', "&amp;");
    ReplaceAbsent("2*3", '<', "&lt;");
    ReplaceAbsent("2*3", '>', "&gt;");
    UnmarkedUnchanged("2*3");
    OneStar("2*3", '2', '3');
    assert ['2'] + "<i>" + ['3'] == "2<i>3";
  }
}
