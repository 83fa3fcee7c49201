/** Percent-decoding of query tokens, against percent-encoding as section 2.1
    of RFC 3986 defines it. */
module PercentDecode {
  import opened Wrappers
  import opened Utf8

  const PERCENT: byte := 0x25

  function HexVal(b: byte): (r: Option<byte>)
    ensures r.Some? ==> r.value < 16
  {
    if 0x30 <= b <= 0x39 then Some(b - 0x30)
    else if 0x61 <= b <= 0x66 then Some(b - 0x61 + 10)
    else if 0x41 <= b <= 0x46 then Some(b - 0x41 + 10)
    else None
  }

  // The digits of base sixteen in either case, and nothing else
  lemma HexDigitsIff(b: byte, v: byte)
    ensures HexVal(b) == Some(v) <==>
            && v < 16
            && (b as int == "0123456789abcdef"[v] as int || b as int == "0123456789ABCDEF"[v] as int)
  {
    if v < 16 {
      assert "0123456789abcdef"[v] as int == if v < 10 then 0x30 + v as int else 0x57 + v as int;
      assert "0123456789ABCDEF"[v] as int == if v < 10 then 0x30 + v as int else 0x37 + v as int;
    }
  }

  // Does a complete escape start here?
  predicate IsEscape(s: Bytes) {
    |s| >= 3 && s[0] == PERCENT && HexVal(s[1]).Some? && HexVal(s[2]).Some?
  }

  function Decoded(s: Bytes): Bytes {
    if |s| == 0 then []
    else if IsEscape(s) then [HexVal(s[1]).value * 16 + HexVal(s[2]).value] + Decoded(s[3..])
    else [s[0]] + Decoded(s[1..])
  }

  lemma DecodedAt(s: Bytes, i: nat)
    requires i < |s|
    ensures var escape := s[i] == PERCENT && i + 2 < |s| && HexVal(s[i + 1]).Some? && HexVal(s[i + 2]).Some?;
            Decoded(s[i..]) == if escape then
              [HexVal(s[i + 1]).value * 16 + HexVal(s[i + 2]).value] + Decoded(s[i + 3..])
                               else [s[i]] + Decoded(s[i + 1..])
  {
    hide HexVal;
    var rest := s[i..];
    assert rest[0] == s[i] && rest[1..] == s[i + 1..];
    if i + 2 < |s| {
      assert rest[1] == s[i + 1] && rest[2] == s[i + 2] && rest[3..] == s[i + 3..];
    }
  }

  lemma DecodedEnd(s: Bytes)
    ensures Decoded(s[|s|..]) == []
  {
  }

  // Bytes that are not UTF-8 are discarded and the input is returned as it came.
  function PercentDecoded(input: Bytes): Bytes {
    if Valid(Decoded(input)) then Decoded(input) else input
  }

  method Decode(input: Bytes) returns (text: Bytes)
    requires Valid(input)
    ensures text == PercentDecoded(input) && Valid(text)
  {
    hide Valid, HexVal, Decoded;
    var out: Bytes := [];
    var i := 0;
    while i < |input|
      invariant i <= |input|
      invariant out + Decoded(input[i..]) == Decoded(input)
    {
      DecodedAt(input, i);
      if input[i] == PERCENT && i + 2 < |input| {
        var hi, lo := HexVal(input[i + 1]), HexVal(input[i + 2]);
        if hi.Some? && lo.Some? {
          out := out + [hi.value * 16 + lo.value];
          i := i + 3;
          continue;
        }
      }
      out := out + [input[i]];
      i := i + 1;
    }
    DecodedEnd(input);
    assert out == Decoded(input);
    text := if Valid(out) then out else input;
  }

  // ---------- which texts decoding leaves alone ----------

  lemma {:induction false} DecodedShrinks(s: Bytes, i: nat)
    requires i <= |s| && IsEscape(s[i..])
    ensures |Decoded(s)| < |s|
    decreases |s|
  {
    hide HexVal;
    assert s[0..] == s;
    if IsEscape(s) {
      DecodedNoLonger(s[3..]);
    } else {
      assert s[1..][i - 1..] == s[i..];
      DecodedShrinks(s[1..], i - 1);
    }
  }

  lemma {:induction false} DecodedNoLonger(s: Bytes)
    ensures |Decoded(s)| <= |s|
  {
    hide HexVal;
    if |s| > 0 {
      DecodedNoLonger(if IsEscape(s) then s[3..] else s[1..]);
    }
  }

  // The loop changes a text exactly when it holds a complete escape somewhere:
  // a lone '%', a bad digit or an escape cut short by the end is kept.
  lemma {:induction false} UnchangedIffNoEscape(s: Bytes)
    ensures Decoded(s) == s <==> forall i :: 0 <= i <= |s| ==> !IsEscape(s[i..])
  {
    hide HexVal;
    if i :| 0 <= i <= |s| && IsEscape(s[i..]) {
      DecodedShrinks(s, i);
    } else if |s| > 0 {
      assert s[0..] == s;
      forall i | 0 <= i <= |s[1..]| ensures !IsEscape(s[1..][i..]) {
        assert s[1..][i..] == s[i + 1..];
      }
      UnchangedIffNoEscape(s[1..]);
      assert s == [s[0]] + s[1..];
    }
  }

  // Decoding leaves a text alone exactly when there is nothing to decode or the
  // decoded bytes are not UTF-8.
  lemma UnchangedIff(s: Bytes)
    ensures PercentDecoded(s) == s <==> (forall i :: 0 <= i <= |s| ==> !IsEscape(s[i..])) || !Valid(Decoded(s))
  {
    hide Decoded, IsEscape, Valid;
    UnchangedIffNoEscape(s);
  }

  // "%FF" holds a complete escape and comes back as it is.
  lemma EscapeKept()
    ensures var s := [PERCENT, 0x46, 0x46];
            IsEscape(s) && PercentDecoded(s) == s
  {
    var s := [PERCENT, 0x46, 0x46];
    assert s[3..] == [];
    assert Decoded(s) == [0xFF] + Decoded([]) == [0xFF];
    assert CharLength([0xFF]) == 0;
  }

  // ---------- encoding ----------

  // How one byte is written: as itself, or as an escape whose two digits may
  // each be upper or lower case
  datatype Choice = Literal | Escaped(upperHigh: bool, upperLow: bool)

  function HexDigit(v: byte, upper: bool): (d: byte)
    requires v < 16
    ensures HexVal(d) == Some(v)
  {
    if v < 10 then 0x30 + v else if upper then 0x41 + (v - 10) else 0x61 + (v - 10)
  }

  function EncodeByte(b: byte, how: Choice): Bytes {
    match how
    case Literal => [b]
    case Escaped(upperHigh, upperLow) => [PERCENT, HexDigit(b / 16, upperHigh), HexDigit(b % 16, upperLow)]
  }

  function Encoded(text: Bytes, choices: seq<Choice>): Bytes
    requires |choices| == |text|
  {
    if |text| == 0 then [] else EncodeByte(text[0], choices[0]) + Encoded(text[1..], choices[1..])
  }

  // '%' itself is escaped, unless what follows it cannot be taken for an escape
  predicate IsEncoding(text: Bytes, choices: seq<Choice>) {
    && |choices| == |text|
    && (|text| > 0 ==>
          && (text[0] == PERCENT && choices[0].Literal? ==> !IsEscape(Encoded(text, choices)))
          && IsEncoding(text[1..], choices[1..]))
  }

  lemma {:induction false} DecodingUndoesEncoding(text: Bytes, choices: seq<Choice>)
    requires IsEncoding(text, choices)
    ensures Decoded(Encoded(text, choices)) == text
  {
    hide HexVal;
    if |text| > 0 {
      var rest := Encoded(text[1..], choices[1..]);
      DecodingUndoesEncoding(text[1..], choices[1..]);
      var all := EncodeByte(text[0], choices[0]) + rest;
      if choices[0].Literal? {
        assert all[0] == text[0] && all[1..] == rest && !IsEscape(all);
      } else {
        assert all[3..] == rest;
        assert (text[0] / 16) * 16 + text[0] % 16 == text[0];
      }
      assert text == [text[0]] + text[1..];
    }
  }

  // Every valid text is recovered from every one of its encodings.
  lemma EncodingRoundTrips(text: Bytes, choices: seq<Choice>)
    requires Valid(text) && IsEncoding(text, choices)
    ensures PercentDecoded(Encoded(text, choices)) == text
  {
    hide Valid, Decoded;
    DecodingUndoesEncoding(text, choices);
  }
}
