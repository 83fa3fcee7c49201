/** UTF-8 byte strings: well-formedness (section 4 of RFC 3629) and the
    character boundaries that slicing a Rust `str` requires. */
module Utf8 {

  newtype byte = x: int | 0 <= x < 256

  type Bytes = seq<byte>

  predicate IsContinuation(b: byte) {
    0x80 <= b < 0xC0
  }

  predicate IsAscii(b: byte) {
    b < 0x80
  }

  predicate AllAscii(s: Bytes) {
    forall i :: 0 <= i < |s| ==> IsAscii(s[i])
  }

  // The first two bytes of a three-byte character
  predicate StartsThree(a: byte, b: byte) {
    || (a == 0xE0 && 0xA0 <= b < 0xC0)
    || (0xE1 <= a <= 0xEC && IsContinuation(b))
    || (a == 0xED && 0x80 <= b < 0xA0)
    || (0xEE <= a <= 0xEF && IsContinuation(b))
  }

  // The first two bytes of a four-byte character
  predicate StartsFour(a: byte, b: byte) {
    || (a == 0xF0 && 0x90 <= b < 0xC0)
    || (0xF1 <= a <= 0xF3 && IsContinuation(b))
    || (a == 0xF4 && 0x80 <= b < 0x90)
  }

  // Length of the well-formed character at the front of s; 0 when there is none
  function CharLength(s: Bytes): (n: nat) {
    if |s| >= 1 && IsAscii(s[0]) then 1
    else if |s| >= 2 && 0xC2 <= s[0] <= 0xDF && IsContinuation(s[1]) then 2
    else if |s| >= 3 && StartsThree(s[0], s[1]) && IsContinuation(s[2]) then 3
    else if |s| >= 4 && StartsFour(s[0], s[1]) && IsContinuation(s[2]) && IsContinuation(s[3]) then 4
    else 0
  }

  predicate Valid(s: Bytes)
    decreases |s|
  {
    |s| == 0 || (CharLength(s) > 0 && Valid(s[CharLength(s)..]))
  }

  // ---------- valid text is encoded scalar values ----------

  predicate IsScalar(c: nat) {
    c < 0xD800 || 0xE000 <= c < 0x11_0000
  }

  // The table of section 3 of RFC 3629
  function Encode(c: nat): Bytes
    requires IsScalar(c)
  {
    if c < 0x80 then [c as byte]
    else if c < 0x800 then [(0xC0 + c / 0x40) as byte, Tail(c)]
    else if c < 0x1_0000 then [(0xE0 + c / 0x1000) as byte, Tail(c / 0x40), Tail(c)]
    else [(0xF0 + c / 0x4_0000) as byte, Tail(c / 0x1000), Tail(c / 0x40), Tail(c)]
  }

  // The lowest six bits in a continuation byte
  function Tail(c: nat): byte {
    (0x80 + c % 0x40) as byte
  }

  // Six more bits
  function Shift(c: nat, b: byte): nat
    requires IsContinuation(b)
  {
    c * 0x40 + (b as nat - 0x80)
  }

  lemma ShiftIsTail(c: nat, b: byte)
    requires IsContinuation(b)
    ensures Tail(Shift(c, b)) == b && Shift(c, b) / 0x40 == c
  {
  }

  // The scalar value of the character at the front of s
  function Decode(s: Bytes): nat
    requires CharLength(s) > 0
  {
    match CharLength(s)
    case 1 => s[0] as nat
    case 2 => Shift(s[0] as nat - 0xC0, s[1])
    case 3 => Shift(Shift(s[0] as nat - 0xE0, s[1]), s[2])
    case _ => Shift(Shift(Shift(s[0] as nat - 0xF0, s[1]), s[2]), s[3])
  }

  lemma SixBitSteps(c: nat)
    ensures c / 0x1000 == c / 0x40 / 0x40 && c / 0x4_0000 == c / 0x40 / 0x40 / 0x40
  {
  }

  lemma ThreeDecoded(s: Bytes)
    requires CharLength(s) == 3
    ensures IsScalar(Decode(s)) && Encode(Decode(s)) == s[..3]
  {
    hide Tail;
    var high := Shift(s[0] as nat - 0xE0, s[1]);
    ShiftIsTail(s[0] as nat - 0xE0, s[1]);
    ShiftIsTail(high, s[2]);
    SixBitSteps(Shift(high, s[2]));
  }

  lemma FourDecoded(s: Bytes)
    requires CharLength(s) == 4
    ensures IsScalar(Decode(s)) && Encode(Decode(s)) == s[..4]
  {
    hide Tail;
    var high := Shift(s[0] as nat - 0xF0, s[1]);
    var middle := Shift(high, s[2]);
    ShiftIsTail(s[0] as nat - 0xF0, s[1]);
    ShiftIsTail(high, s[2]);
    ShiftIsTail(middle, s[3]);
    SixBitSteps(Shift(middle, s[3]));
    SixBitSteps(middle);
  }

  // The character at the front of s is the encoding of one scalar value, ...
  lemma DecodeIsEncoded(s: Bytes)
    requires CharLength(s) > 0
    ensures IsScalar(Decode(s)) && Encode(Decode(s)) == s[..CharLength(s)]
  {
    if CharLength(s) == 3 {
      ThreeDecoded(s);
    } else if CharLength(s) == 4 {
      FourDecoded(s);
    } else if CharLength(s) == 2 {
      ShiftIsTail(s[0] as nat - 0xC0, s[1]);
    }
  }

  // ... and every such encoding is a character.
  lemma EncodedIsCharacter(c: nat, rest: Bytes)
    requires IsScalar(c)
    ensures CharLength(Encode(c) + rest) == |Encode(c)|
  {
  }

  // The encodings of the values, one after the other
  function EncodeAll(values: seq<nat>): Bytes
    requires forall i :: 0 <= i < |values| ==> IsScalar(values[i])
  {
    if |values| == 0 then [] else Encode(values[0]) + EncodeAll(values[1..])
  }

  // A byte string is valid exactly when it encodes some scalar values.
  lemma ValidIffEncoded(s: Bytes)
    ensures Valid(s) <==>
            exists values: seq<nat> :: (forall i :: 0 <= i < |values| ==> IsScalar(values[i])) && EncodeAll(values) == s
  {
    if Valid(s) {
      var values := DecodeAll(s);
    }
    forall values: seq<nat> | (forall i :: 0 <= i < |values| ==> IsScalar(values[i])) && EncodeAll(values) == s
      ensures Valid(s)
    {
      EncodedIsValid(values);
    }
  }

  lemma {:induction false} DecodeAll(s: Bytes) returns (values: seq<nat>)
    requires Valid(s)
    ensures (forall i :: 0 <= i < |values| ==> IsScalar(values[i])) && EncodeAll(values) == s
    decreases |s|
  {
    hide Encode, Decode, IsScalar, CharLength;
    if |s| == 0 {
      values := [];
    } else {
      var n := CharLength(s);
      CharacterFits(s);
      DecodeIsEncoded(s);
      var rest := DecodeAll(s[n..]);
      values := [Decode(s)] + rest;
      assert values[1..] == rest && s == s[..n] + s[n..];
    }
  }

  lemma CharacterFits(s: Bytes)
    ensures CharLength(s) <= |s|
  {
  }

  lemma {:induction false} EncodedIsValid(values: seq<nat>)
    requires forall i :: 0 <= i < |values| ==> IsScalar(values[i])
    ensures Valid(EncodeAll(values))
  {
    hide Encode, IsScalar, CharLength;
    if |values| > 0 {
      var rest := EncodeAll(values[1..]);
      EncodedIsValid(values[1..]);
      EncodedIsCharacter(values[0], rest);
      NonEmpty(values[0]);
      assert (Encode(values[0]) + rest)[|Encode(values[0])|..] == rest;
    }
  }

  lemma NonEmpty(c: nat)
    requires IsScalar(c)
    ensures |Encode(c)| > 0
  {
  }

  // ---------- character boundaries ----------

  // str::is_char_boundary
  predicate IsCharBoundary(s: Bytes, i: nat) {
    i == 0 || i == |s| || (i < |s| && !IsContinuation(s[i]))
  }

  // &s[lo..hi], which panics unless both ends are character boundaries
  function Slice(s: Bytes, lo: nat, hi: nat): Bytes
    requires lo <= hi <= |s|
    requires IsCharBoundary(s, lo) && IsCharBoundary(s, hi)
  {
    s[lo..hi]
  }

  lemma {:induction false} AsciiIsValid(s: Bytes)
    requires AllAscii(s)
    ensures Valid(s)
    decreases |s|
  {
    if |s| > 0 {
      AsciiIsValid(s[1..]);
    }
  }

  lemma FirstCharacterBehind(a: Bytes, b: Bytes)
    requires CharLength(a) > 0
    ensures CharLength(a) <= |a| && CharLength(a + b) == CharLength(a)
    ensures (a + b)[CharLength(a)..] == a[CharLength(a)..] + b
  {
  }

  lemma {:induction false} ValidConcat(a: Bytes, b: Bytes)
    requires Valid(a) && Valid(b)
    ensures Valid(a + b)
    decreases |a|
  {
    hide CharLength;
    if |a| == 0 {
      assert a + b == b;
    } else {
      FirstCharacterBehind(a, b);
      ValidConcat(a[CharLength(a)..], b);
    }
  }

  lemma {:induction false} ValidSplit(s: Bytes, i: nat)
    requires Valid(s) && i <= |s| && IsCharBoundary(s, i)
    ensures Valid(s[..i]) && Valid(s[i..])
    decreases |s|
  {
    if i == 0 {
      assert s[0..] == s;
    } else {
      var n := CharLength(s);
      assert i >= n;
      ValidSplit(s[n..], i - n);
      assert s[n..][..i - n] == s[..i][n..];
      assert s[n..][i - n..] == s[i..];
      assert CharLength(s[..i]) == n;
    }
  }

  // Cutting is safe at the character boundaries and nowhere else.
  lemma {:induction false} BoundaryIffSplitValid(s: Bytes, i: nat)
    requires Valid(s) && i <= |s|
    ensures IsCharBoundary(s, i) <==> Valid(s[..i]) && Valid(s[i..])
  {
    if IsCharBoundary(s, i) {
      ValidSplit(s, i);
    } else {
      assert s[i..][0] == s[i];
    }
  }

  // Every byte of a multi-byte character is outside ASCII.
  lemma {:induction false} AsciiEndsCharacter(s: Bytes, i: nat)
    requires Valid(s) && i < |s| && IsAscii(s[i])
    ensures IsCharBoundary(s, i) && IsCharBoundary(s, i + 1)
    decreases |s|
  {
    var n := CharLength(s);
    if i >= n {
      AsciiEndsCharacter(s[n..], i - n);
    } else {
      assert n == 1;
      if 1 < |s| {
        assert Valid(s[1..]) && s[1..][0] == s[1];
      }
    }
  }

  // A boundary lies at most three bytes to the left of any position.
  lemma {:induction false} BoundaryNearby(s: Bytes, i: nat)
    requires Valid(s) && i <= |s|
    ensures exists j: nat :: i - 3 <= j <= i && IsCharBoundary(s, j)
    decreases |s|
  {
    if |s| == 0 || i < CharLength(s) {
      assert IsCharBoundary(s, 0);
    } else {
      var n := CharLength(s);
      BoundaryNearby(s[n..], i - n);
      var j: nat :| i - n - 3 <= j <= i - n && IsCharBoundary(s[n..], j);
      if j == 0 && n < |s| {
        assert Valid(s[n..]) && s[n..][0] == s[n];
      }
      assert IsCharBoundary(s, j + n);
    }
  }
}
