/**
 Text as the wire counts it: bytes that are well-formed UTF-8 (RFC 3629, section 4), and where such text
 may be cut.
 */
module Utf8 {
  import opened Prelude

  newtype Byte = b: int | 0 <= b < 256

  type Bytes = seq<Byte>

  predicate IsTail(b: Byte) {
    0x80 <= b <= 0xBF
  }

  /** What may follow a lead byte directly: no overlong form, no surrogate, nothing above U+10FFFF. */
  predicate Follows(lead: Byte, b: Byte) {
    match lead
    case 0xE0 => 0xA0 <= b <= 0xBF
    case 0xED => 0x80 <= b <= 0x9F
    case 0xF0 => 0x90 <= b <= 0xBF
    case 0xF4 => 0x80 <= b <= 0x8F
    case _ => IsTail(b)
  }

  /** The bytes a lead byte announces, or none if it can lead nothing. */
  function Announced(lead: Byte): nat {
    if lead <= 0x7F then 1
    else if 0xC2 <= lead <= 0xDF then 2
    else if 0xE0 <= lead <= 0xEF then 3
    else if 0xF0 <= lead <= 0xF4 then 4
    else 0
  }

  /** The length of the character `s` starts with, or 0 if it starts with none. */
  function CharLength(s: Bytes): (n: nat)
    ensures n <= |s| && n <= 4
  {
    if s == [] || |s| < Announced(s[0]) then 0
    else
      var n := Announced(s[0]);
      if n >= 2 && !Follows(s[0], s[1]) then 0
      else if n >= 3 && !IsTail(s[2]) then 0
      else if n >= 4 && !IsTail(s[3]) then 0
      else n
  }

  predicate WellFormed(s: Bytes) {
    s == [] || (CharLength(s) > 0 && WellFormed(s[CharLength(s)..]))
  }

  type Text = s: Bytes | WellFormed(s)

  // --- What text encodes --------------------------------------------------------------------------------------------

  /** A character by its number (RFC 3629, section 3). */
  type Scalar = c: int | 0 <= c <= 0x10FFFF && !(0xD800 <= c <= 0xDFFF)

  function Tail(bits: int): Byte
    requires 0 <= bits < 64
  {
    (0x80 + bits) as Byte
  }

  function Encoded(c: Scalar): Bytes {
    if c < 0x80 then [c as Byte]
    else if c < 0x800 then [(0xC0 + c / 64) as Byte, Tail(c % 64)]
    else if c < 0x1_0000 then [(0xE0 + c / 4096) as Byte, Tail(c / 64 % 64), Tail(c % 64)]
    else [(0xF0 + c / 262_144) as Byte, Tail(c / 4096 % 64), Tail(c / 64 % 64), Tail(c % 64)]
  }

  function EncodedAll(cs: seq<Scalar>): Bytes {
    if cs == [] then [] else Encoded(cs[0]) + EncodedAll(cs[1..])
  }

  lemma ScalarIsOneCharacter(c: Scalar, rest: Bytes)
    ensures CharLength(Encoded(c) + rest) == |Encoded(c)| > 0
  {
    if c >= 0x1_0000 {
      assert c / 4096 == 64 * (c / 262_144) + c / 4096 % 64;
    } else if c >= 0x800 {
      assert c / 64 == 64 * (c / 4096) + c / 64 % 64;
    }
  }

  lemma SixBits(a: int, b: int)
    requires 0 <= b < 64
    ensures (64 * a + b) / 64 == a && (64 * a + b) % 64 == b
  {
  }

  lemma TwelveBits(a: int, b: int, c: int)
    requires 0 <= b < 64 && 0 <= c < 64
    ensures (64 * (64 * a + b) + c) / 4096 == a
  {
  }

  lemma EighteenBits(a: int, b: int, c: int, d: int)
    requires 0 <= b < 64 && 0 <= c < 64 && 0 <= d < 64
    ensures (64 * (64 * (64 * a + b) + c) + d) / 262_144 == a
    ensures (64 * (64 * (64 * a + b) + c) + d) / 4096 == 64 * a + b
  {
  }

  lemma CharacterIsOneScalar(s: Bytes) returns (c: Scalar)
    requires CharLength(s) > 0
    ensures Encoded(c) == s[..CharLength(s)]
  {
    var n := CharLength(s);
    if n == 1 {
      c := s[0] as int;
    } else if n == 2 {
      c := OfTwo(s[0], s[1]);
    } else if n == 3 {
      c := OfThree(s[0], s[1], s[2]);
    } else {
      c := OfFour(s[0], s[1], s[2], s[3]);
    }
  }

  lemma OfTwo(lead: Byte, a: Byte) returns (c: Scalar)
    requires Announced(lead) == 2 && IsTail(a)
    ensures Encoded(c) == [lead, a]
  {
    SixBits(lead as int - 0xC0, a as int - 0x80);
    c := 64 * (lead as int - 0xC0) + (a as int - 0x80);
  }

  lemma OfThree(lead: Byte, a: Byte, b: Byte) returns (c: Scalar)
    requires Announced(lead) == 3 && Follows(lead, a) && IsTail(b)
    ensures Encoded(c) == [lead, a, b]
  {
    var x, y, z := lead as int - 0xE0, a as int - 0x80, b as int - 0x80;
    SixBits(x, y);
    SixBits(64 * x + y, z);
    TwelveBits(x, y, z);
    c := 64 * (64 * x + y) + z;
  }

  lemma OfFour(lead: Byte, a: Byte, b: Byte, d: Byte) returns (c: Scalar)
    requires Announced(lead) == 4 && Follows(lead, a) && IsTail(b) && IsTail(d)
    ensures Encoded(c) == [lead, a, b, d]
  {
    var x, y, z, w := lead as int - 0xF0, a as int - 0x80, b as int - 0x80, d as int - 0x80;
    SixBits(x, y);
    SixBits(64 * x + y, z);
    SixBits(64 * (64 * x + y) + z, w);
    EighteenBits(x, y, z, w);
    c := 64 * (64 * (64 * x + y) + z) + w;
  }

  /** What encodes characters is well-formed, */
  lemma {:induction false} EncodingsAreText(cs: seq<Scalar>)
    ensures WellFormed(EncodedAll(cs))
  {
    if cs != [] {
      EncodingsAreText(cs[1..]);
      ScalarIsOneCharacter(cs[0], EncodedAll(cs[1..]));
      hide CharLength, Encoded;
      var s := EncodedAll(cs);
      assert s[CharLength(s)..] == EncodedAll(cs[1..]);
    }
  }

  /** and nothing else is. */
  lemma {:induction false} TextIsEncoded(s: Text) returns (cs: seq<Scalar>)
    ensures EncodedAll(cs) == s
    decreases |s|
  {
    if s == [] {
      cs := [];
    } else {
      hide CharLength, Announced, Follows, IsTail, Encoded;
      var n := CharLength(s);
      var c := CharacterIsOneScalar(s);
      var rest := TextIsEncoded(s[n..]);
      hide WellFormed;
      cs := [c] + rest;
      assert cs[1..] == rest && s == s[..n] + s[n..];
    }
  }

  /** The cheap test for a cutting point: either end, or any byte that is not a tail. */
  predicate IsBoundary(s: Bytes, i: nat)
    requires i <= |s|
  {
    i == 0 || i == |s| || !IsTail(s[i])
  }

  lemma CharIsTailed(s: Bytes)
    requires CharLength(s) > 0
    ensures !IsTail(s[0])
    ensures forall i :: 1 <= i < CharLength(s) ==> IsTail(s[i])
  {
  }

  lemma CharNeedsOnlyItself(s: Bytes, i: nat)
    requires i <= |s|
    ensures CharLength(s[..i]) > 0 ==> CharLength(s) == CharLength(s[..i])
    ensures 0 < CharLength(s) <= i ==> CharLength(s[..i]) == CharLength(s)
  {
  }

  /** In well-formed text the cheap test finds exactly the places where both halves are text. */
  lemma {:induction false} BoundaryIffText(s: Text, i: nat)
    requires i <= |s|
    ensures IsBoundary(s, i) <==> WellFormed(s[..i])
    decreases |s|
  {
    if i > 0 {
      hide Announced, Follows, IsTail, CharLength;
      var n := CharLength(s);
      CharIsTailed(s);
      CharNeedsOnlyItself(s, i);
      if i < n {
        assert IsTail(s[i]);
      } else {
        var rest := s[n..];
        BoundaryIffText(rest, i - n);
        assert s[..i][n..] == rest[..i - n];
        if rest != [] {
          CharIsTailed(rest);
        }
      }
    }
  }

  /** No character is longer than four bytes. */
  lemma {:induction false} BoundaryIsNear(s: Text, i: nat)
    requires 3 <= i <= |s|
    ensures IsBoundary(s, i) || IsBoundary(s, i - 1) || IsBoundary(s, i - 2) || IsBoundary(s, i - 3)
    decreases |s|
  {
    var n := CharLength(s);
    CharIsTailed(s);
    if i >= n {
      var rest := s[n..];
      assert WellFormed(rest);
      if rest != [] { CharIsTailed(rest); }
      if i - n >= 3 { BoundaryIsNear(rest, i - n); }
    }
  }

  /** The last boundary at or below `i`. */
  function BoundaryBelow(s: Bytes, i: nat): (e: nat)
    requires i <= |s|
    ensures e <= i && IsBoundary(s, e)
    ensures forall j :: e < j <= i ==> !IsBoundary(s, j)
  {
    if IsBoundary(s, i) then i else BoundaryBelow(s, i - 1)
  }

  /** Text cut to at most `max` bytes. */
  function CutTo(s: Text, max: nat): (r: Text)
    ensures |r| <= max && r <= s
    ensures forall j :: |r| < j <= |s| && j <= max ==> !WellFormed(s[..j])
    ensures max >= 4 ==> |r| >= Min(|s|, max - 3)
  {
    if |s| <= max then s
    else
      var e := BoundaryBelow(s, max);
      CutIsLongest(s, max);
      s[..e]
  }

  lemma {:induction false} CutIsLongest(s: Text, max: nat)
    requires max < |s|
    ensures WellFormed(s[..BoundaryBelow(s, max)])
    ensures forall j :: BoundaryBelow(s, max) < j <= max ==> !WellFormed(s[..j])
    ensures max >= 4 ==> BoundaryBelow(s, max) >= max - 3
  {
    var e := BoundaryBelow(s, max);
    BoundaryIffText(s, e);
    forall j | e < j <= max ensures !WellFormed(s[..j]) {
      BoundaryIffText(s, j);
    }
    if max >= 4 { BoundaryIsNear(s, max); }
  }

  /** The longest well-formed prefix of at most `max` bytes. */
  method Cut(s: Text, max: nat) returns (r: Text)
    ensures r == CutTo(s, max)
  {
    if |s| <= max {
      return s;
    }
    var end: nat := max;
    while !IsBoundary(s, end)
      invariant end <= max
      invariant BoundaryBelow(s, end) == BoundaryBelow(s, max)
      decreases end
    {
      end := end - 1;
    }
    CutIsLongest(s, max);
    return s[..end];
  }
}
