/**
 Percent encoding of query values (sections 2.1 and 2.3 of RFC 3986), at the
 level of bytes.
 */
module Percent {
  import opened Basics

  type Byte = b: nat | b < 256

  /** ALPHA, DIGIT, '-', '.', '_' and '~'. */
  predicate IsUnreserved(b: Byte) {
    || 0x41 <= b <= 0x5A || 0x61 <= b <= 0x7A || 0x30 <= b <= 0x39
    || b == 0x2D || b == 0x2E || b == 0x5F || b == 0x7E
  }

  /** Which characters those bytes are in ASCII. */
  lemma {:induction false} UnreservedAre(c: char)
    requires c as int < 256
    ensures IsUnreserved(c as int) <==>
              'A' <= c <= 'Z' || 'a' <= c <= 'z' || '0' <= c <= '9' || c == '-' || c == '.' || c == '_' || c == '~'
  {
  }

  const PERCENT: Byte := 0x25
  const PLUS: Byte := 0x2B
  const BLANK: Byte := 0x20

  function UpperHex(d: nat): Byte
    requires d < 16
  {
    if d < 10 then 0x30 + d else 0x41 + d - 10
  }

  predicate IsUpperHex(b: Byte) {
    0x30 <= b <= 0x39 || 0x41 <= b <= 0x46
  }

  function EncodeByte(b: Byte): seq<Byte> {
    if IsUnreserved(b) then [b] else [PERCENT, UpperHex(b / 16), UpperHex(b % 16)]
  }

  function Encode(value: seq<Byte>): seq<Byte> {
    if value == [] then [] else EncodeByte(value[0]) + Encode(value[1..])
  }

  // ----- decoding -----

  datatype Digit = Value(d: nat) | NoDigit

  function HexDigit(b: Byte): Digit {
    if 0x30 <= b <= 0x39 then Value(b - 0x30)
    else if 0x41 <= b <= 0x46 then Value(b - 0x41 + 10)
    else if 0x61 <= b <= 0x66 then Value(b - 0x61 + 10)
    else NoDigit
  }

  /** The value of a digit is its place among the sixteen, in either case. */
  lemma {:induction false} HexDigitIs(b: Byte, d: nat)
    ensures HexDigit(b) == Value(d) <==>
              d < 16 && (b == "0123456789ABCDEF"[d] as int || b == "0123456789abcdef"[d] as int)
  {
  }

  /** `u8::from_str_radix` on two bytes, base 16: two digits of either case, or a plus sign and one digit. */
  function FromHex(a: Byte, b: Byte): Digit {
    if a == PLUS then HexDigit(b)
    else if HexDigit(a).Value? && HexDigit(b).Value? then Value(16 * HexDigit(a).d + HexDigit(b).d)
    else NoDigit
  }

  lemma {:induction false} FromHexIsByte(a: Byte, b: Byte)
    ensures FromHex(a, b).Value? ==> FromHex(a, b).d < 256
  {
  }

  function Decode(bytes: seq<Byte>): seq<Byte> {
    if bytes == [] then []
    else if bytes[0] == PERCENT && 2 < |bytes| && FromHex(bytes[1], bytes[2]).Value? then
      FromHexIsByte(bytes[1], bytes[2]);
      [FromHex(bytes[1], bytes[2]).d] + Decode(bytes[3..])
    else
      [if bytes[0] == PLUS then BLANK else bytes[0]] + Decode(bytes[1..])
  }

  /** Without a percent sign every byte stands for itself, but a plus sign for a blank. */
  lemma {:induction false} PlusIsBlank(bytes: seq<Byte>)
    requires '%' as int !in bytes
    ensures |Decode(bytes)| == |bytes|
    ensures forall i :: 0 <= i < |bytes| ==> Decode(bytes)[i] == if bytes[i] == '+' as int then ' ' as int else bytes[i]
  {
    if bytes != [] {
      assert bytes[0] in bytes;
      PlusIsBlank(bytes[1..]);
    }
  }

  /** Whether the loop takes the triple at `i`. */
  predicate TripleAt(bytes: seq<Byte>, i: nat)
    requires i < |bytes|
  {
    bytes[i] == PERCENT && i + 2 < |bytes| && FromHex(bytes[i + 1], bytes[i + 2]).Value?
  }

  /** The byte the loop pushes at `i`. */
  function Pushed(bytes: seq<Byte>, i: nat): Byte
    requires i < |bytes|
  {
    if TripleAt(bytes, i) then
      FromHexIsByte(bytes[i + 1], bytes[i + 2]);
      FromHex(bytes[i + 1], bytes[i + 2]).d
    else if bytes[i] == PLUS then BLANK
    else bytes[i]
  }

  lemma {:induction false} DecodeFrom(bytes: seq<Byte>, i: nat)
    requires i < |bytes|
    ensures Decode(bytes[i..]) == [Pushed(bytes, i)] + Decode(bytes[if TripleAt(bytes, i) then i + 3 else i + 1..])
  {
    var rest := bytes[i..];
    assert rest[0] == bytes[i] && rest[1..] == bytes[i + 1..];
    if 2 < |rest| {
      assert rest[1] == bytes[i + 1] && rest[2] == bytes[i + 2] && rest[3..] == bytes[i + 3..];
      FromHexIsByte(bytes[i + 1], bytes[i + 2]);
    }
  }

  /** The bytes inside a multi-byte character of UTF-8, after its first. */
  predicate IsContinuation(b: Byte) {
    0x80 <= b < 0xC0
  }

  /** A percent sign whose two-byte slice of the text would end inside a character. */
  predicate CutsCharacter(bytes: seq<Byte>, i: nat) {
    i + 3 < |bytes| && bytes[i] == PERCENT && IsContinuation(bytes[i + 3])
  }

  /**
   The index-advancing loop of `percent_decode` on a text in UTF-8. It looks at
   the two bytes after a percent sign as a slice of the text, which is an error
   that ends the program if the slice would cut a character; that happens
   exactly when some percent sign of the text is followed so.
   */
  method PercentDecode(bytes: seq<Byte>) returns (output: Option<seq<Byte>>)
    ensures output == None <==> exists i :: 0 <= i < |bytes| && CutsCharacter(bytes, i)
    ensures output.Some? ==> output.value == Decode(bytes)
  {
    var pushed: seq<Byte> := [];
    var i := 0;
    ghost var goal := Decode(bytes);
    assert bytes[0..] == bytes;
    while i < |bytes|
      invariant i <= |bytes|
      invariant pushed + Decode(bytes[i..]) == goal
      invariant forall k :: 0 <= k < i ==> !CutsCharacter(bytes, k)
    {
      if CutsCharacter(bytes, i) {
        return None;
      }
      ghost var next := if TripleAt(bytes, i) then i + 3 else i + 1;
      DecodeFrom(bytes, i);
      Regroup(pushed, [Pushed(bytes, i)], Decode(bytes[next..]));
      pushed := pushed + [Pushed(bytes, i)];
      if TripleAt(bytes, i) {
        assert bytes[i + 1] != PERCENT && bytes[i + 2] != PERCENT;
        i := i + 3;
        continue;
      }
      i := i + 1;
    }
    return Some(pushed);
  }

  /** A percent sign, a digit and the two bytes of a character: the slice ends in its middle. */
  lemma {:induction false} SliceMayCutACharacter()
    ensures CutsCharacter([PERCENT, 0x41, 0xC3, 0xA9], 0)
  {
  }

  /** What `Encode` writes is ASCII, so decoding it never ends that way. */
  lemma {:induction false} EncodedCutsNothing(value: seq<Byte>)
    ensures forall i :: 0 <= i < |Encode(value)| ==> !IsContinuation(Encode(value)[i])
    ensures forall i :: 0 <= i < |Encode(value)| ==> !CutsCharacter(Encode(value), i)
  {
    if value != [] {
      EncodedCutsNothing(value[1..]);
    }
  }

  lemma {:induction false} DecodeEncodedByte(b: Byte, rest: seq<Byte>)
    ensures Decode(EncodeByte(b) + rest) == [b] + Decode(rest)
  {
    var encoded := EncodeByte(b) + rest;
    if IsUnreserved(b) {
      assert encoded[1..] == rest;
    } else {
      assert encoded[3..] == rest;
      HexPair(b);
      assert encoded[1] == UpperHex(b / 16) && encoded[2] == UpperHex(b % 16);
    }
  }

  lemma {:induction false} HexPair(b: Byte)
    ensures FromHex(UpperHex(b / 16), UpperHex(b % 16)) == Value(b)
  {
    assert HexDigit(UpperHex(b / 16)) == Value(b / 16) && HexDigit(UpperHex(b % 16)) == Value(b % 16);
    assert 16 * (b / 16) + b % 16 == b;
  }

  /** Decoding undoes encoding, for every value; so no two values encode alike. */
  lemma {:induction false} RoundTrip(value: seq<Byte>)
    ensures Decode(Encode(value)) == value
  {
    if value != [] {
      DecodeEncodedByte(value[0], Encode(value[1..]));
      RoundTrip(value[1..]);
    }
  }

  lemma {:induction false} EncodingIsInjective(a: seq<Byte>, b: seq<Byte>)
    requires Encode(a) == Encode(b)
    ensures a == b
  {
    RoundTrip(a);
    RoundTrip(b);
  }

  /**
   What `Encode` writes: unreserved characters, and %XX triples in upper case
   that stand for a byte which is not one of them.
   */
  predicate Canonical(bytes: seq<Byte>) {
    if bytes == [] then true
    else if bytes[0] == PERCENT then
      && 2 < |bytes| && IsUpperHex(bytes[1]) && IsUpperHex(bytes[2])
      && !IsUnreserved(16 * UpperValue(bytes[1]) + UpperValue(bytes[2]))
      && Canonical(bytes[3..])
    else IsUnreserved(bytes[0]) && Canonical(bytes[1..])
  }

  function UpperValue(b: Byte): (d: nat)
    requires IsUpperHex(b)
    ensures d < 16 && UpperHex(d) == b
  {
    if b <= 0x39 then b - 0x30 else b - 0x41 + 10
  }

  lemma {:induction false} EncodedIsCanonical(value: seq<Byte>)
    ensures Canonical(Encode(value))
  {
    if value != [] {
      EncodedIsCanonical(value[1..]);
      var rest := Encode(value[1..]);
      var b := value[0];
      if IsUnreserved(b) {
        assert ([b] + rest)[1..] == rest;
      } else {
        assert (EncodeByte(b) + rest)[3..] == rest;
        assert UpperValue(UpperHex(b / 16)) == b / 16 && UpperValue(UpperHex(b % 16)) == b % 16;
        assert 16 * (b / 16) + b % 16 == b;
      }
    }
  }

  lemma {:induction false} CanonicalReencodes(bytes: seq<Byte>)
    requires Canonical(bytes)
    ensures Encode(Decode(bytes)) == bytes
  {
    if bytes != [] {
      if bytes[0] == PERCENT {
        var high, low := UpperValue(bytes[1]), UpperValue(bytes[2]);
        var b: Byte := 16 * high + low;
        assert b / 16 == high && b % 16 == low;
        HexPair(b);
        CanonicalReencodes(bytes[3..]);
        assert bytes == [PERCENT, bytes[1], bytes[2]] + bytes[3..];
      } else {
        CanonicalReencodes(bytes[1..]);
        assert bytes == [bytes[0]] + bytes[1..];
      }
    }
  }

  /** The canonical byte strings are exactly the encodings, and on them the two functions are inverse. */
  lemma {:induction false} ReencodesIffCanonical(bytes: seq<Byte>)
    ensures Canonical(bytes) <==> Encode(Decode(bytes)) == bytes
  {
    if Canonical(bytes) {
      CanonicalReencodes(bytes);
    }
    EncodedIsCanonical(Decode(bytes));
  }

  /** "%+d" decodes as one byte: a sign and one digit pass for two digits. */
  lemma {:induction false} SignedTripleDecodes()
    ensures Decode([PERCENT, PLUS, 0x64]) == [13]
  {
    assert [PERCENT, PLUS, 0x64][3..] == [];
  }
}
