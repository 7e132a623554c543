/**
 * Hex encoding of the private key (src/main.rs:193, `hex::encode`): two lower-case
 * digits per byte, high nibble first. `Decode` is its inverse; like the hex crate's
 * decoder it also accepts upper-case digits.
 */
module Hex {
  import opened Wrappers
  import opened Bytes

  const LowerDigits := "0123456789abcdef"

  predicate IsLowerHex(s: string)
  {
    forall i | 0 <= i < |s| :: s[i] in LowerDigits
  }

  function DigitChar(v: nat): char
    requires v < 16
  {
    LowerDigits[v]
  }

  /** The value of one hex digit of either case. */
  function DigitValue(c: char): (r: Option<nat>)
    ensures r.Some? ==> r.value < 16
  {
    if '0' <= c <= '9' then Some(c as int - '0' as int)
    else if 'a' <= c <= 'f' then Some(c as int - 'a' as int + 10)
    else if 'A' <= c <= 'F' then Some(c as int - 'A' as int + 10)
    else None
  }

  lemma DigitRoundTrip(v: nat)
    requires v < 16
    ensures DigitValue(DigitChar(v)) == Some(v)
  {
  }

  lemma CharRoundTrip(c: char)
    requires c in LowerDigits
    ensures DigitValue(c).Some? && DigitChar(DigitValue(c).value) == c
  {
  }

  /** The two digits of one byte, high nibble first. */
  function ByteDigits(b: uint8): string
  {
    [DigitChar(b as int / 16), DigitChar(b as int % 16)]
  }

  function Encode(bytes: seq<uint8>): (s: string)
    ensures |s| == 2 * |bytes|
    ensures IsLowerHex(s)
  {
    if |bytes| == 0 then "" else ByteDigits(bytes[0]) + Encode(bytes[1..])
  }

  /** The byte whose high and low nibbles are `hi` and `lo`. */
  function PairByte(hi: nat, lo: nat): (b: uint8)
    requires hi < 16 && lo < 16
    ensures b as int / 16 == hi && b as int % 16 == lo
  {
    (hi * 16 + lo) as uint8
  }

  /** Two digits per byte; an odd length or a non-digit gives `None`. */
  function Decode(s: string): (r: Option<seq<uint8>>)
    ensures r.Some? ==> 2 * |r.value| == |s|
    decreases |s|
  {
    if |s| == 0 then Some([])
    else if |s| == 1 || DigitValue(s[0]).None? || DigitValue(s[1]).None? then None
    else
      match Decode(s[2..])
      case None => None
      case Some(rest) => Some([PairByte(DigitValue(s[0]).value, DigitValue(s[1]).value)] + rest)
  }

  lemma PairByteOfNibbles(b: uint8)
    ensures PairByte(b as int / 16, b as int % 16) == b
  {
  }

  lemma DecodePair(c0: char, c1: char, rest: string)
    requires DigitValue(c0).Some? && DigitValue(c1).Some? && Decode(rest).Some?
    ensures Decode([c0, c1] + rest)
         == Some([PairByte(DigitValue(c0).value, DigitValue(c1).value)] + Decode(rest).value)
  {
    var t := [c0, c1] + rest;
    assert t[0] == c0 && t[1] == c1 && t[2..] == rest;
  }

  lemma DecodeByteDigits(b: uint8, rest: string)
    requires Decode(rest).Some?
    ensures Decode(ByteDigits(b) + rest) == Some([b] + Decode(rest).value)
  {
    DigitRoundTrip(b as int / 16);
    DigitRoundTrip(b as int % 16);
    DecodePair(DigitChar(b as int / 16), DigitChar(b as int % 16), rest);
    PairByteOfNibbles(b);
  }

  /** Decoding an encoding gives the bytes back. */
  lemma {:induction false} DecodeEncode(bytes: seq<uint8>)
    ensures Decode(Encode(bytes)) == Some(bytes)
  {
    if |bytes| > 0 {
      var b, tail := bytes[0], bytes[1..];
      DecodeEncode(tail);
      DecodeByteDigits(b, Encode(tail));
      assert bytes == [b] + tail;
    }
  }

  lemma DecodeCons(s: string)
    requires |s| >= 2 && Decode(s).Some?
    ensures DigitValue(s[0]).Some? && DigitValue(s[1]).Some? && Decode(s[2..]).Some?
    ensures Decode(s).value
         == [PairByte(DigitValue(s[0]).value, DigitValue(s[1]).value)] + Decode(s[2..]).value
  {
  }

  lemma EncodeCons(b: uint8, tail: seq<uint8>)
    ensures Encode([b] + tail) == ByteDigits(b) + Encode(tail)
  {
    assert ([b] + tail)[1..] == tail;
  }

  /** A lower-case hex string that decodes is the encoding of what it decodes to. */
  lemma {:induction false} EncodeDecode(s: string)
    requires IsLowerHex(s) && Decode(s).Some?
    ensures Encode(Decode(s).value) == s
    decreases |s|
  {
    if |s| > 0 {
      var rest := s[2..];
      assert IsLowerHex(rest) by {
        forall i | 0 <= i < |rest| ensures rest[i] in LowerDigits {
          assert rest[i] == s[i + 2];
        }
      }
      CharRoundTrip(s[0]);
      CharRoundTrip(s[1]);
      var hi := DigitValue(s[0]).value;
      var lo := DigitValue(s[1]).value;
      var b := PairByte(hi, lo);
      assert ByteDigits(b) == s[..2];
      DecodeCons(s);
      EncodeDecode(rest);
      EncodeCons(b, Decode(rest).value);
      assert s == s[..2] + rest;
    }
  }
}
