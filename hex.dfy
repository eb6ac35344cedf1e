/**
 * The hexadecimal decoder used for a raw field value ("0x..." in the field's
 * `value` attribute) and for a `binary` subfield. Each pair of characters
 * becomes one byte; the digit arithmetic is the tool's own, so it is exact
 * for '0'-'9' and 'A'-'F' and yields some other byte for anything else.
 */
module Hex {

  /** A C byte buffer, held one byte per `char`. */
  predicate IsByteString(s: string)
  {
    forall i :: 0 <= i < |s| ==> s[i] as int < 256
  }

  predicate IsUpperHexDigit(c: char)
  {
    '0' <= c <= '9' || 'A' <= c <= 'F'
  }

  predicate IsUpperHex(h: string)
  {
    forall i :: 0 <= i < |h| ==> IsUpperHexDigit(h[i])
  }

  /** The nibble value of one character: 'A'..'F' give 10..15, anything else its distance from '0'. */
  function Nibble(c: char): int
  {
    if 'A' <= c <= 'F' then 10 + (c as int - 'A' as int) else c as int - '0' as int
  }

  /** `(nHigh << 4) + nLow` stored into a C `char`: the sum taken modulo 256. */
  function PairByte(hi: char, lo: char): char
  {
    ((Nibble(hi) * 16 + Nibble(lo)) % 256) as char
  }

  /**
   * The buffer decoded from `h`, two characters per byte, left to right;
   * an odd trailing digit is dropped.
   */
  function Decode(h: string): (r: string)
    ensures |r| == |h| / 2 && IsByteString(r)
  {
    if |h| < 2 then [] else [PairByte(h[0], h[1])] + Decode(h[2..])
  }

  /** Byte `i` of the decoded buffer depends only on characters `2i` and `2i+1`. */
  lemma {:induction false} DecodeAt(h: string, i: nat)
    requires i < |h| / 2
    ensures Decode(h)[i] == PairByte(h[2 * i], h[2 * i + 1])
  {
    if i > 0 {
      DecodeAt(h[2..], i - 1);
      assert h[2..][2 * (i - 1)] == h[2 * i];
      assert h[2..][2 * (i - 1) + 1] == h[2 * i + 1];
    }
  }

  /** The upper-case hex digit of a nibble. */
  function HexDigit(v: nat): (c: char)
    requires v < 16
    ensures IsUpperHexDigit(c)
  {
    if v < 10 then ('0' as int + v) as char else ('A' as int + v - 10) as char
  }

  /** The upper-case hexadecimal text of a byte buffer, two digits per byte. */
  function Encode(bytes: string): (h: string)
    requires IsByteString(bytes)
    ensures |h| == 2 * |bytes| && IsUpperHex(h)
  {
    if bytes == [] then []
    else
      var b := bytes[0] as int;
      [HexDigit(b / 16), HexDigit(b % 16)] + Encode(bytes[1..])
  }

  lemma NibbleOfHexDigit(v: nat)
    requires v < 16
    ensures Nibble(HexDigit(v)) == v
  {
  }

  lemma HexDigitOfNibble(c: char)
    requires IsUpperHexDigit(c)
    ensures 0 <= Nibble(c) < 16 && HexDigit(Nibble(c)) == c
  {
  }

  /** Decoding the upper-case hex text of any byte buffer gives the buffer back. */
  lemma {:induction false} DecodeEncode(bytes: string)
    requires IsByteString(bytes)
    ensures Decode(Encode(bytes)) == bytes
  {
    if bytes != [] {
      var b := bytes[0] as int;
      var h := Encode(bytes);
      NibbleOfHexDigit(b / 16);
      NibbleOfHexDigit(b % 16);
      assert h[2..] == Encode(bytes[1..]);
      DecodeEncode(bytes[1..]);
      assert PairByte(h[0], h[1]) == bytes[0];
    }
  }

  /** Re-encoding what an even-length upper-case hex text decodes to gives the text back. */
  lemma {:induction false} EncodeDecode(h: string)
    requires |h| % 2 == 0 && IsUpperHex(h)
    ensures Encode(Decode(h)) == h
  {
    if h != [] {
      HexDigitOfNibble(h[0]);
      HexDigitOfNibble(h[1]);
      var b := Nibble(h[0]) * 16 + Nibble(h[1]);
      assert Decode(h)[0] as int == b && b / 16 == Nibble(h[0]) && b % 16 == Nibble(h[1]);
      assert Decode(h)[1..] == Decode(h[2..]);
      EncodeDecode(h[2..]);
      assert h == h[..2] + h[2..];
    }
  }

  /** A trailing unpaired digit contributes nothing. */
  lemma {:induction false} DecodeDropsOddDigit(h: string, c: char)
    requires |h| % 2 == 0
    ensures Decode(h + [c]) == Decode(h)
  {
    if h != [] {
      assert (h + [c])[2..] == h[2..] + [c];
      DecodeDropsOddDigit(h[2..], c);
    }
  }

  /** Lower-case digits are not hex to this decoder: "ab" decodes to the byte 0x42, not 0xAB. */
  lemma LowerCaseDigitsMisdecode()
    ensures Decode("ab") == "B"
  {
    assert Decode("ab") == [PairByte('a', 'b')];
  }

  /**
   * The decoding loop of the tool: a buffer of `|h| / 2` bytes is allocated
   * and filled in place, byte by byte.
   */
  method DecodeBuffer(h: string) returns (data: string)
    ensures data == Decode(h)
  {
    var n := |h| / 2;
    var buffer := new char[n];
    for i := 0 to n
      invariant forall k :: 0 <= k < i ==> buffer[k] == PairByte(h[2 * k], h[2 * k + 1])
    {
      var high := Nibble(h[2 * i]);
      var low := Nibble(h[2 * i + 1]);
      buffer[i] := ((high * 16 + low) % 256) as char;
    }
    data := buffer[..];
    forall k | 0 <= k < n
      ensures data[k] == Decode(h)[k]
    {
      DecodeAt(h, k);
    }
  }
}
