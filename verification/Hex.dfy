// The hex codec of main/auth.c (bytes_to_hex, hex_nibble, hex_to_bytes).
module Hex {
  import opened ByteSeqs
  import opened Options

  const DIGITS := "0123456789abcdef"

  function HexNibble(c: char): int {
    if '0' <= c <= '9' then c as int - '0' as int
    else if 'a' <= c <= 'f' then c as int - 'a' as int + 10
    else if 'A' <= c <= 'F' then c as int - 'A' as int + 10
    else -1
  }

  function Encode(bytes: Bytes): (r: string)
    ensures |r| == 2 * |bytes|
  {
    seq(2 * |bytes|, i requires 0 <= i < 2 * |bytes| =>
      if i % 2 == 0 then DIGITS[bytes[i / 2] as int / 16] else DIGITS[bytes[i / 2] as int % 16])
  }

  // A text of n bytes: 2n hex digits, in either case.
  predicate IsHex(text: string, n: nat) {
    |text| == 2 * n && forall i :: 0 <= i < |text| ==> HexNibble(text[i]) >= 0
  }

  function ByteAt(text: string, i: nat): byte
    requires 2 * i + 1 < |text| && HexNibble(text[2 * i]) >= 0 && HexNibble(text[2 * i + 1]) >= 0
  {
    (HexNibble(text[2 * i]) * 16 + HexNibble(text[2 * i + 1])) as byte
  }

  // The bytes of a text, if it has the expected length and only digits.
  function Decode(text: string, n: nat): (r: Option<Bytes>)
    ensures r.Some? <==> IsHex(text, n)
    ensures r.Some? ==> |r.value| == n
  {
    if !IsHex(text, n) then None
    else Some(seq(n, i requires 0 <= i < n => ByteAt(text, i)))
  }

  function LowerDigit(c: char): char {
    if 'A' <= c <= 'F' then (c as int - 'A' as int + 'a' as int) as char else c
  }

  function Lower(text: string): string {
    seq(|text|, i requires 0 <= i < |text| => LowerDigit(text[i]))
  }

  lemma NibbleOfDigit(d: nat)
    requires d < 16
    ensures HexNibble(DIGITS[d]) == d
  {
  }

  lemma DigitOfNibble(c: char)
    requires HexNibble(c) >= 0
    ensures HexNibble(c) < 16 && DIGITS[HexNibble(c)] == LowerDigit(c)
  {
  }

  lemma EncodeIsHex(bytes: Bytes)
    ensures IsHex(Encode(bytes), |bytes|)
  {
    forall i | 0 <= i < 2 * |bytes|
      ensures HexNibble(Encode(bytes)[i]) >= 0
    {
      var b := bytes[i / 2] as int;
      NibbleOfDigit(b / 16);
      NibbleOfDigit(b % 16);
    }
  }

  lemma DecodeEncode(bytes: Bytes)
    ensures Decode(Encode(bytes), |bytes|) == Some(bytes)
  {
    EncodeIsHex(bytes);
    forall i | 0 <= i < |bytes|
      ensures ByteAt(Encode(bytes), i) == bytes[i]
    {
      EncodeAt(bytes, i);
      var b := bytes[i] as int;
      NibbleOfDigit(b / 16);
      NibbleOfDigit(b % 16);
    }
    assert Decode(Encode(bytes), |bytes|).value == bytes;
  }

  lemma EncodeAt(bytes: Bytes, i: nat)
    requires i < |bytes|
    ensures Encode(bytes)[2 * i] == DIGITS[bytes[i] as int / 16]
    ensures Encode(bytes)[2 * i + 1] == DIGITS[bytes[i] as int % 16]
  {
  }

  // Decoding loses nothing but the case of the digits.
  lemma EncodeDecode(text: string, n: nat)
    requires IsHex(text, n)
    ensures Encode(Decode(text, n).value) == Lower(text)
  {
    var bytes := Decode(text, n).value;
    forall i | 0 <= i < |text|
      ensures Encode(bytes)[i] == LowerDigit(text[i])
    {
      EncodeDecodeAt(text, n, i / 2);
      assert i == 2 * (i / 2) || i == 2 * (i / 2) + 1;
    }
  }

  lemma EncodeDecodeAt(text: string, n: nat, k: nat)
    requires IsHex(text, n) && k < n
    ensures Encode(Decode(text, n).value)[2 * k] == LowerDigit(text[2 * k])
    ensures Encode(Decode(text, n).value)[2 * k + 1] == LowerDigit(text[2 * k + 1])
  {
    var bytes := Decode(text, n).value;
    EncodeAt(bytes, k);
    assert bytes[k] == ByteAt(text, k);
    Recoded(text[2 * k], text[2 * k + 1], bytes[k]);
  }

  lemma Recoded(hi: char, lo: char, b: byte)
    requires HexNibble(hi) >= 0 && HexNibble(lo) >= 0 && b as int == HexNibble(hi) * 16 + HexNibble(lo)
    ensures DIGITS[b as int / 16] == LowerDigit(hi) && DIGITS[b as int % 16] == LowerDigit(lo)
  {
    var h := NibbleOf(hi);
    var l := NibbleOf(lo);
    Nibbles(h, l, b as int);
  }

  lemma NibbleOf(c: char) returns (d: nat)
    requires HexNibble(c) >= 0
    ensures d == HexNibble(c) < 16 && DIGITS[d] == LowerDigit(c)
  {
    DigitOfNibble(c);
    d := HexNibble(c);
  }

  lemma Nibbles(hi: nat, lo: nat, b: int)
    requires hi < 16 && lo < 16 && b == hi * 16 + lo
    ensures b / 16 == hi && b % 16 == lo
  {
  }

  // So a text decodes to exactly those bytes of which it is the encoding, but for the
  // case of its digits.
  lemma DecodesExactly(text: string, n: nat, bytes: Bytes)
    ensures Decode(text, n) == Some(bytes) <==> |bytes| == n && Lower(text) == Encode(bytes)
  {
    if Decode(text, n) == Some(bytes) {
      EncodeDecode(text, n);
    }
    if |bytes| == n && Lower(text) == Encode(bytes) {
      forall i | 0 <= i < |text|
        ensures HexNibble(text[i]) >= 0
      {
        assert Lower(text)[i] == LowerDigit(text[i]);
        var b := bytes[i / 2] as int;
        LowerDigitIs(text[i], if i % 2 == 0 then b / 16 else b % 16);
      }
      EncodeDecode(text, n);
      EncodeInjective(Decode(text, n).value, bytes);
    }
  }

  lemma LowerDigitIs(c: char, d: nat)
    requires d < 16 && LowerDigit(c) == DIGITS[d]
    ensures HexNibble(c) == d
  {
  }

  lemma EncodeInjective(a: Bytes, b: Bytes)
    requires Encode(a) == Encode(b)
    ensures a == b
  {
    DecodeEncode(a);
    DecodeEncode(b);
  }

  method BytesToHex(bytes: array<byte>, out: array<char>)
    requires out.Length > 2 * bytes.Length
    modifies out
    ensures out[..2 * bytes.Length] == Encode(bytes[..])
    ensures out[2 * bytes.Length] == '\0'
    ensures forall k :: 2 * bytes.Length < k < out.Length ==> out[k] == old(out[k])
  {
    ghost var text := Encode(bytes[..]);
    for i := 0 to bytes.Length
      invariant forall k :: 0 <= k < 2 * i ==> out[k] == text[k]
      invariant forall k :: 2 * i <= k < out.Length ==> out[k] == old(out[k])
    {
      EncodeAt(bytes[..], i);
      out[i * 2] := DIGITS[bytes[i] as int / 16];
      out[i * 2 + 1] := DIGITS[bytes[i] as int % 16];
    }
    out[2 * bytes.Length] := '\0';
    assert out[..2 * bytes.Length] == text;
  }

  // A missing text is refused like a malformed one; a refused text may leave some
  // bytes behind in out.
  method HexToBytes(hex: Option<string>, out: array<byte>) returns (ok: bool)
    modifies out
    ensures ok <==> hex.Some? && IsHex(hex.value, out.Length)
    ensures ok ==> Decode(hex.value, out.Length) == Some(out[..])
  {
    if hex.None? || |hex.value| != out.Length * 2 {
      return false;
    }
    for i := 0 to out.Length
      invariant forall k :: 0 <= k < 2 * i ==> HexNibble(hex.value[k]) >= 0
      invariant forall k :: 0 <= k < i ==> out[k] == ByteAt(hex.value, k)
    {
      var hi := HexNibble(hex.value[i * 2]);
      var lo := HexNibble(hex.value[i * 2 + 1]);
      if hi < 0 || lo < 0 {
        return false;
      }
      out[i] := (hi * 16 + lo) as byte;
    }
    assert out[..] == Decode(hex.value, out.Length).value;
    return true;
  }
}
