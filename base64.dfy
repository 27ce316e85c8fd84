/**
  Go's base64.StdEncoding.EncodeToString: the base 64 encoding of
  section 4 of RFC 4648, standard alphabet, with `=` padding.
 */
module Base64 {
  import opened Wrappers
  import opened Strings

  /** The `=` padding byte. */
  const Pad: Byte := 61

  /** The alphabet of section 4 of RFC 4648: A-Z, a-z, 0-9, `+`, `/`. */
  function Symbol(i: int): (c: Byte)
    requires 0 <= i < 64
    ensures SymbolValue(c) == i
    ensures c != Pad
  {
    if i < 26 then 65 + i
    else if i < 52 then 71 + i
    else if i < 62 then i - 4
    else if i == 62 then 43
    else 47
  }

  /** The 6-bit value a symbol stands for, or -1 for a byte outside the alphabet. */
  function SymbolValue(c: Byte): (v: int)
    ensures -1 <= v < 64
  {
    if 65 <= c <= 90 then c - 65
    else if 97 <= c <= 122 then c - 71
    else if 48 <= c <= 57 then c + 4
    else if c == 43 then 62
    else if c == 47 then 63
    else -1
  }

  /** Three bytes, as four 6-bit symbols. */
  function Quantum(b0: Byte, b1: Byte, b2: Byte): Bytes
  {
    [Symbol(b0 / 4), Symbol((b0 % 4) * 16 + b1 / 16), Symbol((b1 % 16) * 4 + b2 / 64), Symbol(b2 % 64)]
  }

  /** A last group of one byte: two symbols and two pads. */
  function Quantum1(b0: Byte): Bytes
  {
    [Symbol(b0 / 4), Symbol((b0 % 4) * 16), Pad, Pad]
  }

  /** A last group of two bytes: three symbols and one pad. */
  function Quantum2(b0: Byte, b1: Byte): Bytes
  {
    [Symbol(b0 / 4), Symbol((b0 % 4) * 16 + b1 / 16), Symbol((b1 % 16) * 4), Pad]
  }

  /** Full groups of three bytes become four symbols; a last group of one or two bytes is padded. */
  function Encode(b: Bytes): (r: Bytes)
    ensures |r| == 4 * ((|b| + 2) / 3)
    decreases |b|
  {
    if |b| == 0 then []
    else if |b| == 1 then Quantum1(b[0])
    else if |b| == 2 then Quantum2(b[0], b[1])
    else Quantum(b[0], b[1], b[2]) + Encode(b[3..])
  }

  /** A decoder for what Encode produces, used to show that Encode loses nothing. */
  function Decode(s: Bytes): Option<Bytes>
    decreases |s|
  {
    if |s| == 0 then Some([])
    else if |s| < 4 then None
    else
      var a, b, c, d := SymbolValue(s[0]), SymbolValue(s[1]), SymbolValue(s[2]), SymbolValue(s[3]);
      if a < 0 || b < 0 then None
      else if s[2] == Pad && s[3] == Pad then
        if |s| == 4 then Some([a * 4 + b / 16]) else None
      else if c < 0 then None
      else if s[3] == Pad then
        if |s| == 4 then Some([a * 4 + b / 16, (b % 16) * 16 + c / 4]) else None
      else if d < 0 then None
      else
        match Decode(s[4..])
        case None => None
        case Some(rest) => Some([a * 4 + b / 16, (b % 16) * 16 + c / 4, (c % 4) * 64 + d] + rest)
  }

  /** The bit arithmetic of one group: the symbols' values put the three bytes back together. */
  lemma QuantumBits(b0: Byte, b1: Byte, b2: Byte)
    ensures var x, y := (b0 % 4) * 16 + b1 / 16, (b1 % 16) * 4 + b2 / 64;
      && (b0 / 4) * 4 + x / 16 == b0
      && (x % 16) * 16 + y / 4 == b1
      && (y % 4) * 64 + b2 % 64 == b2
  {
    var x, y := (b0 % 4) * 16 + b1 / 16, (b1 % 16) * 4 + b2 / 64;
    assert x / 16 == b0 % 4 && x % 16 == b1 / 16;
    assert y / 4 == b1 % 16 && y % 4 == b2 / 64;
  }

  lemma DecodeQuantum(b0: Byte, b1: Byte, b2: Byte, e: Bytes)
    ensures Decode(Quantum(b0, b1, b2) + e) ==
      match Decode(e)
      case None => None
      case Some(rest) => Some([b0, b1, b2] + rest)
  {
    QuantumBits(b0, b1, b2);
    var s := Quantum(b0, b1, b2) + e;
    assert s[4..] == e;
  }

  /** A padded last group of one byte decodes to that byte. */
  lemma DecodeQuantum1(b0: Byte)
    ensures Decode(Quantum1(b0)) == Some([b0])
  {
    QuantumBits(b0, 0, 0);
  }

  /** A padded last group of two bytes decodes to those bytes. */
  lemma DecodeQuantum2(b0: Byte, b1: Byte)
    ensures Decode(Quantum2(b0, b1)) == Some([b0, b1])
  {
    QuantumBits(b0, b1, 0);
  }

  /** Decoding an encoding gives the bytes back. */
  lemma {:induction false} DecodeEncode(b: Bytes)
    ensures Decode(Encode(b)) == Some(b)
    decreases |b|
  {
    if |b| == 1 {
      DecodeQuantum1(b[0]);
      assert b == [b[0]];
    } else if |b| == 2 {
      DecodeQuantum2(b[0], b[1]);
      assert b == [b[0], b[1]];
    } else if |b| >= 3 {
      DecodeEncode(b[3..]);
      DecodeQuantum(b[0], b[1], b[2], Encode(b[3..]));
      assert b == [b[0], b[1], b[2]] + b[3..];
    }
  }

  /** Different byte strings never have the same encoding. */
  lemma EncodeInjective(b1: Bytes, b2: Bytes)
    requires Encode(b1) == Encode(b2)
    ensures b1 == b2
  {
    DecodeEncode(b1);
    DecodeEncode(b2);
  }
}
