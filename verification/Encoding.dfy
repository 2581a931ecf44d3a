// Byte-level encodings: hexadecimal text, little- and big-endian numbers, and
// the variable-length compactSize integer.

module Hex {
  import opened Common

  const DIGITS := "0123456789abcdef"

  function Encode(bytes: Bytes): (s: string)
    ensures |s| == 2 * |bytes|
  {
    if bytes == [] then "" else [DIGITS[bytes[0] / 16], DIGITS[bytes[0] % 16]] + Encode(bytes[1..])
  }

  function Nibble(c: char): Option<nat> {
    if '0' <= c <= '9' then Some(c as int - '0' as int)
    else if 'a' <= c <= 'f' then Some(c as int - 'a' as int + 10)
    else if 'A' <= c <= 'F' then Some(c as int - 'A' as int + 10)
    else None
  }

  // Odd lengths and characters other than hexadecimal digits are refused.
  function Decode(s: string): Option<Bytes> {
    if s == "" then Some([])
    else if |s| == 1 then None
    else
      match (Nibble(s[0]), Nibble(s[1]), Decode(s[2..]))
      case (Some(high), Some(low), Some(rest)) =>
        assert high < 16 && low < 16;
        Some([16 * high + low] + rest)
      case _ => None
  }

  lemma DigitNibble(n: nat)
    requires n < 16
    ensures Nibble(DIGITS[n]) == Some(n)
  {
  }

  lemma DecodePair(b: Byte, rest: string, value: Bytes)
    requires Decode(rest) == Some(value)
    ensures Decode([DIGITS[b / 16], DIGITS[b % 16]] + rest) == Some([b] + value)
  {
    DigitNibble(b / 16);
    DigitNibble(b % 16);
    assert ([DIGITS[b / 16], DIGITS[b % 16]] + rest)[2..] == rest;
  }

  lemma {:induction false} DecodeEncode(bytes: Bytes)
    ensures Decode(Encode(bytes)) == Some(bytes)
  {
    if bytes != [] {
      DecodeEncode(bytes[1..]);
      DecodePair(bytes[0], Encode(bytes[1..]), bytes[1..]);
      assert bytes == [bytes[0]] + bytes[1..];
    }
  }

  // Two digits a byte, the high one first.
  lemma {:induction false} DigitsOfByte(bytes: Bytes, i: nat)
    requires i < |bytes|
    ensures Encode(bytes)[2 * i] == "0123456789abcdef"[bytes[i] / 16]
    ensures Encode(bytes)[2 * i + 1] == "0123456789abcdef"[bytes[i] % 16]
  {
    if i > 0 {
      DigitsOfByte(bytes[1..], i - 1);
      assert Encode(bytes)[2 * i] == Encode(bytes[1..])[2 * i - 2];
      assert Encode(bytes)[2 * i + 1] == Encode(bytes[1..])[2 * i - 1];
    }
  }

  // A digit's value is its position, in small or in capital letters; there are
  // no other digits.
  lemma DigitValue(n: nat)
    requires n < 16
    ensures Nibble("0123456789abcdef"[n]) == Some(n)
    ensures Nibble("0123456789ABCDEF"[n]) == Some(n)
  {
  }

  lemma OnlyDigits(c: char)
    ensures Nibble(c).Some? <==> '0' <= c <= '9' || 'a' <= c <= 'f' || 'A' <= c <= 'F'
  {
  }

  // Decoding is refused exactly for odd lengths and non-hexadecimal characters.
  lemma {:induction false} DecodeSucceeds(s: string)
    ensures Decode(s).Some? <==> |s| % 2 == 0 && forall c | c in s :: Nibble(c).Some?
    ensures Decode(s).Some? ==> |Decode(s).value| == |s| / 2
  {
    if |s| >= 2 {
      DecodeSucceeds(s[2..]);
      assert s == [s[0], s[1]] + s[2..];
    }
  }

  // Each byte is read from its two digits.
  lemma {:induction false} DecodedByte(s: string, i: nat)
    requires Decode(s).Some? && i < |Decode(s).value|
    ensures 2 * i + 1 < |s| && Nibble(s[2 * i]).Some? && Nibble(s[2 * i + 1]).Some?
    ensures Decode(s).value[i] == 16 * Nibble(s[2 * i]).value + Nibble(s[2 * i + 1]).value
  {
    if i > 0 { DecodedByte(s[2..], i - 1); }
  }

  lemma {:induction false} EncodeConcat(a: Bytes, b: Bytes)
    ensures Encode(a + b) == Encode(a) + Encode(b)
  {
    if a == [] {
      assert a + b == b;
    } else {
      assert (a + b)[1..] == a[1..] + b;
      EncodeConcat(a[1..], b);
    }
  }

  predicate IsDigit(c: char) {
    '0' <= c <= '9' || 'a' <= c <= 'f'
  }

  lemma {:induction false} EncodeGivesDigits(bytes: Bytes)
    ensures forall i | 0 <= i < |Encode(bytes)| :: IsDigit(Encode(bytes)[i])
  {
    if bytes != [] {
      NibbleIsDigit(bytes[0] / 16);
      NibbleIsDigit(bytes[0] % 16);
      EncodeGivesDigits(bytes[1..]);
    }
  }

  lemma NibbleIsDigit(n: nat)
    requires n < 16
    ensures IsDigit(DIGITS[n])
  {
  }

  lemma DigitOfNibble(c: char)
    requires IsDigit(c)
    ensures Nibble(c).Some? && Nibble(c).value < 16 && DIGITS[Nibble(c).value] == c
  {
  }

  // Encoding inverts decoding on small-letter digits.
  lemma {:induction false} EncodeDecode(s: string)
    requires |s| % 2 == 0 && forall i | 0 <= i < |s| :: IsDigit(s[i])
    ensures Decode(s).Some? && Encode(Decode(s).value) == s
  {
    if s != [] {
      EncodeDecode(s[2..]);
      FirstPair(s[0], s[1], s[2..]);
      assert s == [s[0], s[1]] + s[2..];
    }
  }

  lemma FirstPair(a: char, b: char, rest: string)
    requires IsDigit(a) && IsDigit(b) && Decode(rest).Some? && Encode(Decode(rest).value) == rest
    ensures Decode([a, b] + rest).Some? && Encode(Decode([a, b] + rest).value) == [a, b] + rest
  {
    var byte := ByteOfDigits(a, b);
    DecodePair(byte, rest, Decode(rest).value);
    EncodePair(byte, Decode(rest).value);
  }

  lemma ByteOfDigits(a: char, b: char) returns (byte: Byte)
    requires IsDigit(a) && IsDigit(b)
    ensures DIGITS[byte / 16] == a && DIGITS[byte % 16] == b
  {
    DigitOfNibble(a);
    DigitOfNibble(b);
    byte := 16 * Nibble(a).value + Nibble(b).value;
    assert byte / 16 == Nibble(a).value && byte % 16 == Nibble(b).value;
  }

  lemma EncodePair(byte: Byte, rest: Bytes)
    ensures Encode([byte] + rest) == [DIGITS[byte / 16], DIGITS[byte % 16]] + Encode(rest)
  {
    assert ([byte] + rest)[1..] == rest;
  }

  lemma EncodeInjective(a: Bytes, b: Bytes)
    requires Encode(a) == Encode(b)
    ensures a == b
  {
    DecodeEncode(a);
    DecodeEncode(b);
  }
}

module Endian {
  import opened Common

  function BigEndian(b: Bytes): nat {
    if b == [] then 0 else 256 * BigEndian(b[..|b| - 1]) + b[|b| - 1]
  }

  function LittleEndian(b: Bytes): nat {
    if b == [] then 0 else b[0] + 256 * LittleEndian(b[1..])
  }

  function ToLittleEndian(n: nat, width: nat): (b: Bytes)
    ensures |b| == width
  {
    if width == 0 then [] else [n % 256] + ToLittleEndian(n / 256, width - 1)
  }

  // Writing n in width bytes keeps n modulo 256^width.
  lemma {:induction false} LittleEndianRoundTrip(n: nat, width: nat)
    ensures Exp(256, width) > 0
    ensures LittleEndian(ToLittleEndian(n, width)) == n % Exp(256, width)
  {
    ExpPositive(256, width);
    if width > 0 {
      LittleEndianRoundTrip(n / 256, width - 1);
      assert ToLittleEndian(n, width)[1..] == ToLittleEndian(n / 256, width - 1);
      ModSplit(n, Exp(256, width - 1));
    }
  }

  lemma ModSplit(n: nat, m: nat)
    requires m > 0
    ensures n % (256 * m) == n % 256 + 256 * (n / 256 % m)
  {
    var q, r := n / 256 / m, n / 256 % m;
    assert n == 256 * (q * m + r) + n % 256;
    assert n == q * (256 * m) + (256 * r + n % 256);
    ModUnique(n, 256 * m, q, 256 * r + n % 256);
  }

  lemma ModUnique(n: int, m: nat, q: int, r: int)
    requires m > 0 && n == q * m + r && 0 <= r < m
    ensures n % m == r && n / m == q
  {
    var q', r' := n / m, n % m;
    assert n == q' * m + r';
    assert (q - q') * m == r' - r;
    if q > q' { MulAtLeast(q - q', m); }
    if q < q' { MulAtLeast(q' - q, m); }
  }

  lemma MulAtLeast(k: nat, m: nat)
    requires k >= 1
    ensures k * m >= m
  {
  }

  lemma {:induction false} LittleEndianBound(b: Bytes)
    ensures LittleEndian(b) < Exp(256, |b|)
  {
    if b != [] { LittleEndianBound(b[1..]); }
  }

  lemma {:induction false} BigEndianBound(b: Bytes)
    ensures BigEndian(b) < Exp(256, |b|)
  {
    if b != [] { BigEndianBound(b[..|b| - 1]); }
  }

  // The weight of each byte is 256 to its distance from the light end.
  lemma PlaceValues(b: Bytes, x: Byte)
    ensures LittleEndian([]) == 0 == BigEndian([])
    ensures LittleEndian([x] + b) == x + 256 * LittleEndian(b)
    ensures BigEndian(b + [x]) == x + 256 * BigEndian(b)
  {
    assert ([x] + b)[1..] == b && (b + [x])[..|b|] == b;
  }

  lemma {:induction false} ByteAt(n: nat, width: nat, i: nat)
    requires i < width
    ensures Exp(256, i) > 0 && ToLittleEndian(n, width)[i] == n / Exp(256, i) % 256
  {
    ExpPositive(256, i);
    if i > 0 {
      ExpPositive(256, i - 1);
      ByteAt(n / 256, width - 1, i - 1);
      DivDiv(n, 256, Exp(256, i - 1));
    }
  }

  lemma DivDiv(n: nat, a: nat, b: nat)
    requires a > 0 && b > 0
    ensures a * b > 0 && n / a / b == n / (a * b)
  {
    var q, r := n / a / b, n / a % b;
    var s := n % a;
    assert n == a * (b * q + r) + s;
    assert n == q * (a * b) + (a * r + s);
    RestBelow(a, b, r, s);
    ModUnique(n, a * b, q, a * r + s);
  }

  lemma RestBelow(a: nat, b: nat, r: nat, s: nat)
    requires r < b && s < a
    ensures a * r + s < a * b
  {
    MulAtLeast(b - r, a);
    assert a * b == a * r + (b - r) * a;
  }

  // Two byte strings of one length with the same number are the same.
  lemma {:induction false} LittleEndianInjective(a: Bytes, b: Bytes)
    requires |a| == |b| && LittleEndian(a) == LittleEndian(b)
    ensures a == b
  {
    if a != [] {
      assert a[0] == LittleEndian(a) % 256 && b[0] == LittleEndian(b) % 256;
      LittleEndianInjective(a[1..], b[1..]);
      assert a == [a[0]] + a[1..] && b == [b[0]] + b[1..];
    }
  }
}

// crates/pool-core/src/coinbase.rs:262-304 and crates/cpu-miner/src/main.rs:334-347.
module CompactSize {
  import opened Common
  import opened Endian

  datatype ReadError = BeyondData | Truncated

  function Field(data: Bytes, offset: nat, width: nat): Result<(nat, nat), ReadError> {
    if offset + 1 + width > |data| then Err(Truncated)
    else Ok((LittleEndian(data[offset + 1..offset + 1 + width]), 1 + width))
  }

  // The value at the offset, and the number of bytes it occupies.
  function Read(data: Bytes, offset: nat): Result<(nat, nat), ReadError> {
    if offset >= |data| then Err(BeyondData)
    else if data[offset] <= 252 then Ok((data[offset], 1))
    else if data[offset] == 0xFD then Field(data, offset, 2)
    else if data[offset] == 0xFE then Field(data, offset, 4)
    else Field(data, offset, 8)
  }

  // The miner's encoder; the four-byte form keeps only the low 32 bits.
  function Encode(n: nat): Bytes {
    if n < 253 then [n]
    else if n <= 0xFFFF then [0xFD] + ToLittleEndian(n, 2)
    else [0xFE] + ToLittleEndian(n, 4)
  }

  function ByteOf(n: nat): Option<Byte> {
    if n >= 253 then None else Some(n)
  }

  // The three forms of the encoder, byte by byte.
  lemma EncodedForms(n: nat)
    ensures n <= 252 ==> Encode(n) == [n]
    ensures 253 <= n <= 65535 ==> Encode(n) == [0xFD, n % 256, n / 256]
    ensures n >= 65536 ==> Encode(n) == [0xFE, n % 256, n / 256 % 256, n / 65536 % 256, n / 16777216 % 256]
  {
    var a := n / 256;
    assert ToLittleEndian(n, 2) == [n % 256] + ToLittleEndian(a, 1);
    assert ToLittleEndian(n, 4) == [n % 256] + ToLittleEndian(a, 3);
    assert ToLittleEndian(a, 3) == [a % 256] + ToLittleEndian(a / 256, 2);
    assert ToLittleEndian(a / 256, 2) == [a / 256 % 256] + ToLittleEndian(a / 256 / 256, 1);
  }

  // What each lead byte reads, and when it is refused.
  lemma ReadForms(data: Bytes, offset: nat)
    requires offset < |data|
    ensures var lead := data[offset];
      var width := if lead == 0xFD then 2 else if lead == 0xFE then 4 else 8;
      Read(data, offset) ==
        if lead <= 252 then Ok((lead, 1))
        else if |data| < offset + 1 + width then Err(Truncated)
        else Ok((LittleEndian(data[offset + 1..offset + 1 + width]), 1 + width))
  {
  }

  lemma Widths()
    ensures Exp(256, 2) == 0x1_0000 && Exp(256, 4) == 0x1_0000_0000
  {
    assert Exp(256, 2) == 256 * (256 * Exp(256, 0));
    assert Exp(256, 4) == 256 * (256 * Exp(256, 2));
  }

  // Reading an encoding anywhere in a byte string gives the number modulo 2^32.
  lemma ReadEncode(before: Bytes, n: nat, after: Bytes)
    ensures Read(before + Encode(n) + after, |before|) == Ok((n % 0x1_0000_0000, |Encode(n)|))
  {
    var data, code := before + Encode(n) + after, Encode(n);
    Widths();
    assert data[|before|..|before| + |code|] == code;
    assert data[|before|] == code[0];
    if n >= 253 {
      var width := |code| - 1;
      assert data[|before| + 1..|before| + 1 + width] == code[1..];
      LittleEndianRoundTrip(n, width);
    }
  }

  // So the number itself comes back exactly when it fits in 32 bits.
  lemma RoundTripExactly(before: Bytes, n: nat, after: Bytes)
    ensures Read(before + Encode(n) + after, |before|) == Ok((n, |Encode(n)|)) <==> n < 0x1_0000_0000
  {
    ReadEncode(before, n, after);
  }

  // No encoding is a proper prefix of another.
  lemma PrefixFree(m: nat, n: nat)
    requires Encode(m) <= Encode(n)
    ensures Encode(m) == Encode(n) && m % 0x1_0000_0000 == n % 0x1_0000_0000
  {
    ReadAtStart(m, Encode(n)[|Encode(m)|..]);
    ReadAtStart(n, []);
    RestOfPrefix(Encode(m), Encode(n));
    RestOfPrefix(Encode(n), Encode(n));
    PrefixOfOwnLength(Encode(m), Encode(n));
  }

  lemma ReadAtStart(n: nat, after: Bytes)
    ensures Read(Encode(n) + after, 0) == Ok((n % 0x1_0000_0000, |Encode(n)|))
  {
    ReadEncode([], n, after);
    assert [] + Encode(n) + after == Encode(n) + after;
  }

  lemma RestOfPrefix(a: Bytes, b: Bytes)
    requires a <= b
    ensures a + b[|a|..] == b
  {
  }

  lemma PrefixOfOwnLength(a: Bytes, b: Bytes)
    requires a <= b
    ensures |a| == |b| ==> a == b
  {
  }

  // The one-byte form writes the same byte the general encoder would.
  lemma ByteOfIsEncode(n: nat)
    ensures ByteOf(n).Some? <==> |Encode(n)| == 1
    ensures ByteOf(n).Some? ==> [ByteOf(n).value] == Encode(n)
  {
  }
}
