// Share targets: from a difficulty to 32 big-endian bytes of hexadecimal text
// (crates/pool-core/src/difficulty.rs), and the miner's reading of that text and
// test of a block hash against it (crates/cpu-miner/src/main.rs).

module Target {
  import opened Common
  import opened Endian
  import Hex

  // The number the code divides: 2^251 - 1.
  const POW_LIMIT: nat := 0x07ffffff_ffffffff_ffffffff_ffffffff_ffffffff_ffffffff_ffffffff_ffffffff

  // The largest 32-byte number.
  const MAX_TARGET: nat := 0xffffffff_ffffffff_ffffffff_ffffffff_ffffffff_ffffffff_ffffffff_ffffffff

  lemma ThirtyTwoBytes(n: nat)
    requires n == 2
    ensures Exp(256, 16 * n) == MAX_TARGET + 1
  {
    assert Exp(256, n) == 256 * (256 * Exp(256, n - 2));
    ExpSum(256, n, n);
    ExpSum(256, 2 * n, 2 * n);
    ExpSum(256, 4 * n, 4 * n);
    ExpSum(256, 8 * n, 8 * n);
  }

  function TargetValue(difficulty: real): nat {
    if difficulty <= 0.0 then MAX_TARGET
    else
      QuotientNonNegative(POW_LIMIT as real, difficulty);
      Min((POW_LIMIT as real / difficulty).Floor, MAX_TARGET)
  }

  lemma QuotientNonNegative(a: real, d: real)
    requires a >= 0.0 && d > 0.0
    ensures a / d >= 0.0
  {
    var q := a / d;
    assert q * d == a;
  }

  // ----- writing the target

  lemma BigEndianAppend(b: Bytes, x: Byte)
    ensures BigEndian(b + [x]) == 256 * BigEndian(b) + x
  {
    assert (b + [x])[..|b|] == b;
  }

  // x * 256^k.
  ghost function Shifted(x: real, k: nat): real {
    if k == 0 then x else 256.0 * Shifted(x, k - 1)
  }

  lemma {:induction false} ShiftedMore(x: real, k: nat)
    ensures Shifted(256.0 * x, k) == Shifted(x, k + 1)
  {
    if k > 0 { ShiftedMore(x, k - 1); }
  }

  lemma {:induction false} ShiftedSum(x: real, y: real, k: nat)
    ensures Shifted(x + y, k) == Shifted(x, k) + Shifted(y, k)
  {
    if k > 0 { ShiftedSum(x, y, k - 1); }
  }

  lemma {:induction false} ShiftedIsProduct(x: real, k: nat)
    ensures Shifted(x, k) == x * Pow(256.0, k)
  {
    if k > 0 {
      ShiftedIsProduct(x, k - 1);
      assert 256.0 * (x * Pow(256.0, k - 1)) == x * (256.0 * Pow(256.0, k - 1));
    }
  }

  lemma {:induction false} PowIsExp(k: nat)
    ensures Pow(256.0, k) == Exp(256, k) as real
  {
    if k > 0 { PowIsExp(k - 1); }
  }

  lemma Compare(a: real, b: real, p: real)
    requires p > 0.0
    ensures a * p <= b * p <==> a <= b
  {
    assert b * p - a * p == (b - a) * p;
    if a <= b { assert (b - a) * p >= 0.0; } else { assert (a - b) * p > 0.0; }
  }

  // The digit taken off the remainder, p being its weight.
  lemma DigitTaken(remaining: real, p: real, b: int)
    requires p > 0.0 && remaining >= 0.0 && b == RealMin(remaining / p, 255.0).Floor
    ensures 0 <= b <= 255
    ensures if remaining < 256.0 * p then 0.0 <= remaining - b as real * p < p
            else b == 255 && remaining - b as real * p >= p
  {
    var q := remaining / p;
    assert q * p == remaining;
    QuotientNonNegative(remaining, p);
    DigitBounds(remaining, p, q, b as real);
  }

  lemma DigitBounds(remaining: real, p: real, q: real, f: real)
    requires p > 0.0 && q * p == remaining
    requires f <= q && (q < 256.0 ==> q < f + 1.0) && (q >= 256.0 ==> f == 255.0)
    ensures q < 256.0 <==> remaining < 256.0 * p
    ensures if remaining < 256.0 * p then 0.0 <= remaining - f * p < p else remaining - f * p >= p
  {
    Compare(256.0, q, p);
    Compare(f, q, p);
    var g := f + 1.0;
    Compare(g, q, p);
    OneMore(f, g, p);
    if q < 256.0 { assert g * p > remaining; }
  }

  lemma OneMore(f: real, g: real, p: real)
    requires g == f + 1.0
    ensures g * p == f * p + p
  {
  }

  // The bytes written so far and what remains add up to the quotient; either the
  // rest still fits, or every byte so far is 255 because the quotient is too big.
  ghost predicate Written(bytes: Bytes, remaining: real, value: real, left: nat) {
    && remaining >= 0.0
    && value == Shifted(BigEndian(bytes) as real, left) + remaining
    && if value < Pow(256.0, |bytes| + left) then remaining < Pow(256.0, left)
       else BigEndian(bytes) == Exp(256, |bytes|) - 1 && remaining >= Pow(256.0, left)
  }

  // One more byte b of weight p = 256^(left - 1), whose share of the quotient is d.
  lemma WrittenStep(bytes: Bytes, remaining: real, value: real, left: nat, b: Byte, p: real, d: real)
    requires left > 0 && Written(bytes, remaining, value, left)
    requires p == Pow(256.0, left - 1) && d == Shifted(b as real, left - 1)
    requires if remaining < 256.0 * p then 0.0 <= remaining - d < p else b == 255 && remaining - d >= p > 0.0
    ensures Written(bytes + [b], remaining - d, value, left - 1)
  {
    var v := BigEndian(bytes) as real;
    BigEndianAppend(bytes, b);
    ShiftedMore(v, left - 1);
    ShiftedSum(256.0 * v, b as real, left - 1);
    assert BigEndian(bytes + [b]) as real == 256.0 * v + b as real;
    assert |bytes + [b]| + (left - 1) == |bytes| + left;
  }

  lemma ByteWritten(bytes: Bytes, remaining: real, value: real, left: nat, p: real, b: Byte)
    requires left > 0 && Written(bytes, remaining, value, left)
    requires p == Pow(256.0, left - 1) > 0.0 && b == RealMin(remaining / p, 255.0).Floor
    ensures Written(bytes + [b], remaining - b as real * p, value, left - 1)
  {
    DigitTaken(remaining, p, b);
    ShiftedIsProduct(b as real, left - 1);
    WrittenStep(bytes, remaining, value, left, b, p, b as real * p);
  }

  lemma WrittenAll(bytes: Bytes, remaining: real, value: real)
    requires |bytes| == 32 && Written(bytes, remaining, value, 0)
    ensures BigEndian(bytes) == Min(value.Floor, MAX_TARGET)
  {
    ThirtyTwoBytes(2);
    PowIsExp(|bytes|);
    BigEndianBound(bytes);
  }

  lemma {:induction false} FullBytes(b: Bytes)
    requires forall i | 0 <= i < |b| :: b[i] == 255
    ensures BigEndian(b) == Exp(256, |b|) - 1
  {
    if b != [] {
      FullBytes(b[..|b| - 1]);
    }
  }

  method DifficultyToTargetHex(difficulty: real) returns (hex: string)
    ensures Hex.Decode(hex).Some? && |Hex.Decode(hex).value| == 32
    ensures BigEndian(Hex.Decode(hex).value) == TargetValue(difficulty)
  {
    if difficulty <= 0.0 {
      var full: Bytes := seq(32, _ => 255);
      FullBytes(full);
      ThirtyTwoBytes(2);
      Hex.DecodeEncode(full);
      return Hex.Encode(full);
    }
    var target: Bytes := [];
    var targetVal := POW_LIMIT as real / difficulty;
    QuotientNonNegative(POW_LIMIT as real, difficulty);
    var remaining := targetVal;
    ShiftedIsProduct(0.0, 32);
    for i := 0 to 32
      invariant |target| == i && Written(target, remaining, targetVal, 32 - i)
    {
      PowPositive(256.0, 31 - i);
      var divisor := Pow(256.0, 31 - i);
      QuotientNonNegative(remaining, divisor);
      var b: Byte := RealMin(remaining / divisor, 255.0).Floor;
      ByteWritten(target, remaining, targetVal, 32 - i, divisor, b);
      target := target + [b];
      remaining := remaining - b as real * divisor;
    }
    WrittenAll(target, remaining, targetVal);
    Hex.DecodeEncode(target);
    hex := Hex.Encode(target);
  }

  // ----- reading the target and testing a hash

  datatype TargetError = NotHex | TooLong

  lemma {:induction false} LeadingZeros(n: nat, b: Bytes)
    ensures BigEndian(Zeros(n) + b) == BigEndian(b)
  {
    if b != [] {
      assert (Zeros(n) + b)[..n + |b| - 1] == Zeros(n) + b[..|b| - 1];
      LeadingZeros(n, b[..|b| - 1]);
    } else if n > 0 {
      assert (Zeros(n) + b)[..n - 1] == Zeros(n - 1) + b;
      LeadingZeros(n - 1, b);
    }
  }

  // Shorter texts are padded on the left, so they keep their value.
  method ParseTarget(text: string) returns (r: Result<Bytes, TargetError>)
    ensures match Hex.Decode(text)
      case None => r == Err(NotHex)
      case Some(bytes) =>
        if |bytes| > 32 then r == Err(TooLong)
        else r.Ok? && |r.value| == 32 && BigEndian(r.value) == BigEndian(bytes)
  {
    var decoded := Hex.Decode(text);
    if decoded.None? {
      return Err(NotHex);
    }
    var bytes := decoded.value;
    if |bytes| > 32 {
      return Err(TooLong);
    }
    var offset := 32 - |bytes|;
    LeadingZeros(offset, bytes);
    r := Ok(Zeros(offset) + bytes);
  }

  // A hash is little-endian: its last byte is the most significant.
  lemma {:induction false} ReversedValue(hash: Bytes, reversed: Bytes)
    requires |reversed| == |hash| && forall i | 0 <= i < |hash| :: reversed[i] == hash[|hash| - 1 - i]
    ensures BigEndian(reversed) == LittleEndian(hash)
  {
    if hash != [] {
      ReversedValue(hash[1..], reversed[..|reversed| - 1]);
    }
  }

  // The first differing byte decides.
  lemma {:induction false} FirstDifference(a: Bytes, b: Bytes, i: nat)
    requires |a| == |b| && i < |a| && a[..i] == b[..i] && a[i] < b[i]
    ensures BigEndian(a) < BigEndian(b)
  {
    var n := |a| - 1;
    if i < n {
      assert a[..n][..i] == a[..i] && b[..n][..i] == b[..i];
      FirstDifference(a[..n], b[..n], i);
    } else {
      assert a[..n] == b[..n];
    }
  }

  method MeetsTarget(hash: Bytes, target: Bytes) returns (ok: bool)
    requires |hash| == |target| == 32
    ensures ok <==> LittleEndian(hash) <= BigEndian(target)
  {
    ghost var reversed: Bytes := seq(32, i requires 0 <= i < 32 => hash[31 - i]);
    ReversedValue(hash, reversed);
    for i := 0 to 32
      invariant reversed[..i] == target[..i]
    {
      var h := hash[31 - i];
      if h < target[i] {
        FirstDifference(reversed, target, i);
        return true;
      } else if h > target[i] {
        FirstDifference(target, reversed, i);
        return false;
      }
    }
    assert reversed == target;
    ok := true;
  }

  // The two sides together: a hash read against the text the pool sends for a
  // difficulty is a share exactly when it is at most the target number.
  method IsShare(difficulty: real, hash: Bytes) returns (ok: bool)
    requires |hash| == 32
    ensures ok <==> LittleEndian(hash) <= TargetValue(difficulty)
  {
    var text := DifficultyToTargetHex(difficulty);
    var target := ParseTarget(text);
    ok := MeetsTarget(hash, target.value);
  }

  // The target is the last number n with n * difficulty at most 2^251 - 1, unless
  // that is more than 32 bytes hold.
  lemma TargetIsQuotient(difficulty: real)
    requires difficulty > 0.0
    ensures var (n, limit) := (TargetValue(difficulty), (Exp(2, 251) - 1) as real);
      && n as real * difficulty <= limit
      && if n < Exp(2, 256) - 1 then n as real * difficulty + difficulty > limit else n == Exp(2, 256) - 1
  {
    PowersOfTwo();
    QuotientBounds(POW_LIMIT as real, difficulty, MAX_TARGET);
  }

  lemma QuotientBounds(p: real, d: real, m: nat)
    requires p >= 0.0 && d > 0.0
    ensures var n := (p / d).Floor; n >= 0 && n as real * d <= p < n as real * d + d
    ensures m <= (p / d).Floor ==> m as real * d <= p
  {
    var q := p / d;
    assert q * d == p;
    QuotientNonNegative(p, d);
    var f, g, h := q.Floor as real, (q.Floor + 1) as real, m as real;
    Compare(f, q, d);
    Compare(g, q, d);
    Compare(h, q, d);
    OneMore(f, g, d);
    assert q < g;
    assert f * d + d > p;
  }

  lemma PowersOfTwo()
    ensures Exp(2, 251) == POW_LIMIT + 1 && Exp(2, 256) == MAX_TARGET + 1
  {
    ThirtyTwoBytes(2);
    BitsAndBytes(32);
    FiveBits(251);
  }

  lemma FiveBits(n: nat)
    ensures Exp(2, n + 3) == 8 * Exp(2, n) && Exp(2, n + 5) == 32 * Exp(2, n)
  {
    assert Exp(2, n + 1) == 2 * Exp(2, n);
    assert Exp(2, n + 2) == 2 * Exp(2, n + 1);
    assert Exp(2, n + 3) == 2 * Exp(2, n + 2);
    assert Exp(2, n + 4) == 2 * Exp(2, n + 3);
    assert Exp(2, n + 5) == 2 * Exp(2, n + 4);
  }

  lemma {:induction false} BitsAndBytes(n: nat)
    ensures Exp(2, 8 * n) == Exp(256, n)
  {
    if n > 0 {
      var m := 8 * (n - 1);
      BitsAndBytes(n - 1);
      FiveBits(m);
      FiveBits(m + 5);
      assert Exp(2, 8 * n) == 8 * Exp(2, m + 5);
    }
  }

  // A share at some difficulty is a share at every smaller one.
  lemma EasierTarget(easy: real, hard: real)
    requires easy <= hard
    ensures TargetValue(easy) >= TargetValue(hard)
  {
    if easy > 0.0 { QuotientAntitone(POW_LIMIT as real, easy, hard); }
  }

  lemma QuotientAntitone(p: real, easy: real, hard: real)
    requires p >= 0.0 && 0.0 < easy <= hard
    ensures p / easy >= p / hard
  {
    var q, r := p / easy, p / hard;
    assert q * easy == p && r * hard == p;
    QuotientNonNegative(p, hard);
    assert r * (hard - easy) >= 0.0;
    Compare(r, q, easy);
  }

  // Every hash is a share exactly below this difficulty.
  lemma SaturatedTarget(difficulty: real)
    ensures TargetValue(difficulty) == MAX_TARGET <==>
      difficulty <= 0.0 || MAX_TARGET as real * difficulty <= POW_LIMIT as real
  {
    if difficulty > 0.0 {
      var q := POW_LIMIT as real / difficulty;
      assert q * difficulty == POW_LIMIT as real;
      Compare(MAX_TARGET as real, q, difficulty);
    }
  }
}
