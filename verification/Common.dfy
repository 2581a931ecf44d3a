// Vocabulary shared by the models: optional and failing results, bytes, and
// powers over the reals and the naturals.

module Common {
  datatype Option<+T> = None | Some(value: T)

  datatype Result<+T, +E> = Ok(value: T) | Err(error: E)

  type Byte = x: int | 0 <= x < 256

  type Bytes = seq<Byte>

  // A 32-byte hash value.
  type Digest = b: Bytes | |b| == 32 witness seq(32, _ => 0)

  function Pow(base: real, n: nat): real {
    if n == 0 then 1.0 else base * Pow(base, n - 1)
  }

  function Exp(base: nat, n: nat): nat {
    if n == 0 then 1 else base * Exp(base, n - 1)
  }

  lemma {:induction false} PowPositive(base: real, n: nat)
    requires base > 0.0
    ensures Pow(base, n) > 0.0
  {
    if n > 0 { PowPositive(base, n - 1); }
  }

  lemma {:induction false} ExpPositive(base: nat, n: nat)
    requires base > 0
    ensures Exp(base, n) > 0
  {
    if n > 0 { ExpPositive(base, n - 1); }
  }

  lemma {:induction false} ExpSum(base: nat, m: nat, n: nat)
    ensures Exp(base, m + n) == Exp(base, m) * Exp(base, n)
  {
    if m > 0 {
      ExpSum(base, m - 1, n);
      assert Exp(base, m + n) == base * Exp(base, m - 1 + n);
      Associative(base, Exp(base, m - 1), Exp(base, n));
    }
  }

  lemma Associative(a: nat, b: nat, c: nat)
    ensures a * (b * c) == a * b * c
  {
  }

  function Zeros(n: nat): Bytes {
    seq(n, i requires 0 <= i < n => 0)
  }

  function Min(a: int, b: int): int { if a <= b then a else b }

  function RealMin(a: real, b: real): real { if a <= b then a else b }

  function RealMax(a: real, b: real): real { if a >= b then a else b }

  function Clamp(x: real, low: real, high: real): real
    requires low <= high
  {
    if x < low then low else if x > high then high else x
  }
}
