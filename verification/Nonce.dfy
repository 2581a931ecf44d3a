// The 32-byte block header nonce: the server's NONCE_1 prefixes
// (crates/stratum/src/session.rs) and the miner's counters behind them
// (crates/cpu-miner/src/main.rs).

module Nonce {
  import opened Common
  import opened Endian
  import Hex

  const NUM_THREADS: nat := 4
  const U32: nat := 0x1_0000_0000

  // How many bytes of a prefix or of a counter are really used.
  function PrefixWidth(nonce1Size: nat): nat { Min(nonce1Size, 4) }

  function CounterWidth(nonce1Size: nat): nat
    requires nonce1Size <= 32
  {
    Min(32 - nonce1Size, 8)
  }

  // A number in little-endian bytes, cut or padded to the size.
  function Field(n: nat, width: nat, size: nat): (b: Bytes)
    requires width <= size
    ensures |b| == size
  {
    ToLittleEndian(n, width) + Zeros(size - width)
  }

  function Prefix(value: nat, nonce1Size: nat): Bytes {
    Field(value, PrefixWidth(nonce1Size), nonce1Size)
  }

  function FullNonce(nonce1: Bytes, counter: nat): Bytes
    requires |nonce1| <= 32
  {
    nonce1 + Field(counter, CounterWidth(|nonce1|), 32 - |nonce1|)
  }

  class NonceAllocator {
    const nonce1Size: nat
    var counter: nat
    ghost var calls: nat

    ghost predicate Valid()
      reads this
    {
      0 < nonce1Size < 32 && counter == Allocation(calls)
    }

    constructor (nonce1Size: nat)
      requires 0 < nonce1Size < 32
      ensures Valid() && this.nonce1Size == nonce1Size && calls == 0
    {
      this.nonce1Size := nonce1Size;
      counter, calls := 1, 0;
    }

    // The n-th call hands out the prefix of the n-th allocation; the counter is
    // bumped atomically and wraps at 2^32.
    method Allocate() returns (nonce1Hex: string)
      requires Valid()
      modifies this
      ensures Valid() && calls == old(calls) + 1 && counter == (old(counter) + 1) % U32
      ensures nonce1Hex == Hex.Encode(Prefix(Allocation(old(calls)), nonce1Size))
    {
      var val := counter;
      NextAllocation(calls);
      counter, calls := (counter + 1) % U32, calls + 1;
      var bytes := ToLittleEndian(val, 4);
      var nonce1 := new Byte[nonce1Size](_ => 0);
      for i := 0 to nonce1.Length
        invariant nonce1[..] == bytes[..Min(i, 4)] + Zeros(nonce1Size - Min(i, 4))
        invariant Valid() && calls == old(calls) + 1 && counter == (val + 1) % U32
      {
        if i < |bytes| {
          nonce1[i] := bytes[i];
        }
      }
      LittleEndianPrefix(val, PrefixWidth(nonce1Size), 4);
      nonce1Hex := Hex.Encode(nonce1[..]);
    }
  }

  // The counter value of the n-th allocation since the start.
  function Allocation(n: nat): nat { (1 + n) % U32 }

  lemma NextAllocation(n: nat)
    ensures Allocation(n + 1) == (Allocation(n) + 1) % U32
  {
  }

  lemma {:induction false} LittleEndianPrefix(n: nat, short: nat, long: nat)
    requires short <= long
    ensures ToLittleEndian(n, long)[..short] == ToLittleEndian(n, short)
  {
    if short > 0 {
      LittleEndianPrefix(n / 256, short - 1, long - 1);
      assert ToLittleEndian(n, long)[..short] == [n % 256] + ToLittleEndian(n / 256, long - 1)[..short - 1];
    }
  }

  // The miner's loop body: prefix, then the low bytes of its counter.
  method FillNonce(nonce1: Bytes, counter: nat) returns (nonce: array<Byte>)
    requires |nonce1| <= 32
    ensures fresh(nonce) && nonce[..] == FullNonce(nonce1, counter)
  {
    nonce := new Byte[32](_ => 0);
    for i := 0 to |nonce1|
      invariant nonce[..] == nonce1[..i] + Zeros(32 - i)
    {
      nonce[i] := nonce1[i];
    }
    var nonce2Size := 32 - |nonce1|;
    var cb := ToLittleEndian(counter, 8);
    for i := 0 to Min(nonce2Size, 8)
      invariant nonce[..] == nonce1 + cb[..i] + Zeros(nonce2Size - i)
    {
      nonce[|nonce1| + i] := cb[i];
    }
    LittleEndianPrefix(counter, CounterWidth(|nonce1|), 8);
    assert nonce1 + cb[..Min(nonce2Size, 8)] + Zeros(nonce2Size - Min(nonce2Size, 8)) == FullNonce(nonce1, counter);
  }

  // ----- the bytes

  // The prefix first, then up to eight bytes of the counter, lowest first, then
  // zeros.
  lemma NonceBytes(nonce1: Bytes, counter: nat, i: nat)
    requires |nonce1| <= 32 && i < 32
    ensures |FullNonce(nonce1, counter)| == 32
    ensures i < |nonce1| ==> FullNonce(nonce1, counter)[i] == nonce1[i]
    ensures |nonce1| <= i < |nonce1| + 8 ==>
      Exp(256, i - |nonce1|) > 0 && FullNonce(nonce1, counter)[i] == counter / Exp(256, i - |nonce1|) % 256
    ensures i >= |nonce1| + 8 ==> FullNonce(nonce1, counter)[i] == 0
  {
    if |nonce1| <= i < |nonce1| + 8 { ByteAt(counter, CounterWidth(|nonce1|), i - |nonce1|); }
  }

  // The n-th allocation's prefix: up to four bytes of n + 1, lowest first, then
  // zeros.
  lemma PrefixBytes(n: nat, nonce1Size: nat, i: nat)
    requires i < nonce1Size
    ensures |Prefix(Allocation(n), nonce1Size)| == nonce1Size
    ensures i < 4 ==>
      Exp(256, i) > 0 && Prefix(Allocation(n), nonce1Size)[i] == (n + 1) % 4294967296 / Exp(256, i) % 256
    ensures i >= 4 ==> Prefix(Allocation(n), nonce1Size)[i] == 0
  {
    if i < 4 { ByteAt(Allocation(n), PrefixWidth(nonce1Size), i); }
  }

  // ----- the parts of a nonce do not interfere

  lemma FieldsEqual(m: nat, n: nat, width: nat, size: nat)
    requires width <= size
    ensures Exp(256, width) > 0
    ensures Field(m, width, size) == Field(n, width, size) <==> m % Exp(256, width) == n % Exp(256, width)
  {
    LittleEndianRoundTrip(m, width);
    LittleEndianRoundTrip(n, width);
    if Field(m, width, size) == Field(n, width, size) {
      assert ToLittleEndian(m, width) == Field(m, width, size)[..width];
      assert ToLittleEndian(n, width) == Field(n, width, size)[..width];
    } else if m % Exp(256, width) == n % Exp(256, width) {
      LittleEndianInjective(ToLittleEndian(m, width), ToLittleEndian(n, width));
    }
  }

  // Two full nonces agree exactly when prefixes agree and the counters agree
  // modulo what the counter bytes can hold.
  lemma NoncesEqual(p: Bytes, c: nat, q: Bytes, d: nat)
    requires |p| == |q| <= 32
    ensures Exp(256, CounterWidth(|p|)) > 0
    ensures FullNonce(p, c) == FullNonce(q, d) <==>
      p == q && c % Exp(256, CounterWidth(|p|)) == d % Exp(256, CounterWidth(|p|))
  {
    var w := CounterWidth(|p|);
    FieldsEqual(c, d, w, 32 - |p|);
    if FullNonce(p, c) == FullNonce(q, d) {
      assert p == FullNonce(p, c)[..|p|] && q == FullNonce(q, d)[..|p|];
      assert Field(c, w, 32 - |p|) == FullNonce(p, c)[|p|..] && Field(d, w, 32 - |p|) == FullNonce(q, d)[|p|..];
    }
  }

  // Two allocations hand out one prefix exactly when they are a multiple of
  // 256^min(size, 4) apart, wrap-around of the counter included.
  lemma PrefixesEqual(i: nat, j: nat, nonce1Size: nat)
    ensures Exp(256, PrefixWidth(nonce1Size)) > 0
    ensures Prefix(Allocation(i), nonce1Size) == Prefix(Allocation(j), nonce1Size) <==>
      i % Exp(256, PrefixWidth(nonce1Size)) == j % Exp(256, PrefixWidth(nonce1Size))
  {
    var w := PrefixWidth(nonce1Size);
    var m := Exp(256, w);
    FieldsEqual(Allocation(i), Allocation(j), w, nonce1Size);
    U32IsMultiple(w);
    ModOfMod(1 + i, m, Exp(256, 4 - w));
    ModOfMod(1 + j, m, Exp(256, 4 - w));
    ModPlusOne(i, j, m);
  }

  lemma U32IsMultiple(w: nat)
    requires w <= 4
    ensures U32 == Exp(256, w) * Exp(256, 4 - w) && Exp(256, w) > 0 && Exp(256, 4 - w) > 0
  {
    ExpPositive(256, w);
    ExpPositive(256, 4 - w);
    ExpSum(256, w, 4 - w);
    assert Exp(256, 4) == 256 * (256 * Exp(256, 2));
    assert Exp(256, 2) == 256 * (256 * Exp(256, 0));
  }

  lemma ModOfMod(n: nat, m: nat, k: nat)
    requires m > 0 && k > 0 && m * k > 0
    ensures n % (m * k) % m == n % m
  {
    var q, r := n / (m * k), n % (m * k);
    assert n == q * (m * k) + r;
    assert n == (q * k + r / m) * m + r % m;
    ModUnique(n, m, q * k + r / m, r % m);
  }

  lemma ModPlusOne(i: nat, j: nat, m: nat)
    requires m > 0
    ensures (1 + i) % m == (1 + j) % m <==> i % m == j % m
  {
    SuccessorMod(i, m);
    SuccessorMod(j, m);
  }

  lemma SuccessorMod(i: nat, m: nat)
    requires m > 0
    ensures (1 + i) % m == if i % m == m - 1 then 0 else i % m + 1
  {
    var q, r := i / m, i % m;
    assert i == q * m + r;
    if r == m - 1 { ModUnique(1 + i, m, q + 1, 0); } else { ModUnique(1 + i, m, q, r + 1); }
  }

  // ----- sessions, threads and iterations

  // The counter of a thread in its k-th iteration.
  function CounterAt(thread: nat, k: nat): nat { thread + NUM_THREADS * k }

  // The threads together take every counter exactly once.
  lemma ThreadsPartition(c: nat)
    ensures CounterAt(c % NUM_THREADS, c / NUM_THREADS) == c
    ensures forall thread: nat, k: nat | thread < NUM_THREADS && CounterAt(thread, k) == c ::
      thread == c % NUM_THREADS && k == c / NUM_THREADS
  {
  }

  // The nonce tried by one thread of the miner of one session.
  function TriedNonce(session: nat, nonce1Size: nat, thread: nat, k: nat): Bytes
    requires nonce1Size <= 32
  {
    FullNonce(Prefix(Allocation(session), nonce1Size), CounterAt(thread, k))
  }

  // Sessions fewer than 256^min(size, 4) allocations apart, threads, and
  // iterations whose counters fit in the counter bytes never try one nonce twice.
  lemma TriedNoncesDistinct(i: nat, s: nat, k: nat, j: nat, t: nat, l: nat, nonce1Size: nat)
    requires 0 < nonce1Size < 32 && s < NUM_THREADS && t < NUM_THREADS
    requires -(Exp(256, PrefixWidth(nonce1Size)) as int) < i - j < Exp(256, PrefixWidth(nonce1Size))
    requires CounterAt(s, k) < Exp(256, CounterWidth(nonce1Size))
    requires CounterAt(t, l) < Exp(256, CounterWidth(nonce1Size))
    requires TriedNonce(i, nonce1Size, s, k) == TriedNonce(j, nonce1Size, t, l)
    ensures i == j && s == t && k == l
  {
    var p, q := Prefix(Allocation(i), nonce1Size), Prefix(Allocation(j), nonce1Size);
    NoncesEqual(p, CounterAt(s, k), q, CounterAt(t, l));
    PrefixesEqual(i, j, nonce1Size);
    CloseAndCongruent(i, j, Exp(256, PrefixWidth(nonce1Size)));
    SmallMod(CounterAt(s, k), Exp(256, CounterWidth(nonce1Size)));
    SmallMod(CounterAt(t, l), Exp(256, CounterWidth(nonce1Size)));
    ThreadsPartition(CounterAt(s, k));
  }

  lemma SmallMod(n: nat, m: nat)
    requires n < m
    ensures n % m == n
  {
    ModUnique(n, m, 0, n);
  }

  lemma CloseAndCongruent(i: nat, j: nat, m: nat)
    requires m > 0 && -(m as int) < i - j < m && i % m == j % m
    ensures i == j
  {
    var d := i / m - j / m;
    assert i - j == d * m;
    if d > 0 { MulAtLeast(d, m); }
    if d < 0 { MulAtLeast(-d, m); }
  }

  // The bound on sessions is sharp: one allocation further the prefix repeats.
  lemma PrefixRepeats(i: nat, nonce1Size: nat)
    ensures Prefix(Allocation(i + Exp(256, PrefixWidth(nonce1Size))), nonce1Size) == Prefix(Allocation(i), nonce1Size)
  {
    var m := Exp(256, PrefixWidth(nonce1Size));
    PrefixesEqual(i + m, i, nonce1Size);
    ModUnique(i + m, m, i / m + 1, i % m);
  }
}
