// The authorizing-data Merkle root of crates/pool-core/src/coinbase.rs, over an
// arbitrary personalized hash.

module AuthMerkle {
  import opened Common

  // A 32-byte hash of (personalization, data).
  type Hash = (Bytes, Bytes) -> Digest

  function Ascii(s: string): Bytes {
    seq(|s|, i requires 0 <= i < |s| => s[i] as int % 256)
  }

  function Zero(): Digest {
    Zeros(32)
  }

  function Node(left: Digest, right: Digest): (Bytes, Bytes) {
    (Ascii("ZcashAuthDatHash"), left + right)
  }

  function Apply(h: Hash, input: (Bytes, Bytes)): Digest {
    h(input.0, input.1)
  }

  // The root of the binary tree that splits the leaves in the middle.
  function Root(h: Hash, leaves: seq<Digest>): Digest
    requires leaves != []
  {
    if |leaves| == 1 then leaves[0]
    else Apply(h, Node(Root(h, leaves[..|leaves| / 2]), Root(h, leaves[|leaves| / 2..])))
  }

  function NextPowerOfTwo(n: nat): nat {
    if n <= 1 then 1 else 2 * NextPowerOfTwo((n + 1) / 2)
  }

  function Padded(leaves: seq<Digest>): seq<Digest>
    requires leaves != []
  {
    NextPowerIsPower(|leaves|);
    leaves + seq(NextPowerOfTwo(|leaves|) - |leaves|, _ => Zero())
  }

  function Log2(n: nat): nat {
    if n <= 1 then 0 else 1 + Log2((n + 1) / 2)
  }

  lemma {:induction false} NextPowerIsPower(n: nat)
    ensures NextPowerOfTwo(n) == Exp(2, Log2(n)) >= n
    ensures NextPowerOfTwo(n) > 0
  {
    if n > 1 { NextPowerIsPower((n + 1) / 2); }
  }

  // The least power of two that is no less than n.
  lemma {:induction false} NextPowerIsLeast(n: nat)
    ensures NextPowerOfTwo(n) == Exp(2, Log2(n)) >= n
    ensures forall k: nat | Exp(2, k) >= n :: Exp(2, k) >= NextPowerOfTwo(n)
  {
    NextPowerIsPower(n);
    if n > 1 {
      NextPowerIsLeast((n + 1) / 2);
      forall k: nat | Exp(2, k) >= n ensures Exp(2, k) >= NextPowerOfTwo(n) {
        assert Exp(2, k) == 2 * Exp(2, k - 1);
      }
    } else {
      forall k: nat ensures Exp(2, k) >= 1 { ExpPositive(2, k); }
    }
  }

  // One round of the bottom-up construction.
  function Level(h: Hash, nodes: seq<Digest>): seq<Digest> {
    seq(|nodes| / 2, i requires 0 <= i < |nodes| / 2 => Apply(h, Node(nodes[2 * i], nodes[2 * i + 1])))
  }

  lemma {:induction false} LevelKeepsRoot(h: Hash, nodes: seq<Digest>, k: nat)
    requires k >= 1 && |nodes| == Exp(2, k)
    ensures |Level(h, nodes)| == Exp(2, k - 1) > 0
    ensures Root(h, Level(h, nodes)) == Root(h, nodes)
  {
    ExpPositive(2, k - 1);
    if k > 1 {
      var half := |nodes| / 2;
      LevelKeepsRoot(h, nodes[..half], k - 1);
      LevelKeepsRoot(h, nodes[half..], k - 1);
      assert Level(h, nodes)[..half / 2] == Level(h, nodes[..half]);
      assert Level(h, nodes)[half / 2..] == Level(h, nodes[half..]);
    }
  }

  // The inner loop: hash the nodes pair by pair.
  method HashPairs(h: Hash, nodes: seq<Digest>) returns (next: seq<Digest>)
    ensures next == Level(h, nodes)
  {
    next := [];
    for i := 0 to |nodes| / 2
      invariant next == Level(h, nodes)[..i]
    {
      next := next + [Apply(h, Node(nodes[2 * i], nodes[2 * i + 1]))];
    }
  }

  lemma RootOfLeaf(h: Hash, leaves: seq<Digest>)
    requires |leaves| == 1
    ensures Root(h, leaves) == leaves[0]
  {
  }

  lemma OneRound(h: Hash, nodes: seq<Digest>, k: nat, next: seq<Digest>) returns (j: nat)
    requires 1 < |nodes| == Exp(2, k) && next == Level(h, nodes)
    ensures 0 < |next| == Exp(2, j) < |nodes| && Root(h, next) == Root(h, nodes)
  {
    j := k - 1;
    LevelKeepsRoot(h, nodes, k);
  }

  // The outer loop: halve the level until one node is left.
  method Collapse(h: Hash, nodes: seq<Digest>, ghost depth: nat) returns (root: Digest)
    requires |nodes| == Exp(2, depth) > 0
    ensures root == Root(h, nodes)
  {
    var current := nodes;
    ghost var k := depth;
    while |current| > 1
      invariant |current| == Exp(2, k) > 0
      invariant Root(h, current) == Root(h, nodes)
      decreases |current|
    {
      var next := HashPairs(h, current);
      k := OneRound(h, current, k, next);
      current := next;
    }
    RootOfLeaf(h, current);
    root := current[0];
  }

  method AuthDataMerkleRoot(h: Hash, leaves: seq<Digest>) returns (root: Digest)
    ensures root == if leaves == [] then Zero() else Root(h, Padded(leaves))
  {
    if leaves == [] {
      return Zero();
    }
    NextPowerIsPower(|leaves|);
    root := Collapse(h, Padded(leaves), Log2(|leaves|));
  }

  // ----- what the root commits to

  // Everything hashed to compute a root.
  function Inputs(h: Hash, leaves: seq<Digest>): set<(Bytes, Bytes)>
    requires leaves != []
  {
    if |leaves| == 1 then {}
    else
      var (left, right) := (leaves[..|leaves| / 2], leaves[|leaves| / 2..]);
      Inputs(h, left) + Inputs(h, right) + {Node(Root(h, left), Root(h, right))}
  }

  ghost predicate CollisionFree(h: Hash, inputs: set<(Bytes, Bytes)>) {
    forall x, y | x in inputs && y in inputs && Apply(h, x) == Apply(h, y) :: x == y
  }

  lemma NodeInjective(a: Digest, b: Digest, c: Digest, d: Digest)
    requires Node(a, b) == Node(c, d)
    ensures a == c && b == d
  {
    assert a == (a + b)[..32] && b == (a + b)[32..];
    assert c == (c + d)[..32] && d == (c + d)[32..];
  }

  // Without a collision among the inputs actually hashed, trees of one size
  // with the same root have the same leaves.
  lemma {:induction false} RootBinds(h: Hash, a: seq<Digest>, b: seq<Digest>, inputs: set<(Bytes, Bytes)>)
    requires |a| == |b| > 0 && Root(h, a) == Root(h, b)
    requires Inputs(h, a) <= inputs && Inputs(h, b) <= inputs && CollisionFree(h, inputs)
    ensures a == b
    decreases |a|
  {
    if |a| > 1 {
      var half := |a| / 2;
      NodeInjective(Root(h, a[..half]), Root(h, a[half..]), Root(h, b[..half]), Root(h, b[half..]));
      RootBinds(h, a[..half], b[..half], inputs);
      RootBinds(h, a[half..], b[half..], inputs);
      SameHalves(a, b, half);
    }
  }

  lemma SameHalves(a: seq<Digest>, b: seq<Digest>, half: nat)
    requires half <= |a| && half <= |b| && a[..half] == b[..half] && a[half..] == b[half..]
    ensures a == b
  {
    assert a == a[..half] + a[half..] && b == b[..half] + b[half..];
  }

  // The root also fixes the size of the tree when its first leaf is a hash with
  // another personalization than the nodes have: the two kinds of input cannot
  // be confused on the way down the left side.
  lemma {:induction false} FirstLeafFixesDepth(h: Hash, a: seq<Digest>, b: seq<Digest>, j: nat, k: nat,
                                               p: (Bytes, Bytes), q: (Bytes, Bytes), inputs: set<(Bytes, Bytes)>)
    requires Hashed(h, a, j, p, inputs) && Hashed(h, b, k, q, inputs)
    requires Root(h, a) == Root(h, b) && CollisionFree(h, inputs)
    ensures j == k
    decreases j
  {
    if j > 0 && k > 0 {
      var left, right := Descend(h, a, j, p, inputs);
      var left', right' := Descend(h, b, k, q, inputs);
      NodesAgree(h, Root(h, left), Root(h, right), Root(h, left'), Root(h, right'), inputs);
      FirstLeafFixesDepth(h, left, left', j - 1, k - 1, p, q, inputs);
    } else if j > 0 {
      LeafAgainstTree(h, b, a, j, q, p, inputs);
    } else if k > 0 {
      LeafAgainstTree(h, a, b, k, p, q, inputs);
    }
  }

  // A tree of depth j whose first leaf hashes p, which is no node, computed
  // from the given inputs.
  ghost predicate Hashed(h: Hash, a: seq<Digest>, j: nat, p: (Bytes, Bytes), inputs: set<(Bytes, Bytes)>) {
    && |a| == Exp(2, j) > 0 && a[0] == Apply(h, p)
    && p in inputs && p.0 != Ascii("ZcashAuthDatHash") && Inputs(h, a) <= inputs
  }

  lemma NodesAgree(h: Hash, a: Digest, b: Digest, c: Digest, d: Digest, inputs: set<(Bytes, Bytes)>)
    requires Node(a, b) in inputs && Node(c, d) in inputs && CollisionFree(h, inputs)
    requires Apply(h, Node(a, b)) == Apply(h, Node(c, d))
    ensures a == c && b == d
  {
    NodeInjective(a, b, c, d);
  }

  lemma LeafAgainstTree(h: Hash, a: seq<Digest>, b: seq<Digest>, k: nat,
                        p: (Bytes, Bytes), q: (Bytes, Bytes), inputs: set<(Bytes, Bytes)>)
    requires k > 0 && Hashed(h, a, 0, p, inputs) && Hashed(h, b, k, q, inputs) && CollisionFree(h, inputs)
    ensures Root(h, a) != Root(h, b)
  {
    var left, right := Descend(h, b, k, q, inputs);
    assert Node(Root(h, left), Root(h, right)).0 == Ascii("ZcashAuthDatHash");
    assert Root(h, a) == Apply(h, p);
  }

  // One level down the left side.
  lemma Descend(h: Hash, a: seq<Digest>, j: nat, p: (Bytes, Bytes), inputs: set<(Bytes, Bytes)>)
    returns (left: seq<Digest>, right: seq<Digest>)
    requires j > 0 && Hashed(h, a, j, p, inputs)
    ensures Hashed(h, left, j - 1, p, inputs) && right != []
    ensures Root(h, a) == Apply(h, Node(Root(h, left), Root(h, right)))
    ensures Node(Root(h, left), Root(h, right)) in inputs
  {
    ExpPositive(2, j - 1);
    RootOfNode(h, a);
    left, right := a[..|a| / 2], a[|a| / 2..];
  }

  lemma RootOfNode(h: Hash, a: seq<Digest>)
    requires |a| >= 2
    ensures var (left, right) := (a[..|a| / 2], a[|a| / 2..]);
      && Root(h, a) == Apply(h, Node(Root(h, left), Root(h, right)))
      && Inputs(h, a) == Inputs(h, left) + Inputs(h, right) + {Node(Root(h, left), Root(h, right))}
  {
  }

  // Padding is not recorded: a trailing zero leaf does not change the root
  // while the padded size stays the same.
  lemma TrailingZeroLeaf(h: Hash, a: Digest, b: Digest, c: Digest)
    ensures Root(h, Padded([a, b, c])) == Root(h, Padded([a, b, c, Zero()]))
  {
    assert NextPowerOfTwo(3) == 2 * NextPowerOfTwo(2) == 4 == NextPowerOfTwo(4);
    assert Padded([a, b, c]) == [a, b, c, Zero()] == Padded([a, b, c, Zero()]);
  }

  // Two leaf lists with one padded size are padded to the same leaves exactly
  // when they differ by trailing zero leaves.
  lemma SamePadding(a: seq<Digest>, b: seq<Digest>)
    requires a != [] && |a| <= |b| && NextPowerOfTwo(|a|) == NextPowerOfTwo(|b|)
    ensures Padded(a) == Padded(b) <==> a <= b && forall i | |a| <= i < |b| :: b[i] == Zero()
  {
    NextPowerIsPower(|b|);
    if Padded(a) == Padded(b) {
      assert a == Padded(a)[..|a|] && b == Padded(b)[..|b|];
      forall i | |a| <= i < |b| ensures b[i] == Zero() { assert Padded(a)[i] == Zero(); }
    }
  }
}
