// Which row of the network page a block is counted in: the node split and the
// grouping fold of crates/pool-api/src/network.rs.

module Grouping {
  import opened Common
  import opened Tally

  const SHIELDED_MINER := "shielded"
  const ZAKURA := " (Zakura)"
  const ZEBRA := " (zebra)"

  // A block as far as grouping goes; tag is what coinbase_tag finds in its text.
  datatype Block = Block(address: string, poolName: Option<string>, tag: Option<string>, isZebrad: bool, isZakura: bool)

  function BlockGroupKey(b: Block): string {
    match b.poolName
    case Some(name) => name
    case None =>
      if b.address == SHIELDED_MINER then (match b.tag case Some(t) => t case None => SHIELDED_MINER)
      else b.address
  }

  function SplitByNodeSoftware(name: string, isZakura: bool, isZebrad: bool): string {
    if isZakura then name + ZAKURA else if isZebrad then name + ZEBRA else name
  }

  // The row of a block: its pool's name; without a pool, its address; but for a
  // shielded block the tag in its text, if there is one.
  lemma RowOfBlock(b: Block)
    ensures b.poolName.Some? ==> BlockGroupKey(b) == b.poolName.value
    ensures b.poolName == None && b.address != "shielded" ==> BlockGroupKey(b) == b.address
    ensures b.poolName == None && b.address == "shielded" ==>
      BlockGroupKey(b) == if b.tag.Some? then b.tag.value else "shielded"
  {
  }

  // The label of a pool that straddles both nodes; the Zakura mark comes first.
  lemma NodeLabels(name: string, isZebrad: bool)
    ensures SplitByNodeSoftware(name, true, isZebrad) == name + " (Zakura)"
    ensures SplitByNodeSoftware(name, false, true) == name + " (zebra)"
    ensures SplitByNodeSoftware(name, false, false) == name
  {
  }

  // ----- which pools straddle both nodes

  ghost predicate HasZakura(blocks: seq<Block>, name: string) {
    exists i | 0 <= i < |blocks| :: blocks[i].poolName == Some(name) && blocks[i].isZakura
  }

  ghost predicate HasZebrad(blocks: seq<Block>, name: string) {
    exists i | 0 <= i < |blocks| :: blocks[i].poolName == Some(name) && blocks[i].isZebrad
  }

  // The pools with a block of either mark.
  ghost predicate OnBoth(blocks: seq<Block>, pools: set<string>) {
    forall name :: name in pools <==> HasZakura(blocks, name) && HasZebrad(blocks, name)
  }

  method PoolsOnBothNodes(blocks: seq<Block>) returns (both: set<string>)
    ensures OnBoth(blocks, both)
  {
    var seen: map<string, (bool, bool)> := map[];
    for i := 0 to |blocks|
      invariant forall name :: name in seen ==>
        (seen[name].0 <==> HasZakura(blocks[..i], name)) && (seen[name].1 <==> HasZebrad(blocks[..i], name))
      invariant forall name :: name !in seen ==> !HasZakura(blocks[..i], name) && !HasZebrad(blocks[..i], name)
    {
      SeenStep(blocks, i);
      if blocks[i].poolName.Some? {
        var name := blocks[i].poolName.value;
        var e := if name in seen then seen[name] else (false, false);
        seen := seen[name := (e.0 || blocks[i].isZakura, e.1 || blocks[i].isZebrad)];
      }
    }
    assert blocks[..|blocks|] == blocks;
    both := set name | name in seen && seen[name].0 && seen[name].1;
  }

  lemma SeenStep(blocks: seq<Block>, i: nat)
    requires i < |blocks|
    ensures forall name :: HasZakura(blocks[..i + 1], name) <==>
      HasZakura(blocks[..i], name) || (blocks[i].poolName == Some(name) && blocks[i].isZakura)
    ensures forall name :: HasZebrad(blocks[..i + 1], name) <==>
      HasZebrad(blocks[..i], name) || (blocks[i].poolName == Some(name) && blocks[i].isZebrad)
  {
    var before, after := blocks[..i], blocks[..i + 1];
    assert after[i] == blocks[i];
    forall name
      ensures HasZakura(after, name) <==>
        HasZakura(before, name) || (blocks[i].poolName == Some(name) && blocks[i].isZakura)
      ensures HasZebrad(after, name) <==>
        HasZebrad(before, name) || (blocks[i].poolName == Some(name) && blocks[i].isZebrad)
    {
      if HasZakura(before, name) {
        var j :| 0 <= j < |before| && before[j].poolName == Some(name) && before[j].isZakura;
        assert after[j] == before[j];
      }
      if HasZebrad(before, name) {
        var j :| 0 <= j < |before| && before[j].poolName == Some(name) && before[j].isZebrad;
        assert after[j] == before[j];
      }
    }
  }

  // ----- relabelling

  function Relabelled(b: Block, split: set<string>): Block {
    if b.poolName.Some? && b.poolName.value in split then
      b.(poolName := Some(SplitByNodeSoftware(b.poolName.value, b.isZakura, b.isZebrad)))
    else b
  }

  function RelabelAll(blocks: seq<Block>, split: set<string>): seq<Block> {
    seq(|blocks|, i requires 0 <= i < |blocks| => Relabelled(blocks[i], split))
  }

  method Relabel(blocks: array<Block>) returns (ghost split: set<string>)
    modifies blocks
    ensures OnBoth(old(blocks[..]), split)
    ensures blocks[..] == RelabelAll(old(blocks[..]), split)
  {
    var both := PoolsOnBothNodes(blocks[..]);
    split := both;
    for i := 0 to blocks.Length
      invariant forall k | 0 <= k < i :: blocks[k] == Relabelled(old(blocks[k]), both)
      invariant forall k | i <= k < blocks.Length :: blocks[k] == old(blocks[k])
    {
      if blocks[i].poolName.Some? && blocks[i].poolName.value in both {
        var name := blocks[i].poolName.value;
        blocks[i] := blocks[i].(poolName := Some(SplitByNodeSoftware(name, blocks[i].isZakura, blocks[i].isZebrad)));
      }
    }
  }

  // The block gets a new label of its own.
  predicate Renamed(b: Block, split: set<string>) {
    b.poolName.Some? && b.poolName.value in split && (b.isZakura || b.isZebrad)
  }

  // A block of such a pool is named after its own mark, Zakura first; nothing else
  // about it changes, and nothing about other blocks.
  lemma RelabelledName(b: Block, split: set<string>)
    ensures var r := Relabelled(b, split);
      && r.address == b.address && r.tag == b.tag && r.isZebrad == b.isZebrad && r.isZakura == b.isZakura
      && (b.poolName == None || b.poolName.value !in split ==> r.poolName == b.poolName)
      && (b.poolName.Some? && b.poolName.value in split ==> r.poolName == Some(
           if b.isZakura then b.poolName.value + " (Zakura)"
           else if b.isZebrad then b.poolName.value + " (zebra)"
           else b.poolName.value))
  {
  }

  lemma RenamedExactly(b: Block, split: set<string>)
    ensures Relabelled(b, split) != b <==> Renamed(b, split)
    ensures BlockGroupKey(Relabelled(b, split)) != BlockGroupKey(b) <==> Renamed(b, split)
  {
    if Renamed(b, split) {
      assert |BlockGroupKey(Relabelled(b, split))| > |BlockGroupKey(b)|;
    }
  }

  // Labels with different marks, or made from different names, are different.
  lemma LabelsDiffer(m: string, n: string, mZakura: bool, nZakura: bool)
    requires SplitByNodeSoftware(m, mZakura, true) == SplitByNodeSoftware(n, nZakura, true)
    ensures m == n && mZakura == nZakura
  {
    var s, t := SplitByNodeSoftware(m, mZakura, true), SplitByNodeSoftware(n, nZakura, true);
    assert s[|s| - 4] == if mZakura then 'u' else 'b';
    assert t[|t| - 4] == if nZakura then 'u' else 'b';
    assert m == s[..|m|] && n == t[..|n|];
  }

  // Blocks counted in one row after the split were in one row before it.
  ghost predicate Refines(blocks: seq<Block>, split: set<string>) {
    forall i, j | 0 <= i < |blocks| && 0 <= j < |blocks| ::
      BlockGroupKey(Relabelled(blocks[i], split)) == BlockGroupKey(Relabelled(blocks[j], split)) ==>
      BlockGroupKey(blocks[i]) == BlockGroupKey(blocks[j])
  }

  // A block that keeps its key already has a label made for another one.
  ghost predicate Clash(blocks: seq<Block>, split: set<string>) {
    exists i, j | 0 <= i < |blocks| && 0 <= j < |blocks| ::
      Renamed(blocks[i], split) && !Renamed(blocks[j], split) &&
      BlockGroupKey(Relabelled(blocks[i], split)) == BlockGroupKey(blocks[j])
  }

  // The split refines the earlier rows exactly when no label it makes is already
  // the key of a block it leaves alone.
  lemma RefinesExactly(blocks: seq<Block>, split: set<string>)
    ensures Refines(blocks, split) <==> !Clash(blocks, split)
  {
    if Clash(blocks, split) {
      var i, j :| 0 <= i < |blocks| && 0 <= j < |blocks| && Renamed(blocks[i], split) && !Renamed(blocks[j], split) &&
        BlockGroupKey(Relabelled(blocks[i], split)) == BlockGroupKey(blocks[j]);
      RenamedExactly(blocks[i], split);
      RenamedExactly(blocks[j], split);
    } else {
      forall i, j | 0 <= i < |blocks| && 0 <= j < |blocks| &&
          BlockGroupKey(Relabelled(blocks[i], split)) == BlockGroupKey(Relabelled(blocks[j], split))
        ensures BlockGroupKey(blocks[i]) == BlockGroupKey(blocks[j])
      {
        SameRowBefore(blocks[i], blocks[j], split);
      }
    }
  }

  lemma SameRowBefore(b: Block, c: Block, split: set<string>)
    requires BlockGroupKey(Relabelled(b, split)) == BlockGroupKey(Relabelled(c, split))
    ensures Renamed(b, split) == Renamed(c, split) ==> BlockGroupKey(b) == BlockGroupKey(c)
  {
    if Renamed(b, split) && Renamed(c, split) {
      LabelsDiffer(b.poolName.value, c.poolName.value, b.isZakura, c.isZakura);
    }
  }

  // A pool that calls itself "X (Zakura)" is merged with the split of pool "X".
  lemma SplitCanMerge()
    ensures exists blocks: seq<Block>, split: set<string> :: OnBoth(blocks, split) && !Refines(blocks, split)
  {
    var a := Block("t1", Some("X"), None, false, true);
    var b := Block("t2", Some("X"), None, true, false);
    var c := Block("t3", Some("X (Zakura)"), None, false, false);
    var blocks, split := [a, b, c], {"X"};
    assert blocks[0] == a && blocks[1] == b && blocks[2] == c;
    assert OnBoth(blocks, split) by {
      forall name ensures name in split <==> HasZakura(blocks, name) && HasZebrad(blocks, name) {}
    }
    assert "X" + ZAKURA == "X (Zakura)";
    assert BlockGroupKey(Relabelled(blocks[0], split)) == BlockGroupKey(Relabelled(blocks[2], split));
    assert !Refines(blocks, split);
  }

  // ----- the grouping fold

  function RowOf(b: Block): Row {
    Row(1, if b.isZebrad then 1 else 0, if b.isZakura then 1 else 0)
  }

  function Items(blocks: seq<Block>): seq<(string, Row)> {
    seq(|blocks|, i requires 0 <= i < |blocks| => (BlockGroupKey(blocks[i]), RowOf(blocks[i])))
  }

  // One row for every key that occurs, holding what its blocks add up to; and
  // the rows together add up to the totals.
  method BuildDistribution(blocks: seq<Block>) returns (stats: map<string, Row>)
    ensures Distributes(stats, Items(blocks))
  {
    ghost var items := Items(blocks);
    stats := map[];
    for i := 0 to |blocks|
      invariant Distributes(stats, items[..i])
    {
      AddNext(stats, items, i);
      stats := Add(stats, BlockGroupKey(blocks[i]), RowOf(blocks[i]));
    }
    assert items[..|blocks|] == items;
  }

  function CountIf(blocks: seq<Block>, zebrad: bool): nat {
    if blocks == [] then 0
    else
      var last := blocks[|blocks| - 1];
      CountIf(blocks[..|blocks| - 1], zebrad) + if (if zebrad then last.isZebrad else last.isZakura) then 1 else 0
  }

  // The totals are the number of blocks, of zebrad blocks and of zakura blocks.
  lemma TotalsCountBlocks(blocks: seq<Block>)
    ensures Totals(Items(blocks)) == Row(|blocks|, CountIf(blocks, true), CountIf(blocks, false))
  {
    TotalsOfRows(Items(blocks), blocks);
  }

  lemma {:induction false} TotalsOfRows(items: seq<(string, Row)>, blocks: seq<Block>)
    requires |items| == |blocks| && forall i | 0 <= i < |blocks| :: items[i].1 == RowOf(blocks[i])
    ensures var t := Totals(items);
      t.count == |blocks| && t.zebrad == CountIf(blocks, true) && t.zakura == CountIf(blocks, false)
    decreases |blocks|
  {
    if blocks != [] {
      var n := |blocks| - 1;
      TotalsOfRows(items[..n], blocks[..n]);
      LastTotal(items);
      LastCount(blocks, true);
      LastCount(blocks, false);
    }
  }

  lemma LastTotal(items: seq<(string, Row)>)
    requires items != []
    ensures Totals(items) == Plus(Totals(items[..|items| - 1]), items[|items| - 1].1)
  {
  }

  lemma LastCount(blocks: seq<Block>, zebrad: bool)
    requires blocks != []
    ensures var last := RowOf(blocks[|blocks| - 1]);
      CountIf(blocks, zebrad) == CountIf(blocks[..|blocks| - 1], zebrad) + if zebrad then last.zebrad else last.zakura
  {
  }

  function CountWhere(blocks: seq<Block>, p: Block -> bool): nat {
    if blocks == [] then 0
    else CountWhere(blocks[..|blocks| - 1], p) + if p(blocks[|blocks| - 1]) then 1 else 0
  }

  // Each row counts the blocks with its key, and those of them with either mark.
  lemma RowOfKey(blocks: seq<Block>, key: string)
    ensures var row := RowFor(Items(blocks), key);
      && row.count == CountWhere(blocks, b => BlockGroupKey(b) == key)
      && row.zebrad == CountWhere(blocks, b => BlockGroupKey(b) == key && b.isZebrad)
      && row.zakura == CountWhere(blocks, b => BlockGroupKey(b) == key && b.isZakura)
  {
    RowOfItems(Items(blocks), blocks, key, b => BlockGroupKey(b) == key,
               b => BlockGroupKey(b) == key && b.isZebrad, b => BlockGroupKey(b) == key && b.isZakura);
  }

  lemma {:induction false} RowOfItems(items: seq<(string, Row)>, blocks: seq<Block>, key: string,
                                      all: Block -> bool, zebrad: Block -> bool, zakura: Block -> bool)
    requires |items| == |blocks|
    requires forall i | 0 <= i < |blocks| ::
      items[i].1 == RowOf(blocks[i]) && (all(blocks[i]) <==> items[i].0 == key)
    requires forall b :: zebrad(b) == (all(b) && b.isZebrad) && zakura(b) == (all(b) && b.isZakura)
    ensures var row := RowFor(items, key);
      row.count == CountWhere(blocks, all) && row.zebrad == CountWhere(blocks, zebrad)
      && row.zakura == CountWhere(blocks, zakura)
    decreases |blocks|
  {
    if blocks != [] {
      var n := |blocks| - 1;
      RowOfItems(items[..n], blocks[..n], key, all, zebrad, zakura);
      LastCounted(blocks, all);
      LastCounted(blocks, zebrad);
      LastCounted(blocks, zakura);
      LastRow(items, key);
    }
  }

  lemma LastCounted(blocks: seq<Block>, p: Block -> bool)
    requires blocks != []
    ensures CountWhere(blocks, p)
         == CountWhere(blocks[..|blocks| - 1], p) + if p(blocks[|blocks| - 1]) then 1 else 0
  {
  }

  lemma LastRow(items: seq<(string, Row)>, key: string)
    requires items != []
    ensures var before, last := RowFor(items[..|items| - 1], key), items[|items| - 1];
      RowFor(items, key) == if last.0 == key then Plus(before, last.1) else before
  {
  }

  // Relabelling moves blocks between rows but changes no total.
  lemma RelabelKeepsTotals(blocks: seq<Block>, split: set<string>)
    ensures Totals(Items(RelabelAll(blocks, split))) == Totals(Items(blocks))
  {
    TotalsOfRows(Items(RelabelAll(blocks, split)), blocks);
    TotalsOfRows(Items(blocks), blocks);
  }
}
