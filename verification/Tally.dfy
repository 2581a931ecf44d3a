// Adding rows up under keys.

module Tally {
  datatype Row = Row(count: nat, zebrad: nat, zakura: nat)

  const NO_BLOCKS := Row(0, 0, 0)

  function Plus(a: Row, b: Row): Row {
    Row(a.count + b.count, a.zebrad + b.zebrad, a.zakura + b.zakura)
  }

  function Entry<K(==)>(stats: map<K, Row>, key: K): Row {
    if key in stats then stats[key] else NO_BLOCKS
  }

  function Add<K(==)>(stats: map<K, Row>, key: K, row: Row): map<K, Row> {
    stats[key := Plus(Entry(stats, key), row)]
  }

  // What the items with the key add up to.
  function RowFor<K(==)>(items: seq<(K, Row)>, key: K): Row {
    if items == [] then NO_BLOCKS
    else
      var before, last := RowFor(items[..|items| - 1], key), items[|items| - 1];
      if last.0 == key then Plus(before, last.1) else before
  }

  // What all items add up to.
  function Totals<K>(items: seq<(K, Row)>): Row {
    if items == [] then NO_BLOCKS else Plus(Totals(items[..|items| - 1]), items[|items| - 1].1)
  }

  ghost predicate Occurs<K(!new)>(items: seq<(K, Row)>, key: K) {
    exists i | 0 <= i < |items| :: items[i].0 == key
  }

  ghost function SumRows<K(!new)>(m: map<K, Row>): Row {
    if m == map[] then NO_BLOCKS
    else
      var k :| k in m;
      Plus(m[k], SumRows(m - {k}))
  }

  // One row for exactly the keys that occur, each holding what its items add up
  // to; together the rows are the totals.
  ghost predicate Distributes<K(!new)>(stats: map<K, Row>, items: seq<(K, Row)>) {
    && (forall key :: key in stats <==> Occurs(items, key))
    && (forall key | key in stats :: stats[key] == RowFor(items, key))
    && SumRows(stats) == Totals(items)
  }

  // The sum does not depend on the order of the rows.
  lemma {:induction false} TakeOut<K(!new)>(m: map<K, Row>, k: K)
    requires k in m
    ensures SumRows(m) == Plus(m[k], SumRows(m - {k}))
    decreases |m|
  {
    var c :| c in m && SumRows(m) == Plus(m[c], SumRows(m - {c}));
    if c != k {
      var rest := m - {c} - {k};
      assert m - {k} - {c} == rest;
      TakeOut(m - {c}, k);
      TakeOut(m - {k}, c);
      assert SumRows(m - {c}) == Plus(m[k], SumRows(rest));
      assert SumRows(m - {k}) == Plus(m[c], SumRows(rest));
      assert SumRows(m) == Plus(m[c], SumRows(m - {c}));
      assert Plus(m[c], Plus(m[k], SumRows(rest))) == Plus(m[k], Plus(m[c], SumRows(rest)));
    } else {
      assert m - {c} == m - {k};
      assert SumRows(m) == Plus(m[c], SumRows(m - {c}));
    }
  }

  lemma SumOfAdd<K(!new)>(m: map<K, Row>, k: K, r: Row)
    ensures SumRows(Add(m, k, r)) == Plus(SumRows(m), r)
  {
    var n := Add(m, k, r);
    TakeOut(n, k);
    if k in m {
      TakeOut(m, k);
      assert n - {k} == m - {k};
    } else {
      assert n - {k} == m;
    }
  }

  // A key that does not occur adds up to nothing.
  lemma {:induction false} AbsentKey<K(!new)>(items: seq<(K, Row)>, key: K)
    requires !Occurs(items, key)
    ensures RowFor(items, key) == NO_BLOCKS
  {
    if items != [] {
      AbsentKey(items[..|items| - 1], key);
    }
  }

  lemma AddDistributes<K(!new)>(stats: map<K, Row>, items: seq<(K, Row)>, key: K, row: Row)
    requires Distributes(stats, items)
    ensures Distributes(Add(stats, key, row), items + [(key, row)])
  {
    var more, next := items + [(key, row)], Add(stats, key, row);
    assert more[..|items|] == items;
    SumOfAdd(stats, key, row);
    if key !in stats { AbsentKey(items, key); }
    forall k ensures k in next <==> Occurs(more, k) {
      assert more[|items|].0 == key;
      if Occurs(items, k) {
        var i :| 0 <= i < |items| && items[i].0 == k;
        assert more[i].0 == k;
      }
    }
  }

  lemma AddNext<K(!new)>(stats: map<K, Row>, items: seq<(K, Row)>, i: nat)
    requires i < |items| && Distributes(stats, items[..i])
    ensures Distributes(Add(stats, items[i].0, items[i].1), items[..i + 1])
  {
    AddDistributes(stats, items[..i], items[i].0, items[i].1);
    assert items[..i + 1] == items[..i] + [(items[i].0, items[i].1)];
  }
}
