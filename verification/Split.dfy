// Cutting a sequence at a separator: the position of the first one, and what is
// left after the last one.

module Split {
  // The first position of x, or the length if there is none.
  function IndexOf<T(==)>(s: seq<T>, x: T): (pos: nat)
    ensures pos <= |s| && x !in s[..pos] && (pos < |s| ==> s[pos] == x)
  {
    if s == [] || s[0] == x then 0
    else
      var pos := IndexOf(s[1..], x) + 1;
      assert s[..pos] == [s[0]] + s[1..][..pos - 1];
      pos
  }

  predicate HasLine<T(==)>(s: seq<T>, x: T) {
    IndexOf(s, x) < |s|
  }

  function After<T(==)>(s: seq<T>, x: T): (rest: seq<T>)
    requires HasLine(s, x)
    ensures |rest| < |s|
  {
    s[IndexOf(s, x) + 1..]
  }

  // What follows the last separator.
  function Partial<T(==)>(s: seq<T>, x: T): seq<T>
    decreases |s|
  {
    if HasLine(s, x) then Partial(After(s, x), x) else s
  }

  lemma InPrefix<T>(s: seq<T>, i: int, n: int)
    requires 0 <= i < n <= |s|
    ensures s[i] in s[..n]
  {
    assert s[..n][i] == s[i];
  }

  lemma IndexUnique<T>(s: seq<T>, x: T, pos: nat)
    requires pos <= |s| && x !in s[..pos] && (pos < |s| ==> s[pos] == x)
    ensures IndexOf(s, x) == pos
  {
    var p := IndexOf(s, x);
    if p < pos { InPrefix(s, p, pos); }
    if pos < p { InPrefix(s, pos, p); }
  }

  lemma HeadOfConcat<T>(a: seq<T>, b: seq<T>, x: T)
    requires HasLine(a, x)
    ensures HasLine(a + b, x) && IndexOf(a + b, x) == IndexOf(a, x) && After(a + b, x) == After(a, x) + b
    ensures (a + b)[..IndexOf(a, x)] == a[..IndexOf(a, x)]
  {
    var pos := IndexOf(a, x);
    assert (a + b)[..pos] == a[..pos];
    IndexUnique(a + b, x, pos);
  }

  lemma {:induction false} PartialHasNone<T>(s: seq<T>, x: T)
    ensures x !in Partial(s, x) && !HasLine(Partial(s, x), x)
    decreases |s|
  {
    if HasLine(s, x) { PartialHasNone(After(s, x), x); }
    else { assert s[..|s|] == s; }
  }

  lemma {:induction false} PartialOfConcat<T>(a: seq<T>, b: seq<T>, x: T)
    ensures Partial(a + b, x) == Partial(Partial(a, x) + b, x)
    decreases |a|
  {
    if HasLine(a, x) {
      HeadOfConcat(a, b, x);
      PartialOfConcat(After(a, x), b, x);
    }
  }

  lemma SeparatorComesLater<T>(a: seq<T>, b: seq<T>, x: T)
    requires x !in a
    ensures IndexOf(a + b, x) >= |a|
  {
    forall i | 0 <= i < |a| ensures (a + b)[i] != x { assert a[i] in a; }
  }

  // The position just after the last separator, or zero.
  function LastEnd<T(==)>(s: seq<T>, x: T): (n: nat)
    ensures n <= |s|
  {
    if s == [] then 0 else if s[|s| - 1] == x then |s| else LastEnd(s[..|s| - 1], x)
  }

  lemma {:induction false} LastEndIsPartial<T>(s: seq<T>, x: T)
    ensures Partial(s, x) == s[LastEnd(s, x)..]
    ensures LastEnd(s, x) > 0 ==> s[LastEnd(s, x) - 1] == x
    decreases |s|
  {
    if s != [] {
      var front, last := s[..|s| - 1], s[|s| - 1];
      assert s == front + [last];
      PartialOfConcat(front, [last], x);
      PartialHasNone(front, x);
      if last == x {
        PartialAfterSeparator(Partial(front, x), x);
      } else {
        LastEndIsPartial(front, x);
        var p := Partial(front, x);
        assert front[LastEnd(front, x)..] + [last] == s[LastEnd(s, x)..];
        NoneStays(p, last, x);
      }
    }
  }

  lemma PartialAfterSeparator<T>(p: seq<T>, x: T)
    requires x !in p
    ensures Partial(p + [x], x) == []
  {
    assert (p + [x])[..|p|] == p;
    IndexUnique(p + [x], x, |p|);
  }

  lemma NoneStays<T>(p: seq<T>, last: T, x: T)
    requires x !in p && last != x
    ensures Partial(p + [last], x) == p + [last]
  {
    var s := p + [last];
    assert s[..|s|] == s;
    IndexUnique(s, x, |s|);
  }
}
