/**
 Sorting by a strict order. Sorted says what any sort of a set returns: the order
 its elements were collected in cannot show.
 */
module Sorting {

  // Go's order on strings.
  predicate LexLess(a: string, b: string)
    decreases |a|
  {
    b != [] && (a == [] || a[0] < b[0] || (a[0] == b[0] && LexLess(a[1..], b[1..])))
  }

  lemma {:induction false} LexIrreflexive(a: string)
    ensures !LexLess(a, a)
    decreases |a|
  {
    if a != [] { LexIrreflexive(a[1..]); }
  }

  lemma {:induction false} LexTransitive(a: string, b: string, c: string)
    requires LexLess(a, b) && LexLess(b, c)
    ensures LexLess(a, c)
    decreases |a|
  {
    if a != [] && a[0] == b[0] == c[0] { LexTransitive(a[1..], b[1..], c[1..]); }
  }

  lemma {:induction false} LexTotal(a: string, b: string)
    ensures a == b || LexLess(a, b) || LexLess(b, a)
    decreases |a|
  {
    if a != [] && b != [] && a[0] == b[0] {
      LexTotal(a[1..], b[1..]);
      if a[1..] == b[1..] {
        assert a == [a[0]] + a[1..] && b == [b[0]] + b[1..];
      }
    }
  }

  ghost predicate StrictOrder<T(!new)>(less: (T, T) -> bool, s: set<T>) {
    && (forall x :: x in s ==> !less(x, x))
    && (forall x, y, z :: x in s && y in s && z in s && less(x, y) && less(y, z) ==> less(x, z))
    && (forall x, y :: x in s && y in s ==> x == y || less(x, y) || less(y, x))
  }

  lemma LexIsStrictOrder(s: set<string>)
    ensures StrictOrder(LexLess, s)
  {
    forall x | x in s ensures !LexLess(x, x) { LexIrreflexive(x); }
    forall x, y, z | x in s && y in s && z in s && LexLess(x, y) && LexLess(y, z) ensures LexLess(x, z) {
      LexTransitive(x, y, z);
    }
    forall x, y | x in s && y in s ensures x == y || LexLess(x, y) || LexLess(y, x) { LexTotal(x, y); }
  }

  ghost predicate Ascending<T>(less: (T, T) -> bool, xs: seq<T>) {
    forall i, j :: 0 <= i < j < |xs| ==> less(xs[i], xs[j])
  }

  function Elements<T>(xs: seq<T>): set<T> {
    set x | x in xs
  }

  lemma LeastExists<T(!new)>(less: (T, T) -> bool, s: set<T>) returns (m: T)
    requires s != {} && StrictOrder(less, s)
    ensures m in s && forall x :: x in s && x != m ==> less(m, x)
    decreases s
  {
    m :| m in s;
    var rest := s - {m};
    if rest != {} {
      var n := LeastExists(less, rest);
      if less(n, m) { m := n; }
    }
  }

  ghost function Sorted<T(!new)>(less: (T, T) -> bool, s: set<T>): (r: seq<T>)
    requires StrictOrder(less, s)
    ensures Ascending(less, r)
    ensures Elements(r) == s
    decreases s
  {
    if s == {} then []
    else
      assert exists m :: m in s && forall x :: x in s && x != m ==> less(m, x) by { var m := LeastExists(less, s); }
      var m :| m in s && forall x :: x in s && x != m ==> less(m, x);
      var rest := Sorted(less, s - {m});
      assert forall x :: x in rest <==> x in Elements(rest);
      [m] + rest
  }

  // An ascending sequence is determined by its elements.
  lemma {:induction false} AscendingUnique<T(!new)>(less: (T, T) -> bool, xs: seq<T>, ys: seq<T>)
    requires StrictOrder(less, Elements(xs)) && Elements(xs) == Elements(ys)
    requires Ascending(less, xs) && Ascending(less, ys)
    ensures xs == ys
    decreases |xs|
  {
    ElementsEmpty(xs);
    ElementsEmpty(ys);
    if xs != [] {
      assert xs[0] in Elements(xs);
      assert ys[0] in Elements(xs);
      var i :| 0 <= i < |xs| && xs[i] == ys[0];
      assert xs[0] in Elements(ys);
      var j :| 0 <= j < |ys| && ys[j] == xs[0];
      assert xs[0] == ys[0];
      ElementsOfTail(less, xs);
      ElementsOfTail(less, ys);
      AscendingUnique(less, xs[1..], ys[1..]);
    }
  }

  lemma ElementsEmpty<T>(xs: seq<T>)
    ensures xs == [] <==> Elements(xs) == {}
  {
    if xs != [] {
      assert xs[0] in Elements(xs);
    }
  }

  lemma ElementsOfTail<T(!new)>(less: (T, T) -> bool, xs: seq<T>)
    requires xs != [] && StrictOrder(less, Elements(xs)) && Ascending(less, xs)
    ensures Elements(xs[1..]) == Elements(xs) - {xs[0]}
  {
    assert xs[0] in Elements(xs);
    assert forall i :: 0 < i < |xs| ==> less(xs[0], xs[i]);
  }

  lemma SortedIs<T(!new)>(less: (T, T) -> bool, xs: seq<T>)
    requires StrictOrder(less, Elements(xs)) && Ascending(less, xs)
    ensures xs == Sorted(less, Elements(xs))
  {
    AscendingUnique(less, xs, Sorted(less, Elements(xs)));
  }

  ghost predicate Distinct<T>(xs: seq<T>) {
    forall i, j :: 0 <= i < j < |xs| ==> xs[i] != xs[j]
  }

  // Go's sort package, as an insertion sort.
  method Sort<T(!new,==)>(less: (T, T) -> bool, xs: seq<T>) returns (r: seq<T>)
    requires StrictOrder(less, Elements(xs)) && Distinct(xs)
    ensures r == Sorted(less, Elements(xs))
  {
    r := [];
    for i := 0 to |xs|
      invariant Elements(r) == Elements(xs[..i]) && Ascending(less, r)
    {
      assert Elements(xs[..i + 1]) == Elements(xs[..i]) + {xs[i]};
      assert xs[i] !in Elements(xs[..i]);
      assert xs[i] in Elements(xs) && Elements(r) <= Elements(xs);
      r := Insert(less, r, xs[i], Elements(xs));
    }
    assert xs[..|xs|] == xs;
    SortedIs(less, r);
  }

  method Insert<T(!new,==)>(less: (T, T) -> bool, xs: seq<T>, x: T, ghost universe: set<T>) returns (r: seq<T>)
    requires StrictOrder(less, universe) && Elements(xs) <= universe && x in universe && x !in xs
    requires Ascending(less, xs)
    ensures Ascending(less, r) && Elements(r) == Elements(xs) + {x}
  {
    var k := 0;
    while k < |xs| && less(xs[k], x)
      invariant 0 <= k <= |xs|
      invariant forall i :: 0 <= i < k ==> less(xs[i], x)
    {
      k := k + 1;
    }
    InsertAt(less, xs, x, k, universe);
    r := xs[..k] + [x] + xs[k..];
  }

  lemma InsertAt<T(!new)>(less: (T, T) -> bool, xs: seq<T>, x: T, k: nat, universe: set<T>)
    requires StrictOrder(less, universe) && Elements(xs) <= universe && x in universe && x !in xs
    requires Ascending(less, xs) && k <= |xs|
    requires forall i :: 0 <= i < k ==> less(xs[i], x)
    requires k < |xs| ==> !less(xs[k], x)
    ensures var r := xs[..k] + [x] + xs[k..]; Ascending(less, r) && Elements(r) == Elements(xs) + {x}
  {
    forall j | k <= j < |xs| ensures less(x, xs[j]) {
      assert xs[k] in Elements(xs) && xs[j] in Elements(xs);
    }
    assert xs == xs[..k] + xs[k..];
    assert forall y :: y in xs <==> y in xs[..k] || y in xs[k..];
  }
}
