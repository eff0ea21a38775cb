/** Removing elements from lists. */
module Lists {

  // xs without the elements of drop, in order.
  function Minus<T(==)>(xs: seq<T>, drop: set<T>): seq<T> {
    if xs == [] then []
    else
      var rest, x := Minus(xs[..|xs| - 1], drop), xs[|xs| - 1];
      if x in drop then rest else rest + [x]
  }

  function Without<T(==)>(xs: seq<T>, x: T): seq<T> {
    Minus(xs, {x})
  }

  lemma MinusSnoc<T>(xs: seq<T>, x: T, drop: set<T>)
    ensures Minus(xs + [x], drop) == if x in drop then Minus(xs, drop) else Minus(xs, drop) + [x]
  {
    assert (xs + [x])[..|xs|] == xs;
  }

  lemma {:induction false} MinusElements<T>(xs: seq<T>, drop: set<T>)
    ensures forall x :: x in Minus(xs, drop) <==> x in xs && x !in drop
  {
    if xs != [] {
      MinusElements(xs[..|xs| - 1], drop);
      assert xs == xs[..|xs| - 1] + [xs[|xs| - 1]];
    }
  }

  lemma {:induction false} MinusNothing<T>(xs: seq<T>, drop: set<T>)
    requires forall x :: x in xs ==> x !in drop
    ensures Minus(xs, drop) == xs
  {
    if xs != [] {
      MinusNothing(xs[..|xs| - 1], drop);
      assert xs == xs[..|xs| - 1] + [xs[|xs| - 1]];
    }
  }

  lemma {:induction false} MinusMinus<T>(xs: seq<T>, a: set<T>, b: set<T>)
    ensures Minus(Minus(xs, a), b) == Minus(xs, a + b)
  {
    if xs != [] {
      var init, x := xs[..|xs| - 1], xs[|xs| - 1];
      MinusMinus(init, a, b);
      if x !in a {
        MinusSnoc(Minus(init, a), x, b);
      }
    }
  }

  lemma {:induction false} MinusConcat<T>(xs: seq<T>, ys: seq<T>, drop: set<T>)
    ensures Minus(xs + ys, drop) == Minus(xs, drop) + Minus(ys, drop)
  {
    if ys == [] {
      assert xs + ys == xs;
    } else {
      assert (xs + ys)[..|xs + ys| - 1] == xs + ys[..|ys| - 1];
      MinusConcat(xs, ys[..|ys| - 1], drop);
    }
  }

  // Removing one element changes a list exactly when the list has it.
  lemma WithoutNothing<T>(xs: seq<T>, x: T)
    ensures Without(xs, x) == xs <==> x !in xs
    ensures x !in Without(xs, x)
  {
    MinusElements(xs, {x});
    if x !in xs {
      MinusNothing(xs, {x});
    }
  }

  // Positions of xs that hold something other than x, in order.
  ghost function KeptPositions<T>(xs: seq<T>, x: T): (f: seq<nat>)
    ensures |f| == |Without(xs, x)|
    ensures forall i :: 0 <= i < |f| ==> f[i] < |xs| && xs[f[i]] == Without(xs, x)[i] && xs[f[i]] != x
    ensures forall i, j :: 0 <= i < j < |f| ==> f[i] < f[j]
    ensures forall j :: 0 <= j < |xs| && xs[j] != x ==> j in f
  {
    if xs == [] then []
    else
      var f := KeptPositions(xs[..|xs| - 1], x);
      if xs[|xs| - 1] == x then f else f + [|xs| - 1]
  }

  // ys is what is left of xs without x, in order.
  ghost predicate KeptInOrder<T>(xs: seq<T>, x: T, ys: seq<T>) {
    exists f: seq<nat> ::
      && |f| == |ys| && (forall i :: 0 <= i < |f| ==> f[i] < |xs| && ys[i] == xs[f[i]] && xs[f[i]] != x)
      && (forall i, j :: 0 <= i < j < |f| ==> f[i] < f[j])
      && (forall j :: 0 <= j < |xs| && xs[j] != x ==> j in f)
  }

  lemma WithoutKeepsOrder<T>(xs: seq<T>, x: T)
    ensures KeptInOrder(xs, x, Without(xs, x))
  {
    var f := KeptPositions(xs, x);
    assert forall i :: 0 <= i < |f| ==> Without(xs, x)[i] == xs[f[i]];
  }
}
