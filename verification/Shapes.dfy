/** Row-major index arithmetic for tensors of any rank. */
module Shapes {
  import opened Arithmetic

  type Shape = seq<nat>

  function Product(shape: Shape): nat {
    if shape == [] then 1 else shape[0] * Product(shape[1..])
  }

  ghost predicate InRange(idx: seq<nat>, shape: Shape) {
    |idx| == |shape| && forall d :: 0 <= d < |shape| ==> idx[d] < shape[d]
  }

  /** Row-major position of a multi-index. */
  function Flat(idx: seq<nat>, shape: Shape): nat
    requires |idx| == |shape|
  {
    if shape == [] then 0 else idx[0] * Product(shape[1..]) + Flat(idx[1..], shape[1..])
  }

  /** The multi-index at row-major position `k`. */
  function Unravel(k: nat, shape: Shape): (idx: seq<nat>)
    requires k < Product(shape)
    ensures |idx| == |shape|
  {
    if shape == [] then []
    else
      PositiveTail(shape);
      [k / Product(shape[1..])] + Unravel(k % Product(shape[1..]), shape[1..])
  }

  lemma PositiveTail(shape: Shape)
    requires shape != [] && 0 < Product(shape)
    ensures 0 < Product(shape[1..]) && 0 < shape[0]
  {
  }

  // ----- flattening and unravelling are inverse -----

  lemma {:induction false} FlatBelow(idx: seq<nat>, shape: Shape)
    requires InRange(idx, shape)
    ensures Flat(idx, shape) < Product(shape)
  {
    if shape != [] {
      FlatBelow(idx[1..], shape[1..]);
      MulStep(idx[0], shape[0], Product(shape[1..]));
    }
  }

  lemma {:induction false} FlatOfUnravel(k: nat, shape: Shape)
    requires k < Product(shape)
    ensures InRange(Unravel(k, shape), shape) && Flat(Unravel(k, shape), shape) == k
  {
    if shape != [] {
      PositiveTail(shape);
      var n := Product(shape[1..]);
      var q, r := DivSplit(k, shape[0], n);
      FlatOfUnravel(r, shape[1..]);
      var tail := Unravel(r, shape[1..]);
      assert Unravel(k, shape) == [q] + tail;
      hide *;
      InRangeCons(q, tail, shape);
      FlatCons(q, tail, shape);
    }
  }

  lemma InRangeCons(i: nat, tail: seq<nat>, shape: Shape)
    requires shape != [] && i < shape[0] && InRange(tail, shape[1..])
    ensures InRange([i] + tail, shape)
  {
    forall d | 0 <= d < |shape| ensures ([i] + tail)[d] < shape[d] {
      if 0 < d { assert tail[d - 1] < shape[1..][d - 1]; }
    }
  }

  lemma FlatCons(i: nat, tail: seq<nat>, shape: Shape)
    requires shape != [] && |tail| == |shape| - 1
    ensures Flat([i] + tail, shape) == i * Product(shape[1..]) + Flat(tail, shape[1..])
  {
    assert ([i] + tail)[1..] == tail;
  }

  lemma {:induction false} UnravelOfFlat(idx: seq<nat>, shape: Shape)
    requires InRange(idx, shape)
    ensures Flat(idx, shape) < Product(shape) && Unravel(Flat(idx, shape), shape) == idx
  {
    FlatBelow(idx, shape);
    if shape != [] {
      UnravelOfFlat(idx[1..], shape[1..]);
      DivModOf(idx[0], Flat(idx[1..], shape[1..]), Product(shape[1..]));
    }
  }

  // ----- splitting at an axis -----

  lemma {:induction false} ProductSplit(s: Shape, t: Shape)
    ensures Product(s + t) == Product(s) * Product(t)
  {
    if s == [] {
      assert s + t == t;
    } else {
      ProductSplit(s[1..], t);
      assert (s + t)[1..] == s[1..] + t;
      assert s[0] * (Product(s[1..]) * Product(t)) == (s[0] * Product(s[1..])) * Product(t);
    }
  }

  lemma {:induction false} FlatSplit(a: seq<nat>, s: Shape, b: seq<nat>, t: Shape)
    requires |a| == |s| && |b| == |t|
    ensures Flat(a + b, s + t) == Flat(a, s) * Product(t) + Flat(b, t)
  {
    if s == [] {
      assert a + b == b && s + t == t;
    } else {
      FlatSplit(a[1..], s[1..], b, t);
      ProductSplit(s[1..], t);
      assert (a + b)[1..] == a[1..] + b && (s + t)[1..] == s[1..] + t;
      hide Product;
      AxisArithmetic(a[0], Product(s[1..]), Flat(a[1..], s[1..]), Product(t));
    }
  }

  lemma Head(idx: seq<nat>, shape: Shape)
    requires |idx| == |shape| && shape != []
    ensures Flat(idx, shape) == idx[0] * Product(shape[1..]) + Flat(idx[1..], shape[1..])
    ensures Product(shape) == shape[0] * Product(shape[1..])
  {
  }

  /** Around one axis: `[outer, axis, inner]` addressing. */
  lemma FlatAroundAxis(idx: seq<nat>, shape: Shape, axis: nat)
    requires |idx| == |shape| && axis < |shape|
    ensures Flat(idx, shape) ==
            (Flat(idx[..axis], shape[..axis]) * shape[axis] + idx[axis]) * Product(shape[axis + 1..]) +
            Flat(idx[axis + 1..], shape[axis + 1..])
    ensures Product(shape) == Product(shape[..axis]) * shape[axis] * Product(shape[axis + 1..])
  {
    hide Flat, Product;
    FlatSplit(idx[..axis], shape[..axis], idx[axis..], shape[axis..]);
    ProductSplit(shape[..axis], shape[axis..]);
    assert idx == idx[..axis] + idx[axis..] && shape == shape[..axis] + shape[axis..];
    Head(idx[axis..], shape[axis..]);
    assert idx[axis..][1..] == idx[axis + 1..] && shape[axis..][1..] == shape[axis + 1..];
    AxisArithmetic(Flat(idx[..axis], shape[..axis]), shape[axis], idx[axis], Product(shape[axis + 1..]));
    AxisArithmetic(Product(shape[..axis]), shape[axis], 0, Product(shape[axis + 1..]));
  }
}
