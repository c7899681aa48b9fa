/** `extract_array`: read a strided N-D buffer into a tightly packed row-major
    vector, copying straight when the strides are the C strides and walking an
    odometer otherwise. */
module StridedGather {
  import opened Arithmetic
  import opened Shapes

  /** Element offset of a multi-index under `strides`, which may be negative. */
  function Dot(idx: seq<nat>, strides: seq<int>): int
    requires |idx| == |strides|
  {
    if idx == [] then 0 else idx[0] * strides[0] + Dot(idx[1..], strides[1..])
  }

  lemma {:induction false} DotAppend(idx: seq<nat>, strides: seq<int>, i: nat, s: int)
    requires |idx| == |strides|
    ensures Dot(idx + [i], strides + [s]) == Dot(idx, strides) + i * s
  {
    if idx == [] {
      assert Dot([i], [s]) == i * s + Dot([], []);
    } else {
      DotAppend(idx[1..], strides[1..], i, s);
      assert (idx + [i])[1..] == idx[1..] + [i] && (strides + [s])[1..] == strides[1..] + [s];
    }
  }

  /** The strides of a packed row-major array. */
  function CStrides(shape: Shape): (s: seq<int>)
    ensures |s| == |shape|
  {
    if shape == [] then [] else [Product(shape[1..])] + CStrides(shape[1..])
  }

  lemma {:induction false} DotOfCStrides(idx: seq<nat>, shape: Shape)
    requires |idx| == |shape|
    ensures Dot(idx, CStrides(shape)) == Flat(idx, shape)
  {
    if shape != [] {
      DotOfCStrides(idx[1..], shape[1..]);
      assert CStrides(shape)[1..] == CStrides(shape[1..]);
    }
  }

  method ComputeCStrides(shape: Shape) returns (strides: seq<int>)
    ensures strides == CStrides(shape)
  {
    hide CStrides;
    var rank := |shape|;
    var c := new int[rank](_ => 0);
    if 0 < rank {
      c[rank - 1] := 1;
      LastStride(shape);
      assert c[rank - 1..] == CStrides(shape[rank - 1..]);
      for i := rank - 1 downto 0
        invariant c[i..] == CStrides(shape[i..])
      {
        NextStride(shape, i);
        assert c[i + 1] == c[i + 1..][0];
        c[i] := c[i + 1] * shape[i + 1];
        assert c[i..] == [c[i]] + c[i + 1..];
      }
    }
    strides := c[..];
    assert shape[0..] == shape && c[0..] == c[..];
  }

  lemma LastStride(shape: Shape)
    requires shape != []
    ensures CStrides(shape[|shape| - 1..]) == [1]
  {
    assert shape[|shape| - 1..][1..] == [];
  }

  /** Each stride is the next one times the next extent. */
  lemma NextStride(shape: Shape, i: nat)
    requires i + 1 < |shape|
    ensures CStrides(shape[i..]) == [CStrides(shape[i + 1..])[0] * shape[i + 1]] + CStrides(shape[i + 1..])
  {
    assert shape[i..][1..] == shape[i + 1..] && shape[i + 1..][1..] == shape[i + 2..];
  }

  // ----- the odometer -----

  /** One tick: the last digit moves, carrying leftwards; true when it wraps. */
  function Tick(idx: seq<nat>, shape: Shape): (r: (seq<nat>, bool))
    requires |idx| == |shape|
    ensures |r.0| == |shape|
  {
    if shape == [] then ([], true)
    else
      var (tail, carry) := Tick(idx[1..], shape[1..]);
      if !carry then ([idx[0]] + tail, false)
      else if idx[0] + 1 < shape[0] then ([idx[0] + 1] + tail, false)
      else ([0] + tail, true)
  }

  /** A tick moves to the next row-major position, and wraps exactly at the last. */
  lemma {:induction false} TickAdvances(idx: seq<nat>, shape: Shape)
    requires InRange(idx, shape)
    ensures var (next, carry) := Tick(idx, shape);
            && InRange(next, shape)
            && (carry <==> Flat(idx, shape) + 1 == Product(shape))
            && Flat(next, shape) == if carry then 0 else Flat(idx, shape) + 1
  {
    if shape != [] {
      TickAdvances(idx[1..], shape[1..]);
      var (tail, carry) := Tick(idx[1..], shape[1..]);
      var (next, wrapped) := Tick(idx, shape);
      assert next[1..] == tail;
      forall d | 0 <= d < |shape| ensures next[d] < shape[d] {
        if 0 < d { assert next[d] == tail[d - 1] && shape[d] == shape[1..][d - 1]; }
      }
      FlatBelow(idx[1..], shape[1..]);
      var n := Product(shape[1..]);
      TickArithmetic(idx[0], shape[0], Flat(idx[1..], shape[1..]), n);
    }
  }

  lemma TickArithmetic(i: nat, s: nat, rest: nat, n: nat)
    requires i < s && rest < n
    ensures rest + 1 == n ==> i * n + rest + 1 == (i + 1) * n
    ensures i * n + rest + 1 == s * n <==> i + 1 == s && rest + 1 == n
  {
    if i + 1 < s { MulStep(i + 1, s, n); }
  }

  method TickInPlace(idx: array<nat>, shape: Shape)
    requires idx.Length == |shape|
    modifies idx
    ensures idx[..] == Tick(old(idx[..]), shape).0
  {
    ghost var was := idx[..];
    var d := |shape|;
    assert idx[d..] == [] && was[d..] == [] && shape[d..] == [];
    while 0 < d
      invariant d <= |shape|
      invariant idx[..d] == was[..d]
      invariant Tick(was[d..], shape[d..]) == (idx[d..], true)
    {
      d := d - 1;
      idx[d] := idx[d] + 1;
      assert was[d..][1..] == was[d + 1..] && shape[d..][1..] == shape[d + 1..];
      if idx[d] < shape[d] {
        assert idx[d..] == [was[d] + 1] + idx[d + 1..];
        TickStops(was, shape, d, idx[d..]);
        assert idx[..] == idx[..d] + idx[d..];
        return;
      }
      idx[d] := 0;
      assert idx[d..] == [0] + idx[d + 1..];
    }
    assert was[0..] == was && shape[0..] == shape && idx[0..] == idx[..];
  }

  /** Once the carry stops at digit `d`, the digits before it stay. */
  lemma {:induction false} TickStops(idx: seq<nat>, shape: Shape, d: nat, suffix: seq<nat>)
    requires |idx| == |shape| && d <= |shape|
    requires Tick(idx[d..], shape[d..]) == (suffix, false)
    ensures Tick(idx, shape) == (idx[..d] + suffix, false)
    decreases d
  {
    if d == 0 {
      assert idx[0..] == idx && shape[0..] == shape && idx[..0] + suffix == suffix;
    } else {
      assert idx[1..][d - 1..] == idx[d..] && shape[1..][d - 1..] == shape[d..];
      TickStops(idx[1..], shape[1..], d - 1, suffix);
      assert idx[..d] + suffix == [idx[0]] + (idx[1..][..d - 1] + suffix);
    }
  }

  // ----- the gather -----

  /** Every element the strides can address lies inside the buffer. */
  ghost predicate Addressable<U>(memory: map<int, U>, shape: Shape, strides: seq<int>)
    requires |strides| == |shape|
  {
    forall idx :: InRange(idx, shape) ==> Dot(idx, strides) in memory
  }

  /** Packed element `k` is the element whose multi-index unravels `k`. */
  ghost predicate Gathered<U, T>(memory: map<int, U>, decode: U -> T, shape: Shape, strides: seq<int>, out: seq<T>)
    requires |strides| == |shape|
  {
    |out| == Product(shape) &&
    forall k: nat {:trigger Unravel(k, shape)} :: k < Product(shape) ==>
      var at := Dot(Unravel(k, shape), strides);
      at in memory && out[k] == decode(memory[at])
  }

  lemma AddressableAt<U>(memory: map<int, U>, shape: Shape, strides: seq<int>, k: nat)
    requires |strides| == |shape| && Addressable(memory, shape, strides) && k < Product(shape)
    ensures Dot(Unravel(k, shape), strides) in memory
    ensures strides == CStrides(shape) ==> Dot(Unravel(k, shape), strides) == k
  {
    FlatOfUnravel(k, shape);
    DotOfCStrides(Unravel(k, shape), shape);
  }

  /** `memory` maps element offsets from the data pointer to raw elements;
      `decode` widens one raw element to f32. */
  method ExtractArray<U, T>(memory: map<int, U>, decode: U -> T, zero: T, shape: Shape, strides: seq<int>)
    returns (packed: seq<T>)
    requires |strides| == |shape| && Addressable(memory, shape, strides)
    ensures Gathered(memory, decode, shape, strides, packed)
  {
    var n := Product(shape);
    var out := new T[n](_ => zero);
    var cStrides := ComputeCStrides(shape);
    if strides == cStrides {
      for k := 0 to n
        invariant forall j: nat {:trigger Unravel(j, shape)} :: j < k ==>
          Dot(Unravel(j, shape), strides) in memory && out[j] == decode(memory[Dot(Unravel(j, shape), strides)])
      {
        AddressableAt(memory, shape, strides, k);
        out[k] := decode(memory[k]);
      }
    } else {
      GatherByOdometer(memory, decode, shape, strides, out);
    }
    packed := out[..];
  }

  method ComputeOffset(idx: array<nat>, strides: seq<int>) returns (offset: int)
    requires idx.Length == |strides|
    ensures offset == Dot(idx[..], strides)
  {
    offset := 0;
    for d := 0 to |strides|
      invariant offset == Dot(idx[..d], strides[..d])
    {
      DotAppend(idx[..d], strides[..d], idx[d], strides[d]);
      assert idx[..d + 1] == idx[..d] + [idx[d]] && strides[..d + 1] == strides[..d] + [strides[d]];
      offset := offset + idx[d] * strides[d];
    }
    assert idx[..|strides|] == idx[..] && strides[..|strides|] == strides;
  }

  method GatherByOdometer<U, T>(memory: map<int, U>, decode: U -> T, shape: Shape, strides: seq<int>, out: array<T>)
    requires |strides| == |shape| && Addressable(memory, shape, strides) && out.Length == Product(shape)
    modifies out
    ensures Gathered(memory, decode, shape, strides, out[..])
  {
    var idx := new nat[|shape|](_ => 0);
    if 0 < out.Length { ZeroIsFirst(idx[..], shape); }
    for k := 0 to out.Length
      invariant k < out.Length ==> idx[..] == Unravel(k, shape)
      invariant forall j: nat {:trigger Unravel(j, shape)} :: j < k ==>
        Dot(Unravel(j, shape), strides) in memory && out[j] == decode(memory[Dot(Unravel(j, shape), strides)])
    {
      AddressableAt(memory, shape, strides, k);
      var offset := ComputeOffset(idx, strides);
      out[k] := decode(memory[offset]);
      NextUnravel(k, shape);
      TickInPlace(idx, shape);
    }
  }

  lemma {:induction false} ZeroIsFirst(idx: seq<nat>, shape: Shape)
    requires |idx| == |shape| && 0 < Product(shape) && forall d :: 0 <= d < |idx| ==> idx[d] == 0
    ensures Unravel(0, shape) == idx
  {
    if shape != [] {
      PositiveTail(shape);
      ZeroIsFirst(idx[1..], shape[1..]);
    }
  }

  /** The odometer turns the unravelling of `k` into that of `k + 1`. */
  lemma NextUnravel(k: nat, shape: Shape)
    requires k < Product(shape)
    ensures k + 1 < Product(shape) ==> Tick(Unravel(k, shape), shape).0 == Unravel(k + 1, shape)
  {
    FlatOfUnravel(k, shape);
    TickAdvances(Unravel(k, shape), shape);
    UnravelOfFlat(Tick(Unravel(k, shape), shape).0, shape);
  }

  /** Each multi-index is visited exactly once, at its row-major position. */
  lemma EveryIndexOnce(shape: Shape, idx: seq<nat>)
    requires InRange(idx, shape)
    ensures Flat(idx, shape) < Product(shape) && Unravel(Flat(idx, shape), shape) == idx
    ensures forall k: nat :: k < Product(shape) && Unravel(k, shape) == idx ==> k == Flat(idx, shape)
  {
    UnravelOfFlat(idx, shape);
    forall k: nat | k < Product(shape) && Unravel(k, shape) == idx ensures k == Flat(idx, shape) {
      FlatOfUnravel(k, shape);
    }
  }

  /** On C strides what the odometer gathers is the straight copy. */
  lemma StraightCopyAgrees<U, T>(memory: map<int, U>, decode: U -> T, shape: Shape, out: seq<T>, k: nat)
    requires Gathered(memory, decode, shape, CStrides(shape), out) && k < |out|
    ensures k in memory && out[k] == decode(memory[k])
  {
    var idx := Unravel(k, shape);
    FlatOfUnravel(k, shape);
    DotOfCStrides(idx, shape);
  }
}
