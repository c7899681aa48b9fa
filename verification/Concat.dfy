/** `Concat` as contiguous copies: per operand and per outer index one run of
    `segment * inner` elements (ONNX Operators, Concat-13). */
module Concat {
  import opened Arithmetic
  import opened Wrappers
  import opened Shapes

  /** A possibly negative ONNX axis against `rank`. */
  function NormalizeAxis(axis: int, rank: nat): (r: Option<nat>)
    ensures r.Some? <==> 0 <= axis + rank < 2 * rank
    ensures r.Some? ==> r.value < rank && (r.value == axis || r.value == axis + rank)
  {
    var a := if axis < 0 then axis + rank else axis;
    if 0 <= a < rank then Some(a) else None
  }

  datatype ConcatParams = ConcatParams(axis: nat, outShape: Shape, segmentLens: seq<nat>)

  function Sum(s: seq<nat>): nat {
    if s == [] then 0 else Sum(s[..|s| - 1]) + s[|s| - 1]
  }

  /** Same rank, and the same extent everywhere but on `axis`. */
  ghost predicate AgreeOffAxis(a: Shape, b: Shape, axis: nat) {
    |a| == |b| && forall d :: 0 <= d < |a| && d != axis ==> a[d] == b[d]
  }

  ghost predicate Claimable(axis: int, shapes: seq<Shape>) {
    && 2 <= |shapes| && 0 < |shapes[0]|
    && NormalizeAxis(axis, |shapes[0]|).Some?
    && forall k :: 0 <= k < |shapes| ==> AgreeOffAxis(shapes[k], shapes[0], NormalizeAxis(axis, |shapes[0]|).value)
  }

  /** What a node's parameters mean for its operands' shapes. */
  ghost predicate Describes(p: ConcatParams, shapes: seq<Shape>) {
    && p.axis < |p.outShape|
    && |p.segmentLens| == |shapes|
    && (forall k :: 0 <= k < |shapes| ==>
          AgreeOffAxis(shapes[k], p.outShape, p.axis) && shapes[k][p.axis] == p.segmentLens[k])
    && p.outShape[p.axis] == Sum(p.segmentLens)
  }

  method ConcatParamsFromNode(axisAttr: int, shapes: seq<Shape>) returns (r: Option<ConcatParams>)
    ensures r.Some? <==> Claimable(axisAttr, shapes)
    ensures r.Some? ==> Describes(r.value, shapes) && Some(r.value.axis) == NormalizeAxis(axisAttr, |shapes[0]|)
  {
    if |shapes| < 2 {
      return None;
    }
    var ndim := |shapes[0]|;
    if ndim == 0 {
      return None;
    }
    var normalized := NormalizeAxis(axisAttr, ndim);
    if normalized.None? {
      return None;
    }
    var axis := normalized.value;
    for k := 1 to |shapes|
      invariant forall j :: 0 <= j < k ==> AgreeOffAxis(shapes[j], shapes[0], axis)
    {
      if |shapes[k]| != ndim {
        return None;
      }
      for d := 0 to ndim
        invariant forall c :: 0 <= c < d && c != axis ==> shapes[k][c] == shapes[0][c]
      {
        if d != axis && shapes[k][d] != shapes[0][d] {
          return None;
        }
      }
    }
    var segmentLens := seq(|shapes|, k requires 0 <= k < |shapes| && axis < |shapes[k]| => shapes[k][axis]);
    var outAxisLen := 0;
    for k := 0 to |segmentLens|
      invariant outAxisLen == Sum(segmentLens[..k])
    {
      assert segmentLens[..k + 1][..k] == segmentLens[..k];
      outAxisLen := outAxisLen + segmentLens[k];
    }
    assert segmentLens[..|segmentLens|] == segmentLens;
    return Some(ConcatParams(axis, shapes[0][axis := outAxisLen], segmentLens));
  }

  // ----- where each run goes -----

  function Outer(p: ConcatParams): nat
    requires p.axis < |p.outShape|
  {
    Product(p.outShape[..p.axis])
  }

  function Inner(p: ConcatParams): nat
    requires p.axis < |p.outShape|
  {
    Product(p.outShape[p.axis + 1..])
  }

  ghost predicate Sound(p: ConcatParams) {
    p.axis < |p.outShape| && p.outShape[p.axis] == Sum(p.segmentLens)
  }

  /** Extent along the axis taken by the operands before `k`. */
  function Offset(p: ConcatParams, k: nat): nat
    requires k <= |p.segmentLens|
  {
    Sum(p.segmentLens[..k])
  }

  function Needed(p: ConcatParams, k: nat): nat
    requires p.axis < |p.outShape| && k < |p.segmentLens|
  {
    Outer(p) * p.segmentLens[k] * Inner(p)
  }

  function OutNeeded(p: ConcatParams): nat
    requires p.axis < |p.outShape|
  {
    Outer(p) * p.outShape[p.axis] * Inner(p)
  }

  function RunLength(p: ConcatParams, k: nat): nat
    requires p.axis < |p.outShape| && k < |p.segmentLens|
  {
    p.segmentLens[k] * Inner(p)
  }

  function Source(p: ConcatParams, k: nat, o: nat): nat
    requires p.axis < |p.outShape| && k < |p.segmentLens|
  {
    (o * p.segmentLens[k]) * Inner(p)
  }

  function Target(p: ConcatParams, k: nat, o: nat): nat
    requires p.axis < |p.outShape| && k < |p.segmentLens|
  {
    (o * p.outShape[p.axis] + Offset(p, k)) * Inner(p)
  }

  lemma {:induction false} SumPrefix(s: seq<nat>, a: nat, b: nat)
    requires a <= b <= |s|
    ensures Sum(s[..a]) <= Sum(s[..b]) <= Sum(s)
    decreases |s| - a
  {
    if a < |s| {
      assert s[..a + 1][..a] == s[..a];
      if a < b {
        SumPrefix(s, a + 1, b);
      } else {
        SumPrefix(s, a + 1, a + 1);
      }
    } else {
      assert s[..a] == s;
    }
  }

  lemma NextOffset(p: ConcatParams, k: nat)
    requires k < |p.segmentLens|
    ensures Offset(p, k + 1) == Offset(p, k) + p.segmentLens[k]
    ensures Offset(p, k + 1) <= Sum(p.segmentLens)
  {
    assert p.segmentLens[..k + 1][..k] == p.segmentLens[..k];
    SumPrefix(p.segmentLens, k + 1, k + 1);
  }

  lemma RunEnd(start: nat, length: nat, inner: nat)
    ensures (start + length) * inner == start * inner + length * inner
  {
  }

  /** Every run stays inside its operand and inside the output. */
  lemma RunInBounds(p: ConcatParams, k: nat, o: nat)
    requires Sound(p) && k < |p.segmentLens| && o < Outer(p)
    ensures Source(p, k, o) + RunLength(p, k) <= Needed(p, k)
    ensures Target(p, k, o) + RunLength(p, k) <= OutNeeded(p)
  {
    hide Product, Sum;
    NextOffset(p, k);
    var seg, n, inner, outer := p.segmentLens[k], p.outShape[p.axis], Inner(p), Outer(p);
    MulStep(o, outer, seg);
    MulStep(o, outer, n);
    RunEnd(o * seg, seg, inner);
    RunEnd(o * n + Offset(p, k), seg, inner);
    MulOrder(o * seg + seg, outer * seg, inner);
    MulOrder(o * n + Offset(p, k) + seg, outer * n, inner);
  }

  /** Runs of different (operand, outer index) pairs do not meet. */
  lemma RunsDisjoint(p: ConcatParams, k: nat, o: nat, k': nat, o': nat)
    requires Sound(p) && k < |p.segmentLens| && k' < |p.segmentLens| && (k, o) != (k', o')
    ensures Target(p, k, o) + RunLength(p, k) <= Target(p, k', o') ||
            Target(p, k', o') + RunLength(p, k') <= Target(p, k, o)
  {
    if o < o' || (o == o' && k < k') {
      RunBefore(p, k, o, k', o');
    } else {
      RunBefore(p, k', o', k, o);
    }
  }

  lemma RunBefore(p: ConcatParams, k: nat, o: nat, k': nat, o': nat)
    requires Sound(p) && k < |p.segmentLens| && k' < |p.segmentLens|
    requires o < o' || (o == o' && k < k')
    ensures Target(p, k, o) + RunLength(p, k) <= Target(p, k', o')
  {
    hide Product, Sum;
    NextOffset(p, k);
    var seg, n, inner := p.segmentLens[k], p.outShape[p.axis], Inner(p);
    RunEnd(o * n + Offset(p, k), seg, inner);
    if o < o' {
      MulStep(o, o', n);
    } else {
      SumPrefix(p.segmentLens, k + 1, k');
    }
    MulOrder(o * n + Offset(p, k) + seg, o' * n + Offset(p, k'), inner);
  }

  // ----- the copies -----

  ghost predicate Supplied<T>(p: ConcatParams, inputs: seq<seq<T>>) {
    && p.axis < |p.outShape| && |inputs| == |p.segmentLens| && inputs != []
    && forall k :: 0 <= k < |inputs| ==> Needed(p, k) <= |inputs[k]|
  }

  /** Run (k, o) is in place. */
  ghost predicate Copied<T>(p: ConcatParams, inputs: seq<seq<T>>, out: seq<T>, k: nat, o: nat)
    requires Supplied(p, inputs) && Sound(p) && k < |inputs|
  {
    o < Outer(p) ==> (
      RunInBounds(p, k, o);
      Target(p, k, o) + RunLength(p, k) <= |out| &&
      out[Target(p, k, o)..Target(p, k, o) + RunLength(p, k)] ==
      inputs[k][Source(p, k, o)..Source(p, k, o) + RunLength(p, k)])
  }

  /** An asynchronous device-to-device copy, once the queue has executed it. */
  method CopyRange<T>(dst: array<T>, to: nat, src: seq<T>, from: nat, n: nat)
    requires to + n <= dst.Length && from + n <= |src|
    modifies dst
    ensures dst[..] == old(dst[..to]) + src[from..from + n] + old(dst[to + n..])
  {
    forall i | 0 <= i < n { dst[to + i] := src[from + i]; }
  }

  lemma CopyKeepsOthers<T>(p: ConcatParams, inputs: seq<seq<T>>, before: seq<T>, after: seq<T>, k: nat, o: nat,
                           k': nat, o': nat)
    requires Supplied(p, inputs) && Sound(p) && k < |inputs| && k' < |inputs| && o < Outer(p)
    requires OutNeeded(p) <= |before|
    requires Target(p, k, o) + RunLength(p, k) <= |before| && Source(p, k, o) + RunLength(p, k) <= |inputs[k]|
    requires after == before[..Target(p, k, o)] + inputs[k][Source(p, k, o)..Source(p, k, o) + RunLength(p, k)] +
                      before[Target(p, k, o) + RunLength(p, k)..]
    requires (k', o') == (k, o) || Copied(p, inputs, before, k', o')
    ensures Copied(p, inputs, after, k', o')
  {
    hide Target, Source, RunLength, Product, OutNeeded, Needed;
    if o' < Outer(p) {
      RunInBounds(p, k', o');
      if (k', o') != (k, o) {
        RunsDisjoint(p, k, o, k', o');
      }
    }
  }

  ghost predicate AllCopied<T>(p: ConcatParams, inputs: seq<seq<T>>, out: seq<T>) {
    Supplied(p, inputs) && Sound(p) &&
    forall k: nat, o: nat {:trigger Copied(p, inputs, out, k, o)} :: k < |inputs| ==> Copied(p, inputs, out, k, o)
  }

  /** `dest` is the scratch buffer the result lands in: at least as long as the
      output, with arbitrary contents. Declines leave it alone. */
  method ConcatBound<T>(inputs: seq<seq<T>>, p: ConcatParams, dest: array<T>) returns (claimed: bool)
    requires p.axis < |p.outShape| ==> Sound(p) && OutNeeded(p) <= dest.Length
    modifies dest
    ensures claimed <==> Supplied(p, inputs)
    ensures claimed ==> AllCopied(p, inputs, dest[..])
    ensures !claimed ==> dest[..] == old(dest[..])
  {
    if |inputs| != |p.segmentLens| || inputs == [] || |p.outShape| <= p.axis {
      return false;
    }
    var outer, inner := Product(p.outShape[..p.axis]), Product(p.outShape[p.axis + 1..]);
    var outAxisLen := p.outShape[p.axis];
    for k := 0 to |inputs|
      invariant forall j :: 0 <= j < k ==> Needed(p, j) <= |inputs[j]|
    {
      if |inputs[k]| < outer * p.segmentLens[k] * inner {
        return false;
      }
    }
    CopyAll(inputs, p, dest, outer, outAxisLen, inner);
    return true;
  }

  /** `outer * inputs` copies, operand by operand. */
  method CopyAll<T>(inputs: seq<seq<T>>, p: ConcatParams, dest: array<T>, outer: nat, outAxisLen: nat, inner: nat)
    requires Supplied(p, inputs) && Sound(p) && OutNeeded(p) <= dest.Length
    requires outer == Outer(p) && outAxisLen == p.outShape[p.axis] && inner == Inner(p)
    modifies dest
    ensures AllCopied(p, inputs, dest[..])
  {
    hide Copied, Product, Sum;
    if outer * outAxisLen * inner == 0 {
      EmptyRuns(p, inputs, dest[..]);
      return;
    }
    var axisOffset := 0;
    assert axisOffset == Offset(p, 0) by { OffsetZero(p); }
    for k := 0 to |inputs|
      invariant axisOffset == Offset(p, k)
      invariant forall j: nat, o: nat {:trigger Copied(p, inputs, dest[..], j, o)} :: j < k ==>
        Copied(p, inputs, dest[..], j, o)
    {
      var segElems := p.segmentLens[k] * inner;
      if 0 < segElems {
        CopyOperand(inputs, p, dest, k, axisOffset, outer, outAxisLen, inner);
      } else {
        EmptyOperand(p, inputs, dest[..], k);
      }
      NextOffset(p, k);
      axisOffset := axisOffset + p.segmentLens[k];
    }
  }

  /** The runs of one operand, one per outer index. */
  method CopyOperand<T>(inputs: seq<seq<T>>, p: ConcatParams, dest: array<T>, k: nat, axisOffset: nat,
                        outer: nat, outAxisLen: nat, inner: nat)
    requires Supplied(p, inputs) && Sound(p) && OutNeeded(p) <= dest.Length && k < |inputs|
    requires outer == Outer(p) && outAxisLen == p.outShape[p.axis] && inner == Inner(p) && axisOffset == Offset(p, k)
    requires forall j: nat, o: nat {:trigger Copied(p, inputs, dest[..], j, o)} :: j < k ==>
        Copied(p, inputs, dest[..], j, o)
    modifies dest
    ensures forall j: nat, o: nat {:trigger Copied(p, inputs, dest[..], j, o)} :: j <= k ==>
        Copied(p, inputs, dest[..], j, o)
  {
    hide Copied, Product, Sum, Offset;
    var segLen := p.segmentLens[k];
    for o := 0 to outer
      invariant forall j: nat, q: nat {:trigger Copied(p, inputs, dest[..], j, q)} :: j < k || (j == k && q < o) ==>
        Copied(p, inputs, dest[..], j, q)
    {
      RunInBounds(p, k, o);
      ghost var before := dest[..];
      CopyRange(dest, (o * outAxisLen + axisOffset) * inner, inputs[k], (o * segLen) * inner, segLen * inner);
      forall j: nat, q: nat | j < k || (j == k && q < o + 1)
        ensures Copied(p, inputs, dest[..], j, q)
      {
        CopyKeepsOthers(p, inputs, before, dest[..], k, o, j, q);
      }
    }
    forall q: nat | outer <= q ensures Copied(p, inputs, dest[..], k, q) {
      PastOuter(p, inputs, dest[..], k, q);
    }
  }

  lemma PastOuter<T>(p: ConcatParams, inputs: seq<seq<T>>, out: seq<T>, k: nat, o: nat)
    requires Supplied(p, inputs) && Sound(p) && k < |inputs| && Outer(p) <= o
    ensures Copied(p, inputs, out, k, o)
  {
  }

  lemma OffsetZero(p: ConcatParams)
    ensures Offset(p, 0) == 0
  {
  }

  lemma EmptyOperand<T>(p: ConcatParams, inputs: seq<seq<T>>, out: seq<T>, k: nat)
    requires Supplied(p, inputs) && Sound(p) && OutNeeded(p) <= |out| && k < |inputs|
    requires RunLength(p, k) == 0
    ensures forall o: nat {:trigger Copied(p, inputs, out, k, o)} :: Copied(p, inputs, out, k, o)
  {
    forall o: nat ensures Copied(p, inputs, out, k, o) {
      if o < Outer(p) { RunInBounds(p, k, o); }
    }
  }

  /** An empty output has only empty runs. */
  lemma EmptyRuns<T>(p: ConcatParams, inputs: seq<seq<T>>, out: seq<T>)
    requires Supplied(p, inputs) && Sound(p) && OutNeeded(p) == 0
    ensures AllCopied(p, inputs, out)
  {
    forall k: nat, o: nat | k < |inputs| ensures Copied(p, inputs, out, k, o) {
      if o < Outer(p) { RunInBounds(p, k, o); }
    }
  }

  // ----- ONNX Concat, index by index -----

  /** The element the operator assigns to `idx`, when `idx` falls in operand `k`. */
  ghost predicate ElementFrom<T>(p: ConcatParams, shapes: seq<Shape>, inputs: seq<seq<T>>, out: seq<T>,
                                 idx: seq<nat>, k: nat)
    requires Describes(p, shapes) && k < |shapes| == |inputs| && |idx| == |p.outShape|
    requires Offset(p, k) <= idx[p.axis]
  {
    var local := idx[p.axis := idx[p.axis] - Offset(p, k)];
    && Flat(idx, p.outShape) < |out| && Flat(local, shapes[k]) < |inputs[k]|
    && out[Flat(idx, p.outShape)] == inputs[k][Flat(local, shapes[k])]
  }

  ghost predicate InSegment(p: ConcatParams, k: nat, j: nat) {
    k < |p.segmentLens| && Offset(p, k) <= j < Offset(p, k + 1)
  }

  /** Every axis position belongs to exactly one operand. */
  lemma {:induction false} SegmentOf(p: ConcatParams, j: nat, n: nat) returns (k: nat)
    requires n <= |p.segmentLens| && j < Offset(p, n)
    ensures k < n && InSegment(p, k, j)
    ensures forall k': nat :: InSegment(p, k', j) ==> k' == k
    decreases n
  {
    if n == 0 { OffsetZero(p); }
    NextOffset(p, n - 1);
    if Offset(p, n - 1) <= j {
      k := n - 1;
    } else {
      k := SegmentOf(p, j, n - 1);
    }
    forall k': nat | InSegment(p, k', j) ensures k' == k {
      if k' < k { SumPrefix(p.segmentLens, k' + 1, k); }
      if k < k' { SumPrefix(p.segmentLens, k + 1, k'); }
    }
  }

  /** Both addresses of an element, as an offset into its run. */
  lemma ConcatAddress(p: ConcatParams, shapes: seq<Shape>, idx: seq<nat>, k: nat) returns (o: nat, at: nat)
    requires Describes(p, shapes) && InRange(idx, p.outShape) && InSegment(p, k, idx[p.axis])
    ensures o < Outer(p) && at < RunLength(p, k)
    ensures Flat(idx, p.outShape) == Target(p, k, o) + at
    ensures Flat(idx[p.axis := idx[p.axis] - Offset(p, k)], shapes[k]) == Source(p, k, o) + at
  {
    hide Product, Flat, Sum;
    var a := p.axis;
    var local := idx[a := idx[a] - Offset(p, k)];
    FlatAroundAxis(idx, p.outShape, a);
    FlatAroundAxis(local, shapes[k], a);
    assert shapes[k][..a] == p.outShape[..a] && shapes[k][a + 1..] == p.outShape[a + 1..];
    assert local[..a] == idx[..a] && local[a + 1..] == idx[a + 1..];
    var e := Flat(idx[a + 1..], p.outShape[a + 1..]);
    o := Flat(idx[..a], p.outShape[..a]);
    FlatBelow(idx[..a], p.outShape[..a]);
    FlatBelow(idx[a + 1..], p.outShape[a + 1..]);
    NextOffset(p, k);
    at := local[a] * Inner(p) + e;
    ElementAddress(o * p.segmentLens[k], local[a], p.segmentLens[k], Inner(p), e);
    ElementAddress(o * p.outShape[a] + Offset(p, k), local[a], p.segmentLens[k], Inner(p), e);
  }

  lemma CopiedIsConcat<T>(p: ConcatParams, shapes: seq<Shape>, inputs: seq<seq<T>>, out: seq<T>,
                          idx: seq<nat>, k: nat)
    requires Describes(p, shapes) && AllCopied(p, inputs, out)
    requires InRange(idx, p.outShape) && InSegment(p, k, idx[p.axis])
    ensures ElementFrom(p, shapes, inputs, out, idx, k)
  {
    hide Flat, Target, Source, RunLength, Copied, Needed;
    var o, at := ConcatAddress(p, shapes, idx, k);
    CopiedRun(p, inputs, out, k, o, at);
  }

  lemma ElementAddress(start: nat, j: nat, seg: nat, inner: nat, e: nat)
    requires j < seg && e < inner
    ensures (start + j) * inner + e == start * inner + (j * inner + e)
    ensures j * inner + e < seg * inner
  {
    RunEnd(start, j, inner);
    MulStep(j, seg, inner);
  }

  lemma CopiedRun<T>(p: ConcatParams, inputs: seq<seq<T>>, out: seq<T>, k: nat, o: nat, at: nat)
    requires AllCopied(p, inputs, out) && k < |inputs| && o < Outer(p)
    ensures at < RunLength(p, k) ==>
              Source(p, k, o) + at < |inputs[k]| && Target(p, k, o) + at < |out| &&
              out[Target(p, k, o) + at] == inputs[k][Source(p, k, o) + at]
  {
    hide Source, Target, RunLength;
    assert Copied(p, inputs, out, k, o);
    RunInBounds(p, k, o);
    var from, to, n := Source(p, k, o), Target(p, k, o), RunLength(p, k);
    if at < n {
      assert out[to..to + n][at] == inputs[k][from..from + n][at];
    }
  }

  // ----- the output is covered exactly once -----

  lemma RowOf(position: nat, outer: nat, n: nat, inner: nat) returns (o: nat, r: nat)
    requires position < outer * n * inner
    ensures o < outer && r < n
    ensures (o * n + r) * inner <= position < (o * n + r) * inner + inner
  {
    var row, _ := DivSplit(position, outer * n, inner);
    o, r := DivSplit(row, outer, n);
  }

  /** Each output position lies in exactly one run. */
  lemma CoveredOnce(p: ConcatParams, position: nat) returns (k: nat, o: nat)
    requires Sound(p) && position < OutNeeded(p)
    ensures k < |p.segmentLens| && o < Outer(p)
    ensures Target(p, k, o) <= position < Target(p, k, o) + RunLength(p, k)
    ensures forall k': nat, o': nat ::
              (k' < |p.segmentLens| && Target(p, k', o') <= position < Target(p, k', o') + RunLength(p, k')) ==>
              k' == k && o' == o
  {
    hide Product, Sum;
    var inner, n := Inner(p), p.outShape[p.axis];
    var r: nat;
    o, r := RowOf(position, Outer(p), n, inner);
    assert p.segmentLens[..|p.segmentLens|] == p.segmentLens;
    k := SegmentOf(p, r, |p.segmentLens|);
    NextOffset(p, k);
    var start := o * n + Offset(p, k);
    MulOrder(start, o * n + r, inner);
    MulStep(o * n + r, start + p.segmentLens[k], inner);
    RunEnd(start, p.segmentLens[k], inner);
    forall k': nat, o': nat | k' < |p.segmentLens| &&
        Target(p, k', o') <= position < Target(p, k', o') + RunLength(p, k')
      ensures k' == k && o' == o
    {
      if (k', o') != (k, o) { RunsDisjoint(p, k, o, k', o'); }
    }
  }

  /** Slicing operand `k`'s segment back out of the result recovers operand `k`. */
  lemma SliceRecovers<T>(p: ConcatParams, shapes: seq<Shape>, inputs: seq<seq<T>>, out: seq<T>,
                         local: seq<nat>, k: nat)
    requires Describes(p, shapes) && AllCopied(p, inputs, out) && k < |shapes| && InRange(local, shapes[k])
    ensures var idx := local[p.axis := local[p.axis] + Offset(p, k)];
            && InRange(idx, p.outShape)
            && Flat(idx, p.outShape) < |out| && Flat(local, shapes[k]) < |inputs[k]|
            && out[Flat(idx, p.outShape)] == inputs[k][Flat(local, shapes[k])]
  {
    hide Product, Flat, Sum;
    var idx := local[p.axis := local[p.axis] + Offset(p, k)];
    NextOffset(p, k);
    CopiedIsConcat(p, shapes, inputs, out, idx, k);
    assert idx[p.axis := idx[p.axis] - Offset(p, k)] == local;
  }
}
