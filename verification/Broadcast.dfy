/** Channel and scalar broadcasting of `Add`/`Sub`/`Mul`/`Div`: which shape
    pairs are claimed, and which element of the small operand the kernel reads. */
module Broadcast {
  import opened Arithmetic
  import opened Wrappers
  import opened Shapes

  datatype BroadcastPlan = BroadcastPlan(lhsIsSmall: bool, channels: nat, spatial: nat, totalLen: nat, smallLen: nat)

  /** Off the channel axis the small operand has extent 1 or the full one's. */
  predicate DimsFit(full: Shape, small: Shape)
    requires |full| == |small|
  {
    forall d :: 0 <= d < |full| && d != 1 ==> small[d] == 1 || small[d] == full[d]
  }

  function AsFullSmall(full: Shape, small: Shape): Option<(nat, nat, nat, nat)> {
    var totalLen := Product(full);
    if totalLen == 0 then None
    else if Product(small) == 1 then Some((1, totalLen, totalLen, 1))
    else if |full| < 2 || |full| != |small| then None
    else
      var channels := full[1];
      if channels == 0 || small[1] != channels || !DimsFit(full, small) then None
      else
        var inner := Product(full[2..]);
        Some((channels, if inner < 1 then 1 else inner, totalLen, channels))
  }

  function PlanFrom(lhsIsSmall: bool, p: (nat, nat, nat, nat)): BroadcastPlan {
    BroadcastPlan(lhsIsSmall, p.0, p.1, p.2, p.3)
  }

  function Classify(a: Shape, b: Shape): Option<BroadcastPlan> {
    var first := AsFullSmall(a, b);
    if first.Some? then Some(PlanFrom(false, first.value))
    else
      var second := AsFullSmall(b, a);
      if second.Some? then Some(PlanFrom(true, second.value)) else None
  }

  /** The pattern the dispatch exists for is claimed in both operand orders,
      whatever the extents. */
  lemma ChannelPatternIsClaimed(n: nat, c: nat, h: nat, w: nat)
    requires 0 < n && 0 < c && 0 < h && 0 < w
    ensures var full, small := [n, c, h, w], [1, c, 1, 1];
            && Classify(full, small).Some? && !Classify(full, small).value.lhsIsSmall
            && Classify(small, full).Some?
            && (Classify(small, full).value.lhsIsSmall <==> (n, h, w) != (1, 1, 1))
            && Classify(full, small).value.smallLen == c == Product(small)
  {
    ProductOfFour(n, c, h, w);
    ProductOfFour(1, c, 1, 1);
    hide Product;
    UnitFactors(n * c * h, w);
    UnitFactors(n * c, h);
    UnitFactors(n, c);
  }

  lemma ProductOfFour(a: nat, b: nat, c: nat, d: nat)
    ensures Product([a, b, c, d]) == a * b * c * d
  {
    assert [a, b, c, d][1..] == [b, c, d] && [b, c, d][1..] == [c, d] && [c, d][1..] == [d] && [d][1..] == [];
    assert Product([d]) == d * Product([]) == d;
    assert Product([c, d]) == c * d;
    assert Product([b, c, d]) == b * (c * d);
    assert a * (b * (c * d)) == a * b * c * d;
  }

  // ----- ONNX broadcasting -----

  /** The position `small` contributes to output position `idx`: trailing axes
      align, and an axis of extent 1 repeats. */
  ghost function Aligned(idx: seq<nat>, small: Shape): (r: seq<nat>)
    ensures |r| == |small|
  {
    var padded := seq(|small|, _ => 0) + idx;
    seq(|small|, d requires 0 <= d < |small| => if small[d] == 1 then 0 else padded[|idx| + d])
  }

  ghost function OnnxIndex(i: nat, full: Shape, small: Shape): nat
    requires i < Product(full)
  {
    Flat(Aligned(Unravel(i, full), small), small)
  }

  /** The element thread `i` of the kernel reads. */
  function KernelIndex(p: (nat, nat, nat, nat), i: nat): nat
    requires 0 < p.0 && 0 < p.1
  {
    (i / p.1) % p.0
  }

  // ----- multi-index facts -----

  lemma {:induction false} AllOnes(shape: Shape)
    ensures Product(shape) == 1 <==> forall d :: 0 <= d < |shape| ==> shape[d] == 1
  {
    if shape != [] {
      AllOnes(shape[1..]);
      UnitFactors(shape[0], Product(shape[1..]));
      if forall d :: 0 <= d < |shape[1..]| ==> shape[1..][d] == 1 {
        assert forall d :: 0 < d < |shape| ==> shape[d] == shape[1..][d - 1];
      } else {
        var d :| 0 <= d < |shape[1..]| && shape[1..][d] != 1;
        assert shape[d + 1] != 1;
      }
    }
  }

  lemma UnitFactors(a: nat, b: nat)
    ensures a * b == 1 <==> a == 1 && b == 1
  {
    if 1 < a && 1 <= b { assert a * b >= a by { MulOrder(1, b, a); } }
    if 1 < b && 1 <= a { MulOrder(1, a, b); }
  }

  lemma {:induction false} FlatOfZeros(idx: seq<nat>, shape: Shape)
    requires |idx| == |shape| && forall d :: 0 <= d < |idx| ==> idx[d] == 0
    ensures Flat(idx, shape) == 0
  {
    if shape != [] { FlatOfZeros(idx[1..], shape[1..]); }
  }

  lemma {:induction false} FlatZeroMeansZeros(idx: seq<nat>, shape: Shape)
    requires InRange(idx, shape) && Flat(idx, shape) == 0
    ensures forall d :: 0 <= d < |idx| ==> idx[d] == 0
  {
    var zeros := seq(|shape|, _ => 0);
    assert InRange(zeros, shape);
    FlatOfZeros(zeros, shape);
    UnravelOfFlat(idx, shape);
    UnravelOfFlat(zeros, shape);
  }

  lemma {:induction false} PositiveDims(shape: Shape)
    requires 0 < Product(shape)
    ensures forall d :: 0 <= d < |shape| ==> 0 < shape[d]
    ensures forall d :: 0 <= d <= |shape| ==> 0 < Product(shape[d..])
  {
    if shape != [] {
      PositiveDims(shape[1..]);
      forall d | 0 <= d <= |shape| ensures 0 < Product(shape[d..]) {
        if 0 < d { assert shape[d..] == shape[1..][d - 1..]; } else { assert shape[0..] == shape; }
      }
    }
  }

  // ----- the kernel's addressing -----

  lemma KernelReadsChannel(full: Shape, small: Shape, i: nat)
    requires AsFullSmall(full, small).Some? && Product(small) != 1 && i < Product(full)
    ensures KernelIndex(AsFullSmall(full, small).value, i) == Unravel(i, full)[1]
  {
    hide Flat;
    PositiveDims(full);
    var idx := Unravel(i, full);
    FlatOfUnravel(i, full);
    FlatAroundAxis(idx, full, 1);
    var c, spatial := full[1], Product(full[2..]);
    var row := Flat(idx[..1], full[..1]);
    FlatBelow(idx[2..], full[2..]);
    DivModOf(row * c + idx[1], Flat(idx[2..], full[2..]), spatial);
    DivModOf(row, idx[1], c);
  }

  lemma AlignedSameRank(idx: seq<nat>, small: Shape)
    requires |idx| == |small|
    ensures Aligned(idx, small) == seq(|small|, d requires 0 <= d < |small| => if small[d] == 1 then 0 else idx[d])
  {
  }

  lemma AlignedInRange(full: Shape, small: Shape, idx: seq<nat>)
    requires AsFullSmall(full, small).Some? && Product(small) != 1 && InRange(idx, full)
    ensures InRange(Aligned(idx, small), small)
  {
    AlignedSameRank(idx, small);
  }

  /** A small operand holding exactly `channels` elements is read as ONNX says. */
  lemma ChannelOperandIsRead(full: Shape, small: Shape, i: nat)
    requires AsFullSmall(full, small).Some? && Product(small) != 1 && i < Product(full)
    requires Product(small) == full[1]
    ensures KernelIndex(AsFullSmall(full, small).value, i) == OnnxIndex(i, full, small)
  {
    KernelReadsChannel(full, small, i);
    OnlyChannelAxis(small);
    var idx := Unravel(i, full);
    FlatOfUnravel(i, full);
    AlignedSameRank(idx, small);
    var aligned := Aligned(idx, small);
    FlatAroundAxis(aligned, small, 1);
    FlatOfZeros(aligned[..1], small[..1]);
    FlatOfZeros(aligned[2..], small[2..]);
  }

  lemma CancelFactor(outer: nat, n: nat, inner: nat)
    requires 0 < n && outer * n * inner == n
    ensures outer == 1 && inner == 1
  {
    var k := outer * inner;
    assert outer * n * inner == k * n;
    MulOrder(2, k, n);
    MulOrder(k, 0, n);
    UnitFactors(outer, inner);
  }

  lemma OnlyChannelAxis(small: Shape)
    requires 2 <= |small| && Product(small) == small[1] && 1 < small[1]
    ensures forall d :: 0 <= d < |small| && d != 1 ==> small[d] == 1
    ensures Product(small[2..]) == 1
  {
    hide Product, Flat;
    FlatAroundAxis(seq(|small|, _ => 0), small, 1);
    CancelFactor(Product(small[..1]), small[1], Product(small[2..]));
    AllOnes(small[..1]);
    AllOnes(small[2..]);
    forall d | 0 <= d < |small| && d != 1 ensures small[d] == 1 {
      if d < 1 { assert small[d] == small[..1][d]; } else { assert small[d] == small[2..][d - 2]; }
    }
  }

  ghost predicate AddressesAgree(full: Shape, small: Shape)
    requires AsFullSmall(full, small).Some?
  {
    forall i: nat {:trigger OnnxIndex(i, full, small)} :: i < Product(full) ==>
      KernelReads(full, small, i) == OnnxIndex(i, full, small)
  }

  ghost function KernelReads(full: Shape, small: Shape, i: nat): nat
    requires AsFullSmall(full, small).Some? && i < Product(full)
  {
    PositiveDims(full);
    KernelIndex(AsFullSmall(full, small).value, i)
  }

  /** An operand sharing a non-unit batch or spatial extent is misread: at the
      index that moves only along that axis the kernel still reads element 0. */
  lemma SharedAxisIsMisread(full: Shape, small: Shape, d: nat)
    requires AsFullSmall(full, small).Some? && Product(small) != 1
    requires d < |full| && d != 1 && small[d] != 1
    ensures !AddressesAgree(full, small)
  {
    PositiveDims(full);
    var idx := seq(|full|, _ => 0)[d := 1];
    assert InRange(idx, full);
    UnravelOfFlat(idx, full);
    var i := Flat(idx, full);
    KernelReadsChannel(full, small, i);
    AlignedInRange(full, small, idx);
    AlignedSameRank(idx, small);
    var aligned := Aligned(idx, small);
    assert aligned[d] == 1;
    if Flat(aligned, small) == 0 { FlatZeroMeansZeros(aligned, small); }
    assert KernelReads(full, small, i) == 0 && OnnxIndex(i, full, small) != 0;
  }

  /** A claimed pair with a shared batch axis: output 4 belongs to batch 1,
      whose operand elements start at 2, and the kernel reads element 0. */
  lemma SharedBatchExample()
    ensures var full, small := [2, 2, 2], [2, 2, 1];
            && AsFullSmall(full, small) == Some((2, 2, 8, 2))
            && KernelReads(full, small, 4) == 0 && OnnxIndex(4, full, small) == 2
  {
    var full, small := [2, 2, 2], [2, 2, 1];
    assert full[1..] == [2, 2] && full[2..] == [2] == full[1..][1..] && full[2..][1..] == [];
    assert small[1..] == [2, 1] && small[2..] == [1] == small[1..][1..] && small[2..][1..] == [];
    assert Product(full[2..]) == 2 && Product(full[1..]) == 4 && Product(full) == 8;
    assert Product(small[2..]) == 1 && Product(small[1..]) == 2 && Product(small) == 4;
    var idx := [1, 0, 0];
    assert idx[1..] == [0, 0] && idx[1..][1..] == [0] && idx[1..][1..][1..] == [];
    assert Flat([0], [2]) == 0 && Flat([0, 0], [2, 2]) == 0 && Flat(idx, full) == 4;
    UnravelOfFlat(idx, full);
    AlignedSameRank(idx, small);
    assert Aligned(idx, small) == idx;
    assert Flat([0], [1]) == 0 && Flat([0, 0], [2, 1]) == 0 && Flat(idx, small) == 2;
  }

  /** The kernel's addressing is ONNX broadcasting exactly when the small
      operand holds as many elements as the plan says it does. */
  lemma AddressingIsOnnxIff(full: Shape, small: Shape)
    requires AsFullSmall(full, small).Some?
    ensures AddressesAgree(full, small) <==> Product(small) == AsFullSmall(full, small).value.3
  {
    PositiveDims(full);
    if Product(small) == 1 {
      AllOnes(small);
      forall i: nat | i < Product(full)
        ensures KernelReads(full, small, i) == OnnxIndex(i, full, small)
      {
        FlatOfZeros(Aligned(Unravel(i, full), small), small);
      }
    } else if Product(small) == full[1] {
      forall i: nat | i < Product(full)
        ensures KernelReads(full, small, i) == OnnxIndex(i, full, small)
      {
        ChannelOperandIsRead(full, small, i);
      }
    } else {
      var d := OffChannelAxis(full, small);
      SharedAxisIsMisread(full, small, d);
    }
  }

  lemma OffChannelAxis(full: Shape, small: Shape) returns (d: nat)
    requires AsFullSmall(full, small).Some? && Product(small) != 1 && Product(small) != full[1]
    ensures d < |full| && d != 1 && small[d] != 1
  {
    if forall d :: 0 <= d < |small| && d != 1 ==> small[d] == 1 {
      AllOnes(small[..1]);
      AllOnes(small[2..]);
      FlatAroundAxis(seq(|small|, _ => 0), small, 1);
    }
    d :| d < |full| && d != 1 && small[d] != 1;
  }

  // ----- operand order -----

  datatype BinaryOp = Add | Sub | Mul | Div

  /** `div` stands for f32 division, whose value at 0 is not the point here. */
  function Combine(op: BinaryOp, x: real, y: real, div: (real, real) -> real): real {
    match op
    case Add => x + y
    case Sub => x - y
    case Mul => x * y
    case Div => div(x, y)
  }

  function ReverseFor(op: BinaryOp, plan: BroadcastPlan): bool {
    (op.Sub? || op.Div?) && plan.lhsIsSmall
  }

  function KernelValue(op: BinaryOp, reverse: bool, full: real, small: real, div: (real, real) -> real): real {
    if reverse then Combine(op, small, full, div) else Combine(op, full, small, div)
  }

  /** The claimed pair's full and small shape. */
  function FullShape(a: Shape, b: Shape): Shape
    requires Classify(a, b).Some?
  {
    if Classify(a, b).value.lhsIsSmall then b else a
  }

  function SmallShape(a: Shape, b: Shape): Shape
    requires Classify(a, b).Some?
  {
    if Classify(a, b).value.lhsIsSmall then a else b
  }

  /** What ONNX puts at output `i` of `a op b`. */
  ghost predicate IsResultAt(aShape: Shape, bShape: Shape, a: seq<real>, b: seq<real>, op: BinaryOp,
                             div: (real, real) -> real, i: nat, value: real)
    requires Classify(aShape, bShape).Some? && i < Product(FullShape(aShape, bShape))
    requires |a| == Product(aShape) && |b| == Product(bShape)
  {
    var lhsIsSmall := Classify(aShape, bShape).value.lhsIsSmall;
    var j := OnnxIndex(i, FullShape(aShape, bShape), SmallShape(aShape, bShape));
    && j < (if lhsIsSmall then |a| else |b|)
    && var (x, y) := if lhsIsSmall then (a[j], b[i]) else (a[i], b[j]);
       value == match op case Add => x + y case Sub => x - y case Mul => x * y case Div => div(x, y)
  }

  /** The kernel's value at output `i`, from the element it reads. */
  ghost function KernelResult(aShape: Shape, bShape: Shape, a: seq<real>, b: seq<real>, op: BinaryOp,
                              div: (real, real) -> real, i: nat): real
    requires Classify(aShape, bShape).Some? && i < Product(FullShape(aShape, bShape))
    requires |a| == Product(aShape) && |b| == Product(bShape)
    requires Product(SmallShape(aShape, bShape)) == Classify(aShape, bShape).value.smallLen
  {
    var plan := Classify(aShape, bShape).value;
    var (fullData, smallData) := if plan.lhsIsSmall then (b, a) else (a, b);
    ClassifiedPair(aShape, bShape);
    SmallIsRead(FullShape(aShape, bShape), SmallShape(aShape, bShape), i);
    var j := KernelReads(FullShape(aShape, bShape), SmallShape(aShape, bShape), i);
    KernelValue(op, ReverseFor(op, plan), fullData[i], smallData[j], div)
  }

  /** Whichever side is small, an accepted pair whose small operand holds the
      planned element count computes ONNX `a op b` element by element. */
  lemma BroadcastComputesOnnx(aShape: Shape, bShape: Shape, a: seq<real>, b: seq<real>, op: BinaryOp,
                              div: (real, real) -> real, i: nat)
    requires Classify(aShape, bShape).Some? && i < Product(FullShape(aShape, bShape))
    requires |a| == Product(aShape) && |b| == Product(bShape)
    requires Product(SmallShape(aShape, bShape)) == Classify(aShape, bShape).value.smallLen
    ensures IsResultAt(aShape, bShape, a, b, op, div, i, KernelResult(aShape, bShape, a, b, op, div, i))
  {
    hide Classify, Product, KernelValue, KernelReads, OnnxIndex, AsFullSmall;
    var plan, full, small := Classify(aShape, bShape).value, FullShape(aShape, bShape), SmallShape(aShape, bShape);
    ClassifiedPair(aShape, bShape);
    SmallIsRead(full, small, i);
    var j := KernelReads(full, small, i);
    OperandOrder(op, plan, if plan.lhsIsSmall then a[j] else a[i], if plan.lhsIsSmall then b[i] else b[j], div);
  }

  lemma ClassifiedPair(a: Shape, b: Shape)
    requires Classify(a, b).Some?
    ensures var pair := AsFullSmall(FullShape(a, b), SmallShape(a, b));
            pair.Some? && Classify(a, b).value.smallLen == pair.value.3
  {
    hide AsFullSmall;
  }

  /** What the kernel reads lies inside the small operand, where ONNX reads it. */
  lemma SmallIsRead(full: Shape, small: Shape, i: nat)
    requires AsFullSmall(full, small).Some? && i < Product(full)
    requires Product(small) == AsFullSmall(full, small).value.3
    ensures KernelReads(full, small, i) == OnnxIndex(i, full, small) < Product(small)
  {
    AddressingIsOnnxIff(full, small);
    assert KernelReads(full, small, i) == OnnxIndex(i, full, small);
    hide OnnxIndex, AddressesAgree;
  }

  /** `x op y`, whichever of the two the kernel calls full. */
  lemma OperandOrder(op: BinaryOp, plan: BroadcastPlan, x: real, y: real, div: (real, real) -> real)
    ensures var (full, small) := if plan.lhsIsSmall then (y, x) else (x, y);
            KernelValue(op, ReverseFor(op, plan), full, small, div) ==
            match op case Add => x + y case Sub => x - y case Mul => x * y case Div => div(x, y)
  {
  }

  // ----- output shape -----

  /** ONNX's result shape: trailing axes align, extent 1 gives way. */
  ghost function BroadcastShape(a: Shape, b: Shape): Shape {
    var rank := if |a| < |b| then |b| else |a|;
    var a', b' := seq(rank - |a|, _ => 1) + a, seq(rank - |b|, _ => 1) + b;
    seq(rank, d requires 0 <= d < rank => if a'[d] == 1 then b'[d] else a'[d])
  }

  /** The dispatch reports the full operand's shape as the result's, which is
      right exactly when the small operand has no more axes. */
  lemma ResultShapeIsOnnxIff(full: Shape, small: Shape)
    requires AsFullSmall(full, small).Some?
    ensures BroadcastShape(full, small) == full <==> |small| <= |full|
  {
    if |small| <= |full| {
      AllOnes(small);
      var small' := seq(|full| - |small|, _ => 1) + small;
      assert seq(|full| - |full|, _ => 1) + full == full;
      if Product(small) == 1 {
        assert forall d :: 0 <= d < |full| ==> small'[d] == 1;
      } else {
        assert small' == small;
      }
    }
  }

  /** A rank-2 scalar against a vector: claimed, with the vector's shape as the
      result's, where ONNX asks for `[1, 3]`. */
  lemma WiderScalarExample()
    ensures Classify([3], [1, 1]).Some? && !Classify([3], [1, 1]).value.lhsIsSmall
    ensures BroadcastShape([3], [1, 1]) == [1, 3]
  {
    assert [3][1..] == [] && [1, 1][1..] == [1] && [1][1..] == [];
    assert Product([3]) == 3 && Product([1]) == 1 && Product([1, 1]) == 1;
  }
}
