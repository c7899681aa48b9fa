/** The GEMM arm's host helpers: batched transposition of an operand and the
    bias epilogue (ONNX Operators, Gemm-13). */
module DispatchHelpers {
  import opened Arithmetic
  import opened Shapes
  import opened Broadcast

  // ----- transpose -----

  /** Position (x, y) of block `b` in row-major blocks of `xs * ys`. */
  function At(b: nat, x: nat, y: nat, xs: nat, ys: nat): nat {
    b * (xs * ys) + x * ys + y
  }

  lemma AtIsFlat(b: nat, x: nat, y: nat, batch: nat, xs: nat, ys: nat)
    requires b < batch && x < xs && y < ys
    ensures At(b, x, y, xs, ys) == Flat([b, x, y], [batch, xs, ys])
    ensures Product([batch, xs, ys]) == batch * (xs * ys)
    ensures InRange([b, x, y], [batch, xs, ys])
  {
    assert [b, x, y][1..] == [x, y] && [x, y][1..] == [y] && [y][1..] == [];
    assert [batch, xs, ys][1..] == [xs, ys] && [xs, ys][1..] == [ys] && [ys][1..] == [];
    assert Product([ys]) == ys * Product([]) == ys;
    assert Product([xs, ys]) == xs * ys;
    assert Flat([y], [ys]) == y * 1 + Flat([], []);
    assert Flat([x, y], [xs, ys]) == x * ys + y;
  }

  lemma AtBelow(b: nat, x: nat, y: nat, batch: nat, xs: nat, ys: nat)
    requires b < batch && x < xs && y < ys
    ensures At(b, x, y, xs, ys) < batch * (xs * ys)
  {
    AtIsFlat(b, x, y, batch, xs, ys);
    FlatBelow([b, x, y], [batch, xs, ys]);
  }

  lemma AtInjective(b: nat, x: nat, y: nat, b': nat, x': nat, y': nat, batch: nat, xs: nat, ys: nat)
    requires b < batch && x < xs && y < ys && b' < batch && x' < xs && y' < ys
    requires At(b, x, y, xs, ys) == At(b', x', y', xs, ys)
    ensures b == b' && x == x' && y == y'
  {
    hide At, Flat, Product;
    AtIsFlat(b, x, y, batch, xs, ys);
    AtIsFlat(b', x', y', batch, xs, ys);
    UnravelOfFlat([b, x, y], [batch, xs, ys]);
    UnravelOfFlat([b', x', y'], [batch, xs, ys]);
    assert [b, x, y] == [b', x', y'];
    assert [b, x, y][0] == b && [b, x, y][1] == x && [b, x, y][2] == y;
    assert [b', x', y'][0] == b' && [b', x', y'][1] == x' && [b', x', y'][2] == y';
  }

  lemma AtCovers(k: nat, batch: nat, xs: nat, ys: nat) returns (b: nat, x: nat, y: nat)
    requires k < batch * (xs * ys)
    ensures b < batch && x < xs && y < ys && k == At(b, x, y, xs, ys)
  {
    var rest: nat;
    b, rest := DivSplit(k, batch, xs * ys);
    x, y := DivSplit(rest, xs, ys);
  }

  /** Element (b, r, c) has moved to (b, c, r). */
  ghost predicate Moved<T>(data: seq<T>, out: seq<T>, rows: nat, cols: nat, b: nat, r: nat, c: nat) {
    var from, to := At(b, r, c, rows, cols), At(b, c, r, cols, rows);
    from < |data| && to < |out| && out[to] == data[from]
  }

  ghost predicate Transposed<T>(data: seq<T>, out: seq<T>, batch: nat, rows: nat, cols: nat) {
    && |out| == |data|
    && forall b: nat, r: nat, c: nat {:trigger Moved(data, out, rows, cols, b, r, c)} ::
         b < batch && r < rows && c < cols ==> Moved(data, out, rows, cols, b, r, c)
  }

  predicate Before(b': nat, r': nat, c': nat, b: nat, r: nat, c: nat) {
    b' < b || (b' == b && (r' < r || (r' == r && c' < c)))
  }

  ghost predicate MovedBefore<T>(data: seq<T>, out: seq<T>, rows: nat, cols: nat, b: nat, r: nat, c: nat) {
    forall b': nat, r': nat, c': nat {:trigger Moved(data, out, rows, cols, b', r', c')} ::
      Before(b', r', c', b, r, c) && r' < rows && c' < cols ==> Moved(data, out, rows, cols, b', r', c')
  }

  /** One assignment moves one element and disturbs none moved before. */
  lemma MoveOne<T>(data: seq<T>, out: seq<T>, batch: nat, rows: nat, cols: nat, b: nat, r: nat, c: nat)
    requires MovedBefore(data, out, rows, cols, b, r, c)
    requires b < batch && r < rows && c < cols && batch * (rows * cols) <= |data| == |out|
    ensures At(b, r, c, rows, cols) < batch * (rows * cols) && At(b, c, r, cols, rows) < batch * (rows * cols)
    ensures MovedBefore(data, out[At(b, c, r, cols, rows) := data[At(b, r, c, rows, cols)]], rows, cols, b, r, c + 1)
  {
    hide At;
    AtBelow(b, r, c, batch, rows, cols);
    AtBelow(b, c, r, batch, cols, rows);
    assert rows * cols == cols * rows;
    var after := out[At(b, c, r, cols, rows) := data[At(b, r, c, rows, cols)]];
    forall b': nat, r': nat, c': nat | Before(b', r', c', b, r, c + 1) && r' < rows && c' < cols
      ensures Moved(data, after, rows, cols, b', r', c')
    {
      if (b', r', c') != (b, r, c) {
        assert Moved(data, out, rows, cols, b', r', c');
        if At(b', c', r', cols, rows) == At(b, c, r, cols, rows) {
          AtInjective(b', c', r', b, c, r, batch, cols, rows);
        }
      }
    }
  }

  method Transpose2dBatched<T>(data: seq<T>, zero: T, batch: nat, rows: nat, cols: nat) returns (result: seq<T>)
    requires batch * (rows * cols) <= |data|
    ensures Transposed(data, result, batch, rows, cols)
    ensures forall k :: batch * (rows * cols) <= k < |result| ==> result[k] == zero
  {
    hide Moved, At;
    var slice := rows * cols;
    ghost var end := batch * slice;
    var out := new T[|data|](_ => zero);
    for b := 0 to batch
      invariant MovedBefore(data, out[..], rows, cols, b, 0, 0)
      invariant forall k :: end <= k < |data| ==> out[k] == zero
    {
      for r := 0 to rows
        invariant MovedBefore(data, out[..], rows, cols, b, r, 0)
        invariant forall k :: end <= k < |data| ==> out[k] == zero
      {
        TransposeRow(data, out, batch, rows, cols, slice, b, r);
      }
    }
    return out[..];
  }

  method TransposeRow<T>(data: seq<T>, out: array<T>, ghost batch: nat, rows: nat, cols: nat, slice: nat,
                         b: nat, r: nat)
    requires slice == rows * cols && batch * slice <= |data| == out.Length && b < batch && r < rows
    requires MovedBefore(data, out[..], rows, cols, b, r, 0)
    modifies out
    ensures MovedBefore(data, out[..], rows, cols, b, r + 1, 0)
    ensures forall k :: batch * slice <= k < out.Length ==> out[k] == old(out[k])
  {
    hide Moved, At;
    ghost var end := batch * slice;
    for c := 0 to cols
      invariant MovedBefore(data, out[..], rows, cols, b, r, c)
      invariant forall k :: end <= k < out.Length ==> out[k] == old(out[k])
    {
      ghost var before := out[..];
      MoveOne(data, before, batch, rows, cols, b, r, c);
      AtUnfold(b, r, c, rows, cols);
      out[b * slice + c * rows + r] := data[b * slice + r * cols + c];
      assert out[..] == before[At(b, c, r, cols, rows) := data[At(b, r, c, rows, cols)]];
    }
  }

  lemma AtUnfold(b: nat, r: nat, c: nat, rows: nat, cols: nat)
    ensures At(b, c, r, cols, rows) == b * (rows * cols) + c * rows + r
    ensures At(b, r, c, rows, cols) == b * (rows * cols) + r * cols + c
  {
    assert rows * cols == cols * rows;
  }

  /** Transposing again with rows and columns swapped restores the operand. */
  lemma TransposeUndoesItself<T>(data: seq<T>, out: seq<T>, back: seq<T>, batch: nat, rows: nat, cols: nat)
    requires |data| == batch * (rows * cols)
    requires Transposed(data, out, batch, rows, cols) && Transposed(out, back, batch, cols, rows)
    ensures back == data
  {
    hide At;
    forall k | 0 <= k < |data| ensures back[k] == data[k] {
      var b, r, c := AtCovers(k, batch, rows, cols);
      assert Moved(data, out, rows, cols, b, r, c) && Moved(out, back, cols, rows, b, c, r);
    }
  }

  // ----- Gemm bias -----

  /** Unidirectional broadcasting to `[m, n]`: trailing axes align, and every
      axis is 1 or the target's (any further left must be 1). */
  ghost predicate BroadcastsTo(shape: Shape, m: nat, n: nat) {
    forall d :: 0 <= d < |shape| ==>
      shape[d] == 1 || (d == |shape| - 1 && shape[d] == n) || (d == |shape| - 2 && shape[d] == m)
  }

  /** `shape` and `[m, n]` with unit axes in front up to the larger rank. */
  ghost function Extended(s: Shape, rank: nat): (r: Shape)
    requires |s| <= rank
    ensures |r| == rank
  {
    seq(rank - |s|, _ => 1) + s
  }

  lemma BroadcastEntry(shape: Shape, target: Shape, rank: nat, d: nat)
    requires rank == (if |shape| < |target| then |target| else |shape|) && d < rank
    ensures |BroadcastShape(shape, target)| == rank
    ensures BroadcastShape(shape, target)[d] ==
            if Extended(shape, rank)[d] == 1 then Extended(target, rank)[d] else Extended(shape, rank)[d]
  {
  }

  /** That is ONNX's rule: the broadcast shape is `[m, n]`, under the unit axes
      `shape` has beyond two. */
  lemma BroadcastsToIff(shape: Shape, m: nat, n: nat)
    ensures BroadcastsTo(shape, m, n) <==>
            BroadcastShape(shape, [m, n]) == Extended([m, n], if 2 < |shape| then |shape| else 2)
  {
    var rank := if 2 < |shape| then |shape| else 2;
    var both, target := BroadcastShape(shape, [m, n]), Extended([m, n], rank);
    forall d | 0 <= d < rank
      ensures |both| == rank
      ensures both[d] == target[d] <==> Extended(shape, rank)[d] == 1 || Extended(shape, rank)[d] == target[d]
    {
      BroadcastEntry(shape, [m, n], rank, d);
    }
    hide BroadcastShape;
    if both == target {
      forall d | 0 <= d < |shape|
        ensures shape[d] == 1 || (d == |shape| - 1 && shape[d] == n) || (d == |shape| - 2 && shape[d] == m)
      {
        assert Extended(shape, rank)[rank - |shape| + d] == shape[d];
        assert both[rank - |shape| + d] == target[rank - |shape| + d];
      }
    }
    if BroadcastsTo(shape, m, n) {
      forall d | 0 <= d < rank ensures both[d] == target[d] {
        assert rank - |shape| <= d ==> Extended(shape, rank)[d] == shape[d - (rank - |shape|)];
      }
      assert both == target;
    }
  }

  ghost predicate Applies(shape: Shape, bias: nat, m: nat, n: nat) {
    m != 0 && n != 0 && BroadcastsTo(shape, m, n) && Product(shape) <= bias
  }

  /** The bias element ONNX broadcasting puts at row `r`, column `c`. */
  ghost function BiasIndex(shape: Shape, r: nat, c: nat): nat {
    Flat(Aligned([r, c], shape), shape)
  }

  function LastDim(shape: Shape): nat { if 1 <= |shape| then shape[|shape| - 1] else 1 }

  function SecondLastDim(shape: Shape): nat { if 2 <= |shape| then shape[|shape| - 2] else 1 }

  lemma TrailingDims(shape: Shape)
    requires forall d :: 0 <= d < |shape| - 2 ==> shape[d] == 1
    ensures Product(shape) == SecondLastDim(shape) * LastDim(shape)
  {
    if 2 <= |shape| {
      var k := |shape| - 2;
      AllOnes(shape[..k]);
      ProductSplit(shape[..k], shape[k..]);
      assert shape == shape[..k] + shape[k..];
      assert shape[k..][1..] == [shape[k + 1]] && [shape[k + 1]][1..] == [];
      assert Product([shape[k + 1]]) == shape[k + 1] * Product([]);
    } else if |shape| == 1 {
      assert shape[1..] == [] && Product(shape) == shape[0] * Product([]);
    }
  }

  /** The loop's address is ONNX's: a unit extent repeats, any other selects. */
  lemma BiasAddress(shape: Shape, m: nat, n: nat, r: nat, c: nat)
    requires BroadcastsTo(shape, m, n) && r < m && c < n
    ensures var row, col := if SecondLastDim(shape) == 1 then 0 else r, if LastDim(shape) == 1 then 0 else c;
            && BiasIndex(shape, r, c) == row * LastDim(shape) + col
            && BiasIndex(shape, r, c) < Product(shape)
  {
    hide Aligned, Flat, Product;
    var idx := Aligned([r, c], shape);
    var k := |shape| - 2;
    forall d | 0 <= d < |shape| ensures idx[d] < shape[d] { AlignedEntry(shape, r, c, d); }
    FlatBelow(idx, shape);
    if 2 <= |shape| {
      AlignedEntry(shape, r, c, k);
      AlignedEntry(shape, r, c, k + 1);
      FlatOfMatrix(shape, r, c);
    } else if |shape| == 1 {
      AlignedEntry(shape, r, c, 0);
      FlatOne(idx, shape);
    } else {
      FlatOfZeros(idx, shape);
    }
  }

  lemma FlatOfMatrix(shape: Shape, r: nat, c: nat)
    requires 2 <= |shape| && forall d :: 0 <= d < |shape| - 2 ==> shape[d] == 1
    ensures var idx, k := Aligned([r, c], shape), |shape| - 2;
            Flat(idx, shape) == idx[k] * shape[k + 1] + idx[k + 1]
  {
    hide Aligned, Flat, Product;
    var idx, k := Aligned([r, c], shape), |shape| - 2;
    forall d | 0 <= d < k ensures idx[d] == 0 { AlignedEntry(shape, r, c, d); }
    FlatSplit(idx[..k], shape[..k], idx[k..], shape[k..]);
    assert idx == idx[..k] + idx[k..] && shape == shape[..k] + shape[k..];
    FlatOfZeros(idx[..k], shape[..k]);
    FlatPair(idx[k..], shape[k..]);
  }

  lemma AlignedEntry(shape: Shape, r: nat, c: nat, d: nat)
    requires d < |shape|
    ensures Aligned([r, c], shape)[d] ==
            if shape[d] == 1 then 0 else if d == |shape| - 1 then c else if d == |shape| - 2 then r else 0
  {
    var padded := seq(|shape|, _ => 0) + [r, c];
    assert padded[|shape|] == r && padded[|shape| + 1] == c;
    assert d < |shape| - 2 ==> padded[2 + d] == 0;
  }

  lemma FlatPair(idx: seq<nat>, shape: Shape)
    requires |idx| == |shape| == 2
    ensures Flat(idx, shape) == idx[0] * shape[1] + idx[1]
  {
    FlatOne(idx[1..], shape[1..]);
    assert shape[1..][1..] == [];
    assert Product(shape[1..]) == shape[1] * Product([]);
  }

  lemma FlatOne(idx: seq<nat>, shape: Shape)
    requires |idx| == |shape| == 1
    ensures Flat(idx, shape) == idx[0]
  {
    assert shape[1..] == [] && idx[1..] == [];
    assert Product([]) == 1 && Flat([], []) == 0;
  }

  /** What element `k` of the output becomes. */
  ghost function Biased(was: real, bias: seq<real>, shape: Shape, m: nat, n: nat, beta: real, k: nat): real
    requires Applies(shape, |bias|, m, n)
  {
    BiasAddress(shape, m, n, (k / n) % m, k % n);
    was + beta * bias[BiasIndex(shape, (k / n) % m, k % n)]
  }

  method ApplyGemmBias(out: array<real>, bias: seq<real>, shape: Shape, m: nat, n: nat, beta: real)
    returns (applied: bool)
    modifies out
    ensures applied <==> Applies(shape, |bias|, m, n)
    ensures applied ==> forall k :: 0 <= k < out.Length ==>
              out[k] == if k < (out.Length / n) * n then Biased(old(out[k]), bias, shape, m, n, beta, k)
                        else old(out[k])
    ensures !applied ==> out[..] == old(out[..])
  {
    if m == 0 || n == 0 {
      return false;
    }
    var rank := |shape|;
    var biasN, biasM := LastDim(shape), SecondLastDim(shape);
    var leadingOk := forall d :: 0 <= d < rank - 2 ==> shape[d] == 1;
    if !leadingOk || !(biasM == 1 || biasM == m) || !(biasN == 1 || biasN == n) {
      return false;
    }
    TrailingDims(shape);
    if |bias| < biasM * biasN {
      return false;
    }
    AddRows(out, bias, shape, m, n, beta, biasM, biasN);
    return true;
  }

  lemma BiasedAt(was: real, bias: seq<real>, shape: Shape, m: nat, n: nat, beta: real, row: nat, col: nat)
    requires Applies(shape, |bias|, m, n) && col < n
    ensures var biasRow, biasCol := if SecondLastDim(shape) == 1 then 0 else row % m,
                                    if LastDim(shape) == 1 then 0 else col;
            var at := biasRow * LastDim(shape) + biasCol;
            at < |bias| && Biased(was, bias, shape, m, n, beta, row * n + col) == was + beta * bias[at]
  {
    hide BiasIndex, BroadcastsTo;
    DivModOf(row, col, n);
    BiasAddress(shape, m, n, row % m, col);
  }

  lemma PositiveExtents(shape: Shape, bias: nat, m: nat, n: nat)
    requires Applies(shape, bias, m, n)
    ensures 0 < m && 0 < n
  {
  }

  method AddRow(out: array<real>, bias: seq<real>, shape: Shape, m: nat, n: nat, beta: real, biasN: nat, row: nat,
                base: nat, biasBase: nat)
    requires Applies(shape, |bias|, m, n) && biasN == LastDim(shape)
    requires base == row * n && base + n <= out.Length
    requires biasBase == (if SecondLastDim(shape) == 1 then 0 else row % m) * LastDim(shape)
    modifies out
    ensures forall k :: 0 <= k < out.Length ==>
              out[k] == if base <= k < base + n then Biased(old(out[k]), bias, shape, m, n, beta, k) else old(out[k])
  {
    hide Applies, Biased, SecondLastDim, LastDim;
    for col := 0 to n
      invariant forall k :: 0 <= k < out.Length ==>
        out[k] == if base <= k < base + col then Biased(old(out[k]), bias, shape, m, n, beta, k) else old(out[k])
    {
      var biasCol := if biasN == 1 then 0 else col;
      BiasedAt(out[base + col], bias, shape, m, n, beta, row, col);
      out[base + col] := out[base + col] + beta * bias[biasBase + biasCol];
    }
  }

  /** The accumulation loops, row by row. */
  method AddRows(out: array<real>, bias: seq<real>, shape: Shape, m: nat, n: nat, beta: real, biasM: nat, biasN: nat)
    requires Applies(shape, |bias|, m, n) && biasM == SecondLastDim(shape) && biasN == LastDim(shape)
    modifies out
    ensures forall k :: 0 <= k < out.Length ==>
              out[k] == if k < (out.Length / n) * n then Biased(old(out[k]), bias, shape, m, n, beta, k)
                        else old(out[k])
  {
    PositiveExtents(shape, |bias|, m, n);
    hide Applies, Biased, SecondLastDim, LastDim;
    var totalRows := out.Length / n;
    ghost var rowsEnd := totalRows * n;
    assert rowsEnd <= out.Length;
    for row := 0 to totalRows
      invariant forall k :: 0 <= k < out.Length ==>
        out[k] == if k < row * n then Biased(old(out[k]), bias, shape, m, n, beta, k) else old(out[k])
    {
      var biasRow := if biasM == 1 then 0 else row % m;
      var base := row * n;
      MulStep(row, totalRows, n);
      AddRow(out, bias, shape, m, n, beta, biasN, row, base, biasRow * biasN);
      assert (row + 1) * n == base + n;
    }
  }
}
