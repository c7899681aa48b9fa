/** The convolution loop nest: grouped, strided, dilated, padded, with the
    bounds of every access and the meaning of every cell. */
module ConvLoop {
  import opened Arithmetic
  import opened Wrappers
  import opened ConvPlan

  // ----- four-dimensional addressing -----

  /** Row-major position (a, b, c, d) under trailing extents bs, cs, ds. */
  function Index4(a: nat, b: nat, c: nat, d: nat, bs: nat, cs: nat, ds: nat): nat {
    Pair(Pair(Pair(a, b, bs), c, cs), d, ds)
  }

  lemma Index4Below(a: nat, b: nat, c: nat, d: nat, outer: nat, bs: nat, cs: nat, ds: nat)
    requires a < outer && b < bs && c < cs && d < ds
    ensures Index4(a, b, c, d, bs, cs, ds) < outer * bs * cs * ds
  {
    hide Pair;
    PairBelow(a, b, outer, bs);
    PairBelow(Pair(a, b, bs), c, outer * bs, cs);
    PairBelow(Pair(Pair(a, b, bs), c, cs), d, outer * bs * cs, ds);
  }

  lemma Index4Injective(a: nat, b: nat, c: nat, d: nat, a': nat, b': nat, c': nat, d': nat, bs: nat, cs: nat, ds: nat)
    requires b < bs && c < cs && d < ds && b' < bs && c' < cs && d' < ds
    requires Index4(a, b, c, d, bs, cs, ds) == Index4(a', b', c', d', bs, cs, ds)
    ensures (a, b, c, d) == (a', b', c', d')
  {
    hide Pair;
    PairInjective(Pair(Pair(a, b, bs), c, cs), d, Pair(Pair(a', b', bs), c', cs), d', ds);
    PairInjective(Pair(a, b, bs), c, Pair(a', b', bs), c', cs);
    PairInjective(a, b, a', b', bs);
  }

  // ----- the buffers -----

  ghost function InputLength(p: Problem): nat { p.batch * p.inChannels * p.inH * p.inW }

  ghost function InPerGroup(p: Problem): nat
    requires 0 < p.groups
  {
    p.inChannels / p.groups
  }

  ghost function FilterLength(p: Problem): nat
    requires 0 < p.groups
  {
    p.outChannels * InPerGroup(p) * p.filterH * p.filterW
  }

  ghost function OutputLength(p: Problem): nat
    requires WellPosed(p)
  {
    p.batch * p.outChannels * OutH(p) * OutW(p)
  }

  /** The lengths the dispatch checks before it runs. */
  ghost predicate Supplied(p: Problem, input: seq<real>, weight: seq<real>, bias: Option<seq<real>>) {
    && WellPosed(p)
    && InputLength(p) <= |input| && FilterLength(p) <= |weight|
    && (bias.Some? ==> p.outChannels <= |bias.value|)
  }

  lemma GroupBounds(p: Problem, k: nat, cg: nat)
    requires WellPosed(p) && k < p.outChannels && cg < InPerGroup(p)
    ensures 0 < p.outChannels / p.groups && k / (p.outChannels / p.groups) < p.groups
    ensures (k / (p.outChannels / p.groups)) * InPerGroup(p) + cg < p.inChannels
  {
    var per, cpg, n := p.outChannels / p.groups, InPerGroup(p), p.groups;
    GroupWidthPositive(p);
    assert p.outChannels == n * per + p.outChannels % n;
    assert p.inChannels == n * cpg + p.inChannels % n;
    assert n * per == per * n;
    QuotientBelow(k, n, per);
    MulStep(k / per, n, cpg);
  }

  lemma GroupWidthPositive(p: Problem)
    requires WellPosed(p)
    ensures 0 < p.outChannels / p.groups
  {
    var per, n := p.outChannels / p.groups, p.groups;
    assert p.outChannels == n * per + p.outChannels % n;
    assert n * per == per * n;
    MulOrder(per, 0, n);
  }

  // ----- what a cell means -----

  /** The zero-padded input: elements outside the image read as 0. */
  ghost function Padded(p: Problem, input: seq<real>, n: nat, c: nat, y: int, x: int): real
    requires WellPosed(p) && InputLength(p) <= |input| && n < p.batch && c < p.inChannels
  {
    if 0 <= y < p.inH && 0 <= x < p.inW then
      Index4Below(n, c, y, x, p.batch, p.inChannels, p.inH, p.inW);
      input[Index4(n, c, y, x, p.inChannels, p.inH, p.inW)]
    else 0.0
  }

  ghost function Filter(p: Problem, weight: seq<real>, k: nat, cg: nat, r: nat, s: nat): real
    requires WellPosed(p) && FilterLength(p) <= |weight|
    requires k < p.outChannels && cg < InPerGroup(p) && r < p.filterH && s < p.filterW
  {
    Index4Below(k, cg, r, s, p.outChannels, InPerGroup(p), p.filterH, p.filterW);
    weight[Index4(k, cg, r, s, InPerGroup(p), p.filterH, p.filterW)]
  }

  ghost predicate Cell(p: Problem, n: nat, k: nat, oh: nat, ow: nat) {
    WellPosed(p) && n < p.batch && k < p.outChannels && oh < OutH(p) && ow < OutW(p)
  }

  /** Input row and column under filter tap (r, s). */
  ghost function RowAt(p: Problem, oh: nat, r: nat): int { oh * p.strideH - p.padH + r * p.dilationH }

  ghost function ColAt(p: Problem, ow: nat, s: nat): int { ow * p.strideW - p.padW + s * p.dilationW }

  ghost function Channel(p: Problem, k: nat, cg: nat): nat
    requires WellPosed(p) && k < p.outChannels && cg < InPerGroup(p)
    ensures Channel(p, k, cg) < p.inChannels
  {
    GroupBounds(p, k, cg);
    (k / (p.outChannels / p.groups)) * InPerGroup(p) + cg
  }

  ghost function Tap(p: Problem, input: seq<real>, weight: seq<real>, n: nat, k: nat, oh: nat, ow: nat,
                     cg: nat, r: nat, s: nat): real
    requires Supplied(p, input, weight, None) && Cell(p, n, k, oh, ow)
    requires cg < InPerGroup(p) && r < p.filterH && s < p.filterW
  {
    Padded(p, input, n, Channel(p, k, cg), RowAt(p, oh, r), ColAt(p, ow, s)) * Filter(p, weight, k, cg, r, s)
  }

  ghost function RowSum(p: Problem, input: seq<real>, weight: seq<real>, n: nat, k: nat, oh: nat, ow: nat,
                        cg: nat, r: nat, s: nat): real
    requires Supplied(p, input, weight, None) && Cell(p, n, k, oh, ow)
    requires cg < InPerGroup(p) && r < p.filterH && s <= p.filterW
  {
    if s == 0 then 0.0
    else RowSum(p, input, weight, n, k, oh, ow, cg, r, s - 1) + Tap(p, input, weight, n, k, oh, ow, cg, r, s - 1)
  }

  ghost function PlaneSum(p: Problem, input: seq<real>, weight: seq<real>, n: nat, k: nat, oh: nat, ow: nat,
                          cg: nat, r: nat): real
    requires Supplied(p, input, weight, None) && Cell(p, n, k, oh, ow)
    requires cg < InPerGroup(p) && r <= p.filterH
  {
    if r == 0 then 0.0
    else
      PlaneSum(p, input, weight, n, k, oh, ow, cg, r - 1) + RowSum(p, input, weight, n, k, oh, ow, cg, r - 1, p.filterW)
  }

  ghost function ChannelSum(p: Problem, input: seq<real>, weight: seq<real>, n: nat, k: nat, oh: nat, ow: nat,
                            cg: nat): real
    requires Supplied(p, input, weight, None) && Cell(p, n, k, oh, ow) && cg <= InPerGroup(p)
  {
    if cg == 0 then 0.0
    else
      ChannelSum(p, input, weight, n, k, oh, ow, cg - 1) + PlaneSum(p, input, weight, n, k, oh, ow, cg - 1, p.filterH)
  }

  /** Cross-correlation of the zero-padded group channels with filter `k`. */
  ghost function Correlation(p: Problem, input: seq<real>, weight: seq<real>, n: nat, k: nat, oh: nat, ow: nat): real
    requires Supplied(p, input, weight, None) && Cell(p, n, k, oh, ow)
  {
    ChannelSum(p, input, weight, n, k, oh, ow, InPerGroup(p))
  }

  ghost function Biased(p: Problem, input: seq<real>, weight: seq<real>, bias: Option<seq<real>>,
                        n: nat, k: nat, oh: nat, ow: nat): real
    requires Supplied(p, input, weight, bias) && Cell(p, n, k, oh, ow)
  {
    Correlation(p, input, weight, n, k, oh, ow) + if bias.Some? then bias.value[k] else 0.0
  }

  lemma {:induction false} OutsideRowIsZero(p: Problem, input: seq<real>, weight: seq<real>, n: nat, k: nat, oh: nat,
                                            ow: nat, cg: nat, r: nat, s: nat)
    requires Supplied(p, input, weight, None) && Cell(p, n, k, oh, ow)
    requires cg < InPerGroup(p) && r < p.filterH && s <= p.filterW
    requires !(0 <= RowAt(p, oh, r) < p.inH)
    ensures RowSum(p, input, weight, n, k, oh, ow, cg, r, s) == 0.0
  {
    if 0 < s { OutsideRowIsZero(p, input, weight, n, k, oh, ow, cg, r, s - 1); }
  }

  // ----- the loops -----

  /** One filter row: taps outside the image are skipped, the rest are in bounds. */
  method AccumulateRow(p: Problem, input: seq<real>, weight: seq<real>, cpg: nat, n: nat, k: nat,
                       oh: nat, ow: nat, cg: nat, ci: nat, r: nat, ih: nat, start: real) returns (acc: real)
    requires Supplied(p, input, weight, None) && Cell(p, n, k, oh, ow) && cpg == InPerGroup(p)
    requires cg < cpg && r < p.filterH && ci == Channel(p, k, cg) && ih == RowAt(p, oh, r) && ih < p.inH
    ensures acc == start + RowSum(p, input, weight, n, k, oh, ow, cg, r, p.filterW)
  {
    hide WellPosed, Correlation, Index4;
    acc := start;
    for s := 0 to p.filterW
      invariant acc == start + RowSum(p, input, weight, n, k, oh, ow, cg, r, s)
    {
      var iw: int := ow * p.strideW - p.padW + s * p.dilationW;
      if iw < 0 || p.inW <= iw {
        continue;
      }
      var inIdx := ((n * p.inChannels + ci) * p.inH + ih) * p.inW + iw;
      var fIdx := ((k * cpg + cg) * p.filterH + r) * p.filterW + s;
      Index4Below(n, ci, ih, iw, p.batch, p.inChannels, p.inH, p.inW);
      Index4Below(k, cg, r, s, p.outChannels, cpg, p.filterH, p.filterW);
      IndexUnfold(n, ci, ih, iw, p.inChannels, p.inH, p.inW);
      IndexUnfold(k, cg, r, s, cpg, p.filterH, p.filterW);
      acc := acc + input[inIdx] * weight[fIdx];
    }
  }

  lemma IndexUnfold(a: nat, b: nat, c: nat, d: nat, bs: nat, cs: nat, ds: nat)
    ensures Index4(a, b, c, d, bs, cs, ds) == ((a * bs + b) * cs + c) * ds + d
  {
  }

  /** The three inner loops: one output cell. */
  method AccumulateCell(p: Problem, input: seq<real>, weight: seq<real>, cpg: nat, g: nat,
                        n: nat, k: nat, oh: nat, ow: nat) returns (acc: real)
    requires Supplied(p, input, weight, None) && Cell(p, n, k, oh, ow)
    requires cpg == InPerGroup(p) && g == k / (p.outChannels / p.groups)
    ensures acc == Correlation(p, input, weight, n, k, oh, ow)
  {
    hide Index4, RowSum;
    acc := 0.0;
    for cg := 0 to cpg
      invariant acc == ChannelSum(p, input, weight, n, k, oh, ow, cg)
    {
      var ci := g * cpg + cg;
      assert ci == Channel(p, k, cg);
      for r := 0 to p.filterH
        invariant acc == ChannelSum(p, input, weight, n, k, oh, ow, cg) +
                         PlaneSum(p, input, weight, n, k, oh, ow, cg, r)
      {
        var ih: int := oh * p.strideH - p.padH + r * p.dilationH;
        if ih < 0 || p.inH <= ih {
          OutsideRowIsZero(p, input, weight, n, k, oh, ow, cg, r, p.filterW);
          continue;
        }
        acc := AccumulateRow(p, input, weight, cpg, n, k, oh, ow, cg, ci, r, ih, acc);
      }
    }
  }

  /** Cell (n, k, oh, ow) of the output holds its value. */
  ghost predicate Written(p: Problem, input: seq<real>, weight: seq<real>, bias: Option<seq<real>>, out: seq<real>,
                          n: nat, k: nat, oh: nat, ow: nat)
    requires Supplied(p, input, weight, bias)
  {
    Cell(p, n, k, oh, ow) ==>
      var at := Index4(n, k, oh, ow, p.outChannels, OutH(p), OutW(p));
      at < |out| && out[at] == Biased(p, input, weight, bias, n, k, oh, ow)
  }

  predicate Before(n': nat, k': nat, oh': nat, ow': nat, n: nat, k: nat, oh: nat, ow: nat) {
    n' < n || (n' == n && (k' < k || (k' == k && (oh' < oh || (oh' == oh && ow' < ow)))))
  }

  ghost predicate WrittenBefore(p: Problem, input: seq<real>, weight: seq<real>, bias: Option<seq<real>>,
                                out: seq<real>, n: nat, k: nat, oh: nat, ow: nat)
    requires Supplied(p, input, weight, bias)
  {
    forall n': nat, k': nat, oh': nat, ow': nat {:trigger Written(p, input, weight, bias, out, n', k', oh', ow')} ::
      Before(n', k', oh', ow', n, k, oh, ow) ==> Written(p, input, weight, bias, out, n', k', oh', ow')
  }

  /** One store fills one cell and disturbs no other. */
  lemma WriteOne(p: Problem, input: seq<real>, weight: seq<real>, bias: Option<seq<real>>, out: seq<real>,
                 n: nat, k: nat, oh: nat, ow: nat, at: nat)
    requires Supplied(p, input, weight, bias) && Cell(p, n, k, oh, ow) && |out| == OutputLength(p)
    requires WrittenBefore(p, input, weight, bias, out, n, k, oh, ow)
    requires at == Index4(n, k, oh, ow, p.outChannels, OutH(p), OutW(p))
    ensures at < |out|
    ensures var after := out[at := Biased(p, input, weight, bias, n, k, oh, ow)];
            WrittenBefore(p, input, weight, bias, after, n, k, oh, ow + 1)
  {
    hide Index4, WellPosed, OutH, OutW, Biased, Supplied;
    Index4Below(n, k, oh, ow, p.batch, p.outChannels, OutH(p), OutW(p));
    var after := out[at := Biased(p, input, weight, bias, n, k, oh, ow)];
    forall n': nat, k': nat, oh': nat, ow': nat | Before(n', k', oh', ow', n, k, oh, ow + 1)
      ensures Written(p, input, weight, bias, after, n', k', oh', ow')
    {
      if (n', k', oh', ow') != (n, k, oh, ow) && Cell(p, n', k', oh', ow') {
        assert Written(p, input, weight, bias, out, n', k', oh', ow');
        if Index4(n', k', oh', ow', p.outChannels, OutH(p), OutW(p)) == at {
          Index4Injective(n', k', oh', ow', n, k, oh, ow, p.outChannels, OutH(p), OutW(p));
        }
      }
    }
  }

  /** Moving to the next row, channel or image loses nothing. */
  lemma NextBlock(p: Problem, input: seq<real>, weight: seq<real>, bias: Option<seq<real>>, out: seq<real>,
                  n: nat, k: nat, oh: nat)
    requires Supplied(p, input, weight, bias)
    ensures WrittenBefore(p, input, weight, bias, out, n, k, oh, OutW(p)) ==>
              WrittenBefore(p, input, weight, bias, out, n, k, oh + 1, 0)
    ensures WrittenBefore(p, input, weight, bias, out, n, k, OutH(p), 0) ==>
              WrittenBefore(p, input, weight, bias, out, n, k + 1, 0, 0)
    ensures WrittenBefore(p, input, weight, bias, out, n, p.outChannels, 0, 0) ==>
              WrittenBefore(p, input, weight, bias, out, n + 1, 0, 0, 0)
  {
  }

  method OutDims(p: Problem) returns (outH: nat, outW: nat)
    requires WellPosed(p)
    ensures outH == OutH(p) && outW == OutW(p)
  {
    var effH, effW := p.dilationH * (p.filterH - 1) + 1, p.dilationW * (p.filterW - 1) + 1;
    outH := (p.inH + 2 * p.padH - effH) / p.strideH + 1;
    outW := (p.inW + 2 * p.padW - effW) / p.strideW + 1;
  }

  /** The whole nest. Each store is one cell, and the cells cover the output. */
  method NaiveConv2d(p: Problem, input: seq<real>, weight: seq<real>, bias: Option<seq<real>>)
    returns (result: seq<real>)
    requires Supplied(p, input, weight, bias)
    ensures |result| == OutputLength(p)
    ensures forall n: nat, k: nat, oh: nat, ow: nat {:trigger Written(p, input, weight, bias, result, n, k, oh, ow)} ::
              Written(p, input, weight, bias, result, n, k, oh, ow)
  {
    var outH, outW := OutDims(p);
    var cpg, kpg := p.inChannels / p.groups, OutPerGroup(p);
    var out := new real[p.batch * p.outChannels * outH * outW](_ => 0.0);
    hide Written, WellPosed, Index4, OutH, OutW, Biased, Correlation;
    for n := 0 to p.batch
      invariant WrittenBefore(p, input, weight, bias, out[..], n, 0, 0, 0)
    {
      for k := 0 to p.outChannels
        invariant WrittenBefore(p, input, weight, bias, out[..], n, k, 0, 0)
      {
        for oh := 0 to outH
          invariant WrittenBefore(p, input, weight, bias, out[..], n, k, oh, 0)
        {
          FillRow(p, input, weight, bias, out, n, k, oh, outH, outW, cpg, k / kpg);
          NextBlock(p, input, weight, bias, out[..], n, k, oh);
        }
        NextBlock(p, input, weight, bias, out[..], n, k, 0);
      }
      NextBlock(p, input, weight, bias, out[..], n, 0, 0);
    }
    AllWritten(p, input, weight, bias, out[..]);
    return out[..];
  }

  function OutPerGroup(p: Problem): (k: nat)
    requires WellPosed(p)
    ensures 0 < k
  {
    GroupWidthPositive(p);
    p.outChannels / p.groups
  }

  method FillRow(p: Problem, input: seq<real>, weight: seq<real>, bias: Option<seq<real>>, out: array<real>,
                 n: nat, k: nat, oh: nat, outH: nat, outW: nat, cpg: nat, g: nat)
    requires Supplied(p, input, weight, bias) && n < p.batch && k < p.outChannels && oh < outH
    requires outH == OutH(p) && outW == OutW(p) && out.Length == OutputLength(p)
    requires cpg == InPerGroup(p) && g == k / OutPerGroup(p)
    requires WrittenBefore(p, input, weight, bias, out[..], n, k, oh, 0)
    modifies out
    ensures WrittenBefore(p, input, weight, bias, out[..], n, k, oh, outW)
  {
    hide WrittenBefore, WellPosed, Index4, OutH, OutW, Correlation;
    for ow := 0 to outW
      invariant WrittenBefore(p, input, weight, bias, out[..], n, k, oh, ow)
    {
      var acc := AccumulateCell(p, input, weight, cpg, g, n, k, oh, ow);
      if bias.Some? {
        acc := acc + bias.value[k];
      }
      var at := ((n * p.outChannels + k) * outH + oh) * outW + ow;
      ghost var before := out[..];
      IndexUnfold(n, k, oh, ow, p.outChannels, outH, outW);
      WriteOne(p, input, weight, bias, before, n, k, oh, ow, at);
      out[at] := acc;
      assert out[..] == before[at := acc];
    }
  }

  lemma AllWritten(p: Problem, input: seq<real>, weight: seq<real>, bias: Option<seq<real>>, out: seq<real>)
    requires Supplied(p, input, weight, bias) && WrittenBefore(p, input, weight, bias, out, p.batch, 0, 0, 0)
    ensures forall n: nat, k: nat, oh: nat, ow: nat {:trigger Written(p, input, weight, bias, out, n, k, oh, ow)} ::
              Written(p, input, weight, bias, out, n, k, oh, ow)
  {
    forall n: nat, k: nat, oh: nat, ow: nat ensures Written(p, input, weight, bias, out, n, k, oh, ow) {
      if n < p.batch { assert Before(n, k, oh, ow, p.batch, 0, 0, 0); }
    }
  }

  /** Every output position is the place of exactly one cell. */
  lemma OutputCoveredOnce(p: Problem, at: nat) returns (n: nat, k: nat, oh: nat, ow: nat)
    requires WellPosed(p) && at < OutputLength(p)
    ensures Cell(p, n, k, oh, ow) && at == Index4(n, k, oh, ow, p.outChannels, OutH(p), OutW(p))
    ensures forall n': nat, k': nat, oh': nat, ow': nat ::
              Cell(p, n', k', oh', ow') && at == Index4(n', k', oh', ow', p.outChannels, OutH(p), OutW(p)) ==>
              (n', k', oh', ow') == (n, k, oh, ow)
  {
    var hs, ws, ks := OutH(p), OutW(p), p.outChannels;
    hide OutH, OutW;
    var row: nat, plane: nat;
    row, ow := DivSplit(at, p.batch * ks * hs, ws);
    plane, oh := DivSplit(row, p.batch * ks, hs);
    n, k := DivSplit(plane, p.batch, ks);
    assert at == Index4(n, k, oh, ow, ks, hs, ws);
    hide Index4, WellPosed;
    forall n': nat, k': nat, oh': nat, ow': nat |
        Cell(p, n', k', oh', ow') && at == Index4(n', k', oh', ow', ks, hs, ws)
      ensures (n', k', oh', ow') == (n, k, oh, ow)
    {
      Index4Injective(n', k', oh', ow', n, k, oh, ow, ks, hs, ws);
    }
  }

  // ----- the specialised engines compute the same cells -----

  /** On the problems the pointwise engine takes, the output has the input's
      extent and a cell is the product over one column of group channels. */
  lemma PointwiseCell(p: Problem, tiled: bool, input: seq<real>, weight: seq<real>, n: nat, k: nat, oh: nat, ow: nat)
    requires Supplied(p, input, weight, None) && PickEngine(p, tiled) == Conv1x1
    requires Cell(p, n, k, oh, ow)
    ensures OutH(p) == p.inH && OutW(p) == p.inW
    ensures Correlation(p, input, weight, n, k, oh, ow) == ColumnProduct(p, input, weight, n, k, oh, ow, InPerGroup(p))
  {
    assert OutH(p) == (p.inH - 1) / 1 + 1;
    assert OutW(p) == (p.inW - 1) / 1 + 1;
    ColumnIsChannelSum(p, input, weight, n, k, oh, ow, InPerGroup(p));
  }

  ghost function ColumnProduct(p: Problem, input: seq<real>, weight: seq<real>, n: nat, k: nat, y: nat, x: nat,
                               cg: nat): real
    requires Supplied(p, input, weight, None) && n < p.batch && k < p.outChannels && y < p.inH && x < p.inW
    requires cg <= InPerGroup(p)
  {
    if cg == 0 then 0.0
    else
      ColumnProduct(p, input, weight, n, k, y, x, cg - 1) +
      Padded(p, input, n, Channel(p, k, cg - 1), y, x) * Filter(p, weight, k, cg - 1, 0, 0)
  }

  lemma {:induction false} ColumnIsChannelSum(p: Problem, input: seq<real>, weight: seq<real>, n: nat, k: nat,
                                              oh: nat, ow: nat, cg: nat)
    requires Supplied(p, input, weight, None) && Cell(p, n, k, oh, ow) && cg <= InPerGroup(p)
    requires Is1x1(p) && p.padH == 0 && p.padW == 0 && oh < p.inH && ow < p.inW
    ensures ChannelSum(p, input, weight, n, k, oh, ow, cg) == ColumnProduct(p, input, weight, n, k, oh, ow, cg)
  {
    hide Padded, Filter, Index4, OutH, OutW;
    if 0 < cg {
      ColumnIsChannelSum(p, input, weight, n, k, oh, ow, cg - 1);
      assert RowAt(p, oh, 0) == oh && ColAt(p, ow, 0) == ow;
      assert RowSum(p, input, weight, n, k, oh, ow, cg - 1, 0, 0) == 0.0;
      assert PlaneSum(p, input, weight, n, k, oh, ow, cg - 1, 0) == 0.0;
      assert RowSum(p, input, weight, n, k, oh, ow, cg - 1, 0, 1) ==
             0.0 + Tap(p, input, weight, n, k, oh, ow, cg - 1, 0, 0);
    }
  }

  /** On the problems the depthwise engine takes, cell `k` reads channel `k`
      alone, through the one plane of its filter. */
  lemma DepthwiseCell(p: Problem, tiled: bool, input: seq<real>, weight: seq<real>, n: nat, k: nat, oh: nat, ow: nat)
    requires Supplied(p, input, weight, None) && PickEngine(p, tiled) == Depthwise && Cell(p, n, k, oh, ow)
    ensures InPerGroup(p) == 1 && Channel(p, k, 0) == k
    ensures Correlation(p, input, weight, n, k, oh, ow) == PlaneSum(p, input, weight, n, k, oh, ow, 0, p.filterH)
  {
    hide PlaneSum, Index4, OutH, OutW;
    SelfQuotient(p.groups);
    assert k / 1 == k;
    assert ChannelSum(p, input, weight, n, k, oh, ow, 0) == 0.0;
  }

  lemma SelfQuotient(n: nat)
    requires 0 < n
    ensures n / n == 1
  {
    DivModOf(1, 0, n);
  }
}
