/** What the loop nest computes, said without its own sums: what an impulse
    filter gives back, that the result is linear in the filter, and what the
    bias adds. Every filter is a sum of impulses, so this fixes every cell. */
module ConvLaws {
  import opened Arithmetic
  import opened Wrappers
  import opened ConvPlan
  import opened ConvLoop

  // ----- impulses -----

  /** Position of tap (cg, r, s) of filter `k` in the weights. */
  function WeightAt(p: Problem, k: nat, cg: nat, r: nat, s: nat): nat
    requires 0 < p.groups
  {
    ((k * (p.inChannels / p.groups) + cg) * p.filterH + r) * p.filterW + s
  }

  /** Filter `k` is 1 at tap (cg, r, s) and 0 at all its others. */
  ghost predicate IsImpulse(p: Problem, weight: seq<real>, k: nat, cg: nat, r: nat, s: nat)
    requires WellPosed(p)
  {
    forall cg': nat, r': nat, s': nat {:trigger WeightAt(p, k, cg', r', s')} ::
      cg' < p.inChannels / p.groups && r' < p.filterH && s' < p.filterW ==>
        WeightAt(p, k, cg', r', s') < |weight| &&
        weight[WeightAt(p, k, cg', r', s')] == if (cg', r', s') == (cg, r, s) then 1.0 else 0.0
  }

  /** The input element of image `n`, channel `c` at row `y`, column `x`; 0 outside the image. */
  ghost predicate IsElement(p: Problem, input: seq<real>, n: nat, c: nat, y: int, x: int, value: real) {
    if 0 <= y < p.inH && 0 <= x < p.inW then
      var at := ((n * p.inChannels + c) * p.inH + y) * p.inW + x;
      0 <= at < |input| && value == input[at]
    else value == 0.0
  }

  lemma FilterIs(p: Problem, weight: seq<real>, k: nat, cg: nat, r: nat, s: nat)
    requires WellPosed(p) && FilterLength(p) <= |weight|
    requires k < p.outChannels && cg < InPerGroup(p) && r < p.filterH && s < p.filterW
    ensures WeightAt(p, k, cg, r, s) < |weight| && Filter(p, weight, k, cg, r, s) == weight[WeightAt(p, k, cg, r, s)]
  {
    Index4Below(k, cg, r, s, p.outChannels, InPerGroup(p), p.filterH, p.filterW);
    IndexUnfold(k, cg, r, s, InPerGroup(p), p.filterH, p.filterW);
  }

  lemma PaddedIs(p: Problem, input: seq<real>, n: nat, c: nat, y: int, x: int)
    requires WellPosed(p) && InputLength(p) <= |input| && n < p.batch && c < p.inChannels
    ensures IsElement(p, input, n, c, y, x, Padded(p, input, n, c, y, x))
  {
    if 0 <= y < p.inH && 0 <= x < p.inW {
      Index4Below(n, c, y, x, p.batch, p.inChannels, p.inH, p.inW);
      IndexUnfold(n, c, y, x, p.inChannels, p.inH, p.inW);
    }
  }

  /** What sits under the tap. */
  ghost function Under(p: Problem, input: seq<real>, n: nat, k: nat, oh: nat, ow: nat, cg: nat, r: nat, s: nat): real
    requires WellPosed(p) && InputLength(p) <= |input| && Cell(p, n, k, oh, ow) && cg < InPerGroup(p)
  {
    Padded(p, input, n, Channel(p, k, cg), RowAt(p, oh, r), ColAt(p, ow, s))
  }

  lemma {:induction false} ImpulseRow(p: Problem, input: seq<real>, weight: seq<real>, n: nat, k: nat, oh: nat, ow: nat,
                                      cg: nat, r: nat, s: nat, cg': nat, r': nat, s': nat)
    requires Supplied(p, input, weight, None) && Cell(p, n, k, oh, ow) && IsImpulse(p, weight, k, cg, r, s)
    requires cg < InPerGroup(p) && cg' < InPerGroup(p) && r' < p.filterH && s' <= p.filterW
    ensures RowSum(p, input, weight, n, k, oh, ow, cg', r', s') ==
            if (cg', r') == (cg, r) && s < s' then Under(p, input, n, k, oh, ow, cg, r, s) else 0.0
  {
    if 0 < s' {
      ImpulseRow(p, input, weight, n, k, oh, ow, cg, r, s, cg', r', s' - 1);
      FilterIs(p, weight, k, cg', r', s' - 1);
      hide Padded, Filter, WellPosed;
    }
  }

  lemma {:induction false} ImpulsePlane(p: Problem, input: seq<real>, weight: seq<real>, n: nat, k: nat,
                                        oh: nat, ow: nat, cg: nat, r: nat, s: nat, cg': nat, r': nat)
    requires Supplied(p, input, weight, None) && Cell(p, n, k, oh, ow) && IsImpulse(p, weight, k, cg, r, s)
    requires cg < InPerGroup(p) && s < p.filterW && cg' < InPerGroup(p) && r' <= p.filterH
    ensures PlaneSum(p, input, weight, n, k, oh, ow, cg', r') ==
            if cg' == cg && r < r' then Under(p, input, n, k, oh, ow, cg, r, s) else 0.0
  {
    hide IsImpulse, RowSum, Under;
    if 0 < r' {
      ImpulsePlane(p, input, weight, n, k, oh, ow, cg, r, s, cg', r' - 1);
      ImpulseRow(p, input, weight, n, k, oh, ow, cg, r, s, cg', r' - 1, p.filterW);
    }
  }

  lemma {:induction false} ImpulseChannels(p: Problem, input: seq<real>, weight: seq<real>, n: nat, k: nat,
                                           oh: nat, ow: nat, cg: nat, r: nat, s: nat, cg': nat)
    requires Supplied(p, input, weight, None) && Cell(p, n, k, oh, ow) && IsImpulse(p, weight, k, cg, r, s)
    requires cg < InPerGroup(p) && r < p.filterH && s < p.filterW && cg' <= InPerGroup(p)
    ensures ChannelSum(p, input, weight, n, k, oh, ow, cg') ==
            if cg < cg' then Under(p, input, n, k, oh, ow, cg, r, s) else 0.0
  {
    hide IsImpulse, PlaneSum, Under;
    if 0 < cg' {
      ImpulseChannels(p, input, weight, n, k, oh, ow, cg, r, s, cg' - 1);
      ImpulsePlane(p, input, weight, n, k, oh, ow, cg, r, s, cg' - 1, p.filterH);
    }
  }

  /** `result` is what the loop nest returns. */
  ghost predicate IsResult(p: Problem, input: seq<real>, weight: seq<real>, bias: Option<seq<real>>, result: seq<real>)
    requires Supplied(p, input, weight, bias)
  {
    && |result| == OutputLength(p)
    && forall n: nat, k: nat, oh: nat, ow: nat {:trigger Written(p, input, weight, bias, result, n, k, oh, ow)} ::
         Written(p, input, weight, bias, result, n, k, oh, ow)
  }

  /** Position of cell (n, k, oh, ow) in the result. */
  ghost function ResultAt(p: Problem, n: nat, k: nat, oh: nat, ow: nat): nat
    requires WellPosed(p)
  {
    ((n * p.outChannels + k) * OutH(p) + oh) * OutW(p) + ow
  }

  lemma ResultAtIs(p: Problem, n: nat, k: nat, oh: nat, ow: nat)
    requires Cell(p, n, k, oh, ow)
    ensures ResultAt(p, n, k, oh, ow) == Index4(n, k, oh, ow, p.outChannels, OutH(p), OutW(p)) < OutputLength(p)
  {
    hide OutH, OutW;
    Index4Below(n, k, oh, ow, p.batch, p.outChannels, OutH(p), OutW(p));
    IndexUnfold(n, k, oh, ow, p.outChannels, OutH(p), OutW(p));
  }

  lemma ResultCell(p: Problem, input: seq<real>, weight: seq<real>, bias: Option<seq<real>>, result: seq<real>,
                   n: nat, k: nat, oh: nat, ow: nat)
    requires Supplied(p, input, weight, bias) && IsResult(p, input, weight, bias, result) && Cell(p, n, k, oh, ow)
    ensures ResultAt(p, n, k, oh, ow) < |result|
    ensures result[ResultAt(p, n, k, oh, ow)] == Biased(p, input, weight, bias, n, k, oh, ow)
  {
    hide Biased, OutH, OutW, WellPosed;
    ResultAtIs(p, n, k, oh, ow);
    assert Written(p, input, weight, bias, result, n, k, oh, ow);
  }

  /** For every stride, dilation, padding and grouping: a filter that is 1 at one
      tap returns the input shifted by that tap, the padding being zero. */
  lemma ImpulseResponse(p: Problem, input: seq<real>, weight: seq<real>, result: seq<real>,
                        n: nat, k: nat, oh: nat, ow: nat, cg: nat, r: nat, s: nat)
    requires Supplied(p, input, weight, None) && IsResult(p, input, weight, None, result) && Cell(p, n, k, oh, ow)
    requires cg < p.inChannels / p.groups && r < p.filterH && s < p.filterW && IsImpulse(p, weight, k, cg, r, s)
    ensures 0 < p.outChannels / p.groups && ResultAt(p, n, k, oh, ow) < |result|
    ensures IsElement(p, input, n, (k / (p.outChannels / p.groups)) * (p.inChannels / p.groups) + cg,
                      oh * p.strideH + r * p.dilationH - p.padH, ow * p.strideW + s * p.dilationW - p.padW,
                      result[ResultAt(p, n, k, oh, ow)])
  {
    GroupWidthPositive(p);
    ResultCell(p, input, weight, None, result, n, k, oh, ow);
    ImpulseChannels(p, input, weight, n, k, oh, ow, cg, r, s, InPerGroup(p));
    PaddedIs(p, input, n, Channel(p, k, cg), RowAt(p, oh, r), ColAt(p, ow, s));
    hide IsElement, IsImpulse, ChannelSum, WellPosed, ResultAt, IsResult, Padded;
  }

  // ----- linearity -----

  /** Weight by weight, `w` is `a * u + b * v`. */
  ghost predicate IsCombination(p: Problem, w: seq<real>, a: real, u: seq<real>, b: real, v: seq<real>)
    requires WellPosed(p)
  {
    && FilterLength(p) <= |w| && FilterLength(p) <= |u| && FilterLength(p) <= |v|
    && forall i :: 0 <= i < FilterLength(p) ==> w[i] == a * u[i] + b * v[i]
  }

  function Blend(a: real, x: real, b: real, y: real): real { a * x + b * y }

  lemma BlendAdds(a: real, x: real, dx: real, b: real, y: real, dy: real)
    ensures Blend(a, x, b, y) + Blend(a, dx, b, dy) == Blend(a, x + dx, b, y + dy)
  {
  }

  lemma BlendZero(a: real, b: real)
    ensures Blend(a, 0.0, b, 0.0) == 0.0
  {
  }

  lemma CombinedTap(p: Problem, input: seq<real>, w: seq<real>, a: real, u: seq<real>, b: real, v: seq<real>,
                    n: nat, k: nat, oh: nat, ow: nat, cg: nat, r: nat, s: nat)
    requires Supplied(p, input, w, None) && IsCombination(p, w, a, u, b, v) && Cell(p, n, k, oh, ow)
    requires cg < InPerGroup(p) && r < p.filterH && s < p.filterW
    ensures Tap(p, input, w, n, k, oh, ow, cg, r, s) ==
            Blend(a, Tap(p, input, u, n, k, oh, ow, cg, r, s), b, Tap(p, input, v, n, k, oh, ow, cg, r, s))
  {
    Index4Below(k, cg, r, s, p.outChannels, InPerGroup(p), p.filterH, p.filterW);
    var x := Padded(p, input, n, Channel(p, k, cg), RowAt(p, oh, r), ColAt(p, ow, s));
    Distribute(x, a, Filter(p, u, k, cg, r, s), b, Filter(p, v, k, cg, r, s));
    hide Padded, Index4, WellPosed;
  }

  lemma Distribute(x: real, a: real, y: real, b: real, z: real)
    ensures x * (a * y + b * z) == a * (x * y) + b * (x * z)
  {
  }

  lemma {:induction false} CombinedRow(p: Problem, input: seq<real>, w: seq<real>, a: real, u: seq<real>, b: real,
                                       v: seq<real>, n: nat, k: nat, oh: nat, ow: nat, cg: nat, r: nat, s: nat)
    requires Supplied(p, input, w, None) && IsCombination(p, w, a, u, b, v) && Cell(p, n, k, oh, ow)
    requires cg < InPerGroup(p) && r < p.filterH && s <= p.filterW
    ensures RowSum(p, input, w, n, k, oh, ow, cg, r, s) ==
            Blend(a, RowSum(p, input, u, n, k, oh, ow, cg, r, s), b, RowSum(p, input, v, n, k, oh, ow, cg, r, s))
  {
    if 0 < s {
      CombinedRow(p, input, w, a, u, b, v, n, k, oh, ow, cg, r, s - 1);
      CombinedTap(p, input, w, a, u, b, v, n, k, oh, ow, cg, r, s - 1);
      hide Tap, WellPosed, IsCombination;
      BlendAdds(a, RowSum(p, input, u, n, k, oh, ow, cg, r, s - 1), Tap(p, input, u, n, k, oh, ow, cg, r, s - 1),
                b, RowSum(p, input, v, n, k, oh, ow, cg, r, s - 1), Tap(p, input, v, n, k, oh, ow, cg, r, s - 1));
      hide Blend;
    } else {
      BlendZero(a, b);
    }
  }

  lemma {:induction false} CombinedPlane(p: Problem, input: seq<real>, w: seq<real>, a: real, u: seq<real>, b: real,
                                         v: seq<real>, n: nat, k: nat, oh: nat, ow: nat, cg: nat, r: nat)
    requires Supplied(p, input, w, None) && IsCombination(p, w, a, u, b, v) && Cell(p, n, k, oh, ow)
    requires cg < InPerGroup(p) && r <= p.filterH
    ensures PlaneSum(p, input, w, n, k, oh, ow, cg, r) ==
            Blend(a, PlaneSum(p, input, u, n, k, oh, ow, cg, r), b, PlaneSum(p, input, v, n, k, oh, ow, cg, r))
  {
    assert Supplied(p, input, u, None) && Supplied(p, input, v, None);
    hide RowSum, IsCombination, Blend, Supplied, WellPosed;
    if 0 < r {
      CombinedPlane(p, input, w, a, u, b, v, n, k, oh, ow, cg, r - 1);
      CombinedRow(p, input, w, a, u, b, v, n, k, oh, ow, cg, r - 1, p.filterW);
      var du := RowSum(p, input, u, n, k, oh, ow, cg, r - 1, p.filterW);
      var dv := RowSum(p, input, v, n, k, oh, ow, cg, r - 1, p.filterW);
      BlendAdds(a, PlaneSum(p, input, u, n, k, oh, ow, cg, r - 1), du,
                b, PlaneSum(p, input, v, n, k, oh, ow, cg, r - 1), dv);
    } else {
      BlendZero(a, b);
    }
  }

  lemma {:induction false} CombinedChannels(p: Problem, input: seq<real>, w: seq<real>, a: real, u: seq<real>, b: real,
                                            v: seq<real>, n: nat, k: nat, oh: nat, ow: nat, cg: nat)
    requires Supplied(p, input, w, None) && IsCombination(p, w, a, u, b, v) && Cell(p, n, k, oh, ow)
    requires cg <= InPerGroup(p)
    ensures ChannelSum(p, input, w, n, k, oh, ow, cg) ==
            Blend(a, ChannelSum(p, input, u, n, k, oh, ow, cg), b, ChannelSum(p, input, v, n, k, oh, ow, cg))
  {
    assert Supplied(p, input, u, None) && Supplied(p, input, v, None);
    hide PlaneSum, IsCombination, Blend, Supplied, WellPosed;
    if 0 < cg {
      CombinedChannels(p, input, w, a, u, b, v, n, k, oh, ow, cg - 1);
      CombinedPlane(p, input, w, a, u, b, v, n, k, oh, ow, cg - 1, p.filterH);
      var du := PlaneSum(p, input, u, n, k, oh, ow, cg - 1, p.filterH);
      var dv := PlaneSum(p, input, v, n, k, oh, ow, cg - 1, p.filterH);
      BlendAdds(a, ChannelSum(p, input, u, n, k, oh, ow, cg - 1), du,
                b, ChannelSum(p, input, v, n, k, oh, ow, cg - 1), dv);
    } else {
      BlendZero(a, b);
    }
  }

  /** Linear in the filter, cell by cell. */
  lemma LinearInFilter(p: Problem, input: seq<real>, w: seq<real>, a: real, u: seq<real>, b: real, v: seq<real>,
                       rw: seq<real>, ru: seq<real>, rv: seq<real>, n: nat, k: nat, oh: nat, ow: nat)
    requires Supplied(p, input, w, None) && IsCombination(p, w, a, u, b, v) && Cell(p, n, k, oh, ow)
    requires IsResult(p, input, w, None, rw) && IsResult(p, input, u, None, ru) && IsResult(p, input, v, None, rv)
    ensures var at := ResultAt(p, n, k, oh, ow);
            at < |rw| && at < |ru| && at < |rv| && rw[at] == a * ru[at] + b * rv[at]
  {
    assert Supplied(p, input, u, None) && Supplied(p, input, v, None);
    hide Supplied, WellPosed, OutH, OutW, ResultAt, IsResult, IsCombination, Biased, Correlation;
    hide InPerGroup, FilterLength, InputLength;
    PlainCell(p, input, w, rw, n, k, oh, ow);
    PlainCell(p, input, u, ru, n, k, oh, ow);
    PlainCell(p, input, v, rv, n, k, oh, ow);
    CombinedCell(p, input, w, a, u, b, v, n, k, oh, ow);
  }

  lemma PlainCell(p: Problem, input: seq<real>, weight: seq<real>, result: seq<real>, n: nat, k: nat, oh: nat, ow: nat)
    requires Supplied(p, input, weight, None) && IsResult(p, input, weight, None, result) && Cell(p, n, k, oh, ow)
    ensures ResultAt(p, n, k, oh, ow) < |result|
    ensures result[ResultAt(p, n, k, oh, ow)] == Correlation(p, input, weight, n, k, oh, ow)
  {
    hide Supplied, WellPosed, OutH, OutW, ResultAt, IsResult, Correlation;
    ResultCell(p, input, weight, None, result, n, k, oh, ow);
  }

  lemma CombinedCell(p: Problem, input: seq<real>, w: seq<real>, a: real, u: seq<real>, b: real, v: seq<real>,
                     n: nat, k: nat, oh: nat, ow: nat)
    requires Supplied(p, input, w, None) && IsCombination(p, w, a, u, b, v) && Cell(p, n, k, oh, ow)
    requires Supplied(p, input, u, None) && Supplied(p, input, v, None)
    ensures Correlation(p, input, w, n, k, oh, ow) ==
            Blend(a, Correlation(p, input, u, n, k, oh, ow), b, Correlation(p, input, v, n, k, oh, ow))
  {
    CombinedChannels(p, input, w, a, u, b, v, n, k, oh, ow, InPerGroup(p));
    hide ChannelSum, WellPosed, Blend;
  }

  /** A bias adds its channel's element to every cell. */
  lemma BiasAdds(p: Problem, input: seq<real>, weight: seq<real>, bias: seq<real>, plain: seq<real>, biased: seq<real>,
                 n: nat, k: nat, oh: nat, ow: nat)
    requires Supplied(p, input, weight, Some(bias)) && Cell(p, n, k, oh, ow)
    requires IsResult(p, input, weight, None, plain) && IsResult(p, input, weight, Some(bias), biased)
    ensures var at := ResultAt(p, n, k, oh, ow);
            at < |plain| && at < |biased| && biased[at] == plain[at] + bias[k]
  {
    ResultCell(p, input, weight, None, plain, n, k, oh, ow);
    ResultCell(p, input, weight, Some(bias), biased, n, k, oh, ow);
    hide Correlation, WellPosed, ResultAt, IsResult;
  }

  // ----- the output extents -----

  /** An axis has an output position exactly where the whole dilated window lies
      inside the padded input. */
  lemma WindowsIff(inDim: nat, begin: nat, end: nat, kernel: nat, stride: nat, dilation: nat, o: nat)
    requires 0 < kernel && 0 < stride && Effective(kernel, dilation) <= inDim + begin + end
    ensures o < OutExtent(inDim, begin, end, kernel, stride, dilation) <==>
            o * stride + (kernel - 1) * dilation < inDim + begin + end
  {
    var room := inDim + begin + end - Effective(kernel, dilation);
    var q := room / stride;
    assert room == q * stride + room % stride;
    if o <= q { MulOrder(o, q, stride); } else { MulStep(q, o, stride); }
    assert Effective(kernel, dilation) == (kernel - 1) * dilation + 1;
  }
}
