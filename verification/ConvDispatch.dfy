/** A whole convolution dispatch: the checks that decline, the engine, the
    epilogue, and the meaning of the result. */
module ConvDispatch {
  import opened Arithmetic
  import opened Wrappers
  import opened Floats
  import opened Shapes
  import opened ConvPlan
  import L = ConvLoop
  import opened ConvEpilogue

  datatype Tensor = Tensor(data: seq<real>, shape: Shape)

  function Lift(s: seq<real>): seq<F32> { seq(|s|, i requires 0 <= i < |s| => Fin(s[i])) }

  /** The bias a dispatch works with: the first `outChannels` elements. */
  function BiasData(bias: Option<Tensor>, channels: nat): (r: Option<seq<real>>)
    requires bias.Some? ==> channels <= |bias.value.data|
    ensures r.Some? <==> bias.Some?
    ensures r.Some? ==> |r.value| == channels && forall k :: 0 <= k < channels ==> r.value[k] == bias.value.data[k]
  {
    if bias.Some? then Some(bias.value.data[..channels]) else None
  }

  ghost predicate ParamsShape(params: ConvParams) {
    |params.strides| == 2 && |params.dilations| == 2 && |params.pads| == 4
  }

  /** Claimed: an accepted problem whose buffers are long enough. */
  ghost predicate Claimed(input: Tensor, weight: Tensor, bias: Option<Tensor>, params: ConvParams)
    requires ParamsShape(params)
  {
    var problem := ProblemFromParams(input.shape, weight.shape, params);
    && problem.Some?
    && (AcceptedIsWellPosed(input.shape, weight.shape, params);
        L.InputLength(problem.value) <= |input.data| && L.FilterLength(problem.value) <= |weight.data|)
    && (bias.Some? ==>
          bias.value.shape == [problem.value.outChannels] && problem.value.outChannels <= |bias.value.data|)
  }

  lemma ClaimedIsSupplied(input: Tensor, weight: Tensor, bias: Option<Tensor>, params: ConvParams)
    requires ParamsShape(params) && Claimed(input, weight, bias, params)
    ensures var p := ProblemFromParams(input.shape, weight.shape, params).value;
            && L.Supplied(p, input.data, weight.data, None)
            && L.Supplied(p, input.data, weight.data, BiasData(bias, p.outChannels))
  {
    AcceptedIsWellPosed(input.shape, weight.shape, params);
  }

  /** A grouped, strided, padded node with a bias and a clip is claimed. */
  lemma ClaimedExample()
    ensures var params := ConvParams([2, 2], [1, 1, 1, 1], [1, 1], 2, Clip(Fin(0.0), Fin(6.0)));
            && Claimed(Tensor(seq(18, _ => 1.0), [1, 2, 3, 3]), Tensor(seq(18, _ => 1.0), [2, 1, 3, 3]),
                       Some(Tensor([1.0, 2.0], [2])), params)
            && (var p := ProblemFromParams([1, 2, 3, 3], [2, 1, 3, 3], params).value; OutH(p) == OutW(p) == 2)
  {
    var p := ProblemFromParams([1, 2, 3, 3], [2, 1, 3, 3],
                               ConvParams([2, 2], [1, 1, 1, 1], [1, 1], 2, Clip(Fin(0.0), Fin(6.0))));
    assert p == Some(Problem(1, 2, 3, 3, 2, 3, 3, 1, 1, 2, 2, 1, 1, 2));
    assert L.InputLength(p.value) == 18 && L.FilterLength(p.value) == 18;
  }

  /** The result: at every cell, the activation of correlation plus bias. */
  ghost predicate IsConvolution(p: Problem, input: seq<real>, weight: seq<real>, bias: Option<seq<real>>,
                                act: Activation, out: seq<F32>)
    requires L.Supplied(p, input, weight, bias)
  {
    && |out| == L.OutputLength(p)
    && forall n: nat, k: nat, oh: nat, ow: nat {:trigger L.Cell(p, n, k, oh, ow)} :: L.Cell(p, n, k, oh, ow) ==>
         var at := L.Index4(n, k, oh, ow, p.outChannels, OutH(p), OutW(p));
         at < |out| && out[at] == Activated(act, Fin(L.Biased(p, input, weight, bias, n, k, oh, ow)))
  }

  /** `out` is what the claimed node computes. */
  ghost predicate IsNodeOutput(input: Tensor, weight: Tensor, bias: Option<Tensor>, params: ConvParams, out: seq<F32>)
    requires ParamsShape(params) && Claimed(input, weight, bias, params)
  {
    var p := ProblemFromParams(input.shape, weight.shape, params).value;
    ClaimedIsSupplied(input, weight, bias, params);
    IsConvolution(p, input.data, weight.data, BiasData(bias, p.outChannels), params.activation, out)
  }

  /** NCHW position (n, k, oh, ow) lies in channel `k`. */
  lemma CellChannel(p: Problem, n: nat, k: nat, oh: nat, ow: nat)
    requires L.Cell(p, n, k, oh, ow)
    ensures ChannelOf(L.Index4(n, k, oh, ow, p.outChannels, OutH(p), OutW(p)), p.outChannels, OutH(p) * OutW(p)) == k
  {
    hide OutH, OutW, WellPosed, L.Index4, ChannelOf;
    BlockOf(n, k, oh, ow, p.outChannels, OutH(p), OutW(p));
  }

  lemma BlockOf(n: nat, k: nat, oh: nat, ow: nat, ks: nat, hs: nat, ws: nat)
    requires k < ks && oh < hs && ow < ws
    ensures 0 < hs * ws && ChannelOf(L.Index4(n, k, oh, ow, ks, hs, ws), ks, hs * ws) == k
  {
    MulStep(oh, hs, ws);
    SplitBlock(n * ks + k, oh, ow, hs, ws);
    DivModOf(n * ks + k, oh * ws + ow, hs * ws);
    DivModOf(n, k, ks);
  }

  lemma SplitBlock(row: nat, oh: nat, ow: nat, hs: nat, ws: nat)
    ensures (row * hs + oh) * ws + ow == row * (hs * ws) + (oh * ws + ow)
  {
    AxisArithmetic(row, hs, oh, ws);
  }

  // ----- the engines -----

  /** The engines' kernels, foreign code: what each writes at every position. */
  type Kernels = (Engine, Problem, seq<real>, seq<real>, Option<seq<real>>, nat) -> F32

  /** What an engine is relied on for: the correlation of every cell, plus the
      bias if it was given one. */
  ghost predicate EngineResult(p: Problem, input: seq<real>, weight: seq<real>, bias: Option<seq<real>>, out: seq<F32>)
    requires L.Supplied(p, input, weight, bias)
  {
    IsConvolution(p, input, weight, bias, NoActivation, out)
  }

  /** The reference loop nest is such an engine. */
  lemma OracleIsEngineResult(p: Problem, input: seq<real>, weight: seq<real>, bias: Option<seq<real>>, conv: seq<real>)
    requires L.Supplied(p, input, weight, bias) && |conv| == L.OutputLength(p)
    requires forall n: nat, k: nat, oh: nat, ow: nat {:trigger L.Written(p, input, weight, bias, conv, n, k, oh, ow)} ::
               L.Written(p, input, weight, bias, conv, n, k, oh, ow)
    ensures EngineResult(p, input, weight, bias, Lift(conv))
  {
    hide OutH, OutW, L.Biased, L.Index4;
    forall n: nat, k: nat, oh: nat, ow: nat | L.Cell(p, n, k, oh, ow)
      ensures var at := L.Index4(n, k, oh, ow, p.outChannels, OutH(p), OutW(p));
              at < |conv| && Lift(conv)[at] == Fin(L.Biased(p, input, weight, bias, n, k, oh, ow))
    {
      assert L.Written(p, input, weight, bias, conv, n, k, oh, ow);
    }
  }

  /** One launch: the kernel fills the output buffer. */
  method LaunchEngine(kernels: Kernels, engine: Engine, p: Problem, input: seq<real>, weight: seq<real>,
                      bias: Option<seq<real>>, volume: nat) returns (output: array<F32>)
    ensures fresh(output) && output.Length == volume
    ensures output[..] == Launched(kernels, engine, p, input, weight, bias, volume)
    ensures !engine.ImplicitGemm? ==> output[..] == Launched(kernels, engine, p, input, weight, None, volume)
  {
    output := new F32[volume](i requires 0 <= i => kernels(engine, p, input, weight, EngineBias(engine, bias), i));
    if !engine.ImplicitGemm? { assert EngineBias(engine, bias) == EngineBias(engine, None); }
  }

  ghost function Launched(kernels: Kernels, engine: Engine, p: Problem, input: seq<real>, weight: seq<real>,
                          bias: Option<seq<real>>, volume: nat): (out: seq<F32>)
    ensures |out| == volume
  {
    seq(volume, i requires 0 <= i => kernels(engine, p, input, weight, EngineBias(engine, bias), i))
  }

  lemma VolumeOf(p: Problem, spatial: nat)
    requires WellPosed(p) && spatial == OutH(p) * OutW(p)
    ensures L.OutputLength(p) == p.batch * p.outChannels * spatial
  {
    AxisArithmetic(p.batch * p.outChannels, OutH(p), 0, OutW(p));
  }

  lemma LaunchedAt(kernels: Kernels, engine: Engine, p: Problem, input: seq<real>, weight: seq<real>,
                   bias: Option<seq<real>>, volume: nat, i: nat)
    requires i < volume
    ensures Launched(kernels, engine, p, input, weight, bias, volume)[i] ==
            kernels(engine, p, input, weight, EngineBias(engine, bias), i)
  {
  }

  /** A bias reaches the kernel exactly on the implicit-GEMM engine: what the
      other two leave in the buffer cannot depend on it. */
  lemma BiasReachesKernelIff(engine: Engine, p: Problem, input: seq<real>, weight: seq<real>, bias: seq<real>,
                             volume: nat)
    requires 0 < volume
    ensures (exists kernels: Kernels :: Launched(kernels, engine, p, input, weight, Some(bias), volume) !=
                                        Launched(kernels, engine, p, input, weight, None, volume)) <==>
            engine.ImplicitGemm?
  {
    var kernels: Kernels := (e: Engine, q: Problem, x: seq<real>, w: seq<real>, b: Option<seq<real>>, i: nat) =>
      if b.Some? then Fin(1.0) else Fin(0.0);
    LaunchedAt(kernels, engine, p, input, weight, Some(bias), volume, 0);
    LaunchedAt(kernels, engine, p, input, weight, None, volume, 0);
    if !engine.ImplicitGemm? { assert EngineBias(engine, Some(bias)) == EngineBias(engine, None); }
  }

  function LiftBias(bias: Option<seq<real>>): Option<seq<F32>> {
    if bias.Some? then Some(Lift(bias.value)) else None
  }

  /** The chosen engine does its part on this node. */
  ghost predicate EngineDelivers(kernels: Kernels, input: Tensor, weight: Tensor, bias: Option<Tensor>,
                                 params: ConvParams, tiled: bool)
    requires ParamsShape(params) && Claimed(input, weight, bias, params)
  {
    var p := ProblemFromParams(input.shape, weight.shape, params).value;
    ClaimedIsSupplied(input, weight, bias, params);
    Delivers(kernels, PickEngine(p, tiled), p, input.data, weight.data, BiasData(bias, p.outChannels))
  }

  /** At every cell the kernel writes the correlation of this input with this
      weight, plus the bias if the engine was given one. */
  ghost predicate Delivers(kernels: Kernels, engine: Engine, p: Problem, input: seq<real>, weight: seq<real>,
                           bias: Option<seq<real>>)
    requires L.Supplied(p, input, weight, None) && L.Supplied(p, input, weight, bias)
  {
    var given := if engine.ImplicitGemm? then bias else None;
    forall n: nat, k: nat, oh: nat, ow: nat {:trigger L.Cell(p, n, k, oh, ow)} :: L.Cell(p, n, k, oh, ow) ==>
      kernels(engine, p, input, weight, given, L.Index4(n, k, oh, ow, p.outChannels, OutH(p), OutW(p))) ==
      Fin(L.Biased(p, input, weight, given, n, k, oh, ow))
  }

  /** `tiled` is the tiling plan's answer. What the result is worth rests on
      what the engine delivered; everything else is settled here. */
  method CudaConvBound(kernels: Kernels, input: Tensor, weight: Tensor, bias: Option<Tensor>, params: ConvParams,
                       placement: Placement, tiled: bool) returns (r: ConvOutput)
    requires ParamsShape(params)
    ensures r.Declined? <==> !Claimed(input, weight, bias, params)
    ensures !r.Declined? && EngineDelivers(kernels, input, weight, bias, params, tiled) ==>
              IsNodeOutput(input, weight, bias, params, if r.OnHost? then r.data else r.contents)
    ensures !r.Declined? ==>
              var p := ProblemFromParams(input.shape, weight.shape, params).value;
              r.OnDevice? <==> placement == Device && !params.activation.Clip? &&
                               (bias.None? || PickEngine(p, tiled) == ImplicitGemm)
  {
    var problem := ProblemFromParams(input.shape, weight.shape, params);
    if problem.None? {
      return Declined;
    }
    AcceptedIsWellPosed(input.shape, weight.shape, params);
    var p := problem.value;
    var outH, outW := L.OutDims(p);
    var inNeeded := p.batch * p.inChannels * p.inH * p.inW;
    var filNeeded := p.outChannels * (p.inChannels / p.groups) * p.filterH * p.filterW;
    if |input.data| < inNeeded || |weight.data| < filNeeded {
      return Declined;
    }
    if bias.Some? {
      if |bias.value.shape| != 1 || bias.value.shape[0] != p.outChannels || |bias.value.data| < p.outChannels {
        return Declined;
      }
      assert bias.value.shape == [p.outChannels];
    }
    ClaimedIsSupplied(input, weight, bias, params);
    var biasData := BiasData(bias, p.outChannels);
    var engine := PickEngine(p, tiled);
    hide Claimed, OutH, OutW, ProblemFromParams, PickEngine, Activated, Delivers;
    r := Execute(kernels, engine, p, input.data, weight.data, biasData, params.activation, placement, outH, outW);
  }

  /** Engine, then epilogue. */
  method Execute(kernels: Kernels, engine: Engine, p: Problem, input: seq<real>, weight: seq<real>,
                 bias: Option<seq<real>>, act: Activation, placement: Placement, outH: nat, outW: nat)
    returns (r: ConvOutput)
    requires L.Supplied(p, input, weight, None) && L.Supplied(p, input, weight, bias)
    requires outH == OutH(p) && outW == OutW(p) && (bias.Some? ==> |bias.value| == p.outChannels)
    ensures !r.Declined?
    ensures r.OnDevice? <==> placement == Device && !act.Clip? && (bias.None? || engine == ImplicitGemm)
    ensures Delivers(kernels, engine, p, input, weight, bias) ==>
              IsConvolution(p, input, weight, bias, act, if r.OnHost? then r.data else r.contents)
  {
    var spatial := outH * outW;
    VolumeOf(p, spatial);
    var output := LaunchEngine(kernels, engine, p, input, weight, bias, p.batch * p.outChannels * outH * outW);
    ghost var before := output[..];
    hide OutH, OutW, Activated, L.Supplied, Launched, Delivers;
    var lifted := LiftBias(bias);
    r := FinishConv(engine, p.batch, p.outChannels, spatial, lifted, act, placement, output);
    if Delivers(kernels, engine, p, input, weight, bias) {
      DeliveredIs(kernels, engine, p, input, weight, bias, before);
      NodeIsConvolution(engine, p, input, weight, bias, act, before, spatial, if r.OnHost? then r.data else r.contents);
    }
  }

  lemma DeliveredIs(kernels: Kernels, engine: Engine, p: Problem, input: seq<real>, weight: seq<real>,
                    bias: Option<seq<real>>, before: seq<F32>)
    requires L.Supplied(p, input, weight, None) && L.Supplied(p, input, weight, bias)
    requires Delivers(kernels, engine, p, input, weight, bias)
    requires before == Launched(kernels, engine, p, input, weight, bias, L.OutputLength(p))
    ensures EngineResult(p, input, weight, EngineBias(engine, bias), before)
  {
    hide OutH, OutW, L.Biased, L.Index4, L.Supplied;
    var given := EngineBias(engine, bias);
    forall n: nat, k: nat, oh: nat, ow: nat | L.Cell(p, n, k, oh, ow)
      ensures var at := L.Index4(n, k, oh, ow, p.outChannels, OutH(p), OutW(p));
              at < |before| &&
              before[at] == Activated(NoActivation, Fin(L.Biased(p, input, weight, given, n, k, oh, ow)))
    {
      L.Index4Below(n, k, oh, ow, p.batch, p.outChannels, OutH(p), OutW(p));
    }
  }

  lemma NodeIsConvolution(engine: Engine, p: Problem, input: seq<real>, weight: seq<real>, bias: Option<seq<real>>,
                          act: Activation, before: seq<F32>, spatial: nat, out: seq<F32>)
    requires L.Supplied(p, input, weight, None) && L.Supplied(p, input, weight, bias)
    requires spatial == OutH(p) * OutW(p) && (bias.Some? ==> |bias.value| == p.outChannels)
    requires EngineResult(p, input, weight, EngineBias(engine, bias), before)
    requires Finished(before, OwedBias(engine, LiftBias(bias)), spatial, act, out)
    ensures IsConvolution(p, input, weight, bias, act, out)
  {
    hide OutH, OutW, L.Correlation, L.Index4, L.Supplied;
    var given := EngineBias(engine, bias);
    forall n: nat, k: nat, oh: nat, ow: nat | L.Cell(p, n, k, oh, ow)
      ensures var at := L.Index4(n, k, oh, ow, p.outChannels, OutH(p), OutW(p));
              at < |out| && out[at] == Activated(act, Fin(L.Biased(p, input, weight, bias, n, k, oh, ow)))
    {
      CellChannel(p, n, k, oh, ow);
      var at := L.Index4(n, k, oh, ow, p.outChannels, OutH(p), OutW(p));
      assert before[at] == Activated(NoActivation, Fin(L.Biased(p, input, weight, given, n, k, oh, ow)));
      hide Activated;
    }
  }
}
