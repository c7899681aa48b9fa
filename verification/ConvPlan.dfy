/** Which `Conv` nodes are claimed, with what padding, and by which engine. */
module ConvPlan {
  import opened Arithmetic
  import opened Wrappers
  import opened Floats
  import opened Shapes

  datatype Activation = NoActivation | Relu | Clip(min: F32, max: F32)

  /** The attributes a node may carry; an absent list is empty. */
  datatype Attributes = Attributes(
    strides: seq<int>,
    dilations: seq<int>,
    pads: seq<int>,
    group: Option<int>,
    kernelShape: seq<int>,
    autoPad: string,
    activation: string,
    activationMin: Option<F32>,
    activationMax: Option<F32>)

  /** `pads` is top, left, bottom, right. */
  datatype ConvParams = ConvParams(strides: seq<nat>, pads: seq<nat>, dilations: seq<nat>, group: nat,
                                   activation: Activation)

  // ----- padding -----

  function CeilDiv(a: nat, b: nat): nat
    requires 0 < b
  {
    (a + b - 1) / b
  }

  function Effective(kernel: nat, dilation: nat): nat
    requires 0 < kernel
  {
    dilation * (kernel - 1) + 1
  }

  /** The padding one axis needs in total. */
  function SameTotal(inDim: nat, kernel: nat, stride: nat, dilation: nat): nat
    requires 0 < kernel
  {
    var outDim := CeilDiv(inDim, if stride < 1 then 1 else stride);
    SaturatingSub(SaturatingSub(outDim, 1) * stride + Effective(kernel, dilation), inDim)
  }

  function SamePadSplit(inDim: nat, kernel: nat, stride: nat, dilation: nat, lower: bool): (nat, nat)
    requires 0 < kernel
  {
    var needed := SameTotal(inDim, kernel, stride, dilation);
    var half := needed / 2;
    if lower then (needed - half, half) else (half, needed - half)
  }

  /** The sides add up to the total; the odd element goes to the end for
      SAME_UPPER, to the beginning for SAME_LOWER. */
  lemma SplitSides(inDim: nat, kernel: nat, stride: nat, dilation: nat, lower: bool)
    requires 0 < kernel
    ensures var (begin, end) := SamePadSplit(inDim, kernel, stride, dilation, lower);
            && begin + end == SameTotal(inDim, kernel, stride, dilation)
            && if lower then end <= begin <= end + 1 else begin <= end <= begin + 1
  {
    hide SameTotal;
  }

  /** Output extent of a convolution axis. */
  function OutExtent(inDim: nat, begin: nat, end: nat, kernel: nat, stride: nat, dilation: nat): nat
    requires 0 < kernel && 0 < stride && Effective(kernel, dilation) <= inDim + begin + end
  {
    (inDim + begin + end - Effective(kernel, dilation)) / stride + 1
  }

  lemma CeilBrackets(a: nat, b: nat)
    requires 0 < a && 0 < b
    ensures 0 < CeilDiv(a, b) && (CeilDiv(a, b) - 1) * b < a <= CeilDiv(a, b) * b
  {
    var q := CeilDiv(a, b);
    assert a + b - 1 == q * b + (a + b - 1) % b;
    assert (q - 1) * b == q * b - b;
    MulOrder(q, 0, b);
  }

  lemma QuotientIs(n: nat, b: nat, q: nat)
    requires 0 < b && q * b <= n < q * b + b
    ensures n / b == q
  {
    DivModOf(q, n - q * b, b);
  }

  /** SAME padding gives output extent ceil(in / stride), also where it
      saturates to zero; the sides differ by at most one, and LOWER mirrors UPPER. */
  lemma SameGivesCeil(inDim: nat, kernel: nat, stride: nat, dilation: nat, lower: bool)
    requires 0 < inDim && 0 < kernel && 0 < stride && 0 < dilation
    ensures var (begin, end) := SamePadSplit(inDim, kernel, stride, dilation, lower);
            && Effective(kernel, dilation) <= inDim + begin + end
            && OutExtent(inDim, begin, end, kernel, stride, dilation) == CeilDiv(inDim, stride)
            && (if lower then end <= begin <= end + 1 else begin <= end <= begin + 1)
            && SamePadSplit(inDim, kernel, stride, dilation, !lower) == (end, begin)
  {
    hide CeilDiv;
    var out := CeilDiv(inDim, stride);
    CeilBrackets(inDim, stride);
    var total := SameTotal(inDim, kernel, stride, dilation);
    var eff := Effective(kernel, dilation);
    assert (out - 1) * stride + stride == out * stride;
    assert (out - 1) * stride <= inDim + total - eff < (out - 1) * stride + stride;
    QuotientIs(inDim + total - eff, stride, out - 1);
  }

  /** An empty axis is the exception: SAME padding then yields one output
      element where the formula asks for none. */
  lemma SameOnEmptyAxis(kernel: nat, stride: nat, dilation: nat, lower: bool)
    requires 0 < kernel && 0 < stride
    ensures var (begin, end) := SamePadSplit(0, kernel, stride, dilation, lower);
            OutExtent(0, begin, end, kernel, stride, dilation) == 1 && CeilDiv(0, stride) == 0
  {
    assert SaturatingSub(CeilDiv(0, stride), 1) * stride == 0;
  }

  predicate IsSame(autoPad: string) { autoPad == "SAME_UPPER" || autoPad == "SAME_LOWER" }

  /** What a step with unsigned subtraction comes to: a value, a declined node,
      or an underflow (a panic with overflow checks, a wrapped extent without). */
  datatype Checked<T> = Done(value: T) | Unclaimed | Underflow

  /** `kernel - 1` on unsigned extents. */
  function MinusOne(kernel: nat): Checked<nat> { if kernel == 0 then Underflow else Done(kernel - 1) }

  /** SAME padding of one axis, with the subtraction checked. */
  function CheckedSplit(inDim: nat, kernel: nat, stride: nat, dilation: nat, lower: bool): Checked<(nat, nat)> {
    match MinusOne(kernel)
    case Done(_) => Done(SamePadSplit(inDim, kernel, stride, dilation, lower))
    case _ => Underflow
  }

  /** The quad an `auto_pad` value stands for. */
  ghost function ResolvedPads(autoPad: string, input: Shape, weight: Shape, strides: seq<nat>, dilations: seq<nat>,
                              explicit: seq<nat>): Checked<seq<nat>>
    requires |strides| == 2 && |dilations| == 2
  {
    if autoPad == "" || autoPad == "NOTSET" then Done(explicit)
    else if autoPad == "VALID" then Done([0, 0, 0, 0])
    else if IsSame(autoPad) && |input| == 4 && |weight| == 4 then
      var lower := autoPad == "SAME_LOWER";
      if weight[2] == 0 || weight[3] == 0 then Underflow
      else
        var h := SamePadSplit(input[2], weight[2], strides[0], dilations[0], lower);
        var w := SamePadSplit(input[3], weight[3], strides[1], dilations[1], lower);
        Done([h.0, w.0, h.1, w.1])
    else Unclaimed
  }

  /** A SAME mode on two rank-4 shapes with an empty filter axis. */
  predicate EmptyFilterAxis(autoPad: string, input: Shape, weight: Shape) {
    IsSame(autoPad) && |input| == 4 && |weight| == 4 && (weight[2] == 0 || weight[3] == 0)
  }

  method ResolveAutoPad(autoPad: string, input: Shape, weight: Shape, strides: seq<nat>, dilations: seq<nat>,
                        explicit: seq<nat>) returns (r: Checked<seq<nat>>)
    requires |strides| == 2 && |dilations| == 2
    ensures r == ResolvedPads(autoPad, input, weight, strides, dilations, explicit)
    ensures r.Underflow? <==> EmptyFilterAxis(autoPad, input, weight)
    ensures r.Unclaimed? <==> autoPad !in ["", "NOTSET", "VALID"] && (!IsSame(autoPad) || |input| != 4 || |weight| != 4)
  {
    if autoPad == "" || autoPad == "NOTSET" {
      return Done(explicit);
    } else if autoPad == "VALID" {
      return Done([0, 0, 0, 0]);
    } else if autoPad == "SAME_UPPER" || autoPad == "SAME_LOWER" {
      if |input| != 4 || |weight| != 4 {
        return Unclaimed;
      }
      var lower := autoPad == "SAME_LOWER";
      var out := new nat[4](_ => 0);
      for axis := 0 to 2
        invariant forall a :: 0 <= a < axis ==>
          CheckedSplit(input[a + 2], weight[a + 2], strides[a], dilations[a], lower) == Done((out[a], out[a + 2]))
      {
        var split := CheckedSplit(input[axis + 2], weight[axis + 2], strides[axis], dilations[axis], lower);
        if split.Underflow? {
          return Underflow;
        }
        out[axis] := split.value.0;
        out[axis + 2] := split.value.1;
      }
      assert CheckedSplit(input[0 + 2], weight[0 + 2], strides[0], dilations[0], lower) == Done((out[0], out[0 + 2]));
      assert CheckedSplit(input[1 + 2], weight[1 + 2], strides[1], dilations[1], lower) == Done((out[1], out[1 + 2]));
      return Done([out[0], out[1], out[2], out[3]]);
    }
    return Unclaimed;
  }

  /** A SAME-padded node passes the symmetric-padding check exactly when both
      axes need an even total. */
  lemma SameIsSymmetricIff(autoPad: string, input: Shape, weight: Shape, strides: seq<nat>, dilations: seq<nat>,
                           explicit: seq<nat>)
    requires IsSame(autoPad) && |input| == 4 && |weight| == 4 && 0 < weight[2] && 0 < weight[3]
    requires |strides| == 2 && |dilations| == 2
    ensures var pads := ResolvedPads(autoPad, input, weight, strides, dilations, explicit);
            pads.Done? && |pads.value| == 4 &&
            ((pads.value[0] == pads.value[2] && pads.value[1] == pads.value[3]) <==>
             (SameTotal(input[2], weight[2], strides[0], dilations[0]) % 2 == 0 &&
              SameTotal(input[3], weight[3], strides[1], dilations[1]) % 2 == 0))
  {
  }

  // ----- attributes -----

  function OrElse<T>(o: Option<T>, default_: T): T { if o.Some? then o.value else default_ }

  /** Absent, or exactly two entries of at least 1. */
  predicate SpatialPair(raw: seq<int>) {
    raw == [] || (|raw| == 2 && 1 <= raw[0] && 1 <= raw[1])
  }

  function ReadSpatialPair(raw: seq<int>, default_: nat): (r: Option<seq<nat>>)
    requires 1 <= default_
    ensures r.Some? <==> SpatialPair(raw)
    ensures r.Some? ==> |r.value| == 2 && 1 <= r.value[0] && 1 <= r.value[1]
    ensures r.Some? ==> r.value == if raw == [] then [default_, default_] else raw
  {
    if raw == [] then Some([default_, default_])
    else if |raw| == 2 then
      if raw[0] < 0 || raw[1] < 0 then None
      else
        var h: nat, w: nat := raw[0], raw[1];
        if 1 <= h && 1 <= w then Some([h, w]) else None
    else None
  }

  /** Absent, or exactly four entries of at least 0. */
  predicate PadsQuad(raw: seq<int>) {
    raw == [] || (|raw| == 4 && forall k :: 0 <= k < 4 ==> 0 <= raw[k])
  }

  method ReadPadsQuad(raw: seq<int>) returns (r: Option<seq<nat>>)
    ensures r.Some? <==> PadsQuad(raw)
    ensures r.Some? ==> |r.value| == 4 && r.value == if raw == [] then [0, 0, 0, 0] else raw
  {
    if raw == [] {
      return Some([0, 0, 0, 0]);
    }
    if |raw| != 4 {
      return None;
    }
    var out := new nat[4](_ => 0);
    for k := 0 to 4
      invariant forall j :: 0 <= j < k ==> 0 <= raw[j] && out[j] == raw[j]
    {
      if raw[k] < 0 {
        return None;
      }
      out[k] := raw[k];
    }
    return Some([out[0], out[1], out[2], out[3]]);
  }

  function ReadActivation(attrs: Attributes): (r: Option<Activation>)
    ensures r.Some? <==> attrs.activation in ["", "relu", "clip"]
    ensures r.Some? ==> (r.value.NoActivation? <==> attrs.activation == "") &&
                        (r.value.Relu? <==> attrs.activation == "relu")
    ensures r.Some? && r.value.Clip? ==> r.value.min == OrElse(attrs.activationMin, NegInf) &&
                                         r.value.max == OrElse(attrs.activationMax, PosInf)
  {
    if attrs.activation == "" then Some(NoActivation)
    else if attrs.activation == "relu" then Some(Relu)
    else if attrs.activation == "clip" then
      Some(Clip(if attrs.activationMin.Some? then attrs.activationMin.value else NegInf,
                if attrs.activationMax.Some? then attrs.activationMax.value else PosInf))
    else None
  }

  /** What is looked at before the padding: geometry lists, group and a
      declared kernel that agrees with the filter. */
  ghost predicate GeometryModelled(attrs: Attributes, weight: Shape) {
    && SpatialPair(attrs.strides) && SpatialPair(attrs.dilations) && PadsQuad(attrs.pads)
    && (attrs.group.Some? ==> 1 <= attrs.group.value)
    && (attrs.kernelShape == [] || (|weight| == 4 && attrs.kernelShape == [weight[2], weight[3]]))
  }

  /** The whitelist: nothing the node says is left unread. */
  ghost predicate Modelled(attrs: Attributes, input: Shape, weight: Shape) {
    && GeometryModelled(attrs, weight)
    && (attrs.autoPad in ["", "NOTSET", "VALID"] || (IsSame(attrs.autoPad) && |input| == 4 && |weight| == 4))
    && attrs.activation in ["", "relu", "clip"]
  }

  method ConvParamsFromAttrs(attrs: Attributes, input: Shape, weight: Shape) returns (r: Checked<ConvParams>)
    ensures r.Underflow? <==> GeometryModelled(attrs, weight) && EmptyFilterAxis(attrs.autoPad, input, weight)
    ensures r.Done? <==> Modelled(attrs, input, weight) && !EmptyFilterAxis(attrs.autoPad, input, weight)
    ensures r.Done? ==>
      var p := r.value;
      && |p.strides| == 2 && |p.dilations| == 2 && |p.pads| == 4 && 1 <= p.group
      && p.strides == (if attrs.strides == [] then [1, 1] else attrs.strides)
      && p.dilations == (if attrs.dilations == [] then [1, 1] else attrs.dilations)
      && p.group == OrElse(attrs.group, 1)
      && (attrs.autoPad in ["", "NOTSET"] ==> p.pads == if attrs.pads == [] then [0, 0, 0, 0] else attrs.pads)
      && (attrs.autoPad == "VALID" ==> p.pads == [0, 0, 0, 0])
      && (IsSame(attrs.autoPad) ==>
            ResolvedPads(attrs.autoPad, input, weight, p.strides, p.dilations, []) == Done(p.pads))
      && (attrs.autoPad == "SAME_UPPER" ==>
            p.pads[0] <= p.pads[2] <= p.pads[0] + 1 && p.pads[1] <= p.pads[3] <= p.pads[1] + 1)
      && (attrs.autoPad == "SAME_LOWER" ==>
            p.pads[2] <= p.pads[0] <= p.pads[2] + 1 && p.pads[3] <= p.pads[1] <= p.pads[3] + 1)
      && (IsSame(attrs.autoPad) ==>
            && p.pads[0] + p.pads[2] == SameTotal(input[2], weight[2], p.strides[0], p.dilations[0])
            && p.pads[1] + p.pads[3] == SameTotal(input[3], weight[3], p.strides[1], p.dilations[1]))
      && ReadActivation(attrs) == Some(p.activation)
  {
    var strides, dilations := ReadSpatialPair(attrs.strides, 1), ReadSpatialPair(attrs.dilations, 1);
    if strides.None? || dilations.None? {
      return Unclaimed;
    }
    var explicit := ReadPadsQuad(attrs.pads);
    if explicit.None? {
      return Unclaimed;
    }
    var group := OrElse(attrs.group, 1);
    if group < 1 {
      return Unclaimed;
    }
    var declared := attrs.kernelShape;
    if declared != [] {
      if |weight| != 4 || |declared| != 2 || declared[0] < 0 || declared[1] < 0 {
        return Unclaimed;
      }
      if [declared[0], declared[1]] != [weight[2], weight[3]] {
        return Unclaimed;
      }
    }
    var pads := ResolveAutoPad(attrs.autoPad, input, weight, strides.value, dilations.value, explicit.value);
    if !pads.Done? {
      return if pads.Underflow? then Underflow else Unclaimed;
    }
    var activation := ReadActivation(attrs);
    if activation.None? {
      return Unclaimed;
    }
    if IsSame(attrs.autoPad) {
      var lower := attrs.autoPad == "SAME_LOWER";
      SplitSides(input[2], weight[2], strides.value[0], dilations.value[0], lower);
      SplitSides(input[3], weight[3], strides.value[1], dilations.value[1], lower);
      hide SamePadSplit, SameTotal;
    }
    return Done(ConvParams(strides.value, pads.value, dilations.value, group, activation.value));
  }

  /** One node that reaches the subtraction with an empty filter axis, and the
      same node declined first because it declares a 3 by 3 kernel. */
  lemma EmptyFilterExample()
    ensures var attrs := Attributes([], [], [], None, [], "SAME_UPPER", "", None, None);
            var input, weight := [1, 1, 5, 5], [1, 1, 0, 3];
            && GeometryModelled(attrs, weight) && EmptyFilterAxis(attrs.autoPad, input, weight)
            && ResolvedPads(attrs.autoPad, input, weight, [1, 1], [1, 1], [0, 0, 0, 0]) == Underflow
            && !GeometryModelled(attrs.(kernelShape := [3, 3]), weight)
            && forall pads: seq<nat> | |pads| == 4 ::
                 ProblemFromParams(input, weight, ConvParams([1, 1], pads, [1, 1], 1, NoActivation)) == None
  {
  }

  // ----- the problem -----

  const U32_MAX: nat := 0xffff_ffff

  datatype Problem = Problem(
    batch: nat, inChannels: nat, inH: nat, inW: nat,
    outChannels: nat, filterH: nat, filterW: nat,
    padH: nat, padW: nat, strideH: nat, strideW: nat, dilationH: nat, dilationW: nat,
    groups: nat)

  /** Everything the loop nest relies on. */
  ghost predicate WellPosed(p: Problem) {
    && 0 < p.batch && 0 < p.inChannels && 0 < p.inH && 0 < p.inW
    && 0 < p.outChannels && 0 < p.filterH && 0 < p.filterW
    && 0 < p.strideH && 0 < p.strideW && 0 < p.dilationH && 0 < p.dilationW
    && 0 < p.groups && p.inChannels % p.groups == 0 && p.outChannels % p.groups == 0
    && Effective(p.filterH, p.dilationH) <= p.inH + 2 * p.padH
    && Effective(p.filterW, p.dilationW) <= p.inW + 2 * p.padW
  }

  /** The library's own validation: positive strides and dilations, and a
      filter that fits the padded input. */
  predicate Validates(p: Problem)
    requires 0 < p.filterH && 0 < p.filterW
  {
    && 0 < p.strideH && 0 < p.strideW && 0 < p.dilationH && 0 < p.dilationW
    && Effective(p.filterH, p.dilationH) <= p.inH + 2 * p.padH
    && Effective(p.filterW, p.dilationW) <= p.inW + 2 * p.padW
  }

  function ProblemFromParams(input: Shape, weight: Shape, params: ConvParams): Option<Problem>
    requires |params.strides| == 2 && |params.dilations| == 2 && |params.pads| == 4
  {
    if |input| != 4 || |weight| != 4 then None
    else if params.pads[0] != params.pads[2] || params.pads[1] != params.pads[3] then None
    else if input[0] == 0 || input[1] == 0 || input[2] == 0 || input[3] == 0 then None
    else if weight[0] == 0 || weight[2] == 0 || weight[3] == 0 then None
    else if params.group == 0 || input[1] % params.group != 0 || weight[0] % params.group != 0 then None
    else if weight[1] != input[1] / params.group then None
    else if !(forall d :: 0 <= d < 4 ==> input[d] <= U32_MAX) ||
            weight[0] > U32_MAX || weight[2] > U32_MAX || weight[3] > U32_MAX ||
            params.pads[0] > U32_MAX || params.pads[1] > U32_MAX ||
            params.strides[0] > U32_MAX || params.strides[1] > U32_MAX ||
            params.dilations[0] > U32_MAX || params.dilations[1] > U32_MAX || params.group > U32_MAX then None
    else
      var p := Problem(input[0], input[1], input[2], input[3], weight[0], weight[2], weight[3],
                       params.pads[0], params.pads[1], params.strides[0], params.strides[1],
                       params.dilations[0], params.dilations[1], params.group);
      if Validates(p) then Some(p) else None
  }

  /** What is accepted is well posed, describes both tensors' shapes and has
      the same padding on both sides. */
  lemma AcceptedIsWellPosed(input: Shape, weight: Shape, params: ConvParams)
    requires |params.strides| == 2 && |params.dilations| == 2 && |params.pads| == 4
    requires ProblemFromParams(input, weight, params).Some?
    ensures var p := ProblemFromParams(input, weight, params).value;
            && WellPosed(p)
            && input == [p.batch, p.inChannels, p.inH, p.inW]
            && weight == [p.outChannels, p.inChannels / p.groups, p.filterH, p.filterW]
            && params.pads == [p.padH, p.padW, p.padH, p.padW]
  {
  }

  /** A well-posed problem of 32-bit extents is never declined. */
  lemma WellPosedIsAccepted(p: Problem, activation: Activation)
    requires WellPosed(p)
    requires p.batch <= U32_MAX && p.inChannels <= U32_MAX && p.inH <= U32_MAX && p.inW <= U32_MAX
    requires p.outChannels <= U32_MAX && p.filterH <= U32_MAX && p.filterW <= U32_MAX
    requires p.padH <= U32_MAX && p.padW <= U32_MAX && p.strideH <= U32_MAX && p.strideW <= U32_MAX
    requires p.dilationH <= U32_MAX && p.dilationW <= U32_MAX && p.groups <= U32_MAX
    ensures ProblemFromParams([p.batch, p.inChannels, p.inH, p.inW],
                              [p.outChannels, p.inChannels / p.groups, p.filterH, p.filterW],
                              ConvParams([p.strideH, p.strideW], [p.padH, p.padW, p.padH, p.padW],
                                         [p.dilationH, p.dilationW], p.groups, activation)) == Some(p)
  {
  }

  ghost function OutH(p: Problem): nat
    requires WellPosed(p)
  {
    OutExtent(p.inH, p.padH, p.padH, p.filterH, p.strideH, p.dilationH)
  }

  ghost function OutW(p: Problem): nat
    requires WellPosed(p)
  {
    OutExtent(p.inW, p.padW, p.padW, p.filterW, p.strideW, p.dilationW)
  }

  /** An accepted SAME node produces ceil(in / stride) on both axes. */
  lemma AcceptedSameOutput(autoPad: string, input: Shape, weight: Shape, params: ConvParams)
    requires |params.strides| == 2 && |params.dilations| == 2 && |params.pads| == 4
    requires IsSame(autoPad) && ProblemFromParams(input, weight, params).Some?
    requires ResolvedPads(autoPad, input, weight, params.strides, params.dilations, []) == Done(params.pads)
    ensures var p := ProblemFromParams(input, weight, params).value;
            OutH(p) == CeilDiv(p.inH, p.strideH) && OutW(p) == CeilDiv(p.inW, p.strideW)
  {
    hide SamePadSplit, CeilDiv;
    var lower := autoPad == "SAME_LOWER";
    SameGivesCeil(input[2], weight[2], params.strides[0], params.dilations[0], lower);
    SameGivesCeil(input[3], weight[3], params.strides[1], params.dilations[1], lower);
  }

  // ----- the engine -----

  datatype Engine = Conv1x1 | Depthwise | ImplicitGemm

  predicate Is1x1(p: Problem) {
    p.filterH == 1 && p.filterW == 1 && p.strideH == 1 && p.strideW == 1 && p.dilationH == 1 && p.dilationW == 1
  }

  predicate IsDepthwise(p: Problem) { p.groups == p.inChannels && p.groups == p.outChannels }

  /** `tiled` says whether the tiled kernel claims the problem. */
  function PickEngine(p: Problem, tiled: bool): Engine {
    if tiled then ImplicitGemm
    else if Is1x1(p) && p.padH == 0 && p.padW == 0 then Conv1x1
    else if IsDepthwise(p) then Depthwise
    else ImplicitGemm
  }
}
