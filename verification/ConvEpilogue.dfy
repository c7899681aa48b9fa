/** Bias and fused activation after the convolution engine, on the device or on
    the host, and where the result may stay. */
module ConvEpilogue {
  import opened Arithmetic
  import opened Wrappers
  import opened Floats
  import opened ConvPlan

  // ----- the activation -----

  /** A NaN bound is no bound on that side. */
  function Lower(min: F32): F32 { if min.NaN? then NegInf else min }

  function Upper(max: F32): F32 { if max.NaN? then PosInf else max }

  /** An inverted range passes data through. */
  predicate Proper(min: F32, max: F32) { !Greater(Lower(min), Upper(max)) }

  /** What a node's fused activation makes of one value. */
  ghost function Activated(act: Activation, v: F32): (r: F32)
    ensures act.NoActivation? || (act.Clip? && (v.NaN? || !Proper(act.min, act.max))) ==> r == v
    ensures act.Relu? ==> r == (if Greater(v, Fin(0.0)) then v else Fin(0.0))
    ensures act.Clip? && Proper(act.min, act.max) && !v.NaN? ==>
              !Greater(Lower(act.min), r) && !Greater(r, Upper(act.max)) &&
              (r == v || (r == Lower(act.min) && Greater(r, v)) || (r == Upper(act.max) && Greater(v, r)))
  {
    match act
    case NoActivation => v
    case Relu => if Greater(v, Fin(0.0)) then v else Fin(0.0)
    case Clip(min, max) =>
      if !Proper(min, max) then v
      else if Greater(Lower(min), v) then Lower(min)
      else if Greater(v, Upper(max)) then Upper(max)
      else v
  }

  method ApplyActivationHost(data: array<F32>, act: Activation)
    modifies data
    ensures forall i :: 0 <= i < data.Length ==> data[i] == Activated(act, old(data[i]))
  {
    match act {
      case NoActivation =>
      case Relu =>
        for i := 0 to data.Length
          invariant forall j :: 0 <= j < i ==> data[j] == Activated(act, old(data[j]))
          invariant forall j :: i <= j < data.Length ==> data[j] == old(data[j])
        {
          data[i] := if Greater(data[i], Fin(0.0)) then data[i] else Fin(0.0);
        }
      case Clip(min, max) =>
        var lo := if min.NaN? then NegInf else min;
        var hi := if max.NaN? then PosInf else max;
        if !Greater(lo, hi) {
          for i := 0 to data.Length
            invariant forall j :: 0 <= j < i ==> data[j] == Activated(act, old(data[j]))
            invariant forall j :: i <= j < data.Length ==> data[j] == old(data[j])
          {
            data[i] := if Greater(lo, data[i]) then lo else if Greater(data[i], hi) then hi else data[i];
          }
        }
    }
  }

  /** A bound the node does not carry never binds: without a lower one only
      values above the upper one move, and the other way round. */
  lemma AbsentBoundIsNone(attrs: Attributes, v: F32)
    requires attrs.activation == "clip"
    ensures var r := Activated(ReadActivation(attrs).value, v);
            && (attrs.activationMin.None? && r != v ==> r == Upper(attrs.activationMax.value) && Greater(v, r))
            && (attrs.activationMax.None? && r != v ==> r == Lower(attrs.activationMin.value) && Greater(r, v))
            && (attrs.activationMin.None? && attrs.activationMax.None? ==> r == v)
  {
    var clip := ReadActivation(attrs).value;
    assert attrs.activationMin.None? ==> Lower(clip.min) == NegInf;
    assert attrs.activationMax.None? ==> Upper(clip.max) == PosInf;
  }

  /** The clip of the test oracle, written without the range check. */
  function OracleClip(min: F32, max: F32, v: F32): F32 {
    if Greater(min, v) then min else if Greater(v, max) then max else v
  }

  /** The oracle and the host epilogue agree on every value exactly when the
      range is not inverted. */
  lemma OracleClipAgreesIff(min: F32, max: F32)
    ensures (forall v: F32 :: OracleClip(min, max, v) == Activated(Clip(min, max), v)) <==> Proper(min, max)
  {
    if !Proper(min, max) {
      var v := if min.PosInf? then Fin(0.0) else NegInf;
      assert OracleClip(min, max, v) == min != Activated(Clip(min, max), v);
    }
  }

  // ----- the bias -----

  /** Channel of NCHW position `i`. */
  function ChannelOf(i: nat, channels: nat, spatial: nat): (c: nat)
    requires 0 < channels && 0 < spatial
    ensures c < channels
  {
    (i / spatial) % channels
  }

  /** Element `i` plus its channel's bias; without channels or positions there
      is no element to add to. */
  ghost function BiasedAt(raw: seq<F32>, bias: seq<F32>, spatial: nat, i: nat): F32
    requires i < |raw|
  {
    if bias == [] || spatial == 0 then raw[i] else Plus(raw[i], bias[ChannelOf(i, |bias|, spatial)])
  }

  /** Adds the bias block by block: batch by batch, channel by channel. */
  method AddBiasNchw(data: array<F32>, bias: seq<F32>, n: nat, channels: nat, spatial: nat)
    requires data.Length == n * channels * spatial && |bias| == channels
    modifies data
    ensures forall i :: 0 <= i < data.Length ==> data[i] == BiasedAt(old(data[..]), bias, spatial, i)
  {
    hide BiasedAt;
    ghost var raw := data[..];
    for ni := 0 to n
      invariant forall i :: 0 <= i < data.Length ==>
        data[i] == if i < ni * channels * spatial then BiasedAt(raw, bias, spatial, i) else raw[i]
    {
      for c := 0 to channels
        invariant forall i :: 0 <= i < data.Length ==>
          data[i] == if i < (ni * channels + c) * spatial then BiasedAt(raw, bias, spatial, i) else raw[i]
      {
        var base := (ni * channels + c) * spatial;
        BlockBounds(n, channels, spatial, ni, c);
        AddToBlock(data, raw, bias, base, spatial, ni, c);
      }
      assert (ni * channels + channels) * spatial == (ni + 1) * channels * spatial;
    }
  }

  lemma BlockBounds(n: nat, channels: nat, spatial: nat, ni: nat, c: nat)
    requires ni < n && c < channels
    ensures (ni * channels + c) * spatial + spatial == (ni * channels + (c + 1)) * spatial <= n * channels * spatial
  {
    MulStep(ni, n, channels);
    MulStep(ni * channels + c, n * channels, spatial);
  }

  method AddToBlock(data: array<F32>, ghost raw: seq<F32>, bias: seq<F32>, base: nat, spatial: nat, ni: nat, c: nat)
    requires |raw| == data.Length && c < |bias|
    requires base == (ni * |bias| + c) * spatial && base + spatial <= data.Length
    requires forall i :: 0 <= i < data.Length ==>
               data[i] == if i < base then BiasedAt(raw, bias, spatial, i) else raw[i]
    modifies data
    ensures forall i :: 0 <= i < data.Length ==>
              data[i] == if i < base + spatial then BiasedAt(raw, bias, spatial, i) else raw[i]
  {
    hide BiasedAt;
    var b := bias[c];
    for j := 0 to spatial
      invariant forall i :: 0 <= i < data.Length ==>
        data[i] == if i < base + j then BiasedAt(raw, bias, spatial, i) else raw[i]
    {
      BlockChannel(raw, bias, spatial, ni, c, j);
      data[base + j] := Plus(data[base + j], b);
    }
  }

  /** Every element of block (ni, c) belongs to channel `c`. */
  lemma BlockChannel(raw: seq<F32>, bias: seq<F32>, spatial: nat, ni: nat, c: nat, j: nat)
    requires c < |bias| && j < spatial && (ni * |bias| + c) * spatial + j < |raw|
    ensures BiasedAt(raw, bias, spatial, (ni * |bias| + c) * spatial + j) ==
            Plus(raw[(ni * |bias| + c) * spatial + j], bias[c])
  {
    DivModOf(ni * |bias| + c, j, spatial);
    DivModOf(ni, c, |bias|);
  }

  // ----- the dispatch -----

  datatype Placement = Host | Device

  datatype ConvOutput =
    | Declined
    | OnHost(data: seq<F32>)
    | OnDevice(contents: seq<F32>)

  /** Element `i` after an epilogue: the activation of the engine's value plus
      the bias still owed. */
  ghost function FinishedAt(before: seq<F32>, owed: Option<seq<F32>>, spatial: nat, act: Activation, i: nat): F32
    requires i < |before|
  {
    Activated(act, if owed.Some? then BiasedAt(before, owed.value, spatial, i) else before[i])
  }

  ghost predicate Finished(before: seq<F32>, owed: Option<seq<F32>>, spatial: nat, act: Activation, out: seq<F32>) {
    |out| == |before| && forall i :: 0 <= i < |before| ==> out[i] == FinishedAt(before, owed, spatial, act, i)
  }

  /** The device epilogue: nothing to do, or the Relu kernel in place; there is
      no Clip kernel. Returns whether the activation is settled. */
  method LaunchActivationEpilogue(output: array<F32>, act: Activation) returns (applied: bool)
    modifies output
    ensures applied <==> !act.Clip?
    ensures applied ==> forall i :: 0 <= i < output.Length ==> output[i] == Activated(act, old(output[i]))
    ensures !applied ==> output[..] == old(output[..])
  {
    match act {
      case NoActivation => return true;
      case Relu =>
        forall i | 0 <= i < output.Length {
          output[i] := if Greater(output[i], Fin(0.0)) then output[i] else Fin(0.0);
        }
        return true;
      case Clip(_, _) => return false;
    }
  }

  /** The bias the engine's kernel takes: only implicit GEMM has a bias epilogue. */
  function EngineBias<T>(engine: Engine, bias: Option<seq<T>>): Option<seq<T>> {
    if engine.ImplicitGemm? then bias else None
  }

  /** The bias left for the host. */
  function OwedBias<T>(engine: Engine, bias: Option<seq<T>>): Option<seq<T>> {
    if engine.ImplicitGemm? then None else bias
  }

  /** The dispatch from the engine's output on. `output` is the device buffer
      the engine has written; a host result is a copy of it. */
  method FinishConv(engine: Engine, n: nat, channels: nat, spatial: nat, bias: Option<seq<F32>>, act: Activation,
                    placement: Placement, output: array<F32>) returns (r: ConvOutput)
    requires output.Length == n * channels * spatial && (bias.Some? ==> |bias.value| == channels)
    modifies output
    ensures !r.Declined?
    ensures r.OnDevice? <==> placement == Device && OwedBias(engine, bias).None? && !act.Clip?
    ensures r.OnDevice? ==> output[..] == r.contents
    ensures Finished(old(output[..]), OwedBias(engine, bias), spatial, act, if r.OnHost? then r.data else r.contents)
  {
    hide Activated;
    var hostBiasPending := (engine.Conv1x1? || engine.Depthwise?) && bias.Some?;
    var appliedOnDevice := false;
    if !hostBiasPending {
      appliedOnDevice := LaunchActivationEpilogue(output, act);
    }
    var epilogueOnHost := hostBiasPending || !appliedOnDevice;
    var effective := if epilogueOnHost then Host else placement;
    if effective == Device {
      return OnDevice(output[..]);
    }
    var data := new F32[output.Length](i requires 0 <= i < output.Length reads output => output[i]);
    assert data[..] == output[..];
    if engine.Conv1x1? || engine.Depthwise? {
      if bias.Some? {
        AddBiasNchw(data, bias.value, n, channels, spatial);
      }
    }
    if !appliedOnDevice {
      ApplyActivationHost(data, act);
    }
    return OnHost(data[..]);
  }

  ghost predicate SameOrder(act: Activation, x: F32, b: F32) {
    Activated(act, Plus(x, b)) == Plus(Activated(act, x), b)
  }

  /** Activating before the bias is a different function: for Relu the two
      orders agree exactly where the bias is zero or neither the value nor the
      biased value is negative. */
  lemma ReluOrderIrrelevantIff(x: real, b: real)
    ensures SameOrder(Relu, Fin(x), Fin(b)) <==> b == 0.0 || (0.0 <= x && 0.0 <= x + b)
  {
  }
}
