/** Token-by-token generation: `TokenStream` runs the model once per `next()`,
    picks the arg-max token and feeds the `present.*` outputs back as the next
    step's `past.*` inputs. */
module TokenStreaming {
  import opened Arithmetic
  import opened Floats
  import opened Wrappers
  import IntegerCast

  datatype Tensor = Tensor(data: seq<F32>, shape: seq<nat>)

  datatype Error = InvalidModel | ShapeMismatch | Cancelled(after: nat) | RunFailed(code: int)

  type Feeds = map<string, Tensor>

  /** The loaded model: its declared names and one forward pass. */
  datatype Session = Session(inputs: seq<string>, outputs: seq<string>, run: Feeds -> Result<Feeds, Error>)

  datatype KvBinding = KvBinding(pastInput: string, presentOutput: string, initial: Tensor)

  datatype Config = Config(
    inputIds: string,
    logits: string,
    attentionMask: Option<string>,
    positionIds: Option<string>,
    kvCache: seq<KvBinding>,
    maxNewTokens: nat,
    eosTokenId: Option<int>,
    emitLogits: bool,
    cancellable: bool)

  datatype StreamStep = StreamStep(token: int, index: nat, logits: Option<seq<F32>>)

  // ----- choosing a token -----

  /** The least index holding the maximum of everything above negative infinity;
      0 when nothing is. */
  ghost predicate IsArgmax(row: seq<F32>, best: nat) {
    if exists i :: 0 <= i < |row| && Greater(row[i], NegInf) then
      && best < |row| && Greater(row[best], NegInf)
      && (forall i :: 0 <= i < |row| ==> !Greater(row[i], row[best]))
      && (forall i :: 0 <= i < best ==> row[i] == NaN || Greater(row[best], row[i]))
    else
      best == 0
  }

  lemma ArgmaxIsUnique(row: seq<F32>, a: nat, b: nat)
    requires IsArgmax(row, a) && IsArgmax(row, b)
    ensures a == b
  {
  }

  /** Ghost name for what `ArgmaxOf` returns. */
  ghost function Argmax(row: seq<F32>): (best: nat)
    ensures IsArgmax(row, best)
  {
    ArgmaxExists(row);
    var best: nat :| IsArgmax(row, best);
    best
  }

  lemma {:induction false} ArgmaxExists(row: seq<F32>)
    ensures exists best: nat :: IsArgmax(row, best)
  {
    if row == [] {
      assert IsArgmax(row, 0);
    } else {
      var n := |row| - 1;
      ArgmaxExists(row[..n]);
      var b: nat :| IsArgmax(row[..n], b);
      assert forall i :: 0 <= i < n ==> row[..n][i] == row[i];
      if i :| 0 <= i < n && Greater(row[i], NegInf) {
        assert Greater(row[..n][i], NegInf);
        assert IsArgmax(row, if Greater(row[n], row[b]) then n else b);
      } else {
        assert IsArgmax(row, if Greater(row[n], NegInf) then n else 0);
      }
    }
  }

  method ArgmaxOf(row: seq<F32>) returns (token: int)
    ensures token == Argmax(row)
  {
    var best: nat := 0;
    var bestValue := NegInf;
    for i := 0 to |row|
      invariant bestValue == NegInf ==> best == 0 && forall k :: 0 <= k < i ==> !Greater(row[k], NegInf)
      invariant bestValue != NegInf ==> best < i && row[best] == bestValue && Greater(bestValue, NegInf)
      invariant bestValue != NegInf ==> IsArgmax(row[..i], best)
    {
      if Greater(row[i], bestValue) {
        bestValue := row[i];
        best := i;
      }
      assert forall k :: 0 <= k < i + 1 ==> row[..i + 1][k] == row[k];
      assert forall k :: 0 <= k < i ==> row[..i][k] == row[k];
      assert bestValue != NegInf ==> Greater(row[..i + 1][best], NegInf);
    }
    assert row[..|row|] == row;
    ArgmaxIsUnique(row, best, Argmax(row));
    token := best;
  }

  /** The vocabulary row of the last sequence position. */
  function LastPositionLogits(logits: Tensor): (r: Result<seq<F32>, Error>)
    ensures r.Ok? ==> 1 <= |logits.shape| <= 3 && 0 < |r.value| == logits.shape[|logits.shape| - 1]
    ensures r.Ok? ==> exists rows: nat :: |logits.data| == (rows + 1) * |r.value| &&
                        logits.data[rows * |r.value|..] == r.value
  {
    var rank := |logits.shape|;
    if rank == 0 then Err(ShapeMismatch)
    else
      var vocab := logits.shape[rank - 1];
      var n := |logits.data|;
      if vocab == 0 then Err(ShapeMismatch)
      else if n < vocab || n % vocab != 0 then Err(ShapeMismatch)
      else if rank <= 3 then
        assert n == (n / vocab - 1 + 1) * vocab && n - vocab == (n / vocab - 1) * vocab;
        Ok(logits.data[n - vocab..])
      else Err(ShapeMismatch)
  }

  /** The data is `rows` vocabulary rows and one more. */
  ghost predicate WholeRows(logits: Tensor, rows: nat)
    requires logits.shape != []
  {
    |logits.data| == (rows + 1) * logits.shape[|logits.shape| - 1]
  }

  /** A row comes back exactly for one to three axes, a non-empty last one, and
      data of one or more whole rows. */
  lemma LastRowIff(logits: Tensor)
    ensures LastPositionLogits(logits).Ok? <==>
            && 1 <= |logits.shape| <= 3 && 0 < logits.shape[|logits.shape| - 1]
            && exists rows: nat :: WholeRows(logits, rows)
  {
    if 1 <= |logits.shape| <= 3 && 0 < logits.shape[|logits.shape| - 1] {
      var vocab := logits.shape[|logits.shape| - 1];
      if rows: nat :| WholeRows(logits, rows) {
        DivModOf(rows + 1, 0, vocab);
        MulOrder(1, rows + 1, vocab);
      }
      if LastPositionLogits(logits).Ok? { assert WholeRows(logits, |logits.data| / vocab - 1); }
    }
  }

  // ----- one forward pass -----

  predicate UsesCache(config: Config) { config.kvCache != [] }

  /** Without a cache, or to prime it, the whole sequence; afterwards the one
      token the cache does not cover. */
  function StepIds(config: Config, prompt: seq<int>, generated: seq<int>): seq<int> {
    if !UsesCache(config) || generated == [] then prompt + generated
    else [generated[|generated| - 1]]
  }

  function Encode(values: seq<int>): seq<F32> {
    seq(|values|, k requires 0 <= k < |values| => Fin(IntegerCast.ToF32(values[k]) as real))
  }

  function Range(first: nat, end: nat): seq<int>
    requires first <= end
  {
    seq(end - first, k => first + k)
  }

  /** What the model is fed: the ids, a mask over the whole sequence, the ids'
      positions, and the cache (a cache input wins a name clash). */
  function Inputs(config: Config, ids: seq<int>, total: nat, past: Feeds): Feeds
    requires |ids| <= total
  {
    var owned := map[config.inputIds := Tensor(Encode(ids), [1, |ids|])];
    var owned := if config.attentionMask.None? then owned
                 else owned[config.attentionMask.value := Tensor(seq(total, _ => Fin(1.0)), [1, total])];
    var owned := if config.positionIds.None? then owned
                 else owned[config.positionIds.value := Tensor(Encode(Range(total - |ids|, total)), [1, |ids|])];
    owned + past
  }

  /** The next `past`, binding by binding; a missing output is an error. */
  function Refresh(bindings: seq<KvBinding>, outputs: Feeds): (r: Result<Feeds, Error>)
    ensures r.Ok? <==> forall k :: 0 <= k < |bindings| ==> bindings[k].presentOutput in outputs
    ensures r.Err? ==> r.error == InvalidModel
    ensures r.Ok? ==> forall name ::
              name in r.value <==> exists k :: 0 <= k < |bindings| && bindings[k].pastInput == name
  {
    if bindings == [] then Ok(map[])
    else
      var last := bindings[|bindings| - 1];
      match Refresh(bindings[..|bindings| - 1], outputs)
      case Err(e) => Err(e)
      case Ok(past) =>
        if last.presentOutput !in outputs then Err(InvalidModel)
        else Ok(past[last.pastInput := outputs[last.presentOutput]])
  }

  method RefreshCache(bindings: seq<KvBinding>, outputs: Feeds) returns (r: Result<Feeds, Error>)
    ensures r == Refresh(bindings, outputs)
  {
    var past: Feeds := map[];
    for i := 0 to |bindings|
      invariant Refresh(bindings[..i], outputs) == Ok(past)
    {
      var binding := bindings[i];
      assert bindings[..i + 1][..i] == bindings[..i];
      if binding.presentOutput !in outputs {
        return Err(InvalidModel);
      }
      past := past[binding.pastInput := outputs[binding.presentOutput]];
    }
    assert bindings[..|bindings|] == bindings;
    return Ok(past);
  }

  /** What a pass leaves behind: the refreshed cache and the logits row. */
  datatype Pass = Pass(past: Feeds, row: seq<F32>)

  function ReadPass(config: Config, outputs: Result<Feeds, Error>): Result<Pass, Error> {
    match outputs
    case Err(e) => Err(e)
    case Ok(outs) =>
      match Refresh(config.kvCache, outs)
      case Err(e) => Err(e)
      case Ok(past) =>
        if config.logits !in outs then Err(InvalidModel)
        else
          match LastPositionLogits(outs[config.logits])
          case Err(e) => Err(e)
          case Ok(row) => Ok(Pass(past, row))
  }

  /** `t` has one to three axes, a non-empty last one, and whole rows of it. */
  predicate HasLastRow(t: Tensor) {
    && 1 <= |t.shape| <= 3
    && var vocab := t.shape[|t.shape| - 1]; 0 < vocab <= |t.data| && |t.data| % vocab == 0
  }

  /** `row` is the last row of `t`, as long as its last axis. */
  ghost predicate IsLastRow(t: Tensor, row: seq<F32>) {
    HasLastRow(t) && row == t.data[|t.data| - t.shape[|t.shape| - 1]..]
  }

  /** `past` feeds each input its binding's output, the last binding's where
      several share an input, and has no other names. */
  ghost predicate IsRefreshed(bindings: seq<KvBinding>, outs: Feeds, past: Feeds) {
    && (forall name :: name in past ==> exists k :: 0 <= k < |bindings| && bindings[k].pastInput == name)
    && forall k :: (0 <= k < |bindings| && forall j :: k < j < |bindings| ==>
                      bindings[j].pastInput != bindings[k].pastInput) ==>
                     && bindings[k].presentOutput in outs && bindings[k].pastInput in past
                     && past[bindings[k].pastInput] == outs[bindings[k].presentOutput]
  }

  /** Each cache input is refreshed from its own output; when several bindings
      share an input, from the last one's. */
  lemma {:induction false} RefreshMapsBindings(bindings: seq<KvBinding>, outputs: Feeds, k: nat)
    requires Refresh(bindings, outputs).Ok? && k < |bindings|
    requires forall j :: k < j < |bindings| ==> bindings[j].pastInput != bindings[k].pastInput
    ensures var past := Refresh(bindings, outputs).value;
            bindings[k].pastInput in past && past[bindings[k].pastInput] == outputs[bindings[k].presentOutput]
    decreases |bindings|
  {
    if k < |bindings| - 1 { RefreshMapsBindings(bindings[..|bindings| - 1], outputs, k); }
  }

  /** What a pass reads from the model's answer, in plain terms. */
  lemma ReadPassMeaning(config: Config, outs: Feeds)
    ensures var complete := forall k :: 0 <= k < |config.kvCache| ==> config.kvCache[k].presentOutput in outs;
            match ReadPass(config, Ok(outs))
            case Err(e) =>
              if !complete || config.logits !in outs then e == InvalidModel
              else e == ShapeMismatch && !HasLastRow(outs[config.logits])
            case Ok(pass) =>
              complete && config.logits in outs && IsLastRow(outs[config.logits], pass.row) &&
              IsRefreshed(config.kvCache, outs, pass.past)
  {
    var refreshed := Refresh(config.kvCache, outs);
    if refreshed.Ok? {
      var bindings := config.kvCache;
      forall k |
        0 <= k < |bindings| && forall j :: k < j < |bindings| ==> bindings[j].pastInput != bindings[k].pastInput
        ensures bindings[k].pastInput in refreshed.value
        ensures refreshed.value[bindings[k].pastInput] == outs[bindings[k].presentOutput]
      {
        RefreshMapsBindings(bindings, outs, k);
      }
    }
  }

  // ----- the stream -----

  datatype StreamState = StreamState(generated: seq<int>, past: Feeds, finished: bool)

  type Item = Result<StreamStep, Error>

  ghost function PassOf(session: Session, config: Config, prompt: seq<int>, st: StreamState): Result<Pass, Error> {
    var ids := StepIds(config, prompt, st.generated);
    var total := |prompt| + |st.generated|;
    ReadPass(config, session.run(Inputs(config, ids, total, st.past)))
  }

  /** What one call of `next()` does, given what the cancellation token says. */
  ghost function NextOf(session: Session, config: Config, prompt: seq<int>, st: StreamState, cancelled: bool)
    : (StreamState, Option<Item>)
  {
    if st.finished || config.maxNewTokens <= |st.generated| then (st, None)
    else if config.cancellable && cancelled then
      (st.(finished := true), Some(Err(Cancelled(|st.generated|))))
    else
      match PassOf(session, config, prompt, st)
      case Err(e) => (st.(finished := true), Some(Err(e)))
      case Ok(pass) =>
        var token := Argmax(pass.row);
        (StreamState(st.generated + [token], pass.past, config.eosTokenId == Some(token)),
         Some(Ok(StreamStep(token, |st.generated|, if config.emitLogits then Some(pass.row) else None))))
  }

  class TokenStream {
    const session: Session
    const config: Config
    const prompt: seq<int>
    var generated: seq<int>
    var past: Feeds
    var finished: bool

    ghost function State(): StreamState
      reads this
    {
      StreamState(generated, past, finished)
    }

    constructor (session: Session, config: Config, prompt: seq<int>, past: Feeds)
      ensures this.session == session && this.config == config && this.prompt == prompt
      ensures State() == StreamState([], past, false)
    {
      this.session, this.config, this.prompt := session, config, prompt;
      this.generated, this.past, this.finished := [], past, false;
    }

    /** One pass and one token; on any error nothing has changed. */
    method Step() returns (r: Item)
      requires !finished
      modifies this
      ensures match old(PassOf(session, config, prompt, State()))
              case Err(e) => r == Err(e) && State() == old(State())
              case Ok(pass) =>
                var token := Argmax(pass.row);
                && r == Ok(StreamStep(token, |old(generated)|, if config.emitLogits then Some(pass.row) else None))
                && State() == StreamState(old(generated) + [token], pass.past, config.eosTokenId == Some(token))
      ensures r.Ok? ==>
        var feeds := old(Inputs(config, StepIds(config, prompt, generated), |prompt| + |generated|, past));
        && session.run(feeds).Ok?
        && var outs := session.run(feeds).value;
           && config.logits in outs && IsRefreshed(config.kvCache, outs, past)
           && exists row :: IsLastRow(outs[config.logits], row) && r.value.token >= 0 && IsArgmax(row, r.value.token)
    {
      hide Inputs, Refresh, IsArgmax, LastPositionLogits, IsRefreshed;
      var ids := StepIds(config, prompt, generated);
      var total := |prompt| + |generated|;
      var outputs := session.run(Inputs(config, ids, total, past));
      if outputs.Err? {
        return Err(outputs.error);
      }
      var nextPast := RefreshCache(config.kvCache, outputs.value);
      if nextPast.Err? {
        return Err(nextPast.error);
      }
      if config.logits !in outputs.value {
        return Err(InvalidModel);
      }
      var row := LastPositionLogits(outputs.value[config.logits]);
      if row.Err? {
        return Err(row.error);
      }
      var token := ArgmaxOf(row.value);
      ReadPassMeaning(config, outputs.value);
      assert IsLastRow(outputs.value[config.logits], row.value) && IsArgmax(row.value, token);
      past := nextPast.value;
      var index := |generated|;
      generated := generated + [token];
      if config.eosTokenId == Some(token) {
        finished := true;
      }
      return Ok(StreamStep(token, index, if config.emitLogits then Some(row.value) else None));
    }

    /** `cancelled` is what the cancellation token would answer now. */
    method Next(cancelled: bool) returns (item: Option<Item>)
      modifies this
      ensures (State(), item) == old(NextOf(session, config, prompt, State(), cancelled))
    {
      if finished || config.maxNewTokens <= |generated| {
        return None;
      }
      if config.cancellable && cancelled {
        finished := true;
        return Some(Err(Cancelled(|generated|)));
      }
      var step := Step();
      if step.Err? {
        finished := true;
      }
      return Some(step);
    }
  }

  // ----- starting a stream -----

  function InitialPast(bindings: seq<KvBinding>): Feeds {
    if bindings == [] then map[]
    else
      var last := bindings[|bindings| - 1];
      InitialPast(bindings[..|bindings| - 1])[last.pastInput := last.initial]
  }

  /** The cache starts with each binding's own initial tensor. */
  lemma {:induction false} InitialMapsBindings(bindings: seq<KvBinding>, k: nat)
    requires k < |bindings| && forall j :: k < j < |bindings| ==> bindings[j].pastInput != bindings[k].pastInput
    ensures bindings[k].pastInput in InitialPast(bindings)
    ensures InitialPast(bindings)[bindings[k].pastInput] == bindings[k].initial
    decreases |bindings|
  {
    if k < |bindings| - 1 { InitialMapsBindings(bindings[..|bindings| - 1], k); }
  }

  /** Every configured name is declared by the model. */
  ghost predicate Declared(session: Session, config: Config) {
    && config.inputIds in session.inputs && config.logits in session.outputs
    && (config.attentionMask.Some? ==> config.attentionMask.value in session.inputs)
    && (config.positionIds.Some? ==> config.positionIds.value in session.inputs)
    && (forall b :: b in config.kvCache ==> b.pastInput in session.inputs && b.presentOutput in session.outputs)
  }

  method Generate(session: Session, prompt: seq<int>, config: Config) returns (r: Result<TokenStream, Error>)
    ensures r.Ok? <==> prompt != [] && Declared(session, config)
    ensures r.Err? ==> r.error == InvalidModel
    ensures r.Ok? ==> fresh(r.value) && r.value.session == session && r.value.config == config &&
                      r.value.prompt == prompt && r.value.State() == StreamState([], InitialPast(config.kvCache), false)
  {
    if prompt == [] || config.inputIds !in session.inputs || config.logits !in session.outputs {
      return Err(InvalidModel);
    }
    if config.attentionMask.Some? && config.attentionMask.value !in session.inputs {
      return Err(InvalidModel);
    }
    if config.positionIds.Some? && config.positionIds.value !in session.inputs {
      return Err(InvalidModel);
    }
    var past: Feeds := map[];
    for i := 0 to |config.kvCache|
      invariant forall k :: 0 <= k < i ==>
        config.kvCache[k].pastInput in session.inputs && config.kvCache[k].presentOutput in session.outputs
      invariant past == InitialPast(config.kvCache[..i])
    {
      var binding := config.kvCache[i];
      if binding.pastInput !in session.inputs || binding.presentOutput !in session.outputs {
        return Err(InvalidModel);
      }
      assert config.kvCache[..i + 1][..i] == config.kvCache[..i];
      past := past[binding.pastInput := binding.initial];
    }
    assert config.kvCache[..|config.kvCache|] == config.kvCache;
    var stream := new TokenStream(session, config, prompt, past);
    return Ok(stream);
  }
}
