/** Starting from a cache that already covers some tokens: exactly when the
    stream goes on from there. Positions and mask count prompt and generated
    tokens only, so a model that takes either restarts at the prompt. */
module SeededCaches {
  import opened Floats
  import opened Wrappers
  import opened TokenStreaming
  import opened StreamingRuns
  import IntegerCast

  // ----- a model that counts what it is told -----

  /** The initial cache tensors under the names they are refreshed from. */
  function InitialOutputs(bindings: seq<KvBinding>): Feeds {
    if bindings == [] then map[]
    else
      var last := bindings[|bindings| - 1];
      InitialOutputs(bindings[..|bindings| - 1])[last.presentOutput := last.initial]
  }

  /** What is fed speaks of a sequence of one element: by the mask's length or,
      without a mask, by the last position. */
  function SaysFirst(config: Config, feeds: Feeds): bool {
    if config.attentionMask.Some? then
      var name := config.attentionMask.value;
      name in feeds && |feeds[name].data| == 1
    else
      && config.positionIds.Some?
      && var name := config.positionIds.value;
         && name in feeds && feeds[name].data != []
         && feeds[name].data[|feeds[name].data| - 1] == Fin(0.0)
  }

  /** Token 0 for the first element of a sequence, token 1 for any other. */
  function FirstRow(first: bool): Tensor {
    Tensor(if first then [Fin(1.0), Fin(0.0)] else [Fin(0.0), Fin(1.0)], [2])
  }

  function NamesOf(name: Option<string>): seq<string> { if name.Some? then [name.value] else [] }

  /** It hands its cache on unchanged. */
  function CountingSession(config: Config): Session {
    var pasts := seq(|config.kvCache|, k requires 0 <= k < |config.kvCache| => config.kvCache[k].pastInput);
    var presents := seq(|config.kvCache|, k requires 0 <= k < |config.kvCache| => config.kvCache[k].presentOutput);
    Session([config.inputIds] + NamesOf(config.attentionMask) + NamesOf(config.positionIds) + pasts,
            [config.logits] + presents,
            (feeds: Feeds) =>
              Ok(InitialOutputs(config.kvCache)[config.logits := FirstRow(SaysFirst(config, feeds))]))
  }

  function CountingModel(config: Config): LanguageModel {
    LanguageModel((s: seq<int>) => Ok(FirstRow(|s| == 1).data), (s: seq<int>) => InitialPast(config.kvCache))
  }

  /** No two outputs the stream reads share a name. */
  ghost predicate OutputsApart(config: Config) {
    && (forall a, b :: 0 <= a < b < |config.kvCache| ==>
          config.kvCache[a].presentOutput != config.kvCache[b].presentOutput)
    && (forall k :: 0 <= k < |config.kvCache| ==> config.kvCache[k].presentOutput != config.logits)
  }

  // ----- it is coherent -----

  lemma PositionZero(p: nat)
    ensures IntegerCast.ToF32(p) == 0 <==> p == 0
  {
    IntegerCast.SmallIsRepresentable(0);
    IntegerCast.SmallIsRepresentable(1);
    IntegerCast.ExactIffRepresentable(0);
    IntegerCast.ExactIffRepresentable(1);
    if 0 < p { IntegerCast.Monotone(1, p); }
  }

  lemma LastPosition(first: nat, n: nat)
    requires 0 < n
    ensures |Encode(Range(first, first + n))| == n
    ensures Encode(Range(first, first + n))[n - 1] == Fin(0.0) <==> first + n == 1
  {
    hide IntegerCast.ToF32;
    PositionZero(first + n - 1);
    assert Range(first, first + n)[n - 1] == first + n - 1;
  }

  lemma SaysFirstIff(config: Config, ids: seq<int>, total: nat, past: Feeds)
    requires 0 < |ids| <= total && NamesApart(config, past)
    requires config.attentionMask.Some? || config.positionIds.Some?
    ensures SaysFirst(config, Inputs(config, ids, total, past)) <==> total == 1
  {
    LastPosition(total - |ids|, |ids|);
    hide Encode, Range;
  }

  lemma {:induction false} OutputsHeld(bindings: seq<KvBinding>, k: nat)
    requires k < |bindings|
    requires forall a, b :: 0 <= a < b < |bindings| ==> bindings[a].presentOutput != bindings[b].presentOutput
    ensures var outs := InitialOutputs(bindings);
            bindings[k].presentOutput in outs && outs[bindings[k].presentOutput] == bindings[k].initial
  {
    if k < |bindings| - 1 { OutputsHeld(bindings[..|bindings| - 1], k); }
  }

  lemma {:induction false} RefreshIsInitial(bindings: seq<KvBinding>, outs: Feeds)
    requires forall k :: 0 <= k < |bindings| ==>
               bindings[k].presentOutput in outs && outs[bindings[k].presentOutput] == bindings[k].initial
    ensures Refresh(bindings, outs) == Ok(InitialPast(bindings))
  {
    if bindings != [] { RefreshIsInitial(bindings[..|bindings| - 1], outs); }
  }

  /** One pass: the cache unchanged, and the row for the total it was told. */
  lemma CountingPass(config: Config, ids: seq<int>, total: nat, past: Feeds)
    requires 0 < |ids| <= total && NamesApart(config, past) && OutputsApart(config)
    requires config.attentionMask.Some? || config.positionIds.Some?
    ensures ReadPass(config, CountingSession(config).run(Inputs(config, ids, total, past))) ==
            Ok(Pass(InitialPast(config.kvCache), FirstRow(total == 1).data))
  {
    SaysFirstIff(config, ids, total, past);
    hide Inputs, SaysFirst, NamesApart;
    var outs := InitialOutputs(config.kvCache)[config.logits := FirstRow(total == 1)];
    forall k | 0 <= k < |config.kvCache|
      ensures config.kvCache[k].presentOutput in outs
      ensures outs[config.kvCache[k].presentOutput] == config.kvCache[k].initial
    {
      OutputsHeld(config.kvCache, k);
    }
    RefreshIsInitial(config.kvCache, outs);
    var row := FirstRow(total == 1).data;
    assert row[|row| - 2..] == row;
  }

  lemma CountingAnswers(config: Config, lm: LanguageModel, p: seq<int>, q: seq<int>, past: Feeds)
    requires q != [] && NamesApart(config, past) && OutputsApart(config)
    requires config.attentionMask.Some? || config.positionIds.Some?
    requires lm.row(p + q) == Ok(FirstRow(|p + q| == 1).data)
    ensures Answers(CountingSession(config), config, lm, p, q, past, InitialPast(config.kvCache))
  {
    hide ReadPass, Inputs, NamesApart, OutputsApart, CountingSession, InitialPast, FirstRow;
    CountingPass(config, q, |p| + |q|, past);
  }

  lemma CountingIsCoherent(config: Config)
    requires NamesApart(config, InitialPast(config.kvCache)) && OutputsApart(config)
    requires config.attentionMask.Some? || config.positionIds.Some?
    ensures Coherent(CountingSession(config), config, CountingModel(config))
  {
    var session, lm := CountingSession(config), CountingModel(config);
    hide Answers, NamesApart, OutputsApart, CountingSession, InitialPast, FirstRow;
    forall p: seq<int>, q: seq<int> | q != []
      ensures Answers(session, config, lm, p, q, lm.cache(p), lm.cache(p + q))
    {
      CountingAnswers(config, lm, p, q, InitialPast(config.kvCache));
    }
  }

  /** The same model without its cache: every pass sees the whole sequence. */
  function Uncached(config: Config): Config { config.(kvCache := []) }

  lemma UncachedApart(config: Config)
    requires NamesApart(config, InitialPast(config.kvCache))
    ensures NamesApart(Uncached(config), map[]) && OutputsApart(Uncached(config))
    ensures InitialPast(Uncached(config).kvCache) == map[]
  {
    assert InitialPast([]) == map[];
  }

  lemma CountingIsStateless(config: Config)
    requires NamesApart(config, InitialPast(config.kvCache))
    requires config.attentionMask.Some? || config.positionIds.Some?
    ensures Stateless(CountingSession(Uncached(config)), Uncached(config), CountingModel(config))
  {
    var plain, lm := Uncached(config), CountingModel(config);
    UncachedApart(config);
    hide Answers, NamesApart, OutputsApart, CountingSession, InitialPast, FirstRow;
    forall q: seq<int> | q != []
      ensures Answers(CountingSession(plain), plain, lm, [], q, map[], map[])
    {
      CountingAnswers(plain, lm, [], q, map[]);
    }
  }

  lemma CountingIsDeclared(config: Config)
    ensures Declared(CountingSession(config), config)
  {
    var session := CountingSession(config);
    forall b | b in config.kvCache ensures b.pastInput in session.inputs && b.presentOutput in session.outputs {
      var k :| 0 <= k < |config.kvCache| && config.kvCache[k] == b;
      var n := |session.inputs| - |config.kvCache|;
      assert session.inputs[n + k] == b.pastInput && session.outputs[1 + k] == b.presentOutput;
    }
    assert config.attentionMask.Some? ==> session.inputs[1] == config.attentionMask.value;
    var at := 1 + |NamesOf(config.attentionMask)|;
    assert config.positionIds.Some? ==> session.inputs[at] == config.positionIds.value;
  }

  // ----- exactly when a seed is resumed -----

  /** A stream from a cache covering `seed`, and one without a cache on `seed`
      and the prompt, give the same item at call `k`. */
  ghost predicate SameItem(session: Session, config: Config, plainSession: Session, plainConfig: Config,
                           lm: LanguageModel, seed: seq<int>, prompt: seq<int>, cancels: seq<bool>, k: nat)
  {
    (&& Declared(session, config) && Coherent(session, config, lm) && lm.cache(seed) == InitialPast(config.kvCache)
     && Stateless(plainSession, plainConfig, lm) && SameLimits(config, plainConfig)
     && prompt != [] && k < |cancels|) ==>
      ItemAt(session, config, prompt, StreamState([], InitialPast(config.kvCache), false), cancels, k) ==
      ItemAt(plainSession, plainConfig, seed + prompt, StreamState([], map[], false), cancels, k)
  }

  /** Whatever the model, the prompt and the cancellations. */
  ghost predicate AlwaysResumes(config: Config, seed: seq<int>) {
    forall session, plainSession, plainConfig, lm, prompt, cancels, k: nat ::
      SameItem(session, config, plainSession, plainConfig, lm, seed, prompt, cancels, k)
  }

  lemma FirstTokens()
    ensures Argmax(FirstRow(true).data) == 0 && Argmax(FirstRow(false).data) == 1
  {
    assert Greater(FirstRow(true).data[0], NegInf) && Greater(FirstRow(false).data[1], NegInf);
    ArgmaxIsUnique(FirstRow(true).data, Argmax(FirstRow(true).data), 0);
    ArgmaxIsUnique(FirstRow(false).data, Argmax(FirstRow(false).data), 1);
  }

  /** The failing half, at the first call and for every prompt of one token: the
      seeded stream answers as at the start of a sequence. */
  lemma SeedIsForgotten(config: Config, seed: seq<int>, x: int)
    requires UsesCache(config) && NamesApart(config, InitialPast(config.kvCache)) && OutputsApart(config)
    requires !SeedFits(config, seed) && 0 < config.maxNewTokens
    ensures !SameItem(CountingSession(config), config, CountingSession(Uncached(config)), Uncached(config),
                      CountingModel(config), seed, [x], [false], 0)
  {
    CountingIsDeclared(config);
    CountingIsCoherent(config);
    CountingIsStateless(config);
    SeededFirstToken(config, x);
    PlainFirstToken(config, seed, x);
    hide Coherent, Stateless, Declared, CountingSession, ItemAt, NamesApart, OutputsApart, InitialPast;
  }

  /** What the first call gives when the pass gives `row`. */
  lemma FirstItem(session: Session, config: Config, prompt: seq<int>, st: StreamState, first: bool, past: Feeds)
    requires !st.finished && st.generated == [] && 0 < config.maxNewTokens
    requires PassOf(session, config, prompt, st) == Ok(Pass(past, FirstRow(first).data))
    ensures ItemAt(session, config, prompt, st, [false], 0).Some?
    ensures ItemAt(session, config, prompt, st, [false], 0).value.Ok?
    ensures ItemAt(session, config, prompt, st, [false], 0).value.value.token == if first then 0 else 1
  {
    FirstTokens();
    assert [false][..0] == [];
    hide PassOf, FirstRow, Argmax;
  }

  /** The seeded stream's first pass is told of a sequence of one element. */
  lemma SeededPass(config: Config, x: int, past: Feeds)
    requires NamesApart(config, past) && OutputsApart(config)
    requires config.attentionMask.Some? || config.positionIds.Some?
    ensures PassOf(CountingSession(config), config, [x], StreamState([], past, false)) ==
            Ok(Pass(InitialPast(config.kvCache), FirstRow(true).data))
  {
    hide ReadPass, Inputs, CountingSession, FirstRow, NamesApart, OutputsApart, InitialPast;
    assert StepIds(config, [x], []) == [x];
    CountingPass(config, [x], 1, past);
  }

  lemma SeededFirstToken(config: Config, x: int)
    requires NamesApart(config, InitialPast(config.kvCache)) && OutputsApart(config) && 0 < config.maxNewTokens
    requires config.attentionMask.Some? || config.positionIds.Some?
    ensures var c0 := StreamState([], InitialPast(config.kvCache), false);
            var item := ItemAt(CountingSession(config), config, [x], c0, [false], 0);
            item.Some? && item.value.Ok? && item.value.value.token == 0
  {
    var st := StreamState([], InitialPast(config.kvCache), false);
    SeededPass(config, x, st.past);
    hide PassOf, CountingSession, ItemAt, FirstRow, NamesApart, OutputsApart, InitialPast;
    FirstItem(CountingSession(config), config, [x], st, true, st.past);
  }

  lemma PlainFirstToken(config: Config, seed: seq<int>, x: int)
    requires NamesApart(config, InitialPast(config.kvCache)) && 0 < config.maxNewTokens && seed != []
    requires config.attentionMask.Some? || config.positionIds.Some?
    ensures var plain := Uncached(config);
            var item := ItemAt(CountingSession(plain), plain, seed + [x], StreamState([], map[], false), [false], 0);
            item.Some? && item.value.Ok? && item.value.value.token == 1
  {
    var plain, st := Uncached(config), StreamState([], map[], false);
    CountingIsStateless(config);
    PlainPass(CountingSession(plain), plain, CountingModel(config), seed + [x], st);
    assert (seed + [x]) + [] == seed + [x];
    hide PassOf, CountingSession, ItemAt, FirstRow, NamesApart, InitialPast, Stateless;
    FirstItem(CountingSession(plain), plain, seed + [x], st, false, map[]);
  }

  /** A seed is resumed by every model, for every prompt, if and only if there is
      none or neither positions nor a mask are configured (or no token is asked for). */
  lemma AlwaysResumesIff(config: Config, seed: seq<int>)
    requires UsesCache(config) && NamesApart(config, InitialPast(config.kvCache)) && OutputsApart(config)
    ensures AlwaysResumes(config, seed) <==> SeedFits(config, seed) || config.maxNewTokens == 0
  {
    if SeedFits(config, seed) {
      forall session, plainSession, plainConfig, lm, prompt, cancels, k: nat
        ensures SameItem(session, config, plainSession, plainConfig, lm, seed, prompt, cancels, k)
      {
        ResumesWhenFitting(session, config, plainSession, plainConfig, lm, seed, prompt, cancels, k);
      }
    } else if config.maxNewTokens == 0 {
      forall session, plainSession, plainConfig, lm, prompt, cancels, k: nat
        ensures SameItem(session, config, plainSession, plainConfig, lm, seed, prompt, cancels, k)
      {
        NothingAsked(session, config, plainSession, plainConfig, lm, seed, prompt, cancels, k);
      }
    } else {
      SeedIsForgotten(config, seed, 0);
    }
  }

  lemma ResumesWhenFitting(session: Session, config: Config, plainSession: Session, plainConfig: Config,
                           lm: LanguageModel, seed: seq<int>, prompt: seq<int>, cancels: seq<bool>, k: nat)
    requires UsesCache(config) && SeedFits(config, seed)
    ensures SameItem(session, config, plainSession, plainConfig, lm, seed, prompt, cancels, k)
  {
    hide ItemAt, After, Coherent, Stateless, Declared, InitialPast;
    if Coherent(session, config, lm) && lm.cache(seed) == InitialPast(config.kvCache) &&
       Stateless(plainSession, plainConfig, lm) && SameLimits(config, plainConfig) && prompt != [] && k < |cancels|
    {
      CachedStreamMatchesPlain(session, config, plainSession, plainConfig, lm, seed, prompt, cancels, k);
    }
  }

  lemma NothingAsked(session: Session, config: Config, plainSession: Session, plainConfig: Config,
                     lm: LanguageModel, seed: seq<int>, prompt: seq<int>, cancels: seq<bool>, k: nat)
    requires config.maxNewTokens == 0
    ensures SameItem(session, config, plainSession, plainConfig, lm, seed, prompt, cancels, k)
  {
    hide PassOf, InitialPast, Coherent, Stateless, Declared;
  }

  // ----- one configuration of each kind -----

  /** One cache tensor, with a mask or with positions. */
  function OneInput(mask: bool): Config {
    Config("ids", "logits", if mask then Some("mask") else None, if mask then None else Some("pos"),
           [KvBinding("past", "present", Tensor([Fin(7.0)], [1]))], 1, None, false, false)
  }

  lemma SeededRestartExample(mask: bool)
    ensures var config := OneInput(mask);
            && UsesCache(config) && NamesApart(config, InitialPast(config.kvCache)) && OutputsApart(config)
            && !SeedFits(config, [7]) && !AlwaysResumes(config, [7])
  {
    var config := OneInput(mask);
    assert config.kvCache[..0] == [] && InitialPast([]) == map[];
    assert InitialPast(config.kvCache).Keys == {"past"};
    assert "ids" != "past" && "mask" != "past" && "pos" != "past" && "mask" != "ids" && "pos" != "ids";
    AlwaysResumesIff(config, [7]);
  }
}
