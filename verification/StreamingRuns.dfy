/** Whole runs of a token stream, and the claim the cache rests on: feeding
    back `present.*` yields the tokens that re-feeding everything would. */
module StreamingRuns {
  import opened Floats
  import opened Wrappers
  import opened TokenStreaming
  import IntegerCast

  // ----- one call -----

  /** What the model is fed in state `st`. */
  function FeedsOf(config: Config, prompt: seq<int>, st: StreamState): Feeds {
    Inputs(config, StepIds(config, prompt, st.generated), |prompt| + |st.generated|, st.past)
  }

  /** A token taken from the answer `outs`: the arg-max of its last logits row,
      appended; the cache refreshed; finished exactly on the end token. */
  ghost predicate Yields(config: Config, st: StreamState, next: StreamState, step: StreamStep, outs: Feeds) {
    && config.logits in outs
    && IsRefreshed(config.kvCache, outs, next.past)
    && next.generated == st.generated + [step.token]
    && (next.finished <==> config.eosTokenId == Some(step.token))
    && exists row :: && IsLastRow(outs[config.logits], row)
                     && step.token >= 0 && IsArgmax(row, step.token)
                     && step == StreamStep(step.token, |st.generated|, if config.emitLogits then Some(row) else None)
  }

  /** An error ends the stream and changes nothing else. */
  predicate Fails(st: StreamState, next: StreamState, item: Option<Item>, e: Error) {
    next == st.(finished := true) && item == Some(Err(e))
  }

  /** Every call, case by case and in plain terms. */
  lemma NextMeaning(session: Session, config: Config, prompt: seq<int>, st: StreamState, cancelled: bool)
    ensures var (next, item) := NextOf(session, config, prompt, st, cancelled);
            if st.finished || config.maxNewTokens <= |st.generated| then item == None && next == st
            else if config.cancellable && cancelled then Fails(st, next, item, Cancelled(|st.generated|))
            else
              match session.run(FeedsOf(config, prompt, st))
              case Err(e) => Fails(st, next, item, e)
              case Ok(outs) =>
                if exists k :: 0 <= k < |config.kvCache| && config.kvCache[k].presentOutput !in outs
                then Fails(st, next, item, InvalidModel)
                else if config.logits !in outs then Fails(st, next, item, InvalidModel)
                else if !HasLastRow(outs[config.logits]) then Fails(st, next, item, ShapeMismatch)
                else item.Some? && item.value.Ok? && Yields(config, st, next, item.value.value, outs)
  {
    var answer := session.run(FeedsOf(config, prompt, st));
    if answer.Ok? {
      hide IsRefreshed, Inputs, StepIds, IsArgmax;
      ReadPassMeaning(config, answer.value);
      hide ReadPass;
    }
  }

  // ----- runs -----

  /** The state after one call of `next()` per entry of `cancels`. */
  ghost function After(session: Session, config: Config, prompt: seq<int>, st: StreamState, cancels: seq<bool>)
    : StreamState
  {
    if cancels == [] then st
    else
      var n := |cancels| - 1;
      NextOf(session, config, prompt, After(session, config, prompt, st, cancels[..n]), cancels[n]).0
  }

  ghost function ItemAt(session: Session, config: Config, prompt: seq<int>, st: StreamState, cancels: seq<bool>, k: nat)
    : Option<Item>
    requires k < |cancels|
  {
    NextOf(session, config, prompt, After(session, config, prompt, st, cancels[..k]), cancels[k]).1
  }

  predicate Live(config: Config, st: StreamState) {
    !st.finished && |st.generated| < config.maxNewTokens
  }

  ghost predicate Fresh(st: StreamState) { st.generated == [] && !st.finished }

  lemma AfterStep(session: Session, config: Config, prompt: seq<int>, st: StreamState, cancels: seq<bool>, k: nat)
    requires k < |cancels|
    ensures After(session, config, prompt, st, cancels[..k + 1]) ==
            NextOf(session, config, prompt, After(session, config, prompt, st, cancels[..k]), cancels[k]).0
  {
    assert cancels[..k + 1][..k] == cancels[..k];
  }

  /** While the stream is live, every call so far has produced its token; the
      tokens kept never exceed the cap, and EOS can only be the last of them. */
  lemma {:induction false} RunShape(session: Session, config: Config, prompt: seq<int>, st: StreamState,
                                    cancels: seq<bool>, k: nat)
    requires Fresh(st) && k <= |cancels|
    ensures var s := After(session, config, prompt, st, cancels[..k]);
            && |s.generated| <= k && |s.generated| <= config.maxNewTokens
            && (Live(config, s) ==> |s.generated| == k)
            && (forall j :: 0 <= j < |s.generated| && config.eosTokenId == Some(s.generated[j]) ==>
                  s.finished && j == |s.generated| - 1)
    decreases k
  {
    hide PassOf, IsArgmax;
    if 0 < k {
      RunShape(session, config, prompt, st, cancels, k - 1);
      AfterStep(session, config, prompt, st, cancels, k - 1);
    }
  }

  /** Step k carries index k, stays under the cap, and is the arg-max of the last
      row of what the model answered to that call's feeds; the token is appended
      to what was generated, and the cache refreshed from the same answer. */
  lemma TokenItems(session: Session, config: Config, prompt: seq<int>, st: StreamState, cancels: seq<bool>, k: nat)
    requires Fresh(st) && k < |cancels|
    requires ItemAt(session, config, prompt, st, cancels, k).Some?
    ensures k < config.maxNewTokens
    ensures var s := After(session, config, prompt, st, cancels[..k]);
            var s' := After(session, config, prompt, st, cancels[..k + 1]);
            var answer := session.run(FeedsOf(config, prompt, s));
            match ItemAt(session, config, prompt, st, cancels, k).value
            case Err(e) => s'.generated == s.generated && s'.past == s.past
            case Ok(step) => step.index == k && answer.Ok? && Yields(config, s, s', step, answer.value)
  {
    RunShape(session, config, prompt, st, cancels, k);
    AfterStep(session, config, prompt, st, cancels, k);
    NextMeaning(session, config, prompt, After(session, config, prompt, st, cancels[..k]), cancels[k]);
    hide Yields, PassOf;
  }

  /** Nothing follows the end: an error, EOS or `None` is followed by `None` forever. */
  lemma {:induction false} EndIsForever(session: Session, config: Config, prompt: seq<int>, st: StreamState,
                                        cancels: seq<bool>, k: nat, l: nat)
    requires k < l < |cancels|
    requires match ItemAt(session, config, prompt, st, cancels, k)
             case None => true
             case Some(Err(_)) => true
             case Some(Ok(step)) => config.eosTokenId == Some(step.token)
    ensures ItemAt(session, config, prompt, st, cancels, l) == None
    ensures !Live(config, After(session, config, prompt, st, cancels[..l]))
    decreases l
  {
    hide PassOf, IsArgmax;
    AfterStep(session, config, prompt, st, cancels, l - 1);
    if k < l - 1 {
      EndIsForever(session, config, prompt, st, cancels, k, l - 1);
    }
  }

  // ----- the cache simulates re-feeding -----

  /** A language model in the abstract: a logits row (or a failure) for every
      non-empty sequence, and the cache that covers a sequence. */
  datatype LanguageModel = LanguageModel(row: seq<int> -> Result<seq<F32>, Error>, cache: seq<int> -> Feeds)

  /** Prefix coherence: fed `q` on a cache covering `p`, the session answers the
      last row and the cache of `p + q`. */
  ghost predicate Coherent(session: Session, config: Config, lm: LanguageModel) {
    forall p: seq<int>, q: seq<int> :: q != [] ==> Answers(session, config, lm, p, q, lm.cache(p), lm.cache(p + q))
  }

  /** Without cache outputs, the session answers the last row of what it is fed. */
  ghost predicate Stateless(session: Session, config: Config, lm: LanguageModel) {
    config.kvCache == [] && forall q: seq<int> :: q != [] ==> Answers(session, config, lm, [], q, map[], map[])
  }

  ghost predicate Answers(session: Session, config: Config, lm: LanguageModel, p: seq<int>, q: seq<int>,
                          before: Feeds, after: Feeds)
  {
    ReadPass(config, session.run(Inputs(config, q, |p| + |q|, before))) ==
    match lm.row(p + q)
    case Err(e) => Err(e)
    case Ok(row) => Ok(Pass(after, row))
  }

  /** What the cache covers: nothing before the first step, afterwards
      everything but the token generated last. */
  function Covered(prompt: seq<int>, generated: seq<int>): seq<int> {
    if generated == [] then [] else prompt + generated[..|generated| - 1]
  }

  /** The ids fed are the suffix the cache does not cover, at exactly their positions. */
  lemma FeedsUncoveredSuffix(config: Config, prompt: seq<int>, generated: seq<int>)
    requires UsesCache(config) && prompt != []
    ensures var ids := StepIds(config, prompt, generated);
            && ids != []
            && Covered(prompt, generated) + ids == prompt + generated
            && |prompt| + |generated| - |ids| == |Covered(prompt, generated)|
  {
    if generated != [] {
      assert generated == generated[..|generated| - 1] + [generated[|generated| - 1]];
    }
  }

  /** No two of the inputs a step feeds share a name. */
  ghost predicate NamesApart(config: Config, past: Feeds) {
    && config.inputIds !in past
    && (config.attentionMask.Some? ==>
          config.attentionMask.value !in past && config.attentionMask.value != config.inputIds)
    && (config.positionIds.Some? ==> config.positionIds.value !in past && config.positionIds.value != config.inputIds)
    && (config.attentionMask.Some? ==> config.attentionMask != config.positionIds)
  }

  /** Index by index, with a cache or without: the ids fed are the sequence from
      `skip` on, each with its index as its position, and the mask covers it all;
      without a cache nothing is skipped. */
  lemma FeedsMatchSequence(config: Config, prompt: seq<int>, generated: seq<int>, past: Feeds)
    requires prompt != [] && NamesApart(config, past)
    ensures var ids, all := StepIds(config, prompt, generated), prompt + generated;
            var skip := if UsesCache(config) then |Covered(prompt, generated)| else 0;
            var feeds := Inputs(config, ids, |all|, past);
            && |ids| == |all| - skip
            && config.inputIds in feeds && feeds[config.inputIds].shape == [1, |ids|]
            && feeds[config.inputIds].data ==
               seq(|ids|, j requires 0 <= j < |ids| => Fin(IntegerCast.ToF32(all[skip + j]) as real))
            && (config.positionIds.Some? ==>
                  && config.positionIds.value in feeds && feeds[config.positionIds.value].shape == [1, |ids|]
                  && feeds[config.positionIds.value].data == seq(|ids|, j => Fin(IntegerCast.ToF32(skip + j) as real)))
            && (config.attentionMask.Some? ==>
                  && config.attentionMask.value in feeds
                  && feeds[config.attentionMask.value] == Tensor(seq(|all|, _ => Fin(1.0)), [1, |all|]))
            && (forall name :: name in past ==> name in feeds && feeds[name] == past[name])
  {
    hide IntegerCast.ToF32;
    if UsesCache(config) { FeedsUncoveredSuffix(config, prompt, generated); }
    var ids, all := StepIds(config, prompt, generated), prompt + generated;
    var skip := if UsesCache(config) then |Covered(prompt, generated)| else 0;
    assert forall j :: 0 <= j < |ids| ==> ids[j] == all[skip + j];
    assert Encode(ids) == seq(|ids|, j requires 0 <= j < |ids| => Fin(IntegerCast.ToF32(all[skip + j]) as real));
    assert Encode(Range(skip, |all|)) == seq(|ids|, j => Fin(IntegerCast.ToF32(skip + j) as real));
  }

  /** The initial cache may already cover `seed`: positions and mask count the
      prompt and the tokens only, so then the model must take neither. */
  predicate SeedFits(config: Config, seed: seq<int>) {
    seed == [] || (config.attentionMask.None? && config.positionIds.None?)
  }

  /** The two streams have produced the same tokens, and the cached one holds
      the cache of the seed and everything but the last of them. */
  ghost predicate InStep(lm: LanguageModel, seed: seq<int>, prompt: seq<int>, cached: StreamState, plain: StreamState) {
    && cached.generated == plain.generated && cached.finished == plain.finished
    && (!cached.finished ==> cached.past == lm.cache(seed + Covered(prompt, cached.generated)))
    && plain.past == map[]
  }

  ghost predicate SameLimits(a: Config, b: Config) {
    && a.maxNewTokens == b.maxNewTokens && a.eosTokenId == b.eosTokenId
    && a.cancellable == b.cancellable && a.emitLogits == b.emitLogits
  }

  /** A pass over the whole sequence, however much of it was fed. */
  ghost function WholePass(lm: LanguageModel, all: seq<int>, past: Feeds): Result<Pass, Error> {
    match lm.row(all)
    case Err(e) => Err(e)
    case Ok(row) => Ok(Pass(past, row))
  }

  lemma TotalUnread(config: Config, ids: seq<int>, total: nat, longer: nat, past: Feeds)
    requires |ids| <= total <= longer && (config.attentionMask.None? && config.positionIds.None?)
    ensures Inputs(config, ids, total, past) == Inputs(config, ids, longer, past)
  {
  }

  lemma CachedPass(session: Session, config: Config, lm: LanguageModel, seed: seq<int>, prompt: seq<int>,
                   st: StreamState)
    requires UsesCache(config) && Coherent(session, config, lm) && prompt != [] && SeedFits(config, seed)
    requires st.past == lm.cache(seed + Covered(prompt, st.generated))
    ensures var all := seed + prompt + st.generated;
            PassOf(session, config, prompt, st) == WholePass(lm, all, lm.cache(all))
  {
    hide Inputs, ReadPass, StepIds, Covered, SeedFits;
    var covered, ids := seed + Covered(prompt, st.generated), StepIds(config, prompt, st.generated);
    SeededSuffix(config, seed, prompt, st.generated);
    assert Answers(session, config, lm, covered, ids, lm.cache(covered), lm.cache(covered + ids));
    SeedUnread(config, seed, ids, |prompt| + |st.generated|, st.past);
  }

  lemma SeededSuffix(config: Config, seed: seq<int>, prompt: seq<int>, generated: seq<int>)
    requires UsesCache(config) && prompt != []
    ensures var covered, ids := seed + Covered(prompt, generated), StepIds(config, prompt, generated);
            && ids != [] && covered + ids == seed + prompt + generated
            && |covered| + |ids| == |seed| + (|prompt| + |generated|)
  {
    FeedsUncoveredSuffix(config, prompt, generated);
    hide StepIds, Covered;
    var ids := StepIds(config, prompt, generated);
    assert (seed + Covered(prompt, generated)) + ids == seed + (Covered(prompt, generated) + ids);
  }

  lemma SeedUnread(config: Config, seed: seq<int>, ids: seq<int>, total: nat, past: Feeds)
    requires |ids| <= total && SeedFits(config, seed)
    ensures Inputs(config, ids, |seed| + total, past) == Inputs(config, ids, total, past)
  {
    if seed != [] { TotalUnread(config, ids, total, |seed| + total, past); }
  }

  lemma PlainPass(session: Session, config: Config, lm: LanguageModel, prompt: seq<int>, st: StreamState)
    requires Stateless(session, config, lm) && prompt != [] && st.past == map[]
    ensures PassOf(session, config, prompt, st) == WholePass(lm, prompt + st.generated, map[])
  {
    hide Inputs, ReadPass;
    var all := prompt + st.generated;
    assert Answers(session, config, lm, [], all, map[], map[]);
    assert [] + all == all;
  }

  lemma StaysInStep(cachedSession: Session, cachedConfig: Config, plainSession: Session, plainConfig: Config,
                    lm: LanguageModel, seed: seq<int>, prompt: seq<int>, cached: StreamState, plain: StreamState,
                    cancelled: bool)
    requires UsesCache(cachedConfig) && Coherent(cachedSession, cachedConfig, lm) && SeedFits(cachedConfig, seed)
    requires Stateless(plainSession, plainConfig, lm) && SameLimits(cachedConfig, plainConfig)
    requires prompt != [] && InStep(lm, seed, prompt, cached, plain)
    ensures var c := NextOf(cachedSession, cachedConfig, prompt, cached, cancelled);
            var p := NextOf(plainSession, plainConfig, seed + prompt, plain, cancelled);
            c.1 == p.1 && InStep(lm, seed, prompt, c.0, p.0)
  {
    hide PassOf, Coherent, Stateless, IsArgmax;
    if !cached.finished {
      CachedPass(cachedSession, cachedConfig, lm, seed, prompt, cached);
      PlainPass(plainSession, plainConfig, lm, seed + prompt, plain);
      var all := seed + prompt + cached.generated;
      assert all == seed + (prompt + cached.generated);
      if lm.row(all).Ok? {
        var longer := cached.generated + [Argmax(lm.row(all).value)];
        assert longer[..|longer| - 1] == cached.generated;
      }
    }
  }

  /** Through EOS, cap, cancellation and errors alike, a stream on a coherent
      cache that starts out covering `seed` yields at every call the item of a
      stream without a cache on `seed` and the prompt. */
  lemma {:induction false} CachedStreamMatchesPlain(
      cachedSession: Session, cachedConfig: Config, plainSession: Session, plainConfig: Config,
      lm: LanguageModel, seed: seq<int>, prompt: seq<int>, cancels: seq<bool>, k: nat)
    requires UsesCache(cachedConfig) && Coherent(cachedSession, cachedConfig, lm) && SeedFits(cachedConfig, seed)
    requires lm.cache(seed) == InitialPast(cachedConfig.kvCache)
    requires Stateless(plainSession, plainConfig, lm) && SameLimits(cachedConfig, plainConfig)
    requires prompt != [] && k <= |cancels|
    ensures var c0, p0 := StreamState([], InitialPast(cachedConfig.kvCache), false), StreamState([], map[], false);
            && InStep(lm, seed, prompt, After(cachedSession, cachedConfig, prompt, c0, cancels[..k]),
                      After(plainSession, plainConfig, seed + prompt, p0, cancels[..k]))
            && (k < |cancels| ==> ItemAt(cachedSession, cachedConfig, prompt, c0, cancels, k) ==
                                  ItemAt(plainSession, plainConfig, seed + prompt, p0, cancels, k))
    decreases k
  {
    hide PassOf, IsArgmax, Coherent, Stateless;
    var c0, p0 := StreamState([], InitialPast(cachedConfig.kvCache), false), StreamState([], map[], false);
    assert seed + [] == seed;
    if 0 < k {
      CachedStreamMatchesPlain(cachedSession, cachedConfig, plainSession, plainConfig, lm, seed, prompt,
                               cancels, k - 1);
      AfterStep(cachedSession, cachedConfig, prompt, c0, cancels, k - 1);
      AfterStep(plainSession, plainConfig, seed + prompt, p0, cancels, k - 1);
      StaysInStep(cachedSession, cachedConfig, plainSession, plainConfig, lm, seed, prompt,
                  After(cachedSession, cachedConfig, prompt, c0, cancels[..k - 1]),
                  After(plainSession, plainConfig, seed + prompt, p0, cancels[..k - 1]), cancels[k - 1]);
    }
    if k < |cancels| {
      StaysInStep(cachedSession, cachedConfig, plainSession, plainConfig, lm, seed, prompt,
                  After(cachedSession, cachedConfig, prompt, c0, cancels[..k]),
                  After(plainSession, plainConfig, seed + prompt, p0, cancels[..k]), cancels[k]);
    }
  }

  // ----- running a generation to completion -----

  ghost function Left(config: Config, st: StreamState): nat {
    if Live(config, st) then config.maxNewTokens - |st.generated| else 0
  }

  /** The tokens still to come, or the first error; `poll(k)` is what the
      cancellation token answers before step k. */
  ghost function Collected(session: Session, config: Config, prompt: seq<int>, st: StreamState,
                           poll: nat -> bool, k: nat)
    : Result<seq<int>, Error>
    decreases Left(config, st)
  {
    var (next, item) := NextOf(session, config, prompt, st, poll(k));
    match item
    case None => Ok([])
    case Some(Err(e)) => Err(e)
    case Some(Ok(step)) =>
      match Collected(session, config, prompt, next, poll, k + 1)
      case Err(e) => Err(e)
      case Ok(rest) => Ok([step.token] + rest)
  }

  method GenerateTokens(session: Session, prompt: seq<int>, config: Config, poll: nat -> bool)
    returns (r: Result<seq<int>, Error>)
    ensures r == if prompt == [] || !Declared(session, config) then Err(InvalidModel)
                 else Collected(session, config, prompt, StreamState([], InitialPast(config.kvCache), false), poll, 0)
  {
    hide PassOf, IsArgmax, Declared;
    var started := Generate(session, prompt, config);
    if started.Err? {
      return Err(started.error);
    }
    var stream := started.value;
    var tokens: seq<int>, k: nat := [], 0;
    ghost var whole := Collected(session, config, prompt, stream.State(), poll, 0);
    assert whole.Ok? ==> [] + whole.value == whole.value;
    while true
      invariant stream.session == session && stream.config == config && stream.prompt == prompt
      invariant fresh(stream)
      invariant whole == match Collected(session, config, prompt, stream.State(), poll, k)
                         case Err(e) => Err(e)
                         case Ok(rest) => Ok(tokens + rest)
      decreases Left(config, stream.State())
    {
      var item := stream.Next(poll(k));
      if item.None? {
        assert tokens + [] == tokens;
        return Ok(tokens);
      }
      if item.value.Err? {
        return Err(item.value.error);
      }
      ghost var rest := Collected(session, config, prompt, stream.State(), poll, k + 1);
      assert rest.Ok? ==> tokens + ([item.value.value.token] + rest.value) ==
                          (tokens + [item.value.value.token]) + rest.value;
      tokens, k := tokens + [item.value.value.token], k + 1;
    }
  }

  /** A completed generation respects the cap, holds EOS at most at its end,
      and is shorter than the cap only because of it. */
  lemma {:induction false} CollectedTokens(session: Session, config: Config, prompt: seq<int>, st: StreamState,
                                           poll: nat -> bool, k: nat)
    requires Collected(session, config, prompt, st, poll, k).Ok?
    ensures var tokens := Collected(session, config, prompt, st, poll, k).value;
            && |tokens| <= Left(config, st)
            && (forall j :: 0 <= j < |tokens| - 1 ==> config.eosTokenId != Some(tokens[j]))
            && (|tokens| < Left(config, st) ==>
                  tokens != [] && config.eosTokenId == Some(tokens[|tokens| - 1]))
    decreases Left(config, st)
  {
    hide PassOf, IsArgmax;
    var (next, item) := NextOf(session, config, prompt, st, poll(k));
    if item.Some? {
      CollectedTokens(session, config, prompt, next, poll, k + 1);
    }
  }

  lemma {:induction false} AfterCons(session: Session, config: Config, prompt: seq<int>, st: StreamState, c: bool,
                                     rest: seq<bool>)
    ensures After(session, config, prompt, st, [c] + rest) ==
            After(session, config, prompt, NextOf(session, config, prompt, st, c).0, rest)
    decreases |rest|
  {
    hide NextOf;
    if rest == [] {
      assert [c] + rest == [c] && [c][..0] == [];
    } else {
      var front := rest[..|rest| - 1];
      AfterCons(session, config, prompt, st, c, front);
      assert ([c] + rest)[..|rest|] == [c] + front;
    }
  }

  /** What the cancellation token answers to `n` calls from step `k` on. */
  function Polls(poll: nat -> bool, k: nat, n: nat): seq<bool> { seq(n, i requires 0 <= i => poll(k + i)) }

  /** The collected tokens are those of the calls, in order. */
  lemma {:induction false} CollectedAreItems(session: Session, config: Config, prompt: seq<int>, st: StreamState,
                                             poll: nat -> bool, k: nat, j: nat)
    requires Collected(session, config, prompt, st, poll, k).Ok?
    requires j < |Collected(session, config, prompt, st, poll, k).value|
    ensures var item := ItemAt(session, config, prompt, st, Polls(poll, k, j + 1), j);
            item.Some? && item.value.Ok? &&
            item.value.value.token == Collected(session, config, prompt, st, poll, k).value[j]
    decreases j
  {
    hide PassOf, IsArgmax;
    var polls := Polls(poll, k, j + 1);
    var next := NextOf(session, config, prompt, st, poll(k)).0;
    if j == 0 {
      assert polls[..0] == [] && polls[0] == poll(k);
    } else {
      CollectedAreItems(session, config, prompt, next, poll, k + 1, j - 1);
      var later := Polls(poll, k + 1, j);
      assert polls[..j] == [poll(k)] + later[..j - 1] && polls[j] == later[j - 1];
      AfterCons(session, config, prompt, st, poll(k), later[..j - 1]);
      hide NextOf;
    }
  }

  lemma {:induction false} CachedGenerationMatchesPlain(
      cachedSession: Session, cachedConfig: Config, plainSession: Session, plainConfig: Config, lm: LanguageModel,
      seed: seq<int>, prompt: seq<int>, cached: StreamState, plain: StreamState, poll: nat -> bool, k: nat)
    requires UsesCache(cachedConfig) && Coherent(cachedSession, cachedConfig, lm) && SeedFits(cachedConfig, seed)
    requires Stateless(plainSession, plainConfig, lm) && SameLimits(cachedConfig, plainConfig)
    requires prompt != [] && InStep(lm, seed, prompt, cached, plain)
    ensures Collected(cachedSession, cachedConfig, prompt, cached, poll, k) ==
            Collected(plainSession, plainConfig, seed + prompt, plain, poll, k)
    decreases Left(cachedConfig, cached)
  {
    hide PassOf, IsArgmax, Coherent, Stateless;
    StaysInStep(cachedSession, cachedConfig, plainSession, plainConfig, lm, seed, prompt, cached, plain, poll(k));
    var (next, item) := NextOf(cachedSession, cachedConfig, prompt, cached, poll(k));
    var (plainNext, _) := NextOf(plainSession, plainConfig, seed + prompt, plain, poll(k));
    if item.Some? && item.value.Ok? {
      CachedGenerationMatchesPlain(cachedSession, cachedConfig, plainSession, plainConfig, lm, seed, prompt,
                                   next, plainNext, poll, k + 1);
    }
  }

  // ----- coherence can be met -----

  /** A model whose cache is the history itself and whose logits are all of it. */
  function EchoRun(feeds: Feeds): Result<Feeds, Error> {
    if "ids" !in feeds || "past" !in feeds then Err(RunFailed(0))
    else
      var all := feeds["past"].data + feeds["ids"].data;
      Ok(map["present" := Tensor(all, [|all|]), "logits" := Tensor(all, [|all|])])
  }

  const ECHO_SESSION := Session(["ids", "past"], ["logits", "present"], EchoRun)

  function EchoConfig(maxNewTokens: nat): Config {
    Config("ids", "logits", None, None, [KvBinding("past", "present", Tensor([], [0]))], maxNewTokens, None,
           false, false)
  }

  const ECHO_MODEL := LanguageModel(s => Ok(Encode(s)), s => map["past" := Tensor(Encode(s), [|s|])])

  lemma EchoAnswers(maxNewTokens: nat, p: seq<int>, q: seq<int>)
    requires q != []
    ensures Answers(ECHO_SESSION, EchoConfig(maxNewTokens), ECHO_MODEL, p, q,
                    ECHO_MODEL.cache(p), ECHO_MODEL.cache(p + q))
  {
    hide IntegerCast.ToF32;
    var config := EchoConfig(maxNewTokens);
    var feeds := Inputs(config, q, |p| + |q|, ECHO_MODEL.cache(p));
    assert feeds["past"] == Tensor(Encode(p), [|p|]) && feeds["ids"] == Tensor(Encode(q), [1, |q|]);
    assert Encode(p) + Encode(q) == Encode(p + q);
    var outs := EchoRun(feeds).value;
    EchoReads(config, outs, p + q);
  }

  lemma EchoReads(config: Config, outs: Feeds, all: seq<int>)
    requires config.kvCache == [KvBinding("past", "present", Tensor([], [0]))] && config.logits == "logits" && all != []
    requires outs == map["present" := Tensor(Encode(all), [|all|]), "logits" := Tensor(Encode(all), [|all|])]
    ensures ReadPass(config, Ok(outs)) == Ok(Pass(ECHO_MODEL.cache(all), Encode(all)))
  {
    hide IntegerCast.ToF32;
    assert config.kvCache[..0] == [];
    assert Refresh([], outs) == Ok(map[]);
    assert Refresh(config.kvCache, outs) == Ok(ECHO_MODEL.cache(all));
    assert Encode(all)[|all| - |all|..] == Encode(all);
  }

  /** The assumptions of the simulation are satisfiable, by a model whose every
      row depends on the whole history. */
  lemma EchoIsCoherent(maxNewTokens: nat)
    ensures Coherent(ECHO_SESSION, EchoConfig(maxNewTokens), ECHO_MODEL)
    ensures ECHO_MODEL.cache([]) == InitialPast(EchoConfig(maxNewTokens).kvCache)
  {
    forall p: seq<int>, q: seq<int> | q != []
      ensures Answers(ECHO_SESSION, EchoConfig(maxNewTokens), ECHO_MODEL, p, q,
                      ECHO_MODEL.cache(p), ECHO_MODEL.cache(p + q))
    {
      EchoAnswers(maxNewTokens, p, q);
    }
    assert EchoConfig(maxNewTokens).kvCache[..0] == [];
    assert Encode([]) == [];
  }
}
