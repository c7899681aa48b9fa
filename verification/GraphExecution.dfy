/** What the order is for: running the nodes. A run resolves by name each input
    and each outer name a node's subgraphs capture, applies the node's operator
    and binds its named outputs; any operator may fail and ends the run. */
module GraphExecution {
  import opened Wrappers
  import opened Dependencies
  import opened GraphScheduler

  type Env<V> = map<string, V>

  /** What node `i` computes from everything it reads; `None` is an operator error. */
  type Operators<!V> = (nat, seq<Option<V>>) -> Option<seq<V>>

  function Lookup<V>(env: Env<V>, name: string): Option<V> {
    if name in env then Some(env[name]) else None
  }

  /** An omitted optional input resolves to nothing. */
  function Resolve<V>(env: Env<V>, names: seq<string>): seq<Option<V>> {
    seq(|names|, k requires 0 <= k < |names| => if names[k] == "" then None else Lookup(env, names[k]))
  }

  /** All a node reads: its inputs, then what its subgraphs capture. */
  function Reads(node: Node): seq<string> { node.inputs + node.captures }

  /** Insert each result under its output name; an unnamed output is dropped. */
  function Bind<V>(env: Env<V>, outputs: seq<string>, results: seq<V>): Env<V>
    decreases |outputs|
  {
    if outputs == [] || results == [] then env
    else Bind(if outputs[0] == "" then env else env[outputs[0] := results[0]], outputs[1..], results[1..])
  }

  function Run<V>(g: Graph, op: Operators<V>, env: Env<V>, order: seq<nat>): Option<Env<V>>
    requires forall k :: 0 <= k < |order| ==> order[k] < |g.nodes|
  {
    if order == [] then Some(env)
    else
      var i := order[|order| - 1];
      match Run(g, op, env, order[..|order| - 1])
      case None => None
      case Some(e) =>
        match op(i, Resolve(e, Reads(g.nodes[i])))
        case None => None
        case Some(results) => Some(Bind(e, g.nodes[i].outputs, results))
  }

  // ----- the conditions under which order does not matter -----

  /** Who waits for whom when captures count as well. */
  ghost function ReadsFrom(g: Graph, known: set<string>): (deps: DepList)
    ensures |deps| == |g.nodes| && WellFormed(deps)
    ensures forall i :: 0 <= i < |deps| ==> deps[i] == EdgesOf(g, known, Reads(g.nodes[i]))
  {
    seq(|g.nodes|, i requires 0 <= i < |g.nodes| => EdgesOf(g, known, Reads(g.nodes[i])))
  }

  /** In plain terms: among what it reads, inputs and captures, some name is known
      from nowhere else and last written by `p`. */
  lemma ReadsFromMeaning(g: Graph, known: set<string>, i: nat, p: nat)
    requires i < |g.nodes|
    ensures p in ReadsFrom(g, known)[i] <==>
            LastWriterOf(g, known, g.nodes[i].inputs, p) || LastWriterOf(g, known, g.nodes[i].captures, p)
  {
    var node := g.nodes[i];
    EdgesInPlainTerms(g, known, Reads(node), p);
    assert forall name :: name in Reads(node) <==> name in node.inputs || name in node.captures;
  }

  /** No named output is written twice, by two nodes or by one. */
  ghost predicate UniqueOutputs(g: Graph) {
    && (forall i, j, name :: 0 <= i < j < |g.nodes| && name in g.nodes[i].outputs && name in g.nodes[j].outputs ==>
          name == "")
    && (forall i :: 0 <= i < |g.nodes| ==> NamedOnce(g.nodes[i].outputs))
  }

  ghost predicate NamedOnce(outputs: seq<string>) {
    forall a, b :: 0 <= a < b < |outputs| && outputs[a] == outputs[b] ==> outputs[a] == ""
  }

  ghost predicate NoOutputKnown(g: Graph, known: set<string>) {
    forall i, name :: 0 <= i < |g.nodes| && name in g.nodes[i].outputs && name != "" ==> name !in known
  }

  ghost predicate Writes(g: Graph, i: nat, name: string) {
    i < |g.nodes| && name != "" && name in g.nodes[i].outputs
  }

  // ----- binding -----

  ghost function Bound<V>(outputs: seq<string>, results: seq<V>, name: string): Option<V> {
    if outputs == [] || results == [] then None
    else
      var later := Bound(outputs[1..], results[1..], name);
      if later.Some? then later else if outputs[0] == name && name != "" then Some(results[0]) else None
  }

  lemma {:induction false} BindLookup<V>(env: Env<V>, outputs: seq<string>, results: seq<V>, name: string)
    ensures Lookup(Bind(env, outputs, results), name) ==
            if Bound(outputs, results, name).Some? then Bound(outputs, results, name) else Lookup(env, name)
    ensures Bound(outputs, results, name).Some? ==> name != "" && name in outputs
    decreases |outputs|
  {
    if outputs != [] && results != [] {
      var env' := if outputs[0] == "" then env else env[outputs[0] := results[0]];
      BindLookup(env', outputs[1..], results[1..], name);
    }
  }

  lemma {:induction false} BoundWhenEnough<V>(outputs: seq<string>, results: seq<V>, name: string)
    requires |outputs| <= |results| && name != "" && name in outputs
    ensures Bound(outputs, results, name).Some?
  {
    if outputs[0] != name {
      BoundWhenEnough(outputs[1..], results[1..], name);
    }
  }

  // ----- settled environments -----

  /** `env` agrees with what node `i` computes from `env` itself. */
  ghost predicate Settled<V>(g: Graph, op: Operators<V>, env: Env<V>, i: nat)
    requires i < |g.nodes|
  {
    var node := g.nodes[i];
    var out := op(i, Resolve(env, Reads(node)));
    out.Some? && forall name :: Writes(g, i, name) ==> Lookup(env, name) == Bound(node.outputs, out.value, name)
  }

  ghost predicate Runnable(g: Graph, known: set<string>, order: seq<nat>) {
    && UniqueOutputs(g) && NoOutputKnown(g, known)
    && NoDuplicates(order)
    && (forall k :: 0 <= k < |order| ==> order[k] < |g.nodes|)
    && ProducersFirst(ReadsFrom(g, known), order)
  }

  lemma RunnablePrefix(g: Graph, known: set<string>, order: seq<nat>, m: nat)
    requires Runnable(g, known, order) && m <= |order|
    ensures Runnable(g, known, order[..m])
  {
    var deps := ReadsFrom(g, known);
    forall k: nat | k < m
      ensures ReadyAt(deps, order[..m], k)
    {
      assert ReadyAt(deps, order, k) && order[..m][..k] == order[..k];
    }
  }

  /** Whoever writes a name read by the k-th node runs before it. */
  lemma WriterRunsBefore(g: Graph, known: set<string>, order: seq<nat>, k: nat, name: string, p: nat)
    requires Runnable(g, known, order) && k < |order|
    requires name in Reads(g.nodes[order[k]]) && Writes(g, p, name)
    ensures p in order[..k]
  {
    var inputs := Reads(g.nodes[order[k]]);
    var at :| 0 <= at < |inputs| && inputs[at] == name;
    assert Waits(g, known, inputs[at]) && Producer(g.nodes, inputs[at]) == Some(p);
    EdgesOfMeaning(g, known, inputs, p);
    assert ReadyAt(ReadsFrom(g, known), order, k);
  }

  lemma ResolveAgrees<V>(a: Env<V>, b: Env<V>, names: seq<string>)
    requires forall name :: name in names && name != "" ==> Lookup(a, name) == Lookup(b, name)
    ensures Resolve(a, names) == Resolve(b, names)
  {
  }

  /** Running the m-th node changes nothing the nodes up to it have read. */
  lemma LaterWritesUnread<V>(g: Graph, known: set<string>, order: seq<nat>, e: Env<V>, results: seq<V>, m: nat, k: nat)
    requires Runnable(g, known, order) && k <= m < |order|
    ensures Resolve(Bind(e, g.nodes[order[m]].outputs, results), Reads(g.nodes[order[k]])) ==
            Resolve(e, Reads(g.nodes[order[k]]))
  {
    var outputs := g.nodes[order[m]].outputs;
    forall name | name in Reads(g.nodes[order[k]]) && name != ""
      ensures Lookup(Bind(e, outputs, results), name) == Lookup(e, name)
    {
      BindLookup(e, outputs, results, name);
      if Writes(g, order[m], name) {
        WriterRunsBefore(g, known, order, k, name, order[m]);
        assert false;
      }
    }
    ResolveAgrees(Bind(e, outputs, results), e, Reads(g.nodes[order[k]]));
  }

  /** One result under its name: `results[k]` is found under `outputs[k]`, unless
      the name repeats later, and names not listed keep what they had. */
  lemma {:induction false} ResultsLand<V>(env: Env<V>, outputs: seq<string>, results: seq<V>, k: nat)
    requires k < |outputs| && k < |results| && outputs[k] != ""
    requires forall j :: k < j < |outputs| && j < |results| ==> outputs[j] != outputs[k]
    ensures outputs[k] in Bind(env, outputs, results) && Bind(env, outputs, results)[outputs[k]] == results[k]
    decreases |outputs|
  {
    var next := if outputs[0] == "" then env else env[outputs[0] := results[0]];
    if k == 0 {
      OthersStay(next, outputs[1..], results[1..], outputs[0]);
    } else {
      ResultsLand(next, outputs[1..], results[1..], k - 1);
    }
  }

  lemma {:induction false} OthersStay<V>(env: Env<V>, outputs: seq<string>, results: seq<V>, name: string)
    requires forall j :: 0 <= j < |outputs| && j < |results| ==> outputs[j] != name || name == ""
    ensures (name in Bind(env, outputs, results) <==> name in env)
    ensures name in env ==> Bind(env, outputs, results)[name] == env[name]
    decreases |outputs|
  {
    if outputs != [] && results != [] {
      OthersStay(if outputs[0] == "" then env else env[outputs[0] := results[0]], outputs[1..], results[1..], name);
    }
  }

  ghost predicate Untouched<V>(g: Graph, order: seq<nat>, env: Env<V>, e: Env<V>) {
    forall name :: (forall i :: i in order ==> !Writes(g, i, name)) ==> Lookup(e, name) == Lookup(env, name)
  }

  lemma {:induction false} RunSettles<V>(g: Graph, op: Operators<V>, env: Env<V>, order: seq<nat>)
    requires Runnable(g, env.Keys, order) && Run(g, op, env, order).Some?
    ensures Untouched(g, order, env, Run(g, op, env, order).value)
    ensures forall k :: 0 <= k < |order| ==> Settled(g, op, Run(g, op, env, order).value, order[k])
    decreases |order|
  {
    if order != [] {
      var m := |order| - 1;
      var front, i := order[..m], order[m];
      RunnablePrefix(g, env.Keys, order, m);
      RunSettles(g, op, env, front);
      var e0, e := Run(g, op, env, front).value, Run(g, op, env, order).value;
      var outputs := g.nodes[i].outputs;
      var results := op(i, Resolve(e0, Reads(g.nodes[i]))).value;
      forall name ensures Lookup(e, name) ==
          if Bound(outputs, results, name).Some? then Bound(outputs, results, name) else Lookup(e0, name)
      {
        BindLookup(e0, outputs, results, name);
      }
      forall name | forall j :: j in order ==> !Writes(g, j, name)
        ensures Lookup(e, name) == Lookup(env, name)
      {
        BindLookup(e0, outputs, results, name);
        assert forall j :: j in front ==> j in order;
        assert i in order && !Writes(g, i, name);
      }
      forall k | 0 <= k < |order|
        ensures Settled(g, op, e, order[k])
      {
        LaterWritesUnread(g, env.Keys, order, e0, results, m, k);
        if k < m {
          assert Settled(g, op, e0, front[k]);
          forall name | Writes(g, order[k], name) ensures Lookup(e, name) == Lookup(e0, name) {
            BindLookup(e0, outputs, results, name);
            assert !Writes(g, i, name);
          }
        } else {
          forall name | Writes(g, i, name) ensures Lookup(e, name) == Bound(outputs, results, name) {
            assert forall j :: j in front ==> !Writes(g, j, name);
          }
        }
      }
    }
  }

  /** The argument a name stands for. */
  ghost predicate IsValueOf<V>(arg: Option<V>, env: Env<V>, name: string) {
    arg == if name != "" && name in env then Some(env[name]) else None
  }

  /** What a completed run means, node by node and in plain terms: the operator
      was given the final value of each input and then of each capture, in order,
      and each result lies under the output of its position. */
  lemma RunMeaning<V>(g: Graph, op: Operators<V>, env: Env<V>, order: seq<nat>, i: nat)
    returns (args: seq<Option<V>>, results: seq<V>)
    requires Runnable(g, env.Keys, order) && Run(g, op, env, order).Some? && i in order
    ensures var node, final := g.nodes[i], Run(g, op, env, order).value;
            && |args| == |node.inputs| + |node.captures| && op(i, args) == Some(results)
            && (forall r :: 0 <= r < |node.inputs| ==> IsValueOf(args[r], final, node.inputs[r]))
            && (forall r :: 0 <= r < |node.captures| ==> IsValueOf(args[|node.inputs| + r], final, node.captures[r]))
            && (forall q :: 0 <= q < |node.outputs| && node.outputs[q] != "" ==>
                  IsResultAt(results, q, final, node.outputs[q]))
  {
    RunSettles(g, op, env, order);
    var final, node := Run(g, op, env, order).value, g.nodes[i];
    var k :| 0 <= k < |order| && order[k] == i;
    assert Settled(g, op, final, order[k]);
    args := Resolve(final, Reads(node));
    results := op(i, args).value;
    assert NamedOnce(node.outputs);
    forall q | 0 <= q < |node.outputs| && node.outputs[q] != ""
      ensures IsResultAt(results, q, final, node.outputs[q])
    {
      assert Writes(g, i, node.outputs[q]);
      BoundAt(node.outputs, results, q);
    }
  }

  /** Output `q` holds result `q`, or nothing when there are fewer results. */
  ghost predicate IsResultAt<V>(results: seq<V>, q: nat, env: Env<V>, name: string) {
    if q < |results| then name in env && env[name] == results[q] else name !in env
  }

  lemma {:induction false} BoundAt<V>(outputs: seq<string>, results: seq<V>, q: nat)
    requires NamedOnce(outputs) && q < |outputs| && outputs[q] != ""
    ensures Bound(outputs, results, outputs[q]) == if q < |results| then Some(results[q]) else None
    decreases |outputs|
  {
    if results == [] {
    } else if q == 0 {
      BoundNowhere(outputs[1..], results[1..], outputs[0]);
    } else {
      assert NamedOnce(outputs[1..]);
      BoundAt(outputs[1..], results[1..], q - 1);
    }
  }

  lemma {:induction false} BoundNowhere<V>(outputs: seq<string>, results: seq<V>, name: string)
    requires name !in outputs
    ensures Bound(outputs, results, name) == None
    decreases |outputs|
  {
    if outputs != [] && results != [] { BoundNowhere(outputs[1..], results[1..], name); }
  }

  /** Given its `r`-th argument, the operator returns it as result `q`. */
  ghost predicate HandsOn<V(!new)>(op: Operators<V>, i: nat, arity: nat, r: nat, q: nat) {
    forall args: seq<Option<V>> :: |args| == arity && r < arity && args[r].Some? && op(i, args).Some? ==>
      q < |op(i, args).value| && op(i, args).value[q] == args[r].value
  }

  /** A node that hands on its `r`-th read leaves that very value under its output. */
  lemma HandedOnArgument<V(!new)>(g: Graph, op: Operators<V>, env: Env<V>, order: seq<nat>, i: nat, r: nat, q: nat)
    requires Runnable(g, env.Keys, order) && Run(g, op, env, order).Some? && i in order
    requires r < |Reads(g.nodes[i])| && q < |g.nodes[i].outputs| && g.nodes[i].outputs[q] != ""
    requires HandsOn(op, i, |Reads(g.nodes[i])|, r, q)
    ensures var final, name := Run(g, op, env, order).value, Reads(g.nodes[i])[r];
            name != "" && name in final ==>
              g.nodes[i].outputs[q] in final && final[g.nodes[i].outputs[q]] == final[name]
  {
    assert i < |g.nodes|;
    hide Runnable, Run, ReadsFrom, UniqueOutputs, NoOutputKnown, Bound, Settled, Resolve;
    var args, results := RunMeaning(g, op, env, order, i);
    var node := g.nodes[i];
    if |node.inputs| <= r { assert Reads(node)[r] == node.captures[r - |node.inputs|]; }
  }

  // ----- any other order -----

  /** What a settled environment looks like once only `done` has run. */
  ghost function Part<V>(g: Graph, final: Env<V>, known: set<string>, done: seq<nat>): Env<V> {
    map name | name in final && (name in known || exists i :: i in done && Writes(g, i, name)) :: final[name]
  }

  ghost predicate AllSettled<V>(g: Graph, op: Operators<V>, env: Env<V>, final: Env<V>) {
    && (forall i: nat :: i < |g.nodes| ==> Settled(g, op, final, i))
    && (forall name :: (forall i :: !Writes(g, i, name)) ==> Lookup(final, name) == Lookup(env, name))
  }

  /** At its turn, each node reads exactly what it would read at the end. */
  lemma ReadsFinalValues<V>(g: Graph, op: Operators<V>, env: Env<V>, final: Env<V>, order: seq<nat>, k: nat)
    requires Runnable(g, env.Keys, order) && AllSettled(g, op, env, final) && k < |order|
    ensures Resolve(Part(g, final, env.Keys, order[..k]), Reads(g.nodes[order[k]])) ==
            Resolve(final, Reads(g.nodes[order[k]]))
  {
    var part := Part(g, final, env.Keys, order[..k]);
    forall name | name in Reads(g.nodes[order[k]]) && name != ""
      ensures Lookup(part, name) == Lookup(final, name)
    {
      if p :| Writes(g, p, name) {
        WriterRunsBefore(g, env.Keys, order, k, name, p);
      }
    }
    ResolveAgrees(part, final, Reads(g.nodes[order[k]]));
  }

  lemma {:induction false} RunFollows<V>(g: Graph, op: Operators<V>, env: Env<V>, final: Env<V>, order: seq<nat>)
    requires Runnable(g, env.Keys, order) && AllSettled(g, op, env, final)
    ensures Run(g, op, env, order) == Some(Part(g, final, env.Keys, order))
    decreases |order|
  {
    if order == [] {
      forall name ensures Lookup(Part(g, final, env.Keys, []), name) == Lookup(env, name) {
        if name in env { assert forall i :: !Writes(g, i, name); }
      }
      SameLookups(Part(g, final, env.Keys, []), env);
    } else {
      var m := |order| - 1;
      var i := order[m];
      RunnablePrefix(g, env.Keys, order, m);
      RunFollows(g, op, env, final, order[..m]);
      ReadsFinalValues(g, op, env, final, order, m);
      assert Settled(g, op, final, i);
      PartExtends(g, final, env.Keys, order, op(i, Resolve(final, Reads(g.nodes[i]))).value);
    }
  }

  /** Binding a settled node's results to what the nodes before it left. */
  lemma PartExtends<V>(g: Graph, final: Env<V>, known: set<string>, order: seq<nat>, results: seq<V>)
    requires order != [] && Runnable(g, known, order)
    requires var i := order[|order| - 1];
             forall name :: Writes(g, i, name) ==> Lookup(final, name) == Bound(g.nodes[i].outputs, results, name)
    ensures var i := order[|order| - 1];
            Bind(Part(g, final, known, order[..|order| - 1]), g.nodes[i].outputs, results) ==
            Part(g, final, known, order)
  {
    var m := |order| - 1;
    var i := order[m];
    var before, after := Part(g, final, known, order[..m]), Part(g, final, known, order);
    var outputs := g.nodes[i].outputs;
    assert NoOutputKnown(g, known) && UniqueOutputs(g) && NoDuplicates(order) && i < |g.nodes|;
    hide Runnable;
    assert order == order[..m] + [i];
    forall name ensures Lookup(Bind(before, outputs, results), name) == Lookup(after, name) {
      BindLookup(before, outputs, results, name);
      if Writes(g, i, name) {
        assert i in order && Lookup(after, name) == Lookup(final, name);
        assert name !in known && forall j :: j in order[..m] ==> !Writes(g, j, name);
      }
    }
    SameLookups(Bind(before, outputs, results), after);
  }

  lemma SameLookups<V>(a: Env<V>, b: Env<V>)
    requires forall name :: Lookup(a, name) == Lookup(b, name)
    ensures a == b
  {
    assert forall name :: name in a <==> Lookup(a, name).Some?;
    assert forall name :: name in b <==> Lookup(b, name).Some?;
    assert forall name :: name in a ==> a[name] == Lookup(a, name).value;
  }

  lemma RunIsSettled<V>(g: Graph, op: Operators<V>, env: Env<V>, order: seq<nat>)
    requires Runnable(g, env.Keys, order) && Permutation(order, |g.nodes|) && Run(g, op, env, order).Some?
    ensures AllSettled(g, op, env, Run(g, op, env, order).value)
  {
    RunSettles(g, op, env, order);
    var final := Run(g, op, env, order).value;
    forall i: nat | i < |g.nodes| ensures Settled(g, op, final, i) {
      assert i in order;
      var k :| 0 <= k < |order| && order[k] == i;
    }
  }

  lemma CompletedRunAgrees<V>(g: Graph, op: Operators<V>, env: Env<V>, first: seq<nat>, second: seq<nat>)
    requires Runnable(g, env.Keys, first) && Permutation(first, |g.nodes|)
    requires Runnable(g, env.Keys, second) && Permutation(second, |g.nodes|)
    requires Run(g, op, env, first).Some?
    ensures Run(g, op, env, second) == Run(g, op, env, first)
  {
    RunIsSettled(g, op, env, first);
    var final := Run(g, op, env, first).value;
    RunFollows(g, op, env, final, second);
    var part := Part(g, final, env.Keys, second);
    forall name ensures Lookup(part, name) == Lookup(final, name) {
      if p :| Writes(g, p, name) {
        assert p in second;
      } else {
        assert Lookup(final, name) == Lookup(env, name);
      }
    }
    SameLookups(part, final);
  }

  /** Any two dependency-respecting orders end the same way: with the same
      environment, or both with an operator error. */
  lemma OrderIndependent<V>(g: Graph, op: Operators<V>, env: Env<V>, first: seq<nat>, second: seq<nat>)
    requires Runnable(g, env.Keys, first) && Permutation(first, |g.nodes|)
    requires Runnable(g, env.Keys, second) && Permutation(second, |g.nodes|)
    ensures Run(g, op, env, first) == Run(g, op, env, second)
  {
    if Run(g, op, env, first).Some? {
      CompletedRunAgrees(g, op, env, first, second);
    } else if Run(g, op, env, second).Some? {
      CompletedRunAgrees(g, op, env, second, first);
    }
  }

  // ----- the scheduler's order -----

  lemma ScheduleRespectsIffAcyclic(deps: DepList, order: seq<nat>)
    requires WellFormed(deps) && IsSchedule(deps, order)
    ensures ProducersFirst(deps, order) <==> Acyclic(deps)
  {
    var q := |CleanSet(deps)|;
    if Acyclic(deps) {
      AllClean(deps);
      assert order[..q] == order;
    }
    if ProducersFirst(deps, order) {
      forall a: nat | a < |deps| ensures !OnCycle(deps, a) {
        assert a in order;
        var k :| 0 <= k < |order| && order[k] == a;
        ProducersFirstIsClean(deps, order, k);
        assert IsPath(deps, [a]) && PathTo(deps, [a], a);
      }
    }
  }

  lemma AllClean(deps: DepList)
    requires Acyclic(deps)
    ensures CleanSet(deps) == Below(|deps|)
  {
    forall i: nat | i < |deps| ensures i in CleanSet(deps) {
      forall path | PathTo(deps, path, i) ensures !OnCycle(deps, path[0]) { }
    }
  }

  /** The fallback append holds exactly the nodes with a cycle behind them. */
  lemma FallbackIsUnclean(deps: DepList, order: seq<nat>, k: nat)
    requires IsSchedule(deps, order) && k < |order|
    ensures |CleanSet(deps)| <= k <==> !Clean(deps, order[k])
  {
    hide DepthOrdered, ProducersFirst, Clean;
    var q := |CleanSet(deps)|;
    if k < q {
      assert order[..q][k] in Elements(order[..q]);
    } else {
      forall j | 0 <= j < q ensures order[..q][j] != order[k] { assert order[j] != order[k]; }
      assert order[k] !in Elements(order[..q]);
    }
  }

  lemma UncleanHasUncleanCycle(deps: DepList, i: nat) returns (a: nat)
    requires i < |deps| && !Clean(deps, i)
    ensures a < |deps| && OnCycle(deps, a) && !Clean(deps, a)
  {
    var path :| PathTo(deps, path, i) && OnCycle(deps, path[0]);
    a := path[0];
    assert PathTo(deps, [a], a);
  }

  /** Nodes reach the fallback append only because one of them is on a cycle. */
  lemma FallbackMeansCycle(deps: DepList, order: seq<nat>)
    requires IsSchedule(deps, order) && |CleanSet(deps)| < |deps|
    ensures exists k :: |CleanSet(deps)| <= k < |order| && OnCycle(deps, order[k])
  {
    hide DepthOrdered, ProducersFirst, Clean, OnCycle;
    var q := |CleanSet(deps)|;
    FallbackIsUnclean(deps, order, q);
    var a := UncleanHasUncleanCycle(deps, order[q]);
    assert a in order;
    var k :| 0 <= k < |order| && order[k] == a;
    FallbackIsUnclean(deps, order, k);
  }

  /** The schedule in plain terms: whoever is the last to write a named, not
      known input of a node runs before it. */
  lemma ScheduleMeaning(g: Graph, known: seq<string>, order: seq<nat>, k: nat, name: string, p: nat)
    requires IsSchedule(DependsOn(g, Known(known)), order) && Acyclic(DependsOn(g, Known(known)))
    requires k < |order| && name in g.nodes[order[k]].inputs && name != "" && name !in known
    requires p < |g.nodes| && name in g.nodes[p].outputs
    requires forall j :: p < j < |g.nodes| ==> name !in g.nodes[j].outputs
    ensures p in order[..k]
  {
    DependsOnMeaning(g, known, order[k], p);
    ScheduleRespectsIffAcyclic(DependsOn(g, Known(known)), order);
    assert ReadyAt(DependsOn(g, Known(known)), order, k);
  }

  /** Each of two nodes reads what the other writes. */
  function ShadowedKnown(): Graph { Graph([Node(["t"], ["s"], []), Node(["s"], ["t"], [])]) }

  lemma ShadowedEdges()
    ensures DependsOn(ShadowedKnown(), Known(["s"])) == [[1], []]
  {
    var g := ShadowedKnown();
    var deps := DependsOn(g, Known(["s"]));
    NothingToWaitFor(g, ["s"], 1);
    assert "t" in g.nodes[1].outputs && Producer(g.nodes, "t") == Some(1) && Waits(g, Known(["s"]), "t");
    assert ["t"][..0] == [] && EdgesOf(g, Known(["s"]), []) == [] && [] + [1] == [1];
    assert g.nodes[0].inputs == ["t"] && deps[0] == [1];
  }

  lemma ShadowedPaths(path: seq<nat>)
    requires IsPath([[1], []], path)
    ensures 2 <= |path| ==> path == [1, 0]
  {
    if 2 <= |path| {
      EdgeAt([[1], []], path, 0);
      if 2 < |path| { EdgeAt([[1], []], path, 1); }
    }
  }

  lemma ShadowedAcyclic()
    ensures Acyclic([[1], []])
  {
    forall a: nat, path | a < 2 && PathBetween([[1], []], path, a, a) ensures |path| < 2 { ShadowedPaths(path); }
  }

  lemma OneOrder(order: seq<nat>)
    requires Permutation(order, 2) && ProducersFirst([[1], []], order)
    ensures order == [1, 0]
  {
    assert ReadyAt([[1], []], order, 0) && order[..0] == [];
    assert 1 in [[1], []][0];
    assert order[0] != order[1];
  }

  /** With one of the two names known from outside there is no cycle, and the
      node that reads it comes first in every schedule. */
  lemma ShadowedKnownExample(order: seq<nat>)
    requires IsSchedule(DependsOn(ShadowedKnown(), Known(["s"])), order)
    ensures order == [1, 0]
  {
    ShadowedEdges();
    ShadowedAcyclic();
    hide Acyclic, DependsOn, ShadowedKnown, ProducersFirst, CleanSet, DepthOrdered;
    ScheduleRespectsIffAcyclic([[1], []], order);
    OneOrder(order);
  }

  // ----- the scheduled run -----

  /** When the scheduled order also respects captures, the run reads only final
      values and ends as every other respecting run does. */
  lemma ScheduledRun<V>(g: Graph, op: Operators<V>, env: Env<V>, order: seq<nat>, other: seq<nat>)
    requires UniqueOutputs(g) && NoOutputKnown(g, env.Keys)
    requires IsSchedule(DependsOn(g, env.Keys), order) && ProducersFirst(ReadsFrom(g, env.Keys), order)
    requires Permutation(other, |g.nodes|) && ProducersFirst(ReadsFrom(g, env.Keys), other)
    ensures Run(g, op, env, order) == Run(g, op, env, other)
    ensures Run(g, op, env, order).Some? ==> forall k :: 0 <= k < |order| ==>
              Run(g, op, env, order[..k]).Some? &&
              Resolve(Run(g, op, env, order[..k]).value, Reads(g.nodes[order[k]])) ==
              Resolve(Run(g, op, env, order).value, Reads(g.nodes[order[k]]))
  {
    OrderIndependent(g, op, env, order, other);
    if Run(g, op, env, order).Some? {
      RunIsSettled(g, op, env, order);
      var final := Run(g, op, env, order).value;
      forall k | 0 <= k < |order|
        ensures Run(g, op, env, order[..k]).Some?
        ensures Resolve(Run(g, op, env, order[..k]).value, Reads(g.nodes[order[k]])) ==
                Resolve(final, Reads(g.nodes[order[k]]))
      {
        RunnablePrefix(g, env.Keys, order, k);
        RunFollows(g, op, env, final, order[..k]);
        ReadsFinalValues(g, op, env, final, order, k);
      }
    }
  }
}
