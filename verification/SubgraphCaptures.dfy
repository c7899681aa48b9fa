/** Outer names that subgraphs read. The sort looks at inputs only, so a node
    can run before the producer of a name it captures: when, and what then. */
module SubgraphCaptures {
  import opened Wrappers
  import opened Dependencies
  import opened GraphScheduler
  import opened GraphExecution

  // ----- what an unrespected capture does -----

  /** Operators that all succeed, save that node `i` needs its `r`-th read. */
  function Needing(g: Graph, i: nat, r: nat): Operators<bool> {
    (j: nat, args: seq<Option<bool>>) =>
      if j == i && r < |args| && args[r].None? then None
      else if j < |g.nodes| then Some(seq(|g.nodes[j].outputs|, _ => true))
      else Some([])
  }

  lemma {:induction false} UnwrittenStays<V>(g: Graph, op: Operators<V>, env: Env<V>, order: seq<nat>, name: string)
    requires forall k :: 0 <= k < |order| ==> order[k] < |g.nodes| && !Writes(g, order[k], name)
    requires Run(g, op, env, order).Some?
    ensures Lookup(Run(g, op, env, order).value, name) == Lookup(env, name)
  {
    if order != [] {
      var m := |order| - 1;
      var i, front := order[m], order[..m];
      UnwrittenStays(g, op, env, front, name);
      var e := Run(g, op, env, front).value;
      BindLookup(e, g.nodes[i].outputs, op(i, Resolve(e, Reads(g.nodes[i]))).value, name);
    }
  }

  lemma {:induction false} FailureStays<V>(g: Graph, op: Operators<V>, env: Env<V>, order: seq<nat>, m: nat)
    requires m <= |order| && forall k :: 0 <= k < |order| ==> order[k] < |g.nodes|
    requires Run(g, op, env, order[..m]).None?
    ensures Run(g, op, env, order).None?
  {
    if m < |order| {
      assert order[..|order| - 1][..m] == order[..m];
      FailureStays(g, op, env, order[..|order| - 1], m);
    } else {
      assert order[..m] == order;
    }
  }

  /** A name that only `p` writes is missing until `p` has run. */
  lemma MissingUntilWritten<V>(g: Graph, op: Operators<V>, env: Env<V>, order: seq<nat>, name: string, p: nat)
    requires UniqueOutputs(g) && NoOutputKnown(g, env.Keys) && Writes(g, p, name) && p !in order
    requires forall j :: 0 <= j < |order| ==> order[j] < |g.nodes|
    requires Run(g, op, env, order).Some?
    ensures Lookup(Run(g, op, env, order).value, name) == None
  {
    forall j | 0 <= j < |order| ensures !Writes(g, order[j], name) { assert order[j] in order; }
    UnwrittenStays(g, op, env, order, name);
  }

  lemma NeedingFails(g: Graph, i: nat, r: nat, args: seq<Option<bool>>)
    requires r < |args| && args[r].None?
    ensures Needing(g, i, r)(i, args).None?
  {
  }

  /** A node placed before the writer of something it reads finds nothing. */
  lemma EarlyReadFails(g: Graph, env: Env<bool>, order: seq<nat>, k: nat, r: nat, p: nat)
    requires UniqueOutputs(g) && NoOutputKnown(g, env.Keys)
    requires k < |order| && forall j :: 0 <= j < |order| ==> order[j] < |g.nodes|
    requires r < |Reads(g.nodes[order[k]])| && Writes(g, p, Reads(g.nodes[order[k]])[r]) && p !in order[..k]
    ensures Run(g, Needing(g, order[k], r), env, order).None?
  {
    var i, op := order[k], Needing(g, order[k], r);
    var names := Reads(g.nodes[i]);
    assert order[..k + 1][..k] == order[..k];
    hide Needing, UniqueOutputs, NoOutputKnown, Reads;
    if Run(g, op, env, order[..k]).Some? {
      MissingUntilWritten(g, op, env, order[..k], names[r], p);
      NeedingFails(g, i, r, Resolve(Run(g, op, env, order[..k]).value, names));
    }
    FailureStays(g, op, env, order, k + 1);
  }

  lemma NeedingSucceeds(g: Graph, i: nat, r: nat, j: nat, args: seq<Option<bool>>)
    requires j < |g.nodes| && (j == i && r < |args| ==> args[r].Some?)
    ensures Needing(g, i, r)(j, args).Some? && |Needing(g, i, r)(j, args).value| == |g.nodes[j].outputs|
  {
  }

  /** Every name the listed nodes write has a value. */
  ghost predicate AllBound(g: Graph, order: seq<nat>, e: Env<bool>) {
    forall j, name :: j in order && Writes(g, j, name) ==> Lookup(e, name).Some?
  }

  lemma BindsMore(g: Graph, front: seq<nat>, i: nat, e: Env<bool>, results: seq<bool>)
    requires i < |g.nodes| && |results| == |g.nodes[i].outputs| && AllBound(g, front, e)
    ensures AllBound(g, front + [i], Bind(e, g.nodes[i].outputs, results))
  {
    var outputs := g.nodes[i].outputs;
    forall j, name | j in front + [i] && Writes(g, j, name)
      ensures Lookup(Bind(e, outputs, results), name).Some?
    {
      BindLookup(e, outputs, results, name);
      if j == i { BoundWhenEnough(outputs, results, name); }
    }
  }

  /** Where every writer comes first, nothing that is needed is missing. */
  lemma {:induction false} NeededIsThere(g: Graph, env: Env<bool>, order: seq<nat>, i: nat, r: nat, p: nat)
    requires Runnable(g, env.Keys, order) && i < |g.nodes|
    requires r < |Reads(g.nodes[i])| && Writes(g, p, Reads(g.nodes[i])[r])
    ensures var e := Run(g, Needing(g, i, r), env, order); e.Some? && AllBound(g, order, e.value)
    decreases |order|
  {
    if order != [] {
      var m := |order| - 1;
      var last, front, op := order[m], order[..m], Needing(g, i, r);
      RunnablePrefix(g, env.Keys, order, m);
      NeededIsThere(g, env, front, i, r, p);
      var e := Run(g, op, env, front).value;
      var args := Resolve(e, Reads(g.nodes[last]));
      if last == i { WriterRunsBefore(g, env.Keys, order, m, Reads(g.nodes[i])[r], p); }
      hide Runnable, Needing, Bind;
      NeedingSucceeds(g, i, r, last, args);
      BindsMore(g, front, last, e, op(last, args).value);
      assert order == front + [last];
    }
  }

  /** Whatever the operators, both orders end alike. */
  ghost predicate RunsLike(g: Graph, known: set<string>, order: seq<nat>, other: seq<nat>)
    requires forall k :: 0 <= k < |order| ==> order[k] < |g.nodes|
    requires forall k :: 0 <= k < |other| ==> other[k] < |g.nodes|
  {
    forall op: Operators<bool>, env: Env<bool> {:trigger Run(g, op, env, order)} :: env.Keys == known ==>
      Run(g, op, env, order) == Run(g, op, env, other)
  }

  lemma TellingOperators(g: Graph, env: Env<bool>, order: seq<nat>, other: seq<nat>) returns (op: Operators<bool>)
    requires Permutation(order, |g.nodes|) && !ProducersFirst(ReadsFrom(g, env.Keys), order)
    requires Runnable(g, env.Keys, other)
    ensures Run(g, op, env, order) != Run(g, op, env, other)
  {
    var deps := ReadsFrom(g, env.Keys);
    var k: nat :| k < |order| && !ReadyAt(deps, order, k);
    var i := order[k];
    var p :| p in deps[i] && p !in order[..k];
    var names := Reads(g.nodes[i]);
    EdgesOfMeaning(g, env.Keys, names, p);
    var r: nat :| r < |names| && Waits(g, env.Keys, names[r]) && Producer(g.nodes, names[r]) == Some(p);
    op := Needing(g, i, r);
    hide ReadsFrom, ProducersFirst, Run, Needing;
    EarlyReadFails(g, env, order, k, r, p);
    NeededIsThere(g, env, other, i, r, p);
  }

  /** The scheduled order runs like an order that respects inputs and captures
      exactly when it respects captures itself: `topological_sort` sees inputs only. */
  lemma RunsLikeIffCapturesRespected(g: Graph, known: set<string>, order: seq<nat>, other: seq<nat>)
    requires UniqueOutputs(g) && NoOutputKnown(g, known) && IsSchedule(DependsOn(g, known), order)
    requires Permutation(other, |g.nodes|) && ProducersFirst(ReadsFrom(g, known), other)
    ensures RunsLike(g, known, order, other) <==> ProducersFirst(ReadsFrom(g, known), order)
  {
    var deps := ReadsFrom(g, known);
    if ProducersFirst(deps, order) {
      forall op: Operators<bool>, env: Env<bool> | env.Keys == known
        ensures Run(g, op, env, order) == Run(g, op, env, other)
      {
        OrderIndependent(g, op, env, order, other);
      }
    } else {
      var env: Env<bool> := map name | name in known :: true;
      assert env.Keys == known;
      var op := TellingOperators(g, env, order, other);
    }
  }

  /** Nodes `i` captures from, as far as nothing known hides them. */
  ghost function CapturedFrom(g: Graph, known: set<string>, i: nat): seq<nat>
    requires i < |g.nodes|
  {
    EdgesOf(g, known, g.nodes[i].captures)
  }

  lemma {:induction false} EdgesOfBoth(g: Graph, known: set<string>, a: seq<string>, b: seq<string>)
    ensures EdgesOf(g, known, a + b) == EdgesOf(g, known, a) + EdgesOf(g, known, b)
  {
    if b == [] {
      assert a + b == a;
    } else {
      assert (a + b)[..|a + b| - 1] == a + b[..|b| - 1];
      EdgesOfBoth(g, known, a, b[..|b| - 1]);
    }
  }

  lemma ReadsFromBoth(g: Graph, known: set<string>, i: nat)
    requires i < |g.nodes|
    ensures ReadsFrom(g, known)[i] == DependsOn(g, known)[i] + CapturedFrom(g, known, i)
  {
    EdgesOfBoth(g, known, g.nodes[i].inputs, g.nodes[i].captures);
  }

  /** Captures a caller can rely on: known, produced by no node, written by a
      node that an input waits for as well, or by a shallower one. */
  ghost predicate CapturesCovered(g: Graph, known: set<string>) {
    var deps := DependsOn(g, known);
    forall i, p :: 0 <= i < |g.nodes| && p in CapturedFrom(g, known, i) ==> p in deps[i] || Shallower(deps, p, i)
  }

  /** The plain case: every capture that waits is also listed as an input. */
  lemma ListedCapturesCovered(g: Graph, known: set<string>)
    requires forall i, name :: 0 <= i < |g.nodes| && name in g.nodes[i].captures && Waits(g, known, name) ==>
               name in g.nodes[i].inputs
    ensures CapturesCovered(g, known)
  {
    forall i, p | 0 <= i < |g.nodes| && p in CapturedFrom(g, known, i)
      ensures p in DependsOn(g, known)[i]
    {
      var node := g.nodes[i];
      EdgesOfMeaning(g, known, node.captures, p);
      EdgesOfMeaning(g, known, node.inputs, p);
      var k :| 0 <= k < |node.captures| && Waits(g, known, node.captures[k]) &&
               Producer(g.nodes, node.captures[k]) == Some(p);
      assert node.captures[k] in node.inputs;
    }
  }

  lemma ScheduleIsDepthOrdered(deps: DepList, order: seq<nat>)
    requires IsSchedule(deps, order) && Acyclic(deps)
    ensures Permutation(order, |deps|) && DepthOrdered(deps, order)
  {
    AllClean(deps);
    assert order[..|CleanSet(deps)|] == order;
  }

  lemma ShallowerIsEarlier(deps: DepList, order: seq<nat>, p: nat, k: nat)
    requires Permutation(order, |deps|) && DepthOrdered(deps, order) && k < |order| && p < |deps|
    requires Shallower(deps, p, order[k])
    ensures p in order[..k]
  {
    hide DepthAtMost, DepthOrdered;
    assert p in order;
    var at: nat :| at < |order| && order[at] == p;
    var d: nat :| DepthAtMost(deps, p, d) && !DepthAtMost(deps, order[k], d);
    DeeperIsLater(deps, order, k, at, d);
    EarlierOnly(order, k, at);
  }

  lemma ShallowerRunsFirst(deps: DepList, order: seq<nat>, p: nat, k: nat)
    requires IsSchedule(deps, order) && Acyclic(deps) && k < |order| && p < |deps|
    requires Shallower(deps, p, order[k])
    ensures p in order[..k]
  {
    ScheduleIsDepthOrdered(deps, order);
    ShallowerIsEarlier(deps, order, p, k);
  }

  lemma DeeperIsLater(deps: DepList, order: seq<nat>, k: nat, at: nat, d: nat)
    requires DepthOrdered(deps, order) && k < |order| && at < |order|
    requires DepthAtMost(deps, order[at], d) && !DepthAtMost(deps, order[k], d)
    ensures at < k
  {
    hide DepthAtMost;
  }

  lemma EarlierOnly(order: seq<nat>, k: nat, at: nat)
    requires NoDuplicates(order) && k < |order| && at < |order|
    ensures order[at] in order[..k] <==> at < k
  {
    if at < k { assert order[..k][at] == order[at]; }
  }

  /** With covered captures the scheduled order respects them too, so its run
      is the run of every respecting order. */
  lemma CoveredCapturesRespected(g: Graph, known: set<string>, order: seq<nat>)
    requires IsSchedule(DependsOn(g, known), order) && Acyclic(DependsOn(g, known)) && CapturesCovered(g, known)
    ensures ProducersFirst(ReadsFrom(g, known), order)
  {
    var deps := DependsOn(g, known);
    ScheduleRespectsIffAcyclic(deps, order);
    hide IsSchedule, Acyclic;
    forall k: nat | k < |order| ensures ReadyAt(ReadsFrom(g, known), order, k) {
      var i := order[k];
      assert ReadyAt(deps, order, k);
      ReadsFromBoth(g, known, i);
      forall p | p in ReadsFrom(g, known)[i] ensures p in order[..k] {
        if p !in deps[i] { ShallowerRunsFirst(deps, order, p, k); }
      }
    }
  }

  lemma CaptureMissedAt(g: Graph, known: set<string>, order: seq<nat>, k: nat, at: nat)
    requires NoDuplicates(order) && k <= at < |order| && order[k] < |g.nodes|
    requires order[at] in CapturedFrom(g, known, order[k])
    ensures !ProducersFirst(ReadsFrom(g, known), order)
  {
    EarlierOnly(order, k, at);
    ReadsFromBoth(g, known, order[k]);
    assert !ReadyAt(ReadsFrom(g, known), order, k);
  }

  /** A capture from a deeper node is missed by every schedule. */
  lemma DeeperCaptureIsMissed(g: Graph, known: set<string>, order: seq<nat>, i: nat, p: nat)
    requires IsSchedule(DependsOn(g, known), order) && Acyclic(DependsOn(g, known))
    requires i < |g.nodes| && p in CapturedFrom(g, known, i) && Shallower(DependsOn(g, known), i, p)
    ensures !ProducersFirst(ReadsFrom(g, known), order)
  {
    assert i in order && p in order;
    var at: nat :| at < |order| && order[at] == p;
    var k: nat :| k < |order| && order[k] == i;
    ShallowerRunsFirst(DependsOn(g, known), order, i, at);
    EarlierOnly(order, at, k);
    CaptureMissedAt(g, known, order, k, at);
  }

  // ----- the condition is exact -----

  /** Any depth-ordered permutation of an acyclic relation is a schedule. */
  lemma DepthOrderIsSchedule(deps: DepList, order: seq<nat>)
    requires Acyclic(deps) && WellFormed(deps) && Permutation(order, |deps|) && DepthOrdered(deps, order)
    ensures IsSchedule(deps, order)
  {
    AllClean(deps);
    forall k: nat | k < |order| ensures ReadyAt(deps, order, k) {
      forall p | p in deps[order[k]] ensures p in order[..k] {
        ProducerIsShallower(deps, p, order[k]);
        ShallowerIsEarlier(deps, order, p, k);
      }
    }
    assert |Below(|deps|)| == |order| && order[..|order|] == order;
  }

  /** Neighbours or not, two nodes of one depth may trade places. */
  lemma TradePlaces(deps: DepList, order: seq<nat>, a: nat, b: nat)
    requires IsSchedule(deps, order) && Acyclic(deps) && WellFormed(deps)
    requires a < b < |order| && !Shallower(deps, order[a], order[b])
    ensures IsSchedule(deps, order[a := order[b]][b := order[a]])
  {
    var other := order[a := order[b]][b := order[a]];
    ScheduleIsDepthOrdered(deps, order);
    hide IsSchedule, DepthAtMost;
    forall k, d: nat | 0 <= k < |order| ensures DepthAtMost(deps, other[k], d) <==> DepthAtMost(deps, order[k], d) {
      assert DepthAtMost(deps, order[b], d) ==> DepthAtMost(deps, order[a], d);
    }
    assert DepthOrdered(deps, other);
    PermutationTraded(order, a, b, |deps|);
    DepthOrderIsSchedule(deps, other);
  }

  lemma PermutationTraded(order: seq<nat>, a: nat, b: nat, n: nat)
    requires Permutation(order, n) && a < b < |order|
    ensures Permutation(order[a := order[b]][b := order[a]], n)
  {
    var other := order[a := order[b]][b := order[a]];
    forall i: nat | i < n ensures i in other {
      assert i in order;
      var k :| 0 <= k < |order| && order[k] == i;
      assert other[if k == a then b else if k == b then a else k] == i;
    }
  }

  /** With an uncovered capture some order the specification of the sort allows
      runs the capturing node too early. */
  lemma UncoveredIsMissed(g: Graph, known: set<string>, order: seq<nat>) returns (other: seq<nat>)
    requires IsSchedule(DependsOn(g, known), order) && Acyclic(DependsOn(g, known)) && !CapturesCovered(g, known)
    ensures IsSchedule(DependsOn(g, known), other) && !ProducersFirst(ReadsFrom(g, known), other)
  {
    var deps := DependsOn(g, known);
    var i, p :| 0 <= i < |g.nodes| && p in CapturedFrom(g, known, i) && p !in deps[i] && !Shallower(deps, p, i);
    assert Permutation(order, |deps|);
    hide IsSchedule, Shallower, Acyclic, DependsOn, CapturesCovered;
    assert i in order && p in order;
    var b: nat :| b < |order| && order[b] == i;
    var a: nat :| a < |order| && order[a] == p;
    if a < b {
      TradePlaces(deps, order, a, b);
      other := order[a := i][b := p];
      PermutationTraded(order, a, b, |deps|);
      CaptureMissedAt(g, known, other, a, b);
    } else {
      other := order;
      CaptureMissedAt(g, known, other, b, a);
    }
  }

  /** The condition on the graph is exact: every order the sort may return
      respects captures if and only if all of them are covered. */
  lemma SchedulesRespectIffCovered(g: Graph, known: set<string>, order: seq<nat>)
    requires IsSchedule(DependsOn(g, known), order) && Acyclic(DependsOn(g, known))
    ensures (forall other :: IsSchedule(DependsOn(g, known), other) ==> ProducersFirst(ReadsFrom(g, known), other)) <==>
            CapturesCovered(g, known)
  {
    if CapturesCovered(g, known) {
      forall other | IsSchedule(DependsOn(g, known), other) ensures ProducersFirst(ReadsFrom(g, known), other) {
        CoveredCapturesRespected(g, known, other);
      }
    } else {
      var other := UncoveredIsMissed(g, known, order);
    }
  }

  /** And what runs: every order the sort may return runs like the orders that
      respect inputs and captures if and only if all captures are covered. */
  lemma SchedulesRunLikeIffCovered(g: Graph, known: set<string>, order: seq<nat>, other: seq<nat>)
    requires UniqueOutputs(g) && NoOutputKnown(g, known)
    requires IsSchedule(DependsOn(g, known), order) && Acyclic(DependsOn(g, known))
    requires Permutation(other, |g.nodes|) && ProducersFirst(ReadsFrom(g, known), other)
    ensures (forall o | IsSchedule(DependsOn(g, known), o) :: RunsLike(g, known, o, other)) <==>
            CapturesCovered(g, known)
  {
    SchedulesRespectIffCovered(g, known, order);
    forall o | IsSchedule(DependsOn(g, known), o)
      ensures RunsLike(g, known, o, other) <==> ProducersFirst(ReadsFrom(g, known), o)
    {
      RunsLikeIffCapturesRespected(g, known, o, other);
    }
  }

  // ----- one such graph -----

  /** `a` from x, `t` from `a`, and a branch on `cond` whose body reads `t`. */
  function BranchOnLateValue(): Graph {
    Graph([Node(["x"], ["a"], []), Node(["a"], ["t"], []), Node(["cond"], ["y"], ["t"])])
  }

  lemma BranchOutputs()
    ensures UniqueOutputs(BranchOnLateValue()) && NoOutputKnown(BranchOnLateValue(), {"x", "cond"})
  {
  }

  lemma BranchEdges()
    ensures var g := BranchOnLateValue();
            && DependsOn(g, {"x", "cond"}) == [[], [0], []]
            && ReadsFrom(g, {"x", "cond"}) == [[], [0], [1]]
  {
    var g, known := BranchOnLateValue(), {"x", "cond"};
    BranchProducers();
    EdgesOfOne(g, known, "x");
    EdgesOfOne(g, known, "a");
    EdgesOfOne(g, known, "cond");
    EdgesOfOne(g, known, "t");
    EdgesOfBoth(g, known, ["cond"], ["t"]);
    hide EdgesOf, Producer;
    assert [] + [1] == [1] && CapturedFrom(g, known, 2) == [1];
    ReadsFromBoth(g, known, 2);
    assert Reads(g.nodes[0]) == ["x"] && Reads(g.nodes[1]) == ["a"] && Reads(g.nodes[2]) == ["cond"] + ["t"];
  }

  lemma BranchProducers()
    ensures Producer(BranchOnLateValue().nodes, "a") == Some(0) && Producer(BranchOnLateValue().nodes, "t") == Some(1)
  {
    var nodes := BranchOnLateValue().nodes;
    assert nodes[0].outputs == ["a"] && nodes[1].outputs == ["t"] && nodes[2].outputs == ["y"];
    assert "a" in nodes[0].outputs && "t" in nodes[1].outputs;
    assert "a" != "t" && "a" != "y" && "t" != "y";
  }

  lemma EdgesOfOne(g: Graph, known: set<string>, name: string)
    ensures EdgesOf(g, known, [name]) == if Waits(g, known, name) then [Producer(g.nodes, name).value] else []
  {
    assert [name][..0] == [];
  }

  lemma BranchPaths(path: seq<nat>)
    requires IsPath([[], [0], []], path)
    ensures 2 <= |path| ==> path == [0, 1]
  {
    if 2 <= |path| {
      EdgeAt([[], [0], []], path, 0);
      if 2 < |path| { EdgeAt([[], [0], []], path, 1); }
    }
  }

  lemma BranchIsAcyclic()
    ensures Acyclic([[], [0], []]) && Shallower([[], [0], []], 2, 1)
  {
    var deps: DepList := [[], [0], []];
    forall a: nat | a < 3 ensures !OnCycle(deps, a) {
      forall path | PathBetween(deps, path, a, a) ensures |path| < 2 { BranchPaths(path); }
    }
    NoDependenciesDepth(deps, 2);
    assert PathTo(deps, [0, 1], 1);
  }

  /** Every order the sort may return runs the branch before `t` exists and
      fails, where running the nodes as listed succeeds. */
  lemma LateCaptureExample(order: seq<nat>)
    requires IsSchedule(DependsOn(BranchOnLateValue(), {"x", "cond"}), order)
    ensures var g := BranchOnLateValue();
            var env: Env<bool> := map["x" := true, "cond" := true];
            && Run(g, Needing(g, 2, 1), env, order).None?
            && Run(g, Needing(g, 2, 1), env, [0, 1, 2]).Some?
  {
    var g := BranchOnLateValue();
    var env: Env<bool> := map["x" := true, "cond" := true];
    var known := {"x", "cond"};
    assert env.Keys == known;
    BranchEdges();
    BranchOutputs();
    BranchIsAcyclic();
    assert 1 in order;
    var at :| 0 <= at < |order| && order[at] == 1;
    ShallowerRunsFirst(DependsOn(g, known), order, 2, at);
    var k: nat :| k < at && order[..at][k] == 2;
    EarlierOnly(order, k, at);
    BranchReads();
    hide BranchOnLateValue, IsSchedule, ReadsFrom, Run, Needing, Acyclic;
    EarlyReadFails(g, env, order, k, 1, 1);
    BranchAsListed(env);
  }

  lemma BranchReads()
    ensures var g := BranchOnLateValue();
            |g.nodes| == 3 && |Reads(g.nodes[2])| == 2 && Writes(g, 1, Reads(g.nodes[2])[1])
  {
    var g := BranchOnLateValue();
    assert Reads(g.nodes[2]) == ["cond", "t"] && "t" in g.nodes[1].outputs;
  }

  lemma BranchAsListed(env: Env<bool>)
    requires env.Keys == {"x", "cond"}
    ensures Run(BranchOnLateValue(), Needing(BranchOnLateValue(), 2, 1), env, [0, 1, 2]).Some?
  {
    var g := BranchOnLateValue();
    BranchEdges();
    BranchOutputs();
    BranchReads();
    ChainInOrder();
    hide BranchOnLateValue, DependsOn, ReadsFrom, ProducersFirst, Run, Needing;
    NeededIsThere(g, env, [0, 1, 2], 2, 1, 1);
  }

  lemma ChainInOrder()
    ensures ProducersFirst([[], [0], [1]], [0, 1, 2])
  {
    forall k: nat | k < 3 ensures ReadyAt([[], [0], [1]], [0, 1, 2], k) {
      assert [0, 1, 2][..k] == if k == 0 then [] else if k == 1 then [0] else [0, 1];
    }
  }
}
