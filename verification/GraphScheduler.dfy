/** `Graph::topological_sort`: Kahn's algorithm over node numbers, with a
    known-name set, a last-writer-wins producer map, a FIFO queue and a
    fallback append for whatever the queue never reached. */
module GraphScheduler {
  import opened Arithmetic
  import opened Wrappers
  import opened Dependencies

  /** Input names may be "" (an omitted optional input) and may repeat.
      `captures` are the outer names the node's subgraphs read; the sort never
      looks at them. */
  datatype Node = Node(inputs: seq<string>, outputs: seq<string>, captures: seq<string>)

  datatype Graph = Graph(nodes: seq<Node>)

  // ----- specification: who waits for whom -----

  /** The last node that lists `name` among its outputs. */
  ghost function Producer(nodes: seq<Node>, name: string): (p: Option<nat>)
    ensures p.Some? ==> p.value < |nodes| && name in nodes[p.value].outputs
    ensures p.Some? ==> forall j :: p.value < j < |nodes| ==> name !in nodes[j].outputs
    ensures p.None? ==> forall j :: 0 <= j < |nodes| ==> name !in nodes[j].outputs
  {
    if nodes == [] then None
    else if name in nodes[|nodes| - 1].outputs then Some(|nodes| - 1)
    else Producer(nodes[..|nodes| - 1], name)
  }

  /** An input makes its node wait iff it is named, not known, and produced here. */
  ghost predicate Waits(g: Graph, known: set<string>, name: string) {
    name != "" && name !in known && Producer(g.nodes, name).Some?
  }

  /** One producer per waiting input occurrence, in input order. */
  ghost function EdgesOf(g: Graph, known: set<string>, inputs: seq<string>): (e: seq<nat>)
    ensures forall p :: p in e ==> p < |g.nodes|
  {
    if inputs == [] then []
    else
      var name := inputs[|inputs| - 1];
      EdgesOf(g, known, inputs[..|inputs| - 1]) +
      if Waits(g, known, name) then [Producer(g.nodes, name).value] else []
  }

  ghost function DependsOn(g: Graph, known: set<string>): (deps: DepList)
    ensures |deps| == |g.nodes| && WellFormed(deps)
    ensures forall i :: 0 <= i < |deps| ==> deps[i] == EdgesOf(g, known, g.nodes[i].inputs)
  {
    seq(|g.nodes|, i requires 0 <= i < |g.nodes| => EdgesOf(g, known, g.nodes[i].inputs))
  }

  lemma {:induction false} EdgesOfMeaning(g: Graph, known: set<string>, inputs: seq<string>, p: nat)
    ensures p in EdgesOf(g, known, inputs) <==>
            exists k :: 0 <= k < |inputs| && Waits(g, known, inputs[k]) && Producer(g.nodes, inputs[k]) == Some(p)
  {
    if inputs != [] {
      var front := inputs[..|inputs| - 1];
      EdgesOfMeaning(g, known, front, p);
      if k :| 0 <= k < |inputs| && Waits(g, known, inputs[k]) && Producer(g.nodes, inputs[k]) == Some(p) {
        assert k < |front| ==> front[k] == inputs[k];
      }
      if p in EdgesOf(g, known, front) {
        var k :| 0 <= k < |front| && Waits(g, known, front[k]) && Producer(g.nodes, front[k]) == Some(p);
        assert inputs[k] == front[k];
      }
    }
  }

  ghost function Known(known: seq<string>): set<string> { set s | s in known }

  /** `p` is the last to write a name that is listed, named and not known. */
  ghost predicate LastWriterOf(g: Graph, known: set<string>, names: seq<string>, p: nat) {
    exists name :: && name in names && name != "" && name !in known
                   && p < |g.nodes| && name in g.nodes[p].outputs
                   && forall j :: p < j < |g.nodes| ==> name !in g.nodes[j].outputs
  }

  lemma WaitsInPlainTerms(g: Graph, known: set<string>, name: string, p: nat)
    ensures Waits(g, known, name) && Producer(g.nodes, name) == Some(p) <==>
            && name != "" && name !in known
            && p < |g.nodes| && name in g.nodes[p].outputs
            && forall j :: p < j < |g.nodes| ==> name !in g.nodes[j].outputs
  {
  }

  lemma EdgesInPlainTerms(g: Graph, known: set<string>, names: seq<string>, p: nat)
    ensures p in EdgesOf(g, known, names) <==> LastWriterOf(g, known, names, p)
  {
    EdgesOfMeaning(g, known, names, p);
    forall name ensures Waits(g, known, name) && Producer(g.nodes, name) == Some(p) <==>
        && name != "" && name !in known
        && p < |g.nodes| && name in g.nodes[p].outputs
        && forall j :: p < j < |g.nodes| ==> name !in g.nodes[j].outputs
    {
      WaitsInPlainTerms(g, known, name, p);
    }
    hide EdgesOf, Waits, Producer;
    if p in EdgesOf(g, known, names) {
      var k :| 0 <= k < |names| && Waits(g, known, names[k]) && Producer(g.nodes, names[k]) == Some(p);
      assert names[k] in names;
    }
    if LastWriterOf(g, known, names, p) {
      var name :| && name in names && name != "" && name !in known
                  && p < |g.nodes| && name in g.nodes[p].outputs
                  && forall j :: p < j < |g.nodes| ==> name !in g.nodes[j].outputs;
      var k :| 0 <= k < |names| && names[k] == name;
      assert Waits(g, known, names[k]) && Producer(g.nodes, names[k]) == Some(p);
    }
  }

  /** The relation in plain terms: node `i` waits for `p` exactly when one of its
      inputs is named, not known, and written by `p` and by no later node. */
  lemma DependsOnMeaning(g: Graph, known: seq<string>, i: nat, p: nat)
    requires i < |g.nodes|
    ensures p in DependsOn(g, Known(known))[i] <==>
            exists name :: && name in g.nodes[i].inputs && name != "" && name !in known
                           && p < |g.nodes| && name in g.nodes[p].outputs
                           && forall j :: p < j < |g.nodes| ==> name !in g.nodes[j].outputs
  {
    EdgesInPlainTerms(g, Known(known), g.nodes[i].inputs, p);
  }

  /** A node that reads only what is omitted, known or made by nobody is in the
      first layer. */
  lemma NothingToWaitFor(g: Graph, known: seq<string>, i: nat)
    requires i < |g.nodes|
    requires forall name :: name in g.nodes[i].inputs ==>
               name == "" || name in known || forall j :: 0 <= j < |g.nodes| ==> name !in g.nodes[j].outputs
    ensures DependsOn(g, Known(known))[i] == [] && DepthAtMost(DependsOn(g, Known(known)), i, 0)
  {
    var deps := DependsOn(g, Known(known));
    if deps[i] != [] {
      DependsOnMeaning(g, known, i, deps[i][0]);
    }
    NoDependenciesDepth(deps, i);
  }

  // ----- specification: the order -----

  /** The part of the order the queue emits is exactly the nodes with no cycle
      behind them, producers first and in nondecreasing depth; the rest follows
      in index order. */
  ghost predicate IsSchedule(deps: DepList, order: seq<nat>) {
    var q := |CleanSet(deps)|;
    && Permutation(order, |deps|)
    && q <= |order|
    && Elements(order[..q]) == CleanSet(deps)
    && ProducersFirst(deps, order[..q])
    && DepthOrdered(deps, order[..q])
    && Ascending(order[q..])
  }

  ghost predicate DepthOrdered(deps: DepList, order: seq<nat>) {
    forall a, b, d: nat :: 0 <= a < b < |order| && DepthAtMost(deps, order[b], d) ==> DepthAtMost(deps, order[a], d)
  }

  ghost predicate Ascending(s: seq<nat>) {
    forall a, b :: 0 <= a < b < |s| ==> s[a] < s[b]
  }

  // ----- building the maps -----

  ghost predicate ProducerMapFor(producer: map<string, nat>, nodes: seq<Node>) {
    forall name :: (if name in producer then Some(producer[name]) else None) == Producer(nodes, name)
  }

  method BuildProducers(g: Graph) returns (producer: map<string, nat>)
    ensures ProducerMapFor(producer, g.nodes)
  {
    producer := map[];
    for i := 0 to |g.nodes|
      invariant ProducerMapFor(producer, g.nodes[..i])
    {
      var outputs := g.nodes[i].outputs;
      ghost var before := producer;
      for j := 0 to |outputs|
        invariant forall name :: (name in producer) <==> (name in outputs[..j] || name in before)
        invariant forall name :: name in producer ==>
            producer[name] == if name in outputs[..j] then i else before[name]
      {
        producer := producer[outputs[j] := i];
      }
      assert outputs[..|outputs|] == outputs;
      assert g.nodes[..i + 1][..i] == g.nodes[..i];
    }
    assert g.nodes[..|g.nodes|] == g.nodes;
  }

  method CountInputs(g: Graph, known: set<string>, producer: map<string, nat>) returns (inDegree: array<nat>)
    requires ProducerMapFor(producer, g.nodes)
    ensures fresh(inDegree) && inDegree.Length == |g.nodes|
    ensures forall i :: 0 <= i < |g.nodes| ==> inDegree[i] == |DependsOn(g, known)[i]|
  {
    inDegree := new nat[|g.nodes|](_ => 0);
    for i := 0 to |g.nodes|
      invariant forall k :: 0 <= k < i ==> inDegree[k] == |DependsOn(g, known)[k]|
      invariant forall k :: i <= k < |g.nodes| ==> inDegree[k] == 0
    {
      var inputs := g.nodes[i].inputs;
      for j := 0 to |inputs|
        invariant forall k :: 0 <= k < i ==> inDegree[k] == |DependsOn(g, known)[k]|
        invariant inDegree[i] == |EdgesOf(g, known, inputs[..j])|
        invariant forall k :: i < k < |g.nodes| ==> inDegree[k] == 0
      {
        assert inputs[..j + 1][..j] == inputs[..j];
        if inputs[j] != "" && inputs[j] !in known && inputs[j] in producer {
          inDegree[i] := inDegree[i] + 1;
        }
      }
      assert inputs[..|inputs|] == inputs;
    }
  }

  function Targets(dependents: map<nat, seq<nat>>, p: nat): seq<nat> {
    if p in dependents then dependents[p] else []
  }

  /** How often `x` occurs in `s`. */
  ghost function Count(s: seq<nat>, x: nat): nat {
    if s == [] then 0 else Count(s[..|s| - 1], x) + if s[|s| - 1] == x then 1 else 0
  }

  lemma CountAppend(s: seq<nat>, y: nat, x: nat)
    ensures Count(s + [y], x) == Count(s, x) + if y == x then 1 else 0
  {
    assert (s + [y])[..|s|] == s;
  }

  /** `dependents` lists node `i` under `p` once per edge occurrence. */
  ghost predicate DependentsMirror(dependents: map<nat, seq<nat>>, deps: DepList) {
    forall p: nat, i: nat {:trigger Count(Targets(dependents, p), i)} ::
      Count(Targets(dependents, p), i) == if i < |deps| then Count(deps[i], p) else 0
  }

  lemma MirrorNewRow(dependents: map<nat, seq<nat>>, deps: DepList)
    requires DependentsMirror(dependents, deps)
    ensures DependentsMirror(dependents, deps + [[]])
  {
    forall p: nat, i: nat
      ensures Count(Targets(dependents, p), i) == if i <= |deps| then Count((deps + [[]])[i], p) else 0
    {
      if i < |deps| { assert (deps + [[]])[i] == deps[i]; }
    }
  }

  lemma MirrorNewEdge(dependents: map<nat, seq<nat>>, deps: DepList, edges: seq<nat>, p: nat)
    requires DependentsMirror(dependents, deps + [edges])
    ensures DependentsMirror(dependents[p := Targets(dependents, p) + [|deps|]], deps + [edges + [p]])
  {
    var after := dependents[p := Targets(dependents, p) + [|deps|]];
    var rows, rows' := deps + [edges], deps + [edges + [p]];
    forall r: nat, i: nat
      ensures Count(Targets(after, r), i) == if i < |rows'| then Count(rows'[i], r) else 0
    {
      assert Count(Targets(dependents, r), i) == if i < |rows| then Count(rows[i], r) else 0;
      CountAppend(Targets(dependents, r), |deps|, i);
      CountAppend(edges, p, r);
      if i < |deps| { assert rows'[i] == rows[i]; }
    }
  }

  method BuildDependents(g: Graph, known: set<string>, producer: map<string, nat>)
    returns (dependents: map<nat, seq<nat>>)
    requires ProducerMapFor(producer, g.nodes)
    ensures DependentsMirror(dependents, DependsOn(g, known))
  {
    ghost var deps := DependsOn(g, known);
    hide DependentsMirror;
    dependents := map[];
    NoDependents();
    for i := 0 to |g.nodes|
      invariant DependentsMirror(dependents, deps[..i])
    {
      MirrorNewRow(dependents, deps[..i]);
      dependents := RecordInputs(g, known, producer, dependents, deps[..i], i);
      assert deps[..i + 1] == deps[..i] + [deps[i]];
    }
    assert deps[..|g.nodes|] == deps;
  }

  lemma NoDependents()
    ensures DependentsMirror(map[], [])
  {
  }

  /** File node `i` under the producer of each of its waiting inputs. */
  method RecordInputs(g: Graph, known: set<string>, producer: map<string, nat>, earlier: map<nat, seq<nat>>,
                      ghost rows: DepList, i: nat) returns (dependents: map<nat, seq<nat>>)
    requires ProducerMapFor(producer, g.nodes) && i < |g.nodes| && |rows| == i
    requires DependentsMirror(earlier, rows + [[]])
    ensures DependentsMirror(dependents, rows + [EdgesOf(g, known, g.nodes[i].inputs)])
  {
    hide DependentsMirror;
    var inputs := g.nodes[i].inputs;
    dependents := earlier;
    for j := 0 to |inputs|
      invariant DependentsMirror(dependents, rows + [EdgesOf(g, known, inputs[..j])])
    {
      assert inputs[..j + 1][..j] == inputs[..j];
      ghost var edges := EdgesOf(g, known, inputs[..j]);
      if inputs[j] != "" && inputs[j] !in known && inputs[j] in producer {
        var p := producer[inputs[j]];
        MirrorNewEdge(dependents, rows, edges, p);
        dependents := dependents[p := Targets(dependents, p) + [i]];
        assert EdgesOf(g, known, inputs[..j + 1]) == edges + [p];
      } else {
        assert EdgesOf(g, known, inputs[..j + 1]) == edges;
      }
    }
    assert inputs[..|inputs|] == inputs;
  }

  // ----- draining the queue -----

  /** Edge occurrences whose producer has not been popped yet. */
  ghost function Pending(edges: seq<nat>, done: set<nat>): nat {
    if edges == [] then 0
    else Pending(edges[..|edges| - 1], done) + if edges[|edges| - 1] in done then 0 else 1
  }

  lemma {:induction false} PendingOfNothing(edges: seq<nat>)
    ensures Pending(edges, {}) == |edges|
  {
    if edges != [] { PendingOfNothing(edges[..|edges| - 1]); }
  }

  lemma {:induction false} PendingZero(edges: seq<nat>, done: set<nat>)
    ensures Pending(edges, done) == 0 <==> forall p :: p in edges ==> p in done
  {
    if edges != [] {
      PendingZero(edges[..|edges| - 1], done);
      assert edges == edges[..|edges| - 1] + [edges[|edges| - 1]];
    }
  }

  lemma {:induction false} PendingAfterPop(edges: seq<nat>, done: set<nat>, p: nat)
    requires p !in done
    ensures Pending(edges, done) == Pending(edges, done + {p}) + Count(edges, p)
  {
    if edges != [] { PendingAfterPop(edges[..|edges| - 1], done, p); }
  }

  lemma {:induction false} CountHead(s: seq<nat>, x: nat)
    requires s != []
    ensures Count(s, x) == Count(s[1..], x) + if s[0] == x then 1 else 0
  {
    if 1 < |s| {
      CountHead(s[..|s| - 1], x);
      assert s[..|s| - 1][1..] == s[1..][..|s| - 2];
    }
  }

  lemma {:induction false} CountMember(s: seq<nat>, x: nat)
    ensures 0 < Count(s, x) <==> x in s
  {
    if s != [] {
      CountMember(s[..|s| - 1], x);
      assert s == s[..|s| - 1] + [s[|s| - 1]];
    }
  }

  ghost predicate Distinct(s: seq<nat>) {
    s == [] || (s[|s| - 1] !in s[..|s| - 1] && Distinct(s[..|s| - 1]))
  }

  lemma {:induction false} DistinctMeaning(s: seq<nat>)
    requires Distinct(s)
    ensures NoDuplicates(s)
  {
    if s != [] {
      DistinctMeaning(s[..|s| - 1]);
      assert s == s[..|s| - 1] + [s[|s| - 1]];
    }
  }

  /** Each counter is the number of unpopped edge occurrences, plus what the
      node popped last (`left`) still has to release. */
  ghost predicate CountersExact(deps: DepList, inDegree: seq<nat>, popped: seq<nat>, left: seq<nat>)
    requires |inDegree| == |deps|
  {
    forall i: nat {:trigger CounterExact(deps, inDegree, popped, left, i)} :: i < |deps| ==>
      CounterExact(deps, inDegree, popped, left, i)
  }

  ghost predicate CounterExact(deps: DepList, inDegree: seq<nat>, popped: seq<nat>, left: seq<nat>, i: nat)
    requires i < |deps| == |inDegree|
  {
    inDegree[i] == Pending(deps[i], Elements(popped)) + Count(left, i)
  }

  ghost predicate ListedAtZero(inDegree: seq<nat>, all: seq<nat>, i: nat)
    requires i < |inDegree|
  {
    i in all <==> inDegree[i] == 0
  }

  /** The queue phase between two decrements. `all` is everything enqueued so
      far: the popped nodes (the order being built), then the queue. */
  ghost predicate Releasing(deps: DepList, inDegree: seq<nat>, popped: seq<nat>, all: seq<nat>, left: seq<nat>) {
    && |inDegree| == |deps|
    && popped <= all
    && Distinct(all)
    && (forall k :: 0 <= k < |all| ==> all[k] < |deps|)
    && (forall i: nat {:trigger ListedAtZero(inDegree, all, i)} :: i < |deps| ==> ListedAtZero(inDegree, all, i))
    && (forall k :: 0 <= k < |left| ==> left[k] < |deps|)
    && ProducersFirst(deps, popped)
    && CountersExact(deps, inDegree, popped, left)
  }

  lemma PopKeeps(deps: DepList, dependents: map<nat, seq<nat>>, inDegree: seq<nat>, popped: seq<nat>, all: seq<nat>)
    requires DependentsMirror(dependents, deps)
    requires Releasing(deps, inDegree, popped, all, []) && |popped| < |all|
    ensures var x := all[|popped|];
            Releasing(deps, inDegree, popped + [x], all, Targets(dependents, x))
  {
    var x := all[|popped|];
    var popped', left := popped + [x], Targets(dependents, x);
    DistinctMeaning(all);
    assert Elements(popped') == Elements(popped) + {x};
    assert forall k :: 0 <= k < |popped| ==> popped[k] == all[k];
    assert x !in Elements(popped);
    forall i: nat | i < |deps|
      ensures CounterExact(deps, inDegree, popped', left, i)
    {
      assert CounterExact(deps, inDegree, popped, [], i);
      PendingAfterPop(deps[i], Elements(popped), x);
      assert Count(left, i) == Count(deps[i], x);
    }
    forall k | 0 <= k < |left| ensures left[k] < |deps| {
      CountMember(left, left[k]);
      assert Count(left, left[k]) == if left[k] < |deps| then Count(deps[left[k]], x) else 0;
    }
    assert x in all && ListedAtZero(inDegree, all, x) && CounterExact(deps, inDegree, popped, [], x);
    PendingZero(deps[x], Elements(popped));
    forall k: nat | k < |popped'|
      ensures ReadyAt(deps, popped', k)
    {
      if k < |popped| {
        assert ReadyAt(deps, popped, k) && popped'[..k] == popped[..k];
      } else {
        assert popped'[..k] == popped && forall p :: p in Elements(popped) ==> p in popped;
      }
    }
  }

  /** The counter about to be decremented is never zero, so the saturating
      subtraction never saturates, and a node is enqueued only on reaching zero. */
  lemma ReleaseKeeps(deps: DepList, inDegree: seq<nat>, popped: seq<nat>, all: seq<nat>, left: seq<nat>)
    requires Releasing(deps, inDegree, popped, all, left) && left != []
    ensures 0 < inDegree[left[0]]
    ensures var i := left[0]; var n := inDegree[i] - 1;
            Releasing(deps, inDegree[i := n], popped, if n == 0 then all + [i] else all, left[1..])
  {
    var i := left[0];
    CountMember(left, i);
    assert CounterExact(deps, inDegree, popped, left, i);
    var after := inDegree[i := inDegree[i] - 1];
    forall k: nat | k < |deps|
      ensures CounterExact(deps, after, popped, left[1..], k)
    {
      CountHead(left, k);
      assert CounterExact(deps, inDegree, popped, left, k);
    }
    assert (all + [i])[..|all|] == all;
    var all' := if after[i] == 0 then all + [i] else all;
    forall k: nat | k < |deps|
      ensures ListedAtZero(after, all', k)
    {
      assert ListedAtZero(inDegree, all, k) && ListedAtZero(inDegree, all, i);
    }
  }

  /** A counter about to reach zero belongs to a node whose producers have all
      been popped, the one being released last among them. */
  lemma ReadyToPush(deps: DepList, dependents: map<nat, seq<nat>>, inDegree: seq<nat>, popped: seq<nat>,
                    all: seq<nat>, left: seq<nat>, idx: nat)
    requires DependentsMirror(dependents, deps)
    requires Releasing(deps, inDegree, popped, all, left)
    requires left != [] && inDegree[left[0]] == 1 && left[0] in Targets(dependents, idx)
    ensures forall p :: p in deps[left[0]] ==> p in popped
    ensures idx in deps[left[0]]
  {
    var i := left[0];
    CountHead(left, i);
    assert CounterExact(deps, inDegree, popped, left, i);
    PendingZero(deps[i], Elements(popped));
    CountMember(Targets(dependents, idx), i);
    CountMember(deps[i], idx);
    assert Count(Targets(dependents, idx), i) == Count(deps[i], idx);
  }

  /** `table` holds exactly the (node, depth) pairs. */
  ghost predicate DepthTable(table: iset<(nat, nat)>, deps: DepList) {
    forall i: nat, d: nat {:trigger DepthIs(deps, i, d)} :: (i, d) in table <==> DepthIs(deps, i, d)
  }

  /** `depth` labels everything enqueued: nondecreasing, and what is still
      waiting spans at most two consecutive depths. */
  ghost predicate Layered(table: iset<(nat, nat)>, popped: nat, all: seq<nat>, depth: seq<nat>, floor: nat) {
    && |depth| == |all| && popped <= |all|
    && (forall k :: 0 <= k < |all| ==> (all[k], depth[k]) in table)
    && (forall a, b :: 0 <= a < b < |depth| ==> depth[a] <= depth[b])
    && (forall k :: 0 <= k < popped ==> depth[k] <= floor)
    && (forall k :: popped <= k < |all| ==> floor <= depth[k] <= floor + 1)
  }

  lemma PushKeepsLayers(deps: DepList, table: iset<(nat, nat)>, popped: seq<nat>, all: seq<nat>, depth: seq<nat>,
                        floor: nat, i: nat)
    requires WellFormed(deps) && DepthTable(table, deps) && i < |deps| && popped != [] && popped <= all
    requires Layered(table, |popped|, all, depth, floor) && depth[|popped| - 1] == floor
    requires forall p :: p in deps[i] ==> p in popped
    requires popped[|popped| - 1] in deps[i]
    ensures Layered(table, |popped|, all + [i], depth + [floor + 1], floor)
  {
    forall p | p in deps[i] ensures DepthAtMost(deps, p, floor) {
      var k :| 0 <= k < |popped| && popped[k] == p;
      assert (all[k], depth[k]) in table && DepthIs(deps, all[k], depth[k]);
    }
    var last := popped[|popped| - 1];
    assert (all[|popped| - 1], depth[|popped| - 1]) in table && DepthIs(deps, last, floor);
    DepthFromProducers(deps, i, floor);
    DeeperThanProducer(deps, i, last, floor);
    assert DepthIs(deps, i, floor + 1);
  }

  lemma LayersAreDepthOrdered(deps: DepList, table: iset<(nat, nat)>, order: seq<nat>, depth: seq<nat>, floor: nat)
    requires DepthTable(table, deps) && Layered(table, |order|, order, depth, floor)
    ensures DepthOrdered(deps, order)
  {
    forall a, b, d: nat | 0 <= a < b < |order| && DepthAtMost(deps, order[b], d)
      ensures DepthAtMost(deps, order[a], d)
    {
      assert (order[a], depth[a]) in table && (order[b], depth[b]) in table;
      assert DepthIs(deps, order[a], depth[a]) && DepthIs(deps, order[b], depth[b]);
    }
  }

  // ----- the loops of the queue phase -----

  lemma InitialState(deps: DepList, table: iset<(nat, nat)>, inDegree: seq<nat>, queue: seq<nat>)
    requires DepthTable(table, deps) && |inDegree| == |deps|
    requires forall i :: 0 <= i < |deps| ==> inDegree[i] == |deps[i]|
    requires Distinct(queue) && forall k :: 0 <= k < |queue| ==> queue[k] < |deps|
    requires forall i: nat :: i < |deps| ==> ListedAtZero(inDegree, queue, i)
    ensures Releasing(deps, inDegree, [], queue, [])
    ensures Layered(table, 0, queue, seq(|queue|, _ => 0), 0)
  {
    forall i: nat | i < |deps|
      ensures CounterExact(deps, inDegree, [], [], i)
    {
      assert Elements([]) == {};
      PendingOfNothing(deps[i]);
    }
    forall k | 0 <= k < |queue|
      ensures (queue[k], 0) in table
    {
      assert queue[k] in queue && ListedAtZero(inDegree, queue, queue[k]);
      NoDependenciesDepth(deps, queue[k]);
      assert DepthIs(deps, queue[k], 0);
    }
  }

  /** The nodes nothing has to be waited for, in index order. */
  method InitialQueue(inDegree: array<nat>) returns (queue: seq<nat>)
    ensures Distinct(queue) && forall k :: 0 <= k < |queue| ==> queue[k] < inDegree.Length
    ensures forall i: nat :: i < inDegree.Length ==> ListedAtZero(inDegree[..], queue, i)
  {
    queue := [];
    for i := 0 to inDegree.Length
      invariant Distinct(queue)
      invariant forall k :: 0 <= k < |queue| ==> queue[k] < i
      invariant forall k: nat :: k < i ==> (k in queue <==> inDegree[k] == 0)
    {
      if inDegree[i] == 0 {
        assert (queue + [i])[..|queue|] == queue;
        queue := queue + [i];
      }
    }
  }

  /** One decrement, as the invariants of both the counters and the layers see it. */
  lemma ReleaseStep(deps: DepList, table: iset<(nat, nat)>, dependents: map<nat, seq<nat>>, inDegree: seq<nat>,
                    order: seq<nat>, all: seq<nat>, left: seq<nat>, depth: seq<nat>, floor: nat)
    requires WellFormed(deps) && DepthTable(table, deps) && DependentsMirror(dependents, deps)
    requires order != [] && left != [] && left[0] in Targets(dependents, order[|order| - 1])
    requires Releasing(deps, inDegree, order, all, left)
    requires Layered(table, |order|, all, depth, floor) && depth[|order| - 1] == floor
    ensures left[0] < |inDegree| && 0 < inDegree[left[0]]
    ensures var i := left[0]; var n := inDegree[i] - 1;
            && Releasing(deps, inDegree[i := n], order, if n == 0 then all + [i] else all, left[1..])
            && (n == 0 ==> Layered(table, |order|, all + [i], depth + [floor + 1], floor))
  {
    ReleaseKeeps(deps, inDegree, order, all, left);
    if inDegree[left[0]] == 1 {
      ReadyToPush(deps, dependents, inDegree, order, all, left, order[|order| - 1]);
      PushKeepsLayers(deps, table, order, all, depth, floor, left[0]);
    }
  }

  /** Decrement the counter of everything the node popped last releases. */
  method Release(ghost deps: DepList, ghost table: iset<(nat, nat)>, ghost dependents: map<nat, seq<nat>>,
                 inDegree: array<nat>, released: seq<nat>, ghost order: seq<nat>, waiting: seq<nat>,
                 ghost depths: seq<nat>, ghost floor: nat)
    returns (queue: seq<nat>, ghost depth: seq<nat>)
    requires WellFormed(deps) && DepthTable(table, deps) && DependentsMirror(dependents, deps)
    requires order != [] && released == Targets(dependents, order[|order| - 1])
    requires Releasing(deps, inDegree[..], order, order + waiting, released)
    requires Layered(table, |order|, order + waiting, depths, floor)
    requires |order| <= |depths| && depths[|order| - 1] == floor
    modifies inDegree
    ensures Releasing(deps, inDegree[..], order, order + queue, [])
    ensures Layered(table, |order|, order + queue, depth, floor)
  {
    hide Releasing, Layered, DepthTable, DependentsMirror, WellFormed;
    queue, depth := waiting, depths;
    for j := 0 to |released|
      invariant Releasing(deps, inDegree[..], order, order + queue, released[j..])
      invariant Layered(table, |order|, order + queue, depth, floor)
      invariant |order| <= |depth| && depth[|order| - 1] == floor
    {
      var dep := released[j];
      ghost var before := inDegree[..];
      ReleaseStep(deps, table, dependents, before, order, order + queue, released[j..], depth, floor);
      assert released[j..][1..] == released[j + 1..];
      var n := SaturatingSub(inDegree[dep], 1);
      inDegree[dep] := n;
      assert inDegree[..] == before[dep := n];
      if n == 0 {
        assert order + (queue + [dep]) == (order + queue) + [dep];
        queue, depth := queue + [dep], depth + [floor + 1];
      }
    }
  }

  /** With the queue empty, exactly the nodes with no cycle behind them are out. */
  lemma DrainedIsClean(deps: DepList, inDegree: seq<nat>, order: seq<nat>)
    requires WellFormed(deps) && Releasing(deps, inDegree, order, order, [])
    ensures Elements(order) == CleanSet(deps)
  {
    var done := Elements(order);
    DistinctMeaning(order);
    forall i: nat | i < |deps| && i !in done
      ensures Waiting(deps, done, i)
    {
      assert CounterExact(deps, inDegree, order, [], i) && ListedAtZero(inDegree, order, i);
      PendingZero(deps[i], done);
    }
    forall i: nat | i < |deps|
      ensures i in done <==> Clean(deps, i)
    {
      if i in done {
        var k :| 0 <= k < |order| && order[k] == i;
        ProducersFirstIsClean(deps, order, k);
      } else {
        LeftoverHasCycle(deps, done, i);
      }
    }
  }

  lemma EnqueuedBound(deps: DepList, inDegree: seq<nat>, popped: seq<nat>, all: seq<nat>, left: seq<nat>)
    requires Releasing(deps, inDegree, popped, all, left)
    ensures |all| <= |deps|
  {
    DistinctMeaning(all);
    DistinctCount(all);
    SubsetCount(Elements(all), Below(|deps|));
  }

  /** Popping the front of the queue starts a release at that node's depth. */
  lemma PopStep(deps: DepList, table: iset<(nat, nat)>, dependents: map<nat, seq<nat>>, inDegree: seq<nat>,
                order: seq<nat>, queue: seq<nat>, depth: seq<nat>, floor: nat)
    requires DependentsMirror(dependents, deps) && queue != []
    requires Releasing(deps, inDegree, order, order + queue, [])
    requires Layered(table, |order|, order + queue, depth, floor)
    ensures |order| < |deps|
    ensures var order', rest := order + [queue[0]], queue[1..];
            && Releasing(deps, inDegree, order', order' + rest, Targets(dependents, queue[0]))
            && Layered(table, |order'|, order' + rest, depth, depth[|order|])
  {
    assert (order + [queue[0]]) + queue[1..] == order + queue;
    PopKeeps(deps, dependents, inDegree, order, order + queue);
    EnqueuedBound(deps, inDegree, order, order + queue, []);
  }

  /** The queue phase: pop, emit, release, until nothing is ready. */
  method Drain(ghost deps: DepList, ghost table: iset<(nat, nat)>, inDegree: array<nat>,
               dependents: map<nat, seq<nat>>)
    returns (order: seq<nat>, ghost depth: seq<nat>, ghost floor: nat)
    requires WellFormed(deps) && DepthTable(table, deps) && inDegree.Length == |deps|
    requires DependentsMirror(dependents, deps)
    requires forall i :: 0 <= i < |deps| ==> inDegree[i] == |deps[i]|
    modifies inDegree
    ensures Releasing(deps, inDegree[..], order, order, [])
    ensures Layered(table, |order|, order, depth, floor)
  {
    hide Releasing, Layered, DepthTable, DependentsMirror, WellFormed, ListedAtZero, Distinct;
    order, floor := [], 0;
    var queue := InitialQueue(inDegree);
    InitialState(deps, table, inDegree[..], queue);
    depth := seq(|queue|, _ => 0);
    assert order + queue == queue;
    while queue != []
      invariant Releasing(deps, inDegree[..], order, order + queue, [])
      invariant Layered(table, |order|, order + queue, depth, floor)
      decreases |deps| - |order|
    {
      var idx := queue[0];
      PopStep(deps, table, dependents, inDegree[..], order, queue, depth, floor);
      floor := depth[|order|];
      order, queue := order + [idx], queue[1..];
      queue, depth := Release(deps, table, dependents, inDegree, Targets(dependents, idx), order, queue, depth, floor);
    }
    assert order + queue == order;
  }

  /** `order` and everything missing from it, in index order. */
  method AppendMissing(emitted: seq<nat>, n: nat) returns (order: seq<nat>)
    requires NoDuplicates(emitted) && forall k :: 0 <= k < |emitted| ==> emitted[k] < n
    ensures emitted <= order && Permutation(order, n) && Ascending(order[|emitted|..])
  {
    order := emitted;
    if |order| < n {
      for i := 0 to n
        invariant emitted <= order && NoDuplicates(order)
        invariant forall k :: 0 <= k < |order| ==> order[k] < n
        invariant forall k :: |emitted| <= k < |order| ==> order[k] < i
        invariant Ascending(order[|emitted|..])
        invariant forall k: nat :: k < i ==> k in order
      {
        if i !in order {
          order := order + [i];
        }
      }
    } else {
      FullListCovers(emitted, n);
    }
    AllListedLength(order, n);
  }

  lemma FullListCovers(s: seq<nat>, n: nat)
    requires NoDuplicates(s) && n <= |s| && forall k :: 0 <= k < |s| ==> s[k] < n
    ensures forall i: nat :: i < n ==> i in s
  {
    DistinctCount(s);
    SubsetCount(Elements(s), Below(n));
    forall i: nat | i < n ensures i in s {
      assert i in Below(n) && Elements(s) == Below(n);
    }
  }

  lemma AllListedLength(s: seq<nat>, n: nat)
    requires NoDuplicates(s)
    requires forall k :: 0 <= k < |s| ==> s[k] < n
    requires forall i: nat :: i < n ==> i in s
    ensures |s| == n
  {
    DistinctCount(s);
    assert Elements(s) == Below(n);
  }

  method TopologicalSort(g: Graph, known: seq<string>) returns (order: seq<nat>)
    ensures IsSchedule(DependsOn(g, Known(known)), order)
  {
    ghost var deps := DependsOn(g, Known(known));
    var knownSet := set s | s in known;
    assert knownSet == Known(known);
    var producer := BuildProducers(g);
    var inDegree := CountInputs(g, knownSet, producer);
    var dependents := BuildDependents(g, knownSet, producer);
    ghost var table := iset i: nat, d: nat | DepthIs(deps, i, d) :: (i, d);
    var emitted;
    ghost var depth, floor;
    emitted, depth, floor := Drain(deps, table, inDegree, dependents);
    ConcludeQueuePhase(deps, table, inDegree[..], emitted, depth, floor);
    assert forall k :: 0 <= k < |emitted| ==> emitted[k] in Elements(emitted);
    order := AppendMissing(emitted, |g.nodes|);
    assert order[..|emitted|] == emitted;
  }

  lemma ConcludeQueuePhase(deps: DepList, table: iset<(nat, nat)>, inDegree: seq<nat>, order: seq<nat>,
                           depth: seq<nat>, floor: nat)
    requires WellFormed(deps) && DepthTable(table, deps)
    requires Releasing(deps, inDegree, order, order, [])
    requires Layered(table, |order|, order, depth, floor)
    ensures Elements(order) == CleanSet(deps) && |order| == |CleanSet(deps)|
    ensures NoDuplicates(order) && ProducersFirst(deps, order) && DepthOrdered(deps, order)
  {
    DrainedIsClean(deps, inDegree, order);
    LayersAreDepthOrdered(deps, table, order, depth, floor);
    DistinctMeaning(order);
    DistinctCount(order);
  }
}
