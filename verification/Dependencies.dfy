/** Dependency lists and what they say about cycles and depth.

    A schedule is judged against a plain relation between node numbers:
    `deps[i]` lists, with repetitions, the nodes that node `i` waits for. */
module Dependencies {

  type DepList = seq<seq<nat>>

  ghost predicate WellFormed(deps: DepList) {
    forall i, p :: 0 <= i < |deps| && p in deps[i] ==> p < |deps|
  }

  /** A walk along dependency edges, producers first. */
  ghost predicate IsPath(deps: DepList, path: seq<nat>) {
    && 0 < |path|
    && (forall k :: 0 <= k < |path| ==> path[k] < |deps|)
    && (forall k :: 0 <= k < |path| - 1 ==> path[k] in deps[path[k + 1]])
  }

  ghost predicate PathTo(deps: DepList, path: seq<nat>, i: nat) {
    IsPath(deps, path) && path[|path| - 1] == i
  }

  ghost predicate PathBetween(deps: DepList, path: seq<nat>, from: nat, to: nat) {
    PathTo(deps, path, to) && path[0] == from
  }

  ghost predicate OnCycle(deps: DepList, a: nat) {
    exists path :: PathBetween(deps, path, a, a) && 2 <= |path|
  }

  ghost predicate Acyclic(deps: DepList) {
    forall a :: 0 <= a < |deps| ==> !OnCycle(deps, a)
  }

  /** No node on a cycle among `i` and its ancestors. */
  ghost predicate Clean(deps: DepList, i: nat) {
    i < |deps| && forall path :: PathTo(deps, path, i) ==> !OnCycle(deps, path[0])
  }

  ghost function CleanSet(deps: DepList): set<nat> {
    set i | 0 <= i < |deps| && Clean(deps, i)
  }

  /** Every chain of dependencies ending in `i` has at most `d` edges. */
  ghost predicate DepthAtMost(deps: DepList, i: nat, d: nat) {
    i < |deps| && forall path :: PathTo(deps, path, i) ==> |path| <= d + 1
  }

  ghost predicate NoDuplicates(s: seq<nat>) {
    forall a, b :: 0 <= a < b < |s| ==> s[a] != s[b]
  }

  /** Each listed node comes after everything it waits for. */
  ghost predicate ProducersFirst(deps: DepList, order: seq<nat>) {
    forall k: nat {:trigger ReadyAt(deps, order, k)} :: k < |order| ==> ReadyAt(deps, order, k)
  }

  ghost predicate ReadyAt(deps: DepList, order: seq<nat>, k: nat)
    requires k < |order|
  {
    order[k] < |deps| && forall p :: p in deps[order[k]] ==> p in order[..k]
  }

  ghost predicate Permutation(order: seq<nat>, n: nat) {
    && |order| == n
    && NoDuplicates(order)
    && (forall i: nat :: i < n ==> i in order)
    && (forall k :: 0 <= k < |order| ==> order[k] < n)
  }

  // ----- paths -----

  lemma PathPrefix(deps: DepList, path: seq<nat>)
    requires IsPath(deps, path) && 2 <= |path|
    ensures IsPath(deps, path[..|path| - 1])
    ensures path[|path| - 2] in deps[path[|path| - 1]]
  {
    var k := |path| - 2;
    assert path[k] in deps[path[k + 1]];
  }

  lemma EdgeAt(deps: DepList, path: seq<nat>, k: nat)
    requires IsPath(deps, path) && k + 1 < |path|
    ensures path[k + 1] < |deps| && path[k] in deps[path[k + 1]]
  {
  }

  lemma ExtendPath(deps: DepList, path: seq<nat>, i: nat)
    requires IsPath(deps, path) && i < |deps| && path[|path| - 1] in deps[i]
    ensures IsPath(deps, path + [i])
  {
    var longer := path + [i];
    forall k | 0 <= k < |longer| - 1
      ensures longer[k] in deps[longer[k + 1]]
    {
      if k < |path| - 1 {
        assert path[k] in deps[path[k + 1]];
      }
    }
  }

  // ----- what a producers-first prefix can contain -----

  /** A path into a producers-first list starts strictly earlier in it. */
  lemma {:induction false} PathStartsEarlier(deps: DepList, order: seq<nat>, path: seq<nat>, k: nat)
    requires ProducersFirst(deps, order)
    requires IsPath(deps, path) && k < |order| && path[|path| - 1] == order[k]
    ensures path[0] in order[..k + 1]
    ensures 2 <= |path| ==> path[0] in order[..k]
    decreases |path|
  {
    if |path| == 1 {
      assert order[..k + 1][k] == path[0];
    } else {
      PathPrefix(deps, path);
      var shorter := path[..|path| - 1];
      var p := path[|path| - 2];
      assert ReadyAt(deps, order, k) && p in order[..k];
      var j :| 0 <= j < k && order[..k][j] == p;
      PathStartsEarlier(deps, order, shorter, j);
      var m :| 0 <= m < j + 1 && order[..j + 1][m] == path[0];
      assert order[..k][m] == path[0];
    }
  }

  lemma ProducersFirstIsClean(deps: DepList, order: seq<nat>, k: nat)
    requires ProducersFirst(deps, order) && NoDuplicates(order)
    requires k < |order| && order[k] < |deps|
    ensures Clean(deps, order[k])
  {
    forall path | PathTo(deps, path, order[k])
      ensures !OnCycle(deps, path[0])
    {
      PathStartsEarlier(deps, order, path, k);
      var a := path[0];
      var j :| 0 <= j < k + 1 && order[..k + 1][j] == a;
      if OnCycle(deps, a) {
        var loop :| PathBetween(deps, loop, a, a) && 2 <= |loop|;
        PathStartsEarlier(deps, order, loop, j);
      }
    }
  }

  // ----- what is left over always hides a cycle -----

  ghost predicate Waiting(deps: DepList, done: set<nat>, i: nat)
    requires i < |deps|
  {
    exists p :: p in deps[i] && p !in done
  }

  /** Everything outside `done` still waits for something outside `done`. */
  ghost predicate StuckOutside(deps: DepList, done: set<nat>) {
    forall i: nat {:trigger Waiting(deps, done, i)} :: i < |deps| && i !in done ==> Waiting(deps, done, i)
  }

  lemma {:induction false} WalkBack(deps: DepList, done: set<nat>, i: nat, steps: nat) returns (path: seq<nat>)
    requires WellFormed(deps) && StuckOutside(deps, done)
    requires i < |deps| && i !in done
    ensures IsPath(deps, path) && |path| == steps + 1 && path[steps] == i
    ensures forall k :: 0 <= k < |path| ==> path[k] !in done
    decreases steps
  {
    if steps == 0 {
      path := [i];
    } else {
      assert Waiting(deps, done, i);
      var p :| p in deps[i] && p !in done;
      var shorter := WalkBack(deps, done, p, steps - 1);
      ExtendPath(deps, shorter, i);
      path := shorter + [i];
    }
  }

  ghost function Below(n: nat): (s: set<nat>)
    ensures |s| == n
    ensures forall x: nat :: x in s <==> x < n
  {
    if n == 0 then {} else Below(n - 1) + {n - 1}
  }

  ghost function Elements(s: seq<nat>): set<nat> { set x | x in s }

  lemma {:induction false} DistinctCount(s: seq<nat>)
    requires NoDuplicates(s)
    ensures |Elements(s)| == |s|
  {
    if s == [] {
      assert Elements(s) == {};
    } else {
      var front := s[..|s| - 1];
      var last := s[|s| - 1];
      DistinctCount(front);
      forall a | 0 <= a < |front| ensures front[a] != last { assert s[a] != s[|s| - 1]; }
      assert s == front + [last];
      assert Elements(s) == Elements(front) + {last};
    }
  }

  lemma SubsetCount(a: set<nat>, b: set<nat>)
    requires a <= b
    ensures |a| <= |b|
    ensures |a| == |b| ==> a == b
  {
    assert b == a + (b - a);
    assert |b| == |a| + |b - a|;
  }

  lemma Pigeonhole(s: seq<nat>, n: nat)
    requires n < |s| && forall k :: 0 <= k < |s| ==> s[k] < n
    ensures exists a, b :: 0 <= a < b < |s| && s[a] == s[b]
  {
    if NoDuplicates(s) {
      DistinctCount(s);
      SubsetCount(Elements(s), Below(n));
    }
  }

  lemma SubPath(deps: DepList, path: seq<nat>, x: nat, y: nat)
    requires IsPath(deps, path) && x < y <= |path|
    ensures IsPath(deps, path[x..y])
  {
    var part := path[x..y];
    forall k | 0 <= k < |part| - 1 ensures part[k] in deps[part[k + 1]] {
      assert path[x + k] in deps[path[x + k + 1]];
    }
  }

  /** A path with more nodes than there are runs around a cycle. */
  lemma LongPathHasCycle(deps: DepList, path: seq<nat>) returns (x: nat)
    requires IsPath(deps, path) && |deps| < |path|
    ensures x < |path| && OnCycle(deps, path[x])
  {
    Pigeonhole(path, |deps|);
    var a, b :| 0 <= a < b < |path| && path[a] == path[b];
    SubPath(deps, path, a, b + 1);
    assert PathBetween(deps, path[a..b + 1], path[a], path[a]);
    x := a;
  }

  lemma LeftoverHasCycle(deps: DepList, done: set<nat>, i: nat)
    requires WellFormed(deps) && StuckOutside(deps, done)
    requires i < |deps| && i !in done
    ensures !Clean(deps, i)
    ensures exists a: nat :: a < |deps| && a !in done && OnCycle(deps, a)
  {
    var path := WalkBack(deps, done, i, |deps|);
    var x := LongPathHasCycle(deps, path);
    SubPath(deps, path, x, |path|);
    var tail := path[x..];
    assert tail == path[x..|path|];
    assert PathTo(deps, tail, i) && OnCycle(deps, tail[0]);
  }

  // ----- depth -----

  lemma NoDependenciesDepth(deps: DepList, i: nat)
    requires i < |deps| && deps[i] == []
    ensures DepthAtMost(deps, i, 0)
  {
    forall path | PathTo(deps, path, i)
      ensures |path| <= 1
    {
      if 2 <= |path| { PathPrefix(deps, path); }
    }
  }

  lemma DepthFromProducers(deps: DepList, i: nat, d: nat)
    requires i < |deps| && forall p :: p in deps[i] ==> DepthAtMost(deps, p, d)
    ensures DepthAtMost(deps, i, d + 1)
  {
    forall path | PathTo(deps, path, i)
      ensures |path| <= d + 2
    {
      if 2 <= |path| {
        PathPrefix(deps, path);
        var shorter := path[..|path| - 1];
        var p := path[|path| - 2];
        assert DepthAtMost(deps, p, d) && PathTo(deps, shorter, p);
      }
    }
  }

  /** The depth of `i` is exactly `d`. */
  ghost predicate DepthIs(deps: DepList, i: nat, d: nat) {
    DepthAtMost(deps, i, d) && (0 < d ==> !DepthAtMost(deps, i, d - 1))
  }

  lemma DeeperThanProducer(deps: DepList, i: nat, p: nat, d: nat)
    requires i < |deps| && p in deps[i] && p < |deps| && DepthIs(deps, p, d)
    ensures !DepthAtMost(deps, i, d)
  {
    if d == 0 {
      assert IsPath(deps, [p]);
      ExtendPath(deps, [p], i);
      assert PathTo(deps, [p] + [i], i);
    } else {
      var path :| PathTo(deps, path, p) && !(|path| <= d);
      ExtendPath(deps, path, i);
      assert PathTo(deps, path + [i], i);
    }
  }

  /** Without cycles every depth is finite. */
  lemma FiniteDepth(deps: DepList, i: nat)
    requires Acyclic(deps) && i < |deps|
    ensures DepthAtMost(deps, i, |deps|)
  {
    forall path | PathTo(deps, path, i) ensures |path| <= |deps| + 1 {
      if |deps| < |path| {
        var x := LongPathHasCycle(deps, path);
      }
    }
  }

  lemma {:induction false} ExactDepth(deps: DepList, i: nat, bound: nat) returns (d: nat)
    requires DepthAtMost(deps, i, bound)
    ensures DepthIs(deps, i, d)
    decreases bound
  {
    if bound == 0 || !DepthAtMost(deps, i, bound - 1) {
      d := bound;
    } else {
      d := ExactDepth(deps, i, bound - 1);
    }
  }

  /** Some number bounds the depth of `p` and not that of `i`. */
  ghost predicate Shallower(deps: DepList, p: nat, i: nat) {
    exists d: nat :: DepthAtMost(deps, p, d) && !DepthAtMost(deps, i, d)
  }

  lemma ProducerIsShallower(deps: DepList, p: nat, i: nat)
    requires Acyclic(deps) && WellFormed(deps) && i < |deps| && p in deps[i]
    ensures Shallower(deps, p, i)
  {
    FiniteDepth(deps, p);
    var d := ExactDepth(deps, p, |deps|);
    DeeperThanProducer(deps, i, p, d);
  }
}
