/** What the host gets back, in plain terms: numbers uploaded come back in
    place, a cleared buffer holds zeros, and a kernel's output is the kernel
    applied to the numbers its operands had when it was queued. */
module QueueReadBack {
  import opened Wrappers
  import opened DeviceQueue
  import opened QueueRefinement
  import Shapes

  // ----- what a step does to a value -----

  /** Only borrow `b` has changed, and it has kept its length. */
  ghost predicate OnlyBorrow(before: Values, after: Values, b: nat) {
    && OfBorrow(b) in before && OfBorrow(b) in after && |after[OfBorrow(b)]| == |before[OfBorrow(b)]|
    && forall o: Owner :: o != OfBorrow(b) ==> (o in before <==> o in after) && (o in before ==> after[o] == before[o])
  }

  /** Element `i` of the data becomes element `i` of the borrow; the rest stays. */
  lemma UploadLands(vals: Values, b: nat, data: seq<real>)
    requires Immediate(vals, Upload(b, data)).Some?
    ensures var after := Immediate(vals, Upload(b, data)).value.0;
            && OnlyBorrow(vals, after, b) && |data| <= |after[OfBorrow(b)]|
            && (forall i :: 0 <= i < |data| ==> after[OfBorrow(b)][i] == Some(data[i]))
            && (forall i :: |data| <= i < |after[OfBorrow(b)]| ==> after[OfBorrow(b)][i] == vals[OfBorrow(b)][i])
  {
  }

  lemma ZeroFillLands(vals: Values, b: nat)
    requires Immediate(vals, ZeroFill(b)).Some?
    ensures var after := Immediate(vals, ZeroFill(b)).value.0;
            && OnlyBorrow(vals, after, b)
            && forall i :: 0 <= i < |after[OfBorrow(b)]| ==> after[OfBorrow(b)][i] == Some(0.0)
  {
  }

  /** `x` are the elements of `v`, all of them written. */
  ghost predicate AreElements(x: seq<real>, v: Value) {
    |x| == |v| && forall i :: 0 <= i < |v| ==> v[i] == Some(x[i])
  }

  /** Element `i` becomes what the kernel gives for `i`, if anything. */
  lemma KernelLands(vals: Values, f: KernelFn, srcs: seq<Owner>, dst: nat, operands: seq<seq<real>>)
    requires Immediate(vals, Dispatch(f, srcs, dst)).Some? && |operands| == |srcs|
    requires forall k :: 0 <= k < |srcs| ==> srcs[k] in vals && AreElements(operands[k], vals[srcs[k]])
    ensures var after := Immediate(vals, Dispatch(f, srcs, dst)).value.0;
            && OnlyBorrow(vals, after, dst)
            && forall i :: 0 <= i < |after[OfBorrow(dst)]| ==>
                 after[OfBorrow(dst)][i] == (if f(operands, i).Some? then f(operands, i) else vals[OfBorrow(dst)][i])
  {
    forall k | 0 <= k < |srcs| ensures Elements(vals[srcs[k]]) == operands[k] { }
    assert Operands(vals, srcs) == operands;
  }

  /** A borrow handed over, and an alias or share, have the elements of what
      they came from. */
  lemma HandlesKeepElements(vals: Values, b: nat, h: nat, h': nat, n: nat, shape: seq<nat>, other: seq<nat>)
    requires OfBorrow(b) in vals && n == |vals[OfBorrow(b)]| && h != h'
    requires Shapes.Product(shape) == n && Shapes.Product(other) == n
    ensures var handed := Immediate(vals, Handoff(b, h, shape)).value.0;
            var aliased := Immediate(handed, Alias(h, h', other)).value.0;
            var shared := Immediate(handed, Share(h, h')).value.0;
            && OfHandle(h) in handed && |handed[OfHandle(h)]| == n && OfBorrow(b) !in handed
            && OfHandle(h') in aliased && OfHandle(h') in shared
            && |aliased[OfHandle(h')]| == n && |shared[OfHandle(h')]| == n
            && forall i :: 0 <= i < n ==>
                 vals[OfBorrow(b)][i] == handed[OfHandle(h)][i] == aliased[OfHandle(h')][i] == shared[OfHandle(h')][i]
  {
  }

  // ----- reading it back -----

  /** A step, whatever the device does meanwhile, and a read-back. */
  function ThenRead(l: Label, waits: seq<Label>, owner: Owner): seq<Label> { [l] + (waits + [ReadBack(owner)]) }

  lemma ReadsWhatItMeans(s: System, vals: Values, l: Label, waits: seq<Label>, owner: Owner)
    requires Refines(s, vals) && !l.Device? && !l.ReadBack? && CanRun(s, ThenRead(l, waits, owner))
    requires forall k :: 0 <= k < |waits| ==> waits[k].Device?
    ensures Immediate(vals, l).Some? && owner in Immediate(vals, l).value.0
    ensures var seen := Run(s, ThenRead(l, waits, owner)).1;
            |seen| == 1 && Holds(seen[0], Immediate(vals, l).value.0[owner])
  {
    var labels, rest := ThenRead(l, waits, owner), waits + [ReadBack(owner)];
    RunRefinesImmediate(s, vals, labels);
    assert labels[0] == l && labels[1..] == rest;
    StepRefines(s, vals, l);
    NothingRead(vals, l);
    hide Refines, Run, CanRun, Immediate, Holds, Step;
    var next := Immediate(vals, l).value.0;
    WaitsAreInvisible(next, waits, [ReadBack(owner)]);
    OneRead(next, owner);
    var none: seq<Value> := [];
    assert none + [next[owner]] == [next[owner]];
  }

  lemma NothingRead(vals: Values, l: Label)
    requires !l.ReadBack? && Immediate(vals, l).Some?
    ensures Immediate(vals, l).value.1 == []
  {
  }

  lemma OneRead(vals: Values, owner: Owner)
    ensures RunImmediately(vals, [ReadBack(owner)]).Some? <==> owner in vals
    ensures owner in vals ==> RunImmediately(vals, [ReadBack(owner)]) == Some((vals, [vals[owner]]))
  {
    assert [ReadBack(owner)][1..] == [] && RunImmediately(vals, []) == Some((vals, []));
    if owner in vals {
      assert Immediate(vals, ReadBack(owner)) == Some((vals, [vals[owner]]));
      assert [vals[owner]] + [] == [vals[owner]];
    }
  }

  /** In every run: numbers uploaded to a borrow come back first when it is read,
      each in its place, however the device caught up in between. */
  lemma UploadReadsBack(labels: seq<Label>, b: nat, data: seq<real>, waits: seq<Label>)
    requires CanRun(FRESH, labels)
    requires var s := Run(FRESH, labels).0; CanRun(s, ThenRead(Upload(b, data), waits, OfBorrow(b)))
    requires forall k :: 0 <= k < |waits| ==> waits[k].Device?
    ensures var seen := Run(Run(FRESH, labels).0, ThenRead(Upload(b, data), waits, OfBorrow(b))).1;
            |seen| == 1 && |data| <= |seen[0]| && forall i :: 0 <= i < |data| ==> seen[0][i] == data[i]
  {
    FreshRefines();
    RunRefinesImmediate(FRESH, map[], labels);
    var s, vals := Run(FRESH, labels).0, RunImmediately(map[], labels).value.0;
    hide Refines, Run, CanRun;
    ReadsWhatItMeans(s, vals, Upload(b, data), waits, OfBorrow(b));
    UploadLands(vals, b, data);
    hide Immediate;
  }

  /** In every run: a kernel over operands whose numbers are known gives back,
      wherever it writes, what it makes of them. */
  lemma KernelReadsBack(labels: seq<Label>, f: KernelFn, srcs: seq<Owner>, dst: nat, operands: seq<seq<real>>,
                        waits: seq<Label>)
    requires CanRun(FRESH, labels) && RunImmediately(map[], labels).Some? && |operands| == |srcs|
    requires var vals := RunImmediately(map[], labels).value.0;
             forall k :: 0 <= k < |srcs| ==> srcs[k] in vals && AreElements(operands[k], vals[srcs[k]])
    requires var s := Run(FRESH, labels).0; CanRun(s, ThenRead(Dispatch(f, srcs, dst), waits, OfBorrow(dst)))
    requires forall k :: 0 <= k < |waits| ==> waits[k].Device?
    ensures var seen := Run(Run(FRESH, labels).0, ThenRead(Dispatch(f, srcs, dst), waits, OfBorrow(dst))).1;
            |seen| == 1 && forall i :: 0 <= i < |seen[0]| && f(operands, i).Some? ==> seen[0][i] == f(operands, i).value
  {
    FreshRefines();
    RunRefinesImmediate(FRESH, map[], labels);
    var s, vals := Run(FRESH, labels).0, RunImmediately(map[], labels).value.0;
    hide Refines, Run, CanRun;
    ReadsWhatItMeans(s, vals, Dispatch(f, srcs, dst), waits, OfBorrow(dst));
    KernelLands(vals, f, srcs, dst, operands);
    hide Immediate;
  }

  lemma {:induction false} CanRunAppend(s: System, a: seq<Label>, b: seq<Label>)
    requires CanRun(s, a) && CanRun(Run(s, a).0, b)
    ensures CanRun(s, a + b)
    decreases |a|
  {
    hide Step;
    if a == [] {
      assert a + b == b;
    } else {
      CanRunAppend(Step(s, a[0]).value.0, a[1..], b);
      assert (a + b)[0] == a[0] && (a + b)[1..] == a[1..] + b;
    }
  }

  /** What fits a borrow can always be uploaded and, after enough device steps, read. */
  lemma UploadCanBeRead(s: System, b: nat, data: seq<real>) returns (waits: seq<Label>)
    requires b in s.borrows && |data| <= s.borrows[b].len
    ensures CanRun(s, ThenRead(Upload(b, data), waits, OfBorrow(b)))
    ensures forall k :: 0 <= k < |waits| ==> waits[k].Device?
  {
    var labels, next := [Upload(b, data)], Step(s, Upload(b, data)).value.0;
    QueueDrains(next);
    waits := seq(|next.queue|, _ => Label.Device);
    var drained := Run(next, waits).0;
    assert Step(drained, ReadBack(OfBorrow(b))).Some?;
    hide Step;
    assert [ReadBack(OfBorrow(b))][1..] == [];
    CanRunAppend(next, waits, [ReadBack(OfBorrow(b))]);
    var all := ThenRead(Upload(b, data), waits, OfBorrow(b));
    assert all[0] == Upload(b, data) && all[1..] == waits + [ReadBack(OfBorrow(b))];
  }
}
