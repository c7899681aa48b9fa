/** Concat's copies on the device queue: one command per run, each leaving the
    rest of the output alone. */
module ConcatQueue {
  import opened Wrappers
  import opened DeviceQueue
  import opened QueueRefinement
  import opened Concat

  /** A device-to-device copy of `n` elements, as a kernel of one operand. */
  function CopyKernel(from: nat, to: nat, n: nat): KernelFn {
    (operands: seq<seq<real>>, i: int) =>
      if 0 < |operands| && to <= i < to + n && from + (i - to) < |operands[0]| then Some(operands[0][from + (i - to)])
      else None
  }

  /** What such a copy makes of the output's value. */
  lemma CopyIs(vals: Values, src: Owner, dst: nat, from: nat, to: nat, n: nat)
    requires src in vals && OfBorrow(dst) in vals && Defined(vals[src])
    requires from + n <= |vals[src]| && to + n <= |vals[OfBorrow(dst)]|
    ensures var was := vals[OfBorrow(dst)];
            Immediate(vals, Dispatch(CopyKernel(from, to, n), [src], dst)) ==
            Some((vals[OfBorrow(dst) := was[..to] + vals[src][from..from + n] + was[to + n..]], []))
  {
    var was := vals[OfBorrow(dst)];
    assert Operands(vals, [src]) == [Elements(vals[src])];
    var out := Output(CopyKernel(from, to, n), [Elements(vals[src])], |was|);
    assert Overlaid(was, out) == was[..to] + vals[src][from..from + n] + was[to + n..];
  }

  function RunCopy(p: ConcatParams, srcs: seq<Owner>, dst: nat, run: (nat, nat)): Label
    requires p.axis < |p.outShape| && |srcs| == |p.segmentLens| && run.0 < |srcs|
  {
    Dispatch(CopyKernel(Source(p, run.0, run.1), Target(p, run.0, run.1), RunLength(p, run.0)), [srcs[run.0]], dst)
  }

  function RunCopies(p: ConcatParams, srcs: seq<Owner>, dst: nat, runs: seq<(nat, nat)>): seq<Label>
    requires p.axis < |p.outShape| && |srcs| == |p.segmentLens|
    requires forall i :: 0 <= i < |runs| ==> runs[i].0 < |srcs|
  {
    seq(|runs|, i requires 0 <= i < |runs| => RunCopy(p, srcs, dst, runs[i]))
  }

  /** The operands are written, long enough and not the output. */
  ghost predicate Ready(p: ConcatParams, vals: Values, srcs: seq<Owner>, inputs: seq<Value>, dst: nat) {
    && Supplied(p, inputs) && Sound(p) && |srcs| == |inputs|
    && OfBorrow(dst) in vals && OutNeeded(p) <= |vals[OfBorrow(dst)]|
    && forall k :: 0 <= k < |srcs| ==>
         srcs[k] in vals && srcs[k] != OfBorrow(dst) && vals[srcs[k]] == inputs[k] && Defined(inputs[k])
  }

  ghost predicate InPlace(p: ConcatParams, inputs: seq<Value>, out: Value, runs: seq<(nat, nat)>)
    requires Supplied(p, inputs) && Sound(p)
  {
    forall i {:trigger runs[i]} :: 0 <= i < |runs| ==>
      runs[i].0 < |inputs| && runs[i].1 < Outer(p) && Copied(p, inputs, out, runs[i].0, runs[i].1)
  }

  ghost predicate Legal(p: ConcatParams, inputs: seq<Value>, runs: seq<(nat, nat)>)
    requires p.axis < |p.outShape|
  {
    forall i :: 0 <= i < |runs| ==> runs[i].0 < |inputs| && runs[i].1 < Outer(p)
  }

  lemma OneRun(p: ConcatParams, vals: Values, srcs: seq<Owner>, inputs: seq<Value>, dst: nat,
               done: seq<(nat, nat)>, run: (nat, nat)) returns (out: Value)
    requires Ready(p, vals, srcs, inputs, dst) && InPlace(p, inputs, vals[OfBorrow(dst)], done)
    requires run.0 < |inputs| && run.1 < Outer(p)
    ensures Immediate(vals, RunCopy(p, srcs, dst, run)) == Some((vals[OfBorrow(dst) := out], []))
    ensures Ready(p, vals[OfBorrow(dst) := out], srcs, inputs, dst) && InPlace(p, inputs, out, done + [run])
  {
    var (k, o) := run;
    var was := vals[OfBorrow(dst)];
    RunInBounds(p, k, o);
    hide Outer, Source, Target, RunLength, OutNeeded, Needed, Copied, Immediate, CopyKernel;
    var from, to, n := Source(p, k, o), Target(p, k, o), RunLength(p, k);
    CopyIs(vals, srcs[k], dst, from, to, n);
    out := was[..to] + inputs[k][from..from + n] + was[to + n..];
    assert |out| == |was|;
    var all := done + [run];
    forall i | 0 <= i < |all|
      ensures all[i].0 < |inputs| && all[i].1 < Outer(p) && Copied(p, inputs, out, all[i].0, all[i].1)
    {
      if i < |done| { assert all[i] == done[i]; }
      CopyKeepsOthers(p, inputs, was, out, k, o, all[i].0, all[i].1);
    }
  }

  /** Any list of runs, queued one by one, ends up in place. */
  lemma {:induction false} RunsInPlace(p: ConcatParams, vals: Values, srcs: seq<Owner>, inputs: seq<Value>, dst: nat,
                                       done: seq<(nat, nat)>, runs: seq<(nat, nat)>) returns (out: Value)
    requires Ready(p, vals, srcs, inputs, dst) && InPlace(p, inputs, vals[OfBorrow(dst)], done)
    requires Legal(p, inputs, runs)
    ensures RunImmediately(vals, RunCopies(p, srcs, dst, runs)) == Some((vals[OfBorrow(dst) := out], []))
    ensures InPlace(p, inputs, out, done + runs)
    decreases |runs|
  {
    hide InPlace, Immediate;
    var labels := RunCopies(p, srcs, dst, runs);
    if runs == [] {
      out := vals[OfBorrow(dst)];
      assert labels == [] && done + runs == done && vals[OfBorrow(dst) := out] == vals;
    } else {
      var next := OneRun(p, vals, srcs, inputs, dst, done, runs[0]);
      var vals' := vals[OfBorrow(dst) := next];
      out := RunsInPlace(p, vals', srcs, inputs, dst, done + [runs[0]], runs[1..]);
      assert labels[1..] == RunCopies(p, srcs, dst, runs[1..]);
      assert (done + [runs[0]]) + runs[1..] == done + runs;
      assert labels[0] == RunCopy(p, srcs, dst, runs[0]);
      assert vals'[OfBorrow(dst) := out] == vals[OfBorrow(dst) := out];
      assert RunImmediately(vals', labels[1..]) == Some((vals'[OfBorrow(dst) := out], []));
      var none: seq<Value> := [];
      assert none + none == none;
    }
  }

  /** Queueing every run computes the concatenation, whatever the output held. */
  lemma ConcatOnQueue(p: ConcatParams, vals: Values, srcs: seq<Owner>, inputs: seq<Value>, dst: nat,
                      runs: seq<(nat, nat)>) returns (out: Value)
    requires Ready(p, vals, srcs, inputs, dst) && Legal(p, inputs, runs)
    requires forall k: nat, o: nat :: k < |inputs| && o < Outer(p) ==> (k, o) in runs
    ensures RunImmediately(vals, RunCopies(p, srcs, dst, runs)) == Some((vals[OfBorrow(dst) := out], []))
    ensures AllCopied(p, inputs, out)
  {
    out := RunsInPlace(p, vals, srcs, inputs, dst, [], runs);
    assert [] + runs == runs;
    forall k: nat, o: nat | k < |inputs| ensures Copied(p, inputs, out, k, o) {
      if o < Outer(p) {
        var i :| 0 <= i < |runs| && runs[i] == (k, o);
      }
    }
  }
}
