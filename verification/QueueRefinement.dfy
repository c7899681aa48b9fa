/** Immediate execution on values, and the proof that the queue, the pool and
    buffer sharing are invisible: every read-back returns what executing each
    step at once, on plain values, would return. */
module QueueRefinement {
  import opened Wrappers
  import opened Shapes
  import opened DevicePool
  import opened DeviceQueue

  // ----- immediate execution -----

  /** The value of an operand, element by element; `None` where nobody has written. */
  type Value = seq<Option<real>>

  type Values = map<Owner, Value>

  function Unknown(len: nat): Value { seq(len, _ => None) }

  /** `v` with the elements of `out` that are there in front. */
  function Overlaid(v: Value, out: seq<Option<real>>): (r: Value)
    ensures |r| == |v|
  {
    seq(|v|, i requires 0 <= i < |v| => if i < |out| && out[i].Some? then out[i] else v[i])
  }

  predicate Defined(v: Value) { forall i :: 0 <= i < |v| ==> v[i].Some? }

  function Elements(v: Value): seq<real>
    requires Defined(v)
  {
    seq(|v|, i requires 0 <= i < |v| => v[i].value)
  }

  predicate AllDefined(vals: Values, srcs: seq<Owner>) {
    forall k :: 0 <= k < |srcs| ==> srcs[k] in vals && Defined(vals[srcs[k]])
  }

  function Operands(vals: Values, srcs: seq<Owner>): seq<seq<real>>
    requires AllDefined(vals, srcs)
  {
    seq(|srcs|, k requires 0 <= k < |srcs| => Elements(vals[srcs[k]]))
  }

  /** A value handed on under a shape of `n` elements: nothing is known about
      elements past its own length. */
  function Reshaped(v: Value, n: nat): (r: Value)
    ensures |r| == n
  {
    if n <= |v| then v[..n] else v + Unknown(n - |v|)
  }

  /** The step a device-free executor takes, with what a read-back returns. */
  function Immediate(vals: Values, l: Label): Option<(Values, seq<Value>)> {
    match l
    case Device => None
    case Acquire(b, len, _, _) => Some((vals[OfBorrow(b) := Unknown(len)], []))
    case Upload(b, data) =>
      if OfBorrow(b) !in vals || |vals[OfBorrow(b)]| < |data| then None
      else Some((vals[OfBorrow(b) := Overlaid(vals[OfBorrow(b)], All(data))], []))
    case ZeroFill(b) =>
      if OfBorrow(b) !in vals then None
      else Some((vals[OfBorrow(b) := All(seq(|vals[OfBorrow(b)]|, _ => 0.0))], []))
    case Dispatch(f, srcs, dst) =>
      if OfBorrow(dst) !in vals then None
      else
        var was := vals[OfBorrow(dst)];
        Some((vals[OfBorrow(dst) := if AllDefined(vals, srcs) then Overlaid(was, Output(f, Operands(vals, srcs), |was|))
                                    else Unknown(|was|)], []))
    case Retire(b) => Some((vals, []))
    case DropBorrow(b) => Some((vals - {OfBorrow(b)}, []))
    case Handoff(b, h, shape) =>
      if OfBorrow(b) !in vals then None
      else Some(((vals - {OfBorrow(b)})[OfHandle(h) := Reshaped(vals[OfBorrow(b)], Product(shape))], []))
    case HandoffRefused(b, _) => Some((vals - {OfBorrow(b)}, []))
    case Alias(h, h', shape) =>
      if OfHandle(h) !in vals then None
      else if Product(shape) != |vals[OfHandle(h)]| then Some((vals, []))
      else Some((vals[OfHandle(h') := vals[OfHandle(h)]], []))
    case Share(h, h') =>
      if OfHandle(h) !in vals then None else Some((vals[OfHandle(h') := vals[OfHandle(h)]], []))
    case Recycle(h) => Some((vals - {OfHandle(h)}, []))
    case DropHandle(h) => Some((vals - {OfHandle(h)}, []))
    case ReadBack(owner) => if owner !in vals then None else Some((vals, [vals[owner]]))
  }

  // ----- ownership -----

  predicate InFree(free: seq<Buffer>, id: nat) {
    exists k :: 0 <= k < |free| && free[k].id == id
  }

  predicate Sized(mem: Memory, buffer: Buffer) {
    buffer.id in mem && |mem[buffer.id]| == buffer.capacity
  }

  ghost predicate FreeOwned(s: System) {
    && (forall a, b :: 0 <= a < b < |s.free| ==> s.free[a].id != s.free[b].id)
    && (forall k :: 0 <= k < |s.free| ==> Sized(s.mem, s.free[k]))
  }

  ghost predicate BorrowOwned(s: System, b: nat)
    requires b in s.borrows
  {
    var buffer := s.borrows[b].buffer;
    && Sized(s.mem, buffer) && s.borrows[b].len <= buffer.capacity && !InFree(s.free, buffer.id)
    && (forall b' :: b' in s.borrows && b' != b ==> s.borrows[b'].buffer.id != buffer.id)
    && (forall h :: h in s.handles ==> s.handles[h].buffer.id != buffer.id)
  }

  ghost predicate HandleOwned(s: System, h: nat)
    requires h in s.handles
  {
    var handle := s.handles[h];
    && Sized(s.mem, handle.buffer) && handle.len <= handle.buffer.capacity && !InFree(s.free, handle.buffer.id)
    && Product(handle.shape) == handle.len
    && (forall h' :: h' in s.handles && s.handles[h'].buffer.id == handle.buffer.id ==>
          s.handles[h'].buffer == handle.buffer && s.handles[h'].len == handle.len)
  }

  ghost predicate QueueLive(s: System) {
    forall id: nat {:trigger Pending(s.queue, id)} :: Pending(s.queue, id) ==> id in s.mem
  }

  /** No allocation is idle in the pool while anything refers to it, none is
      idle twice, a borrow is exclusive, and no queued command refers to freed
      memory. */
  ghost predicate Owned(s: System) {
    && FreeOwned(s)
    && (forall b {:trigger BorrowOwned(s, b)} :: b in s.borrows ==> BorrowOwned(s, b))
    && (forall h {:trigger HandleOwned(s, h)} :: h in s.handles ==> HandleOwned(s, h))
    && QueueLive(s)
  }

  // ----- the abstraction -----

  /** `data` has every element of `v` that has been written. */
  ghost predicate Holds(data: seq<real>, v: Value) {
    |data| == |v| && forall i :: 0 <= i < |v| && v[i].Some? ==> data[i] == v[i].value
  }

  /** Once drained, memory holds the value immediate execution gives `o`. */
  ghost predicate Agrees(s: System, drained: Memory, vals: Values, o: Owner) {
    var v := ViewOf(s, o);
    && (v.Some? <==> o in vals)
    && (v.Some? ==> |vals[o]| == v.value.len && Holds(Contents(drained, v.value), vals[o]))
  }

  ghost predicate Refines(s: System, vals: Values) {
    Owned(s) &&
    forall o: Owner {:trigger Agrees(s, Drained(s.mem, s.queue), vals, o)} ::
      Agrees(s, Drained(s.mem, s.queue), vals, o)
  }

  // ----- draining -----

  ghost predicate SameSizes(a: Memory, b: Memory) {
    a.Keys == b.Keys && forall id :: id in a ==> |a[id]| == |b[id]|
  }

  lemma {:induction false} DrainedSizes(mem: Memory, queue: seq<Command>)
    ensures SameSizes(mem, Drained(mem, queue))
    decreases |queue|
  {
    if queue != [] { DrainedSizes(Execute(mem, queue[0]), queue[1..]); }
  }

  lemma {:induction false} DrainedAppend(mem: Memory, queue: seq<Command>, c: Command)
    ensures Drained(mem, queue + [c]) == Execute(Drained(mem, queue), c)
    decreases |queue|
  {
    if queue == [] {
      assert (queue + [c])[1..] == [];
    } else {
      DrainedAppend(Execute(mem, queue[0]), queue[1..], c);
      assert (queue + [c])[1..] == queue[1..] + [c];
    }
  }

  lemma PendingTail(queue: seq<Command>, id: nat)
    requires queue != []
    ensures Pending(queue, id) <==> Mentions(queue[0], id) || Pending(queue[1..], id)
  {
    if k :| 0 <= k < |queue| && Mentions(queue[k], id) {
      if 0 < k { assert queue[1..][k - 1] == queue[k]; }
    }
    if Pending(queue[1..], id) {
      var k :| 0 <= k < |queue[1..]| && Mentions(queue[1..][k], id);
      assert queue[k + 1] == queue[1..][k];
    }
  }

  lemma PendingAppend(queue: seq<Command>, c: Command, id: nat)
    ensures Pending(queue + [c], id) <==> Pending(queue, id) || Mentions(c, id)
  {
    if k :| 0 <= k < |queue| && Mentions(queue[k], id) {
      assert (queue + [c])[k] == queue[k];
    }
    if Mentions(c, id) { assert (queue + [c])[|queue|] == c; }
  }

  /** Commands that do not mention an allocation neither read nor write it. */
  lemma ExecuteElsewhere(mem: Memory, c: Command, id: nat, data: seq<real>)
    requires !Mentions(c, id)
    ensures Execute(mem[id := data], c) == Execute(mem, c)[id := data]
    ensures Execute(mem - {id}, c) == Execute(mem, c) - {id}
  {
    if c.Launch? {
      forall k | 0 <= k < |c.srcs|
        ensures Contents(mem[id := data], c.srcs[k]) == Contents(mem, c.srcs[k]) == Contents(mem - {id}, c.srcs[k])
      {
        assert c.srcs[k].id != id;
      }
      assert AllContents(mem[id := data], c.srcs) == AllContents(mem, c.srcs) == AllContents(mem - {id}, c.srcs);
    }
  }

  lemma {:induction false} DrainedElsewhere(mem: Memory, queue: seq<Command>, id: nat, data: seq<real>)
    requires !Pending(queue, id)
    ensures Drained(mem[id := data], queue) == Drained(mem, queue)[id := data]
    ensures Drained(mem - {id}, queue) == Drained(mem, queue) - {id}
    decreases |queue|
  {
    if queue != [] {
      PendingTail(queue, id);
      ExecuteElsewhere(mem, queue[0], id, data);
      DrainedElsewhere(Execute(mem, queue[0]), queue[1..], id, data);
    }
  }

  // ----- one step at a time -----

  lemma DeviceRefines(s: System, vals: Values)
    requires Refines(s, vals) && s.queue != []
    ensures Refines(s.(mem := Execute(s.mem, s.queue[0]), queue := s.queue[1..]), vals)
  {
    var s' := s.(mem := Execute(s.mem, s.queue[0]), queue := s.queue[1..]);
    assert Drained(s'.mem, s'.queue) == Drained(s.mem, s.queue);
    hide Drained, Execute;
    ExecuteSizes(s.mem, s.queue[0]);
    forall b | b in s'.borrows ensures BorrowOwned(s', b) { assert BorrowOwned(s, b); }
    forall h | h in s'.handles ensures HandleOwned(s', h) { assert HandleOwned(s, h); }
    forall id: nat | Pending(s'.queue, id) ensures id in s'.mem { PendingTail(s.queue, id); }
    SameViews(s, s', vals);
  }

  lemma ExecuteSizes(mem: Memory, c: Command)
    ensures SameSizes(mem, Execute(mem, c))
  {
  }

  /** Agreement depends only on the views, the drained memory and the values. */
  lemma SameViews(s: System, s': System, vals: Values)
    requires Refines(s, vals)
    requires s'.borrows == s.borrows && s'.handles == s.handles
    requires Drained(s'.mem, s'.queue) == Drained(s.mem, s.queue)
    ensures forall o: Owner {:trigger Agrees(s', Drained(s'.mem, s'.queue), vals, o)} ::
              Agrees(s', Drained(s'.mem, s'.queue), vals, o)
  {
    forall o: Owner ensures Agrees(s', Drained(s'.mem, s'.queue), vals, o) {
      assert Agrees(s, Drained(s.mem, s.queue), vals, o);
    }
  }

  /** Enqueueing a command that writes `out` over the front of borrow `b`. */
  lemma EnqueueRefines(s: System, vals: Values, s': System, c: Command, b: nat, out: seq<Option<real>>, v: Value)
    requires Refines(s, vals) && b in s.borrows
    requires s' == s.(queue := s.queue + [c], borrows := s'.borrows)
    requires s'.borrows == s.borrows || exists f :: s'.borrows == s.borrows[b := s.borrows[b].(inFlight := f)]
    requires forall id: nat :: Mentions(c, id) ==> id in s.mem
    requires Execute(Drained(s.mem, s.queue), c) == Overwrite(Drained(s.mem, s.queue), s.borrows[b].buffer.id, out)
    requires |v| == s.borrows[b].len
    requires var was := Contents(Drained(s.mem, s.queue), View(s.borrows[b].buffer.id, s.borrows[b].len));
             Holds(Overlay(was, out), v)
    ensures Refines(s', vals[OfBorrow(b) := v])
  {
    var fm := Drained(s.mem, s.queue);
    DrainedAppend(s.mem, s.queue, c);
    var fm' := Drained(s'.mem, s'.queue);
    hide Drained, Execute, Mentions, Holds;
    EnqueueOwned(s, s', c, b);
    DrainedSizes(s.mem, s.queue);
    var id := s.borrows[b].buffer.id;
    assert BorrowOwned(s, b);
    OverwriteFront(fm, id, out, s.borrows[b].len);
    var vals' := vals[OfBorrow(b) := v];
    forall o: Owner ensures Agrees(s', fm', vals', o) {
      assert Agrees(s, fm, vals, o);
      assert ViewOf(s', o) == ViewOf(s, o);
      if o != OfBorrow(b) && ViewOf(s, o).Some? {
        ElsewhereUntouched(s, o, b);
        assert Contents(fm', ViewOf(s, o).value) == Contents(fm, ViewOf(s, o).value);
      }
    }
  }

  /** No other owner's view reaches a borrowed allocation. */
  lemma ElsewhereUntouched(s: System, o: Owner, b: nat)
    requires Owned(s) && b in s.borrows && o != OfBorrow(b) && ViewOf(s, o).Some?
    ensures ViewOf(s, o).value.id != s.borrows[b].buffer.id
  {
    assert BorrowOwned(s, b);
  }

  lemma OverwriteFront(mem: Memory, id: nat, out: seq<Option<real>>, len: nat)
    requires id in mem && len <= |mem[id]|
    ensures Contents(Overwrite(mem, id, out), View(id, len)) == Overlay(Contents(mem, View(id, len)), out)
  {
  }

  lemma EnqueueOwned(s: System, s': System, c: Command, b: nat)
    requires Owned(s) && b in s.borrows
    requires s' == s.(queue := s.queue + [c], borrows := s'.borrows)
    requires s'.borrows == s.borrows || exists f :: s'.borrows == s.borrows[b := s.borrows[b].(inFlight := f)]
    requires forall id: nat :: Mentions(c, id) ==> id in s.mem
    ensures Owned(s')
  {
    hide Mentions;
    BorrowsRelabelled(s, s', b);
    forall id: nat | Pending(s'.queue, id) ensures id in s'.mem { PendingAppend(s.queue, c, id); }
  }

  lemma BorrowsRelabelled(s: System, s': System, b: nat)
    requires Owned(s) && b in s.borrows
    requires s'.mem == s.mem && s'.free == s.free && s'.handles == s.handles
    requires s'.borrows == s.borrows || exists f :: s'.borrows == s.borrows[b := s.borrows[b].(inFlight := f)]
    ensures forall b {:trigger BorrowOwned(s', b)} :: b in s'.borrows ==> BorrowOwned(s', b)
    ensures forall h {:trigger HandleOwned(s', h)} :: h in s'.handles ==> HandleOwned(s', h)
  {
    forall b | b in s'.borrows ensures BorrowOwned(s', b) { assert BorrowOwned(s, b); }
    forall h | h in s'.handles ensures HandleOwned(s', h) { assert HandleOwned(s, h); }
  }

  /** What drained memory holds for an owner, sized as its view says. */
  lemma OwnerContents(s: System, vals: Values, o: Owner)
    requires Refines(s, vals) && ViewOf(s, o).Some?
    ensures ViewOf(s, o).value.id in s.mem
    ensures o in vals && |vals[o]| == ViewOf(s, o).value.len
    ensures Holds(Contents(Drained(s.mem, s.queue), ViewOf(s, o).value), vals[o])
  {
    hide Drained;
    DrainedSizes(s.mem, s.queue);
    assert Agrees(s, Drained(s.mem, s.queue), vals, o);
    match o {
      case OfBorrow(b) => assert BorrowOwned(s, b);
      case OfHandle(h) => assert HandleOwned(s, h);
    }
  }

  lemma UploadRefines(s: System, vals: Values, b: nat, data: seq<real>)
    requires Refines(s, vals) && Step(s, Upload(b, data)).Some?
    ensures Immediate(vals, Upload(b, data)).Some?
    ensures Refines(Step(s, Upload(b, data)).value.0, Immediate(vals, Upload(b, data)).value.0)
  {
    hide Drained;
    OwnerContents(s, vals, OfBorrow(b));
    var s' := Step(s, Upload(b, data)).value.0;
    var c := Write(s.borrows[b].buffer.id, data);
    EnqueueRefines(s, vals, s', c, b, All(data), Overlaid(vals[OfBorrow(b)], All(data)));
  }

  lemma ZeroFillRefines(s: System, vals: Values, b: nat)
    requires Refines(s, vals) && Step(s, ZeroFill(b)).Some?
    ensures Immediate(vals, ZeroFill(b)).Some?
    ensures Refines(Step(s, ZeroFill(b)).value.0, Immediate(vals, ZeroFill(b)).value.0)
  {
    hide Drained;
    OwnerContents(s, vals, OfBorrow(b));
    var s' := Step(s, ZeroFill(b)).value.0;
    var zeros := seq(s.borrows[b].len, _ => 0.0);
    var c := Write(s.borrows[b].buffer.id, zeros);
    EnqueueRefines(s, vals, s', c, b, All(zeros), All(zeros));
  }

  lemma DispatchRefines(s: System, vals: Values, f: KernelFn, srcs: seq<Owner>, dst: nat)
    requires Refines(s, vals) && Step(s, Dispatch(f, srcs, dst)).Some?
    ensures Immediate(vals, Dispatch(f, srcs, dst)).Some?
    ensures Refines(Step(s, Dispatch(f, srcs, dst)).value.0, Immediate(vals, Dispatch(f, srcs, dst)).value.0)
  {
    var fm := Drained(s.mem, s.queue);
    hide Drained;
    OwnerContents(s, vals, OfBorrow(dst));
    var s' := Step(s, Dispatch(f, srcs, dst)).value.0;
    var c := s'.queue[|s.queue|];
    var n := s.borrows[dst].len;
    forall k | 0 <= k < |srcs|
      ensures c.srcs[k] == ViewOf(s, srcs[k]).value && c.srcs[k].id in s.mem
      ensures srcs[k] in vals && Holds(Contents(fm, c.srcs[k]), vals[srcs[k]])
    {
      OwnerContents(s, vals, srcs[k]);
    }
    var out := Output(f, AllContents(fm, c.srcs), n);
    if AllDefined(vals, srcs) { OperandsHeld(fm, vals, srcs, c.srcs); }
    EnqueueRefines(s, vals, s', c, dst, out, Immediate(vals, Dispatch(f, srcs, dst)).value.0[OfBorrow(dst)]);
  }

  lemma OperandsHeld(fm: Memory, vals: Values, srcs: seq<Owner>, views: seq<View>)
    requires AllDefined(vals, srcs) && |views| == |srcs|
    requires forall k :: 0 <= k < |srcs| ==> Holds(Contents(fm, views[k]), vals[srcs[k]])
    ensures AllContents(fm, views) == Operands(vals, srcs)
  {
    forall k | 0 <= k < |srcs| ensures Contents(fm, views[k]) == Elements(vals[srcs[k]]) { }
  }

  // ----- taking a buffer -----

  lemma PoppedFree(s: System, k: nat)
    requires FreeOwned(s) && k < |s.free|
    ensures FreeOwned(s.(free := Without(s.free, k)))
    ensures !InFree(Without(s.free, k), s.free[k].id)
    ensures forall id: nat :: InFree(Without(s.free, k), id) ==> InFree(s.free, id)
  {
    var rest := Without(s.free, k);
    assert forall j :: 0 <= j < |rest| ==> rest[j] == s.free[if j < k then j else j + 1];
  }

  lemma AcquirePooledOwned(s: System, b: nat, len: nat, k: nat)
    requires Owned(s) && b !in s.borrows && k < |s.free| && len <= s.free[k].capacity
    ensures Owned(s.(free := Without(s.free, k), borrows := s.borrows[b := Borrow(s.free[k], len, false)]))
  {
    var s' := s.(free := Without(s.free, k), borrows := s.borrows[b := Borrow(s.free[k], len, false)]);
    hide Without;
    PoppedFree(s, k);
    var id := s.free[k].id;
    assert InFree(s.free, id);
    forall b' | b' in s.borrows ensures s.borrows[b'].buffer.id != id { assert BorrowOwned(s, b'); }
    forall h | h in s.handles ensures s.handles[h].buffer.id != id { assert HandleOwned(s, h); }
    forall b' | b' in s'.borrows ensures BorrowOwned(s', b') {
      if b' != b { assert BorrowOwned(s, b'); }
    }
    forall h | h in s'.handles ensures HandleOwned(s', h) { assert HandleOwned(s, h); }
    forall i: nat | Pending(s'.queue, i) ensures i in s'.mem { assert Pending(s.queue, i); }
  }

  lemma AcquirePooledRefines(s: System, vals: Values, b: nat, len: nat, k: nat)
    requires Refines(s, vals) && b !in s.borrows && k < |s.free| && len <= s.free[k].capacity
    ensures var s' := s.(free := Without(s.free, k), borrows := s.borrows[b := Borrow(s.free[k], len, false)]);
            Refines(s', vals[OfBorrow(b) := Unknown(len)])
  {
    var s' := s.(free := Without(s.free, k), borrows := s.borrows[b := Borrow(s.free[k], len, false)]);
    var fm := Drained(s.mem, s.queue);
    AcquirePooledOwned(s, b, len, k);
    DrainedSizes(s.mem, s.queue);
    assert Sized(s.mem, s.free[k]);
    hide Drained, Without, Owned;
    var vals' := vals[OfBorrow(b) := Unknown(len)];
    forall o: Owner ensures Agrees(s', fm, vals', o) { assert Agrees(s, fm, vals, o); }
  }

  lemma AcquireFreshOwned(s: System, b: nat, len: nat, buffer: Buffer, garbage: seq<real>)
    requires Owned(s) && b !in s.borrows && buffer.id !in s.mem
    requires |garbage| == buffer.capacity && len <= buffer.capacity
    ensures Owned(s.(mem := s.mem[buffer.id := garbage], borrows := s.borrows[b := Borrow(buffer, len, false)]))
  {
    var s' := s.(mem := s.mem[buffer.id := garbage], borrows := s.borrows[b := Borrow(buffer, len, false)]);
    OwnersInMemory(s);
    forall b' | b' in s'.borrows ensures BorrowOwned(s', b') {
      if b' != b { assert BorrowOwned(s, b'); }
    }
    forall h | h in s'.handles ensures HandleOwned(s', h) { assert HandleOwned(s, h); }
    forall i: nat | Pending(s'.queue, i) ensures i in s'.mem { assert Pending(s.queue, i); }
  }

  lemma AcquireFreshRefines(s: System, vals: Values, b: nat, len: nat, buffer: Buffer, garbage: seq<real>)
    requires Refines(s, vals) && b !in s.borrows && buffer.id !in s.mem
    requires |garbage| == buffer.capacity && len <= buffer.capacity
    ensures var s' := s.(mem := s.mem[buffer.id := garbage], borrows := s.borrows[b := Borrow(buffer, len, false)]);
            Refines(s', vals[OfBorrow(b) := Unknown(len)])
  {
    var s' := s.(mem := s.mem[buffer.id := garbage], borrows := s.borrows[b := Borrow(buffer, len, false)]);
    var fm, fm' := Drained(s.mem, s.queue), Drained(s'.mem, s'.queue);
    AcquireFreshOwned(s, b, len, buffer, garbage);
    OwnersInMemory(s);
    assert !Pending(s.queue, buffer.id);
    DrainedElsewhere(s.mem, s.queue, buffer.id, garbage);
    hide Drained, Owned;
    var vals' := vals[OfBorrow(b) := Unknown(len)];
    forall o: Owner ensures Agrees(s', fm', vals', o) {
      assert Agrees(s, fm, vals, o);
    }
  }

  lemma OwnersInMemory(s: System)
    requires Owned(s)
    ensures forall b :: b in s.borrows ==> s.borrows[b].buffer.id in s.mem
    ensures forall h :: h in s.handles ==> s.handles[h].buffer.id in s.mem
    ensures forall id: nat :: InFree(s.free, id) ==> id in s.mem
  {
    forall b | b in s.borrows ensures s.borrows[b].buffer.id in s.mem { assert BorrowOwned(s, b); }
    forall h | h in s.handles ensures s.handles[h].buffer.id in s.mem { assert HandleOwned(s, h); }
  }

  // ----- letting a buffer go -----

  /** Nothing refers to the allocation any more. */
  ghost predicate Orphan(s: System, buffer: Buffer) {
    && Sized(s.mem, buffer) && !InFree(s.free, buffer.id)
    && (forall b :: b in s.borrows ==> s.borrows[b].buffer.id != buffer.id)
    && (forall h :: h in s.handles ==> s.handles[h].buffer.id != buffer.id)
  }

  lemma FreedRefines(s: System, vals: Values, buffer: Buffer)
    requires Refines(s, vals) && Orphan(s, buffer) && Freed(s, buffer).Some?
    ensures Refines(Freed(s, buffer).value, vals)
  {
    var s' := Freed(s, buffer).value;
    var fm, fm' := Drained(s.mem, s.queue), Drained(s'.mem, s'.queue);
    hide Drained;
    DrainedElsewhere(s.mem, s.queue, buffer.id, []);
    assert FreeOwned(s') by {
      forall k | 0 <= k < |s.free| ensures Sized(s'.mem, s.free[k]) { assert s.free[k].id != buffer.id; }
    }
    forall b | b in s'.borrows ensures BorrowOwned(s', b) { assert BorrowOwned(s, b); }
    forall h | h in s'.handles ensures HandleOwned(s', h) { assert HandleOwned(s, h); }
    forall i: nat | Pending(s'.queue, i) ensures i in s'.mem { assert Pending(s.queue, i); }
    forall o: Owner ensures Agrees(s', fm', vals, o) { assert Agrees(s, fm, vals, o); }
  }

  /** Recycling without a fence: the next borrower's work queues behind. */
  lemma ReleasedRefines(s: System, vals: Values, buffer: Buffer)
    requires Refines(s, vals) && Orphan(s, buffer) && Released(s, buffer).Some?
    ensures Refines(Released(s, buffer).value, vals)
  {
    if Keeps(s.free, buffer) {
      var s' := s.(free := s.free + [buffer]);
      hide Drained;
      assert forall id: nat :: InFree(s'.free, id) ==> InFree(s.free, id) || id == buffer.id;
      assert FreeOwned(s') by {
        forall k | 0 <= k < |s.free| ensures s.free[k].id != buffer.id { assert !InFree(s.free, buffer.id); }
      }
      forall b | b in s'.borrows ensures BorrowOwned(s', b) { assert BorrowOwned(s, b); }
      forall h | h in s'.handles ensures HandleOwned(s', h) { assert HandleOwned(s, h); }
      forall i: nat | Pending(s'.queue, i) ensures i in s'.mem { assert Pending(s.queue, i); }
      SameViews(s, s', vals);
    } else {
      FreedRefines(s, vals, buffer);
    }
  }

  lemma BorrowRemoved(s: System, vals: Values, b: nat)
    requires Refines(s, vals) && b in s.borrows
    ensures var rest := s.(borrows := s.borrows - {b});
            Refines(rest, vals - {OfBorrow(b)}) && Orphan(rest, s.borrows[b].buffer)
  {
    var rest := s.(borrows := s.borrows - {b});
    var fm := Drained(s.mem, s.queue);
    hide Drained;
    assert BorrowOwned(s, b);
    forall b' | b' in rest.borrows ensures BorrowOwned(rest, b') { assert BorrowOwned(s, b'); }
    forall h | h in rest.handles ensures HandleOwned(rest, h) { assert HandleOwned(s, h); }
    forall i: nat | Pending(rest.queue, i) ensures i in rest.mem { assert Pending(s.queue, i); }
    forall o: Owner ensures Agrees(rest, fm, vals - {OfBorrow(b)}, o) { assert Agrees(s, fm, vals, o); }
  }

  lemma HandleRemoved(s: System, vals: Values, h: nat)
    requires Refines(s, vals) && h in s.handles
    ensures var rest := s.(handles := s.handles - {h});
            Refines(rest, vals - {OfHandle(h)}) && (Unique(s, h) ==> Orphan(rest, s.handles[h].buffer))
  {
    var rest := s.(handles := s.handles - {h});
    var fm := Drained(s.mem, s.queue);
    hide Drained;
    assert HandleOwned(s, h);
    forall b | b in s.borrows
      ensures s.borrows[b].buffer.id != s.handles[h].buffer.id && BorrowOwned(rest, b)
    {
      assert BorrowOwned(s, b);
    }
    forall h' | h' in rest.handles ensures HandleOwned(rest, h') { assert HandleOwned(s, h'); }
    forall i: nat | Pending(rest.queue, i) ensures i in rest.mem { assert Pending(s.queue, i); }
    forall o: Owner ensures Agrees(rest, fm, vals - {OfHandle(h)}, o) { assert Agrees(s, fm, vals, o); }
  }

  // ----- passing a buffer on -----

  lemma HandedOnContents(s: System, vals: Values, b: nat, n: nat)
    requires Refines(s, vals) && b in s.borrows && n <= s.borrows[b].buffer.capacity
    ensures OfBorrow(b) in vals
    ensures Holds(Contents(Drained(s.mem, s.queue), View(s.borrows[b].buffer.id, n)), Reshaped(vals[OfBorrow(b)], n))
  {
    hide Drained;
    DrainedSizes(s.mem, s.queue);
    assert BorrowOwned(s, b);
    OwnerContents(s, vals, OfBorrow(b));
  }

  lemma HandoffOwned(s: System, b: nat, h: nat, shape: Shape)
    requires Owned(s) && Step(s, Handoff(b, h, shape)).Some?
    ensures Owned(Step(s, Handoff(b, h, shape)).value.0)
  {
    var s' := Step(s, Handoff(b, h, shape)).value.0;
    assert BorrowOwned(s, b);
    forall b' | b' in s'.borrows ensures BorrowOwned(s', b') { assert BorrowOwned(s, b'); }
    forall h' | h' in s'.handles ensures HandleOwned(s', h') {
      if h' != h { assert HandleOwned(s, h'); }
    }
    forall i: nat | Pending(s'.queue, i) ensures i in s'.mem { assert Pending(s.queue, i); }
  }

  lemma HandoffRefines(s: System, vals: Values, b: nat, h: nat, shape: Shape)
    requires Refines(s, vals) && Step(s, Handoff(b, h, shape)).Some?
    ensures OfBorrow(b) in vals
    ensures Refines(Step(s, Handoff(b, h, shape)).value.0,
                    (vals - {OfBorrow(b)})[OfHandle(h) := Reshaped(vals[OfBorrow(b)], Product(shape))])
  {
    var s' := Step(s, Handoff(b, h, shape)).value.0;
    var fm := Drained(s.mem, s.queue);
    HandoffOwned(s, b, h, shape);
    var n := Product(shape);
    HandedOnContents(s, vals, b, n);
    hide Drained, Contents, Reshaped, Holds, Owned;
    var vals' := (vals - {OfBorrow(b)})[OfHandle(h) := Reshaped(vals[OfBorrow(b)], n)];
    forall o: Owner ensures Agrees(s', fm, vals', o) { assert Agrees(s, fm, vals, o); }
  }

  /** A second handle on the same allocation, for an alias or a binding. */
  lemma SharedRefines(s: System, vals: Values, h: nat, h': nat, handle: Handle)
    requires Refines(s, vals) && h in s.handles && h' !in s.handles
    requires handle.buffer == s.handles[h].buffer && handle.len == s.handles[h].len == Product(handle.shape)
    ensures OfHandle(h) in vals
    ensures Refines(s.(handles := s.handles[h' := handle]), vals[OfHandle(h') := vals[OfHandle(h)]])
  {
    var s' := s.(handles := s.handles[h' := handle]);
    var fm := Drained(s.mem, s.queue);
    hide Drained;
    OwnerContents(s, vals, OfHandle(h));
    assert HandleOwned(s, h);
    forall b | b in s'.borrows ensures BorrowOwned(s', b) { assert BorrowOwned(s, b); }
    forall g | g in s'.handles ensures HandleOwned(s', g) {
      if g != h' { assert HandleOwned(s, g); }
    }
    forall i: nat | Pending(s'.queue, i) ensures i in s'.mem { assert Pending(s.queue, i); }
    var vals' := vals[OfHandle(h') := vals[OfHandle(h)]];
    forall o: Owner ensures Agrees(s', fm, vals', o) {
      assert Agrees(s, fm, vals, o) && Agrees(s, fm, vals, OfHandle(h));
    }
  }

  lemma RetireRefines(s: System, vals: Values, b: nat)
    requires Refines(s, vals) && b in s.borrows
    ensures Refines(s.(borrows := s.borrows[b := s.borrows[b].(inFlight := false)]), vals)
  {
    var s' := s.(borrows := s.borrows[b := s.borrows[b].(inFlight := false)]);
    var fm := Drained(s.mem, s.queue);
    hide Drained;
    BorrowsRelabelled(s, s', b);
    forall i: nat | Pending(s'.queue, i) ensures i in s'.mem { assert Pending(s.queue, i); }
    forall o: Owner ensures Agrees(s', fm, vals, o) { assert Agrees(s, fm, vals, o); }
  }

  // ----- every step, every run -----

  /** Each read-back returned every element that had been written. */
  ghost predicate SameReads(seen: seq<seq<real>>, meant: seq<Value>) {
    |seen| == |meant| && forall k :: 0 <= k < |seen| ==> Holds(seen[k], meant[k])
  }

  lemma StepRefines(s: System, vals: Values, l: Label)
    requires Refines(s, vals) && Step(s, l).Some?
    ensures l.Device? ==> Refines(Step(s, l).value.0, vals) && Step(s, l).value.1 == []
    ensures !l.Device? ==> Immediate(vals, l).Some?
    ensures !l.Device? ==> Refines(Step(s, l).value.0, Immediate(vals, l).value.0)
    ensures !l.Device? ==> SameReads(Step(s, l).value.1, Immediate(vals, l).value.1)
  {
    hide Refines, Drained;
    match l {
      case Device => DeviceRefines(s, vals);
      case Acquire(b, len, freshId, garbage) =>
        var k := Newest(s.free, SizeClass(len));
        if k.Some? {
          AcquirePooledRefines(s, vals, b, len, k.value);
        } else {
          AcquireFreshRefines(s, vals, b, len, Buffer(freshId, SizeClass(len)), garbage);
        }
      case Upload(b, data) => UploadRefines(s, vals, b, data);
      case ZeroFill(b) => ZeroFillRefines(s, vals, b);
      case Dispatch(f, srcs, dst) => DispatchRefines(s, vals, f, srcs, dst);
      case Retire(b) => RetireRefines(s, vals, b);
      case DropBorrow(b) =>
        BorrowRemoved(s, vals, b);
        var rest := s.(borrows := s.borrows - {b});
        if s.borrows[b].inFlight {
          FreedRefines(rest, vals - {OfBorrow(b)}, s.borrows[b].buffer);
        } else {
          ReleasedRefines(rest, vals - {OfBorrow(b)}, s.borrows[b].buffer);
        }
      case Handoff(b, h, shape) => HandoffRefines(s, vals, b, h, shape);
      case HandoffRefused(b, shape) =>
        BorrowRemoved(s, vals, b);
        FreedRefines(s.(borrows := s.borrows - {b}), vals - {OfBorrow(b)}, s.borrows[b].buffer);
      case Alias(h, h', shape) =>
        OwnerContents(s, vals, OfHandle(h));
        if Product(shape) == s.handles[h].len {
          SharedRefines(s, vals, h, h', s.handles[h].(shape := shape));
        }
      case Share(h, h') =>
        HandleShape(s, vals, h);
        SharedRefines(s, vals, h, h', s.handles[h]);
      case Recycle(h) =>
        HandleRemoved(s, vals, h);
        if Unique(s, h) {
          ReleasedRefines(s.(handles := s.handles - {h}), vals - {OfHandle(h)}, s.handles[h].buffer);
        }
      case DropHandle(h) =>
        HandleRemoved(s, vals, h);
        if Unique(s, h) {
          FreedRefines(s.(handles := s.handles - {h}), vals - {OfHandle(h)}, s.handles[h].buffer);
        }
      case ReadBack(owner) =>
        OwnerContents(s, vals, owner);
        assert Drained(s.mem, []) == s.mem by { EmptyQueueDrained(s.mem); }
    }
  }

  lemma EmptyQueueDrained(mem: Memory)
    ensures Drained(mem, []) == mem
  {
  }

  lemma HandleShape(s: System, vals: Values, h: nat)
    requires Refines(s, vals) && h in s.handles
    ensures Product(s.handles[h].shape) == s.handles[h].len
  {
    assert HandleOwned(s, h);
  }

  predicate CanRun(s: System, labels: seq<Label>)
    decreases |labels|
  {
    labels == [] || (Step(s, labels[0]).Some? && CanRun(Step(s, labels[0]).value.0, labels[1..]))
  }

  /** The final state, and what the read-backs returned in order. */
  function Run(s: System, labels: seq<Label>): (System, seq<seq<real>>)
    requires CanRun(s, labels)
    decreases |labels|
  {
    if labels == [] then (s, [])
    else
      var (next, seen) := Step(s, labels[0]).value;
      var (last, later) := Run(next, labels[1..]);
      (last, seen + later)
  }

  /** The host's labels alone, executed at once. */
  function RunImmediately(vals: Values, labels: seq<Label>): Option<(Values, seq<Value>)>
    decreases |labels|
  {
    if labels == [] then Some((vals, []))
    else if labels[0].Device? then RunImmediately(vals, labels[1..])
    else
      match Immediate(vals, labels[0])
      case None => None
      case Some((next, meant)) =>
        match RunImmediately(next, labels[1..])
        case None => None
        case Some((last, later)) => Some((last, meant + later))
  }

  /** For every interleaving of host steps and device execution, each read-back
      returns what immediate execution returns, and ownership holds throughout. */
  lemma {:induction false} RunRefinesImmediate(s: System, vals: Values, labels: seq<Label>)
    requires Refines(s, vals) && CanRun(s, labels)
    ensures RunImmediately(vals, labels).Some?
    ensures SameReads(Run(s, labels).1, RunImmediately(vals, labels).value.1)
    ensures Refines(Run(s, labels).0, RunImmediately(vals, labels).value.0)
    decreases |labels|
  {
    hide Refines, Step, Immediate;
    if labels != [] {
      StepRefines(s, vals, labels[0]);
      var next := Step(s, labels[0]).value.0;
      var vals' := if labels[0].Device? then vals else Immediate(vals, labels[0]).value.0;
      RunRefinesImmediate(next, vals', labels[1..]);
    }
  }

  const FRESH := System(map[], [], [], map[], map[])

  lemma FreshRefines()
    ensures Refines(FRESH, map[])
  {
  }

  /** From an empty context, over every run: nothing idle in the pool is
      referred to by a handle, a borrow or twice, and nothing freed is queued. */
  lemma AlwaysOwned(labels: seq<Label>)
    requires CanRun(FRESH, labels)
    ensures Owned(Run(FRESH, labels).0)
  {
    FreshRefines();
    RunRefinesImmediate(FRESH, map[], labels);
  }

  /** Draining never gets stuck, so a waiting read-back or free always comes due. */
  lemma {:induction false} QueueDrains(s: System)
    ensures var waits := seq(|s.queue|, _ => Label.Device);
            CanRun(s, waits) && Run(s, waits) == (s.(mem := Drained(s.mem, s.queue), queue := []), [])
    decreases |s.queue|
  {
    var waits := seq(|s.queue|, _ => Label.Device);
    if s.queue != [] {
      var next := Step(s, Label.Device).value.0;
      QueueDrains(next);
      var rest := seq(|next.queue|, _ => Label.Device);
      assert waits[1..] == rest && waits[0] == Label.Device;
      assert [] + Run(next, rest).1 == Run(next, rest).1;
    }
  }

  // ----- finishing a dispatch -----

  /** `finish_output`: read back behind the kernel, or hand the buffer on and
      read it back whenever it is wanted; the device catches up in between. */
  function FinishOutput(b: nat, h: nat, shape: Shape, onDevice: bool, waits: seq<Label>): seq<Label> {
    if onDevice then [Handoff(b, h, shape)] + waits + [ReadBack(OfHandle(h))] else waits + [ReadBack(OfBorrow(b))]
  }

  lemma {:induction false} WaitsAreInvisible(vals: Values, waits: seq<Label>, rest: seq<Label>)
    requires forall k :: 0 <= k < |waits| ==> waits[k].Device?
    ensures RunImmediately(vals, waits + rest) == RunImmediately(vals, rest)
    decreases |waits|
  {
    if waits == [] {
      assert waits + rest == rest;
    } else {
      WaitsAreInvisible(vals, waits[1..], rest);
      assert (waits + rest)[1..] == waits[1..] + rest;
    }
  }

  lemma FinishesWith(vals: Values, b: nat, h: nat, shape: Shape, onDevice: bool, waits: seq<Label>)
    requires OfBorrow(b) in vals
    requires forall k :: 0 <= k < |waits| ==> waits[k].Device?
    requires RunImmediately(vals, FinishOutput(b, h, shape, onDevice, waits)).Some?
    ensures RunImmediately(vals, FinishOutput(b, h, shape, onDevice, waits)).value.1 ==
            [if onDevice then Reshaped(vals[OfBorrow(b)], Product(shape)) else vals[OfBorrow(b)]]
  {
    var labels := FinishOutput(b, h, shape, onDevice, waits);
    var owner, start := OfBorrow(b), vals;
    var last: Label := ReadBack(OfBorrow(b));
    if onDevice {
      owner, last := OfHandle(h), ReadBack(OfHandle(h));
      start := (vals - {OfBorrow(b)})[OfHandle(h) := Reshaped(vals[OfBorrow(b)], Product(shape))];
      assert labels[1..] == waits + [last] && labels[0] == Handoff(b, h, shape);
    }
    WaitsAreInvisible(start, waits, [last]);
    assert [last][1..] == [] && RunImmediately(start, []) == Some((start, []));
    assert Immediate(start, last) == Some((start, [start[owner]]));
    assert RunImmediately(start, [last]) == Some((start, [start[owner]] + []));
  }

  /** Where a result is left never changes it: read back at once or left on the
      device under any shape the buffer admits, every written element that the
      shape covers comes back as immediate execution computed it. */
  lemma PlacementIsInvisible(s: System, vals: Values, b: nat, h: nat, shape: Shape, onDevice: bool, waits: seq<Label>)
    requires Refines(s, vals) && OfBorrow(b) in vals
    requires forall k :: 0 <= k < |waits| ==> waits[k].Device?
    requires CanRun(s, FinishOutput(b, h, shape, onDevice, waits))
    ensures var seen, v := Run(s, FinishOutput(b, h, shape, onDevice, waits)).1, vals[OfBorrow(b)];
            && |seen| == 1
            && |seen[0]| == (if onDevice then Product(shape) else |v|)
            && forall i :: 0 <= i < |seen[0]| && i < |v| && v[i].Some? ==> seen[0][i] == v[i].value
  {
    hide Refines, Run, CanRun, FinishOutput;
    RunRefinesImmediate(s, vals, FinishOutput(b, h, shape, onDevice, waits));
    FinishesWith(vals, b, h, shape, onDevice, waits);
  }
}
