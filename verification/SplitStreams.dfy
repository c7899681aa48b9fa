/** Why recycling needs one queue: `recycle_activation` is not gated on it, and
    with a second stream a kernel still queued there can read the next
    borrower's numbers. */
module SplitStreams {
  import opened Wrappers
  import opened Shapes
  import opened DevicePool
  import opened DeviceQueue
  import opened QueueRefinement

  /** `merged` is an order in which a device may execute two queues. */
  ghost predicate Merges(a: seq<Command>, b: seq<Command>, merged: seq<Command>)
    decreases |merged|
  {
    if merged == [] then a == [] && b == []
    else
      || (a != [] && merged[0] == a[0] && Merges(a[1..], b, merged[1..]))
      || (b != [] && merged[0] == b[0] && Merges(a, b[1..], merged[1..]))
  }

  /** A kernel that hands on its operand's elements. */
  function Forward(operands: seq<seq<real>>, i: int): Option<real> {
    if 0 < |operands| && 0 <= i < |operands[0]| then Some(operands[0][i]) else None
  }

  /** A resident activation of one element, 1.0, and an output borrow for the
      kernel that reads it. */
  function OneActivation(): System {
    System(map[0 := seq(256, _ => 1.0), 1 := seq(256, _ => 0.0)], [], [],
           map[1 := Borrow(Buffer(1, 256), 1, false)], map[0 := Handle(Buffer(0, 256), 1, [1])])
  }

  /** From an empty context: a value uploaded, left on the device, and an output
      borrowed for the kernel that will read it. */
  function LeaveOneActivation(): (labels: seq<Label>)
    ensures |labels| == 5
  {
    [Acquire(0, 1, 0, seq(256, _ => 1.0)), Upload(0, [1.0]), Device, Handoff(0, 0, [1]),
     Acquire(1, 1, 1, seq(256, _ => 0.0))]
  }

  /** The kernel is queued, its operand recycled, reacquired and overwritten. */
  function RecycleAtOnce(): seq<Label> {
    [Dispatch(Forward, [OfHandle(0)], 1), Recycle(0), Acquire(2, 1, 2, []), Upload(2, [2.0])]
  }

  function Kernel(): Command { Launch(Forward, [View(0, 1)], 1, 1) }

  function NextUpload(): Command { Write(0, [2.0]) }

  lemma Doubling(n: nat)
    requires 0 < n && NextPowerOfTwo(n) == n
    ensures NextPowerOfTwo(2 * n) == 2 * n
  {
    hide PowerOfTwo;
    assert (2 * n + 1) / 2 == n;
  }

  lemma SmallestClass()
    ensures SizeClass(1) == 256
  {
    assert NextPowerOfTwo(1) == 1;
    hide NextPowerOfTwo;
    Doubling(1); Doubling(2); Doubling(4); Doubling(8); Doubling(16); Doubling(32); Doubling(64); Doubling(128);
  }

  function Ones(): seq<real> { seq(256, _ => 1.0) }

  /** The first buffer, lent out and uploaded to. */
  function Lent(queue: seq<Command>, inFlight: bool): System {
    System(map[0 := Ones()], queue, [], map[0 := Borrow(Buffer(0, 256), 1, inFlight)], map[])
  }

  /** The same buffer as a resident activation. */
  function HandedOn(): System {
    System(map[0 := Ones()], [], [], map[], map[0 := Handle(Buffer(0, 256), 1, [1])])
  }

  lemma LentAndUploaded()
    ensures var ls := LeaveOneActivation();
            && Step(FRESH, ls[0]) == Some((Lent([], false), []))
            && Step(Lent([], false), ls[1]) == Some((Lent([Write(0, [1.0])], true), []))
            && Step(Lent([Write(0, [1.0])], true), ls[2]) == Some((Lent([], true), []))
  {
    SmallestClass();
    hide SizeClass, PowerOfTwo;
    assert Lent([], false).borrows[0 := Borrow(Buffer(0, 256), 1, true)] == Lent([], true).borrows;
    assert [] + [Write(0, [1.0])] == [Write(0, [1.0])] && [Write(0, [1.0])][1..] == [];
    assert Overlay(Ones(), All([1.0])) == Ones();
    assert Overwrite(map[0 := Ones()], 0, All([1.0])) == map[0 := Ones()];
  }

  lemma HandedOnAndBorrowed()
    ensures var ls := LeaveOneActivation();
            && Step(Lent([], true), ls[3]) == Some((HandedOn(), []))
            && Step(HandedOn(), ls[4]) == Some((OneActivation(), []))
  {
    SmallestClass();
    OneElement();
    hide SizeClass, PowerOfTwo;
    assert Lent([], true).borrows - {0} == map[];
    assert map[0 := Ones()][1 := seq(256, _ => 0.0)] == OneActivation().mem;
  }

  /** The state is one a host gets to. */
  lemma OneActivationIsReached()
    ensures CanRun(FRESH, LeaveOneActivation())
    ensures Run(FRESH, LeaveOneActivation()) == (OneActivation(), [])
  {
    hide *;
    var ls := LeaveOneActivation();
    LentAndUploaded();
    HandedOnAndBorrowed();
    NothingToRun(OneActivation());
    RunStep(HandedOn(), ls[4], [], OneActivation());
    RunStep(Lent([], true), ls[3], [ls[4]] + [], HandedOn());
    RunStep(Lent([Write(0, [1.0])], true), ls[2], [ls[3]] + ([ls[4]] + []), Lent([], true));
    RunStep(Lent([], false), ls[1], [ls[2]] + ([ls[3]] + ([ls[4]] + [])), Lent([Write(0, [1.0])], true));
    RunStep(FRESH, ls[0], [ls[1]] + ([ls[2]] + ([ls[3]] + ([ls[4]] + []))), Lent([], false));
    assert ls == [ls[0]] + ([ls[1]] + ([ls[2]] + ([ls[3]] + ([ls[4]] + []))));
  }

  lemma NothingToRun(s: System)
    ensures CanRun(s, []) && Run(s, []) == (s, [])
  {
  }

  /** A first step that reads nothing back. */
  lemma RunStep(s: System, l: Label, rest: seq<Label>, next: System)
    requires Step(s, l) == Some((next, [])) && CanRun(next, rest)
    ensures CanRun(s, [l] + rest) && Run(s, [l] + rest) == Run(next, rest)
  {
    hide Step;
    assert ([l] + rest)[1..] == rest;
    assert [] + Run(next, rest).1 == Run(next, rest).1;
  }

  lemma OneElement()
    ensures Product([1]) == 1
  {
    assert [1][1..] == [];
  }

  /** What the host has queued when it is done. */
  lemma HostQueues()
    ensures CanRun(OneActivation(), RecycleAtOnce())
    ensures Run(OneActivation(), RecycleAtOnce()).0.queue == [Kernel(), NextUpload()]
    ensures Run(OneActivation(), RecycleAtOnce()).0.mem == OneActivation().mem
  {
    var s0, ls := OneActivation(), RecycleAtOnce();
    SmallestClass();
    hide SizeClass, PowerOfTwo;
    var s1 := s0.(queue := [Kernel()]);
    assert Step(s0, ls[0]) == Some((s1, [])) by {
      assert ViewOf(s0, OfHandle(0)) == Some(View(0, 1));
      var srcs := [OfHandle(0)];
      var views := seq(1, k requires 0 <= k < 1 && ViewOf(s0, srcs[k]).Some? => ViewOf(s0, srcs[k]).value);
      assert views == [View(0, 1)] && [] + [Kernel()] == [Kernel()];
    }
    var s2 := s1.(free := [Buffer(0, 256)], handles := map[]);
    assert Step(s1, ls[1]) == Some((s2, [])) by {
      assert [] + [Buffer(0, 256)] == [Buffer(0, 256)];
      assert IdleBytes([]) == 0 && InClass([], 256) == 0;
    }
    var s3 := s2.(free := [], borrows := s2.borrows[2 := Borrow(Buffer(0, 256), 1, false)]);
    assert Step(s2, ls[2]) == Some((s3, [])) by {
      assert Newest(s2.free, 256) == Some(0) && Without(s2.free, 0) == [];
    }
    var s4 := s3.(queue := [Kernel(), NextUpload()], borrows := s3.borrows[2 := Borrow(Buffer(0, 256), 1, true)]);
    assert Step(s3, ls[3]) == Some((s4, [])) by {
      assert [Kernel()] + [NextUpload()] == [Kernel(), NextUpload()];
    }
    hide Step;
    assert ls[1..] == [ls[1], ls[2], ls[3]] && ls[1..][1..] == [ls[2], ls[3]];
    assert ls[1..][1..][1..] == [ls[3]] && ls[1..][1..][1..][1..] == [];
  }

  /** Both orders are open to a device with the kernel on one stream and the
      upload on the other; the kernel's result, read back, is the activation's
      number in one and the next borrower's in the other. */
  lemma UngatedRecycleRaces()
    ensures CanRun(OneActivation(), RecycleAtOnce())
    ensures var s := Run(OneActivation(), RecycleAtOnce()).0;
            var kernelFirst, uploadFirst := [Kernel(), NextUpload()], [NextUpload(), Kernel()];
            && s.queue == kernelFirst
            && Merges([Kernel()], [NextUpload()], kernelFirst) && Merges([Kernel()], [NextUpload()], uploadFirst)
            && Contents(Drained(s.mem, kernelFirst), View(1, 1)) == [1.0]
            && Contents(Drained(s.mem, uploadFirst), View(1, 1)) == [2.0]
  {
    HostQueues();
    BothMerge();
    BothDrain(OneActivation().mem);
  }

  lemma BothMerge()
    ensures Merges([Kernel()], [NextUpload()], [Kernel(), NextUpload()])
    ensures Merges([Kernel()], [NextUpload()], [NextUpload(), Kernel()])
  {
    var k, u := Kernel(), NextUpload();
    assert [k][1..] == [] && [u][1..] == [] && [k, u][1..] == [u] && [u, k][1..] == [k];
    assert Merges([], [], []);
    assert Merges([], [u], [u]) && Merges([k], [], [k]);
  }

  /** The kernel hands on the one number its operand holds now. */
  lemma KernelForwards(mem: Memory, x: real)
    requires Contents(mem, View(0, 1)) == [x] && 1 in mem && 1 <= |mem[1]|
    ensures Contents(Execute(mem, Kernel()), View(1, 1)) == [x]
  {
    assert AllContents(mem, [View(0, 1)]) == [[x]];
    assert Forward([[x]], 0) == Some(x);
    assert Output(Forward, [[x]], 1) == [Forward([[x]], 0)];
  }

  lemma BothDrain(mem: Memory)
    requires mem == OneActivation().mem
    ensures Contents(Drained(mem, [Kernel(), NextUpload()]), View(1, 1)) == [1.0]
    ensures Contents(Drained(mem, [NextUpload(), Kernel()]), View(1, 1)) == [2.0]
  {
    var k, u := Kernel(), NextUpload();
    assert [k, u][1..] == [u] && [u, k][1..] == [k] && [k][1..] == [] && [u][1..] == [];
    assert Contents(mem, View(0, 1)) == [1.0];
    KernelForwards(mem, 1.0);
    assert Contents(Execute(mem, u), View(0, 1)) == [2.0];
    KernelForwards(Execute(mem, u), 2.0);
  }
}
