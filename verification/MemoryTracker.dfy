/** The lock-free peak tracker under arbitrary interleaving. Each step below is
    one atomic access of one thread. All accesses are `Relaxed`, so a load of
    the peak may be stale: it returns some value of the peak's modification
    order, not older than what the same thread has already seen. */
module MemoryTracker {

  /** Where a thread stands inside `record_alloc`; `seen` is the position in the
      modification order its local `peak` was read from. */
  datatype Thread =
    | Idle
    | Added(total: nat)              // after fetch_add, before the first load
    | Looping(total: nat, seen: nat) // at the head of the CAS loop
    | Leaving                        // past the loop, before counting the allocation

  /** `peaks` is the modification order of the peak: its last entry is the
      current value. `totals`, every post-allocation total so far, is kept for the
      specification only. */
  datatype Tracker = Tracker(current: nat, peaks: seq<nat>, count: nat, threads: map<nat, Thread>, totals: seq<nat>)

  datatype Step =
    | FetchAdd(t: nat, bytes: nat)
    | Load(t: nat, at: nat)     // reads peaks[at]
    | CasOk(t: nat)
    | CasFail(t: nat, at: nat)  // reads peaks[at]; spurious when at is the position expected
    | Exit(t: nat)              // the loop condition fails
    | CountAlloc(t: nat)
    | Dealloc(bytes: nat)

  const START := Tracker(0, [0], 0, map[], [])

  function ThreadOf(s: Tracker, t: nat): Thread {
    if t in s.threads then s.threads[t] else Idle
  }

  function Peak(s: Tracker): nat
    requires s.peaks != []
  {
    s.peaks[|s.peaks| - 1]
  }

  predicate Enabled(s: Tracker, step: Step) {
    s.peaks != [] &&
    match step
    case FetchAdd(t, _) => ThreadOf(s, t).Idle?
    case Load(t, at) => ThreadOf(s, t).Added? && at < |s.peaks|
    case CasOk(t) =>
      var th := ThreadOf(s, t);
      th.Looping? && th.seen < |s.peaks| && s.peaks[th.seen] < th.total && s.peaks[th.seen] == Peak(s)
    case CasFail(t, at) =>
      var th := ThreadOf(s, t);
      th.Looping? && th.seen <= at < |s.peaks| && s.peaks[th.seen] < th.total
    case Exit(t) =>
      var th := ThreadOf(s, t);
      th.Looping? && th.seen < |s.peaks| && th.total <= s.peaks[th.seen]
    case CountAlloc(t) => ThreadOf(s, t).Leaving?
    case Dealloc(bytes) => bytes <= s.current // callers release what they recorded
  }

  /** Nothing the hardware may do is ruled out: a load may return any earlier
      peak, and an exchange may fail, reading any peak since the one it expected,
      even when the expected one is still current. */
  lemma StaleAndSpuriousAllowed(s: Tracker, t: nat, at: nat)
    requires at < |s.peaks|
    ensures ThreadOf(s, t).Added? ==> Enabled(s, Load(t, at))
    ensures var th := ThreadOf(s, t);
            th.Looping? && th.seen <= at && s.peaks[th.seen] < th.total ==>
              Enabled(s, CasFail(t, at)) && (Peak(s) == s.peaks[th.seen] ==> Enabled(s, CasOk(t)))
  {
  }

  function Apply(s: Tracker, step: Step): Tracker
    requires Enabled(s, step)
  {
    match step
    case FetchAdd(t, bytes) =>
      var total := s.current + bytes;
      s.(current := total, threads := s.threads[t := Added(total)], totals := s.totals + [total])
    case Load(t, at) => s.(threads := s.threads[t := Looping(ThreadOf(s, t).total, at)])
    case CasOk(t) =>
      s.(peaks := s.peaks + [ThreadOf(s, t).total], threads := s.threads[t := Leaving])
    case CasFail(t, at) => s.(threads := s.threads[t := Looping(ThreadOf(s, t).total, at)])
    case Exit(t) => s.(threads := s.threads[t := Leaving])
    case CountAlloc(t) => s.(count := s.count + 1, threads := s.threads[t := Idle])
    case Dealloc(bytes) => s.(current := s.current - bytes)
  }

  predicate CanRun(s: Tracker, steps: seq<Step>)
    decreases |steps|
  {
    steps == [] || (Enabled(s, steps[0]) && CanRun(Apply(s, steps[0]), steps[1..]))
  }

  function Run(s: Tracker, steps: seq<Step>): Tracker
    requires CanRun(s, steps)
    decreases |steps|
  {
    if steps == [] then s else Run(Apply(s, steps[0]), steps[1..])
  }

  // ----- what holds in every reachable state -----

  /** The largest post-allocation total, 0 before the first. */
  function Largest(totals: seq<nat>): nat {
    if totals == [] then 0
    else
      var rest := Largest(totals[..|totals| - 1]);
      if rest < totals[|totals| - 1] then totals[|totals| - 1] else rest
  }

  lemma {:induction false} LargestIsMaximum(totals: seq<nat>)
    ensures forall k :: 0 <= k < |totals| ==> totals[k] <= Largest(totals)
    ensures totals != [] ==> Largest(totals) in totals
  {
    if totals != [] {
      LargestIsMaximum(totals[..|totals| - 1]);
      assert totals == totals[..|totals| - 1] + [totals[|totals| - 1]];
    }
  }

  ghost predicate InLoop(th: Thread) { th.Added? || th.Looping? }

  /** Each total is already covered by the peak, or a thread still in its loop carries it. */
  ghost predicate Inv(s: Tracker) {
    && s.peaks != []
    && (forall a, b :: 0 <= a < b < |s.peaks| ==> s.peaks[a] < s.peaks[b])
    && Peak(s) <= Largest(s.totals)
    && (forall t :: t in s.threads && InLoop(s.threads[t]) ==> s.threads[t].total <= Largest(s.totals))
    && (forall t :: t in s.threads && s.threads[t].Looping? ==> s.threads[t].seen < |s.peaks|)
    && (Peak(s) == Largest(s.totals) ||
        exists t :: t in s.threads && InLoop(s.threads[t]) && s.threads[t].total == Largest(s.totals))
  }

  lemma FetchAddKeepsInv(s: Tracker, t: nat, bytes: nat)
    requires Inv(s) && Enabled(s, FetchAdd(t, bytes))
    ensures Inv(Apply(s, FetchAdd(t, bytes)))
    ensures Largest(s.totals) <= Largest(Apply(s, FetchAdd(t, bytes)).totals)
  {
    var s' := Apply(s, FetchAdd(t, bytes));
    assert s'.totals[..|s.totals|] == s.totals;
    assert s'.threads[t].total == s'.totals[|s.totals|];
    if Largest(s'.totals) == Largest(s.totals) && Peak(s) != Largest(s.totals) {
      var u :| u in s.threads && InLoop(s.threads[u]) && s.threads[u].total == Largest(s.totals);
      assert u in s'.threads && InLoop(s'.threads[u]) && s'.threads[u].total == Largest(s'.totals);
    }
  }

  lemma CasOkKeepsInv(s: Tracker, t: nat)
    requires Inv(s) && Enabled(s, CasOk(t))
    ensures Inv(Apply(s, CasOk(t)))
    ensures Peak(s) < Peak(Apply(s, CasOk(t)))
  {
    var s' := Apply(s, CasOk(t));
    if ThreadOf(s, t).total != Largest(s.totals) {
      var u :| u in s.threads && InLoop(s.threads[u]) && s.threads[u].total == Largest(s.totals);
      assert u in s'.threads && s'.threads[u] == s.threads[u];
    }
  }

  lemma StepKeepsInv(s: Tracker, step: Step)
    requires Inv(s) && Enabled(s, step)
    ensures Inv(Apply(s, step))
    ensures Peak(s) <= Peak(Apply(s, step))
    ensures Largest(s.totals) <= Largest(Apply(s, step).totals)
  {
    var s' := Apply(s, step);
    match step {
      case FetchAdd(t, bytes) => FetchAddKeepsInv(s, t, bytes);
      case CasOk(t) => CasOkKeepsInv(s, t);
      case Dealloc(bytes) =>
      case _ => CarriedOn(s, s', step.t);
    }
  }

  /** A step of `t` that neither moves the peak nor drops an uncovered total
      leaves the carrier of the largest total in place. */
  lemma CarriedOn(s: Tracker, s': Tracker, t: nat)
    requires Inv(s) && s'.totals == s.totals && s'.peaks == s.peaks
    requires t in s'.threads && s'.threads == s.threads[t := s'.threads[t]]
    requires InLoop(ThreadOf(s, t)) ==>
             ThreadOf(s, t).total <= Peak(s) || (InLoop(s'.threads[t]) && s'.threads[t].total == ThreadOf(s, t).total)
    ensures Peak(s') == Largest(s'.totals) ||
            exists u :: u in s'.threads && InLoop(s'.threads[u]) && s'.threads[u].total == Largest(s'.totals)
  {
    if Peak(s) != Largest(s.totals) {
      var u :| u in s.threads && InLoop(s.threads[u]) && s.threads[u].total == Largest(s.totals);
      assert u in s'.threads && InLoop(s'.threads[u]) && s'.threads[u].total == Largest(s'.totals);
    }
  }

  /** Over every run: the peak only grows and never passes the largest total
      reached; when no `record_alloc` is in its loop it equals that total. */
  lemma {:induction false} PeakIsCorrect(s: Tracker, steps: seq<Step>)
    requires Inv(s) && CanRun(s, steps)
    ensures var s' := Run(s, steps);
            && Inv(s')
            && Peak(s) <= Peak(s') <= Largest(s'.totals)
            && ((forall t :: t in s'.threads ==> !InLoop(s'.threads[t])) ==> Peak(s') == Largest(s'.totals))
    decreases |steps|
  {
    if steps != [] {
      StepKeepsInv(s, steps[0]);
      PeakIsCorrect(Apply(s, steps[0]), steps[1..]);
    }
  }

  // ----- the books balance -----

  /** Bytes recorded less bytes released. */
  function Net(steps: seq<Step>): int {
    if steps == [] then 0
    else
      Net(steps[1..]) +
      match steps[0]
      case FetchAdd(_, bytes) => bytes
      case Dealloc(bytes) => 0 - bytes
      case _ => 0
  }

  /** The balance after each recording, from `current` on. */
  function Balances(current: int, steps: seq<Step>): seq<int>
    decreases |steps|
  {
    if steps == [] then []
    else if steps[0].FetchAdd? then
      [current + steps[0].bytes] + Balances(current + steps[0].bytes, steps[1..])
    else Balances(if steps[0].Dealloc? then current - steps[0].bytes else current, steps[1..])
  }

  /** After any interleaving the current total is what was recorded less what was
      released, and the totals are the balances after each recording. */
  lemma {:induction false} BooksBalance(s: Tracker, steps: seq<Step>)
    requires CanRun(s, steps)
    ensures Run(s, steps).current == s.current + Net(steps)
    ensures Run(s, steps).totals == s.totals + Balances(s.current, steps)
    decreases |steps|
  {
    if steps != [] {
      var s' := Apply(s, steps[0]);
      BooksBalance(s', steps[1..]);
      var later := Balances(s'.current, steps[1..]);
      if steps[0].FetchAdd? { assert s.totals + ([s'.current] + later) == s'.totals + later; }
    }
  }

  function InFlight(s: Tracker): set<nat> { set t | t in s.threads && !s.threads[t].Idle? }

  /** Over every run the allocation count trails the calls begun by exactly the
      calls still in flight. */
  lemma {:induction false} CountTrailsInFlight(s: Tracker, steps: seq<Step>)
    requires CanRun(s, steps) && s.count + |InFlight(s)| == |s.totals|
    ensures var s' := Run(s, steps); s'.count + |InFlight(s')| == |s'.totals|
    decreases |steps|
  {
    if steps != [] {
      var s' := Apply(s, steps[0]);
      assert s'.count + |InFlight(s')| == |s'.totals| by {
        match steps[0] {
          case FetchAdd(t, _) => assert InFlight(s') == InFlight(s) + {t};
          case CountAlloc(t) => assert InFlight(s') == InFlight(s) - {t};
          case _ => assert InFlight(s') == InFlight(s);
        }
      }
      CountTrailsInFlight(s', steps[1..]);
    }
  }

  /** A fresh tracker, after any interleaving: the peak is some total reached and
      the largest once nobody is inside the loop, and the count is the number of
      calls less those in flight. */
  lemma FromStart(steps: seq<Step>)
    requires CanRun(START, steps)
    ensures var s := Run(START, steps);
            && s.peaks != [] && Peak(s) <= Largest(s.totals)
            && ((forall t :: t in s.threads ==> !InLoop(s.threads[t])) ==> Peak(s) == Largest(s.totals))
            && s.count + |InFlight(s)| == |s.totals|
  {
    PeakIsCorrect(START, steps);
    assert InFlight(START) == {};
    CountTrailsInFlight(START, steps);
  }

  // ----- progress of the loop -----

  /** A failure is genuine when the value read differs from the one expected. */
  predicate Genuine(s: Tracker, step: Step)
    requires Enabled(s, step) && step.CasFail?
  {
    s.peaks[step.at] != s.peaks[ThreadOf(s, step.t).seen]
  }

  /** What a thread in its loop still has to gain. */
  function Gap(s: Tracker, t: nat): int
    requires ThreadOf(s, t).Looping? && ThreadOf(s, t).seen < |s.peaks|
  {
    ThreadOf(s, t).total - s.peaks[ThreadOf(s, t).seen]
  }

  /** Each genuine failure strictly narrows the gap; a spurious one keeps it. */
  lemma GenuineFailureNarrowsGap(s: Tracker, step: Step)
    requires Inv(s) && step.CasFail? && Enabled(s, step)
    ensures var s' := Apply(s, step);
            && 0 < Gap(s, step.t)
            && (Genuine(s, step) ==> Gap(s', step.t) < Gap(s, step.t))
            && (!Genuine(s, step) ==> Gap(s', step.t) == Gap(s, step.t))
  {
  }

  /** Genuine failures of thread `t` along a run. */
  function GenuineFailures(s: Tracker, steps: seq<Step>, t: nat): nat
    requires CanRun(s, steps)
    decreases |steps|
  {
    if steps == [] then 0
    else
      GenuineFailures(Apply(s, steps[0]), steps[1..], t) +
      if steps[0].CasFail? && steps[0].t == t && Genuine(s, steps[0]) then 1 else 0
  }

  /** While `t` stays in one loop it fails genuinely at most as often as its
      total exceeded the peak it first read, whatever the others do. */
  lemma {:induction false} GenuineFailuresAreBounded(s: Tracker, steps: seq<Step>, t: nat)
    requires Inv(s) && CanRun(s, steps) && ThreadOf(s, t).Looping?
    requires forall k :: 0 <= k < |steps| ==> steps[k] != CasOk(t) && steps[k] != Exit(t)
    ensures ThreadOf(Run(s, steps), t).Looping?
    ensures 0 < Gap(s, t) ==> GenuineFailures(s, steps, t) <= Gap(s, t)
    ensures Gap(s, t) <= 0 ==> GenuineFailures(s, steps, t) == 0
    decreases |steps|
  {
    if steps != [] {
      var s' := Apply(s, steps[0]);
      StepKeepsInv(s, steps[0]);
      if steps[0].CasFail? && steps[0].t == t {
        GenuineFailureNarrowsGap(s, steps[0]);
      } else {
        assert ThreadOf(s', t) == ThreadOf(s, t);
      }
      GenuineFailuresAreBounded(s', steps[1..], t);
    }
  }

  // ----- one thread alone -----

  const WORD: nat := 0x1_0000_0000_0000_0000

  /** `usize` on a 64-bit target; atomic arithmetic wraps. */
  type Usize = x: nat | x < WORD

  /** The shared counters, driven by a single thread. */
  class Counters {
    var current: Usize
    var peak: Usize
    var count: Usize

    constructor ()
      ensures current == peak == count == 0
    {
      current, peak, count := 0, 0, 0;
    }

    /** The weak exchange: it may fail although the value is the expected one. */
    method CompareExchangeWeak(expected: Usize, value: Usize, spurious: bool) returns (ok: bool, actual: Usize)
      modifies this`peak
      ensures ok <==> old(peak) == expected && !spurious
      ensures actual == old(peak)
      ensures peak == if ok then value else old(peak)
    {
      actual := peak;
      ok := peak == expected && !spurious;
      if ok {
        peak := value;
      }
    }

    /** `spurious` is how often the hardware will make the exchange fail for no reason. */
    method RecordAlloc(bytes: Usize, spurious: nat)
      modifies this
      ensures current == (old(current) + bytes) % WORD && count == (old(count) + 1) % WORD
      ensures peak == if old(peak) < current then current else old(peak)
    {
      var newTotal: Usize := (current + bytes) % WORD;
      current := newTotal;
      var seen, settled, left := peak, false, spurious;
      while seen < newTotal && !settled
        invariant current == newTotal == (old(current) + bytes) % WORD && count == old(count)
        invariant !settled ==> seen == peak == old(peak)
        invariant settled ==> old(peak) < newTotal == peak
        decreases !settled, left
      {
        var actual: Usize;
        settled, actual := CompareExchangeWeak(seen, newTotal, 0 < left);
        seen := actual;
        left := if 0 < left then left - 1 else 0;
      }
      count := (count + 1) % WORD;
    }

    method RecordDealloc(bytes: Usize)
      modifies this`current
      ensures current == if bytes <= old(current) then old(current) - bytes else WORD - (bytes - old(current))
    {
      current := (current + WORD - bytes) % WORD;
    }
  }

  lemma RunCons(s: Tracker, step: Step, rest: seq<Step>)
    requires Enabled(s, step) && CanRun(Apply(s, step), rest)
    ensures CanRun(s, [step] + rest) && Run(s, [step] + rest) == Run(Apply(s, step), rest)
  {
    assert ([step] + rest)[1..] == rest;
  }

  /** Spurious failures leave everything as it is. */
  lemma {:induction false} SpuriousStutter(s: Tracker, t: nat, m: nat, rest: seq<Step>)
    requires Inv(s) && t in s.threads && s.threads[t].Looping? && s.peaks[s.threads[t].seen] < s.threads[t].total
    requires CanRun(s, rest)
    ensures var fails := seq(m, _ => CasFail(t, s.threads[t].seen));
            CanRun(s, fails + rest) && Run(s, fails + rest) == Run(s, rest)
  {
    var fail := CasFail(t, s.threads[t].seen);
    var fails := seq(m, _ => fail);
    if m == 0 {
      assert fails + rest == rest;
    } else {
      SpuriousStutter(s, t, m - 1, rest);
      var fewer := seq(m - 1, _ => fail);
      assert Apply(s, fail) == s;
      RunCons(s, fail, fewer + rest);
      assert fails + rest == [fail] + (fewer + rest);
    }
  }

  /** A lone thread's steps from the head of the loop on. */
  function LoopSteps(t: nat, last: nat, raises: bool, spurious: nat): seq<Step> {
    if raises then seq(spurious, _ => CasFail(t, last)) + ([CasOk(t)] + [CountAlloc(t)])
    else [Exit(t)] + [CountAlloc(t)]
  }

  lemma LoneLoop(s: Tracker, t: nat, spurious: nat)
    requires Inv(s) && t in s.threads && s.threads[t].Looping? && s.threads[t].seen == |s.peaks| - 1
    ensures var total := s.threads[t].total;
            var steps := LoopSteps(t, |s.peaks| - 1, Peak(s) < total, spurious);
            CanRun(s, steps) &&
            var s' := Run(s, steps);
            && s'.current == s.current && s'.count == s.count + 1
            && s'.peaks != [] && Peak(s') == if Peak(s) < total then total else Peak(s)
  {
    var raises := Peak(s) < s.threads[t].total;
    var middle := if raises then CasOk(t) else Exit(t);
    assert [CountAlloc(t)] + [] == [CountAlloc(t)];
    RunCons(Apply(s, middle), CountAlloc(t), []);
    RunCons(s, middle, [CountAlloc(t)]);
    if raises { SpuriousStutter(s, t, spurious, [middle] + [CountAlloc(t)]); }
  }

  /** The uninterrupted call is one of the runs above: the atomic steps of a
      lone thread, with any number of spurious failures, do what `RecordAlloc` does. */
  lemma LoneCall(s: Tracker, t: nat, bytes: nat, spurious: nat)
    requires Inv(s) && ThreadOf(s, t).Idle?
    ensures var total, last := s.current + bytes, |s.peaks| - 1;
            var steps := [FetchAdd(t, bytes)] + ([Load(t, last)] + LoopSteps(t, last, Peak(s) < total, spurious));
            CanRun(s, steps) &&
            var s' := Run(s, steps);
            && s'.current == total && s'.count == s.count + 1
            && s'.peaks != [] && Peak(s') == if Peak(s) < total then total else Peak(s)
  {
    var total, last := s.current + bytes, |s.peaks| - 1;
    EnterLoop(s, t, bytes);
    var s1 := Apply(s, FetchAdd(t, bytes));
    var s2 := Apply(s1, Load(t, last));
    LoneLoop(s2, t, spurious);
    var loop := LoopSteps(t, last, Peak(s) < total, spurious);
    hide *;
    RunCons(s1, Load(t, last), loop);
    RunCons(s, FetchAdd(t, bytes), [Load(t, last)] + loop);
  }

  /** The addition and the first load of a thread that reads the current peak. */
  lemma EnterLoop(s: Tracker, t: nat, bytes: nat)
    requires Inv(s) && ThreadOf(s, t).Idle?
    ensures s.peaks != [] && Enabled(s, FetchAdd(t, bytes))
    ensures var s1 := Apply(s, FetchAdd(t, bytes));
            Enabled(s1, Load(t, |s.peaks| - 1)) &&
            var s2 := Apply(s1, Load(t, |s.peaks| - 1));
            && Inv(s2) && s2.peaks == s.peaks && s2.count == s.count && s2.current == s.current + bytes
            && t in s2.threads && s2.threads[t] == Looping(s.current + bytes, |s.peaks| - 1)
  {
    StepKeepsInv(s, FetchAdd(t, bytes));
    StepKeepsInv(Apply(s, FetchAdd(t, bytes)), Load(t, |s.peaks| - 1));
    assert s.peaks != [];
    hide Inv, Largest;
  }
}
