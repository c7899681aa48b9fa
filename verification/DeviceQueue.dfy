/** Device-resident activations on one in-order queue: the host enqueues work,
    hands buffers on and recycles them while kernels are still pending; the
    device executes the queue later, one command at a time. */
module DeviceQueue {
  import opened Wrappers
  import opened Shapes
  import opened DevicePool

  type Memory = map<nat, seq<real>>

  /** A logical operand: an allocation and the element count that is its own;
      the tail beyond `len` holds a previous borrower's numbers. */
  datatype View = View(id: nat, len: nat)

  /** A kernel gives its `i`-th output element from the contents of its operands,
      or leaves the element alone. */
  type KernelFn = (seq<seq<real>>, int) -> Option<real>

  datatype Command =
    | Write(dst: nat, data: seq<real>)
    | Launch(f: KernelFn, srcs: seq<View>, dst: nat, len: nat)

  // ----- the device -----

  function Contents(mem: Memory, v: View): seq<real> {
    if v.id in mem && v.len <= |mem[v.id]| then mem[v.id][..v.len] else []
  }

  /** `was` with the elements of `out` that are there written over its front. */
  function Overlay(was: seq<real>, out: seq<Option<real>>): seq<real> {
    seq(|was|, i requires 0 <= i < |was| => if i < |out| && out[i].Some? then out[i].value else was[i])
  }

  function Overwrite(mem: Memory, dst: nat, out: seq<Option<real>>): Memory {
    if dst in mem then mem[dst := Overlay(mem[dst], out)] else mem
  }

  function All(data: seq<real>): seq<Option<real>> {
    seq(|data|, i requires 0 <= i < |data| => Some(data[i]))
  }

  function Output(f: KernelFn, operands: seq<seq<real>>, len: nat): seq<Option<real>> {
    seq(len, i => f(operands, i))
  }

  function AllContents(mem: Memory, vs: seq<View>): seq<seq<real>> {
    seq(|vs|, k requires 0 <= k < |vs| => Contents(mem, vs[k]))
  }

  function Execute(mem: Memory, c: Command): Memory {
    match c
    case Write(dst, data) => Overwrite(mem, dst, All(data))
    case Launch(f, srcs, dst, len) => Overwrite(mem, dst, Output(f, AllContents(mem, srcs), len))
  }

  /** What memory will hold once the queue has drained. */
  function Drained(mem: Memory, queue: seq<Command>): Memory
    decreases |queue|
  {
    if queue == [] then mem else Drained(Execute(mem, queue[0]), queue[1..])
  }

  predicate Mentions(c: Command, id: nat) {
    c.dst == id || (c.Launch? && exists k :: 0 <= k < |c.srcs| && c.srcs[k].id == id)
  }

  predicate Pending(queue: seq<Command>, id: nat) {
    exists k :: 0 <= k < |queue| && Mentions(queue[k], id)
  }

  // ----- the host -----

  /** A buffer lent to one dispatch. */
  datatype Borrow = Borrow(buffer: Buffer, len: nat, inFlight: bool)

  /** One handle to a resident activation; several may share an allocation. */
  datatype Handle = Handle(buffer: Buffer, len: nat, shape: Shape)

  datatype Owner = OfBorrow(b: nat) | OfHandle(h: nat)

  datatype System = System(
    mem: Memory,
    queue: seq<Command>,
    free: seq<Buffer>,
    borrows: map<nat, Borrow>,
    handles: map<nat, Handle>)

  datatype Label =
    | Device                                                  // the device executes the front command
    | Acquire(b: nat, len: nat, freshId: nat, garbage: seq<real>)
    | Upload(b: nat, data: seq<real>)
    | ZeroFill(b: nat)
    | Dispatch(f: KernelFn, srcs: seq<Owner>, dst: nat)
    | Retire(b: nat)
    | DropBorrow(b: nat)
    | Handoff(b: nat, h: nat, shape: Shape)                   // into_owned, then from_owned
    | HandoffRefused(b: nat, shape: Shape)                    // the same, with the shape error
    | Alias(h: nat, h': nat, shape: Shape)
    | Share(h: nat, h': nat)
    | Recycle(h: nat)                                         // recycle_activation
    | DropHandle(h: nat)                                      // a share going out of scope
    | ReadBack(owner: Owner)                                  // copy out and fence

  function ViewOf(s: System, o: Owner): Option<View> {
    match o
    case OfBorrow(b) => if b in s.borrows then Some(View(s.borrows[b].buffer.id, s.borrows[b].len)) else None
    case OfHandle(h) => if h in s.handles then Some(View(s.handles[h].buffer.id, s.handles[h].len)) else None
  }

  /** No other handle refers to the allocation (`Arc::try_unwrap` succeeds). */
  predicate Unique(s: System, h: nat)
    requires h in s.handles
  {
    forall h' :: h' in s.handles && h' != h ==> s.handles[h'].buffer.id != s.handles[h].buffer.id
  }

  /** Freeing blocks until no queued command refers to the allocation. */
  function Freed(s: System, buffer: Buffer): Option<System> {
    if Pending(s.queue, buffer.id) then None else Some(s.(mem := s.mem - {buffer.id}))
  }

  /** Back to the pool, without any fence; freed when the pool is full. */
  function Released(s: System, buffer: Buffer): Option<System> {
    if Keeps(s.free, buffer) then Some(s.(free := s.free + [buffer])) else Freed(s, buffer)
  }

  function Enqueue(s: System, c: Command): System { s.(queue := s.queue + [c]) }

  /** One step, with the numbers a read-back returns; `None` when not possible
      now (a read-back or a free waiting for the queue) or not what a host does. */
  function Step(s: System, l: Label): Option<(System, seq<seq<real>>)> {
    match l
    case Device =>
      if s.queue == [] then None else Some((s.(mem := Execute(s.mem, s.queue[0]), queue := s.queue[1..]), []))
    case Acquire(b, len, freshId, garbage) =>
      if b in s.borrows then None
      else
        var k := Newest(s.free, SizeClass(len));
        if k.Some? then
          Some((s.(free := Without(s.free, k.value),
                   borrows := s.borrows[b := Borrow(s.free[k.value], len, false)]), []))
        else if freshId in s.mem || |garbage| != SizeClass(len) then None
        else
          Some((s.(mem := s.mem[freshId := garbage],
                   borrows := s.borrows[b := Borrow(Buffer(freshId, SizeClass(len)), len, false)]), []))
    case Upload(b, data) =>
      if b !in s.borrows || s.borrows[b].len < |data| then None
      else
        Some((Enqueue(s, Write(s.borrows[b].buffer.id, data))
              .(borrows := s.borrows[b := s.borrows[b].(inFlight := true)]), []))
    case ZeroFill(b) =>
      if b !in s.borrows then None
      else
        Some((Enqueue(s, Write(s.borrows[b].buffer.id, seq(s.borrows[b].len, _ => 0.0)))
              .(borrows := s.borrows[b := s.borrows[b].(inFlight := true)]), []))
    case Dispatch(f, srcs, dst) =>
      if dst !in s.borrows || exists k :: 0 <= k < |srcs| && ViewOf(s, srcs[k]).None? then None
      else
        var views := seq(|srcs|, k requires 0 <= k < |srcs| && ViewOf(s, srcs[k]).Some? => ViewOf(s, srcs[k]).value);
        Some((Enqueue(s, Launch(f, views, s.borrows[dst].buffer.id, s.borrows[dst].len)), []))
    case Retire(b) =>
      if b !in s.borrows then None
      else Some((s.(borrows := s.borrows[b := s.borrows[b].(inFlight := false)]), []))
    case DropBorrow(b) =>
      if b !in s.borrows then None
      else
        var rest := s.(borrows := s.borrows - {b});
        var buffer := s.borrows[b].buffer;
        var after := if s.borrows[b].inFlight then Freed(rest, buffer) else Released(rest, buffer);
        if after.None? then None else Some((after.value, []))
    case Handoff(b, h, shape) =>
      if b !in s.borrows || h in s.handles || s.borrows[b].buffer.capacity < Product(shape) then None
      else
        Some((s.(borrows := s.borrows - {b},
                 handles := s.handles[h := Handle(s.borrows[b].buffer, Product(shape), shape)]), []))
    case HandoffRefused(b, shape) =>
      if b !in s.borrows || Product(shape) <= s.borrows[b].buffer.capacity then None
      else
        var after := Freed(s.(borrows := s.borrows - {b}), s.borrows[b].buffer);
        if after.None? then None else Some((after.value, []))
    case Alias(h, h', shape) =>
      if h !in s.handles || h' in s.handles then None
      else if Product(shape) != s.handles[h].len then Some((s, []))
      else Some((s.(handles := s.handles[h' := s.handles[h].(shape := shape)]), []))
    case Share(h, h') =>
      if h !in s.handles || h' in s.handles then None
      else Some((s.(handles := s.handles[h' := s.handles[h]]), []))
    case Recycle(h) =>
      if h !in s.handles then None
      else
        var rest := s.(handles := s.handles - {h});
        var after := if Unique(s, h) then Released(rest, s.handles[h].buffer) else Some(rest);
        if after.None? then None else Some((after.value, []))
    case DropHandle(h) =>
      if h !in s.handles then None
      else
        var rest := s.(handles := s.handles - {h});
        var after := if Unique(s, h) then Freed(rest, s.handles[h].buffer) else Some(rest);
        if after.None? then None else Some((after.value, []))
    case ReadBack(owner) =>
      if s.queue != [] || ViewOf(s, owner).None? then None
      else Some((s, [Contents(s.mem, ViewOf(s, owner).value)]))
  }
}
