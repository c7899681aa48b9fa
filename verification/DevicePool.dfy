/** The scratch pool: a bounded free list of device buffers in power-of-two
    size classes. The per-class lists are kept as one list in check-in order;
    a class pops its newest entry. */
module DevicePool {
  import opened Arithmetic
  import opened Wrappers

  datatype Buffer = Buffer(id: nat, capacity: nat)

  const MIN_CLASS_ELEMENTS: nat := 256
  const POOL_BUDGET_BYTES: nat := 0x2000_0000
  const MAX_PER_CLASS: nat := 8

  ghost predicate PowerOfTwo(n: nat) {
    n == 1 || (0 < n && n % 2 == 0 && PowerOfTwo(n / 2))
  }

  function NextPowerOfTwo(n: nat): (p: nat)
    requires 0 < n
    ensures PowerOfTwo(p) && n <= p < 2 * n
  {
    if n == 1 then 1 else 2 * NextPowerOfTwo((n + 1) / 2)
  }

  function SizeClass(len: nat): (c: nat)
    ensures len <= c && MIN_CLASS_ELEMENTS <= c && PowerOfTwo(c)
    ensures MIN_CLASS_ELEMENTS <= len ==> c < 2 * len
  {
    NextPowerOfTwo(if len < MIN_CLASS_ELEMENTS then MIN_CLASS_ELEMENTS else len)
  }

  function ByteSize(b: Buffer): nat { 4 * b.capacity }

  function IdleBytes(free: seq<Buffer>): nat {
    if free == [] then 0 else IdleBytes(free[..|free| - 1]) + ByteSize(free[|free| - 1])
  }

  function InClass(free: seq<Buffer>, size: nat): nat {
    if free == [] then 0
    else InClass(free[..|free| - 1], size) + if free[|free| - 1].capacity == size then 1 else 0
  }

  /** Where the newest buffer of the class sits. */
  function Newest(free: seq<Buffer>, size: nat): (k: Option<nat>)
    ensures k.Some? ==> k.value < |free| && free[k.value].capacity == size
    ensures k.Some? ==> forall j :: k.value < j < |free| ==> free[j].capacity != size
    ensures k.None? ==> forall j :: 0 <= j < |free| ==> free[j].capacity != size
  {
    if free == [] then None
    else if free[|free| - 1].capacity == size then Some(|free| - 1)
    else Newest(free[..|free| - 1], size)
  }

  function Without(free: seq<Buffer>, k: nat): seq<Buffer>
    requires k < |free|
  {
    free[..k] + free[k + 1..]
  }

  predicate Keeps(free: seq<Buffer>, b: Buffer) {
    InClass(free, b.capacity) < MAX_PER_CLASS && IdleBytes(free) + ByteSize(b) <= POOL_BUDGET_BYTES
  }

  ghost predicate Bounded(free: seq<Buffer>) {
    IdleBytes(free) <= POOL_BUDGET_BYTES && forall c: nat :: InClass(free, c) <= MAX_PER_CLASS
  }

  lemma {:induction false} WithoutShrinks(free: seq<Buffer>, k: nat, c: nat)
    requires k < |free|
    ensures IdleBytes(Without(free, k)) == IdleBytes(free) - ByteSize(free[k])
    ensures InClass(Without(free, k), c) == InClass(free, c) - if free[k].capacity == c then 1 else 0
  {
    var n := |free| - 1;
    if k == n {
      assert Without(free, k) == free[..n];
    } else {
      WithoutShrinks(free[..n], k, c);
      assert Without(free, k)[..n - 1] == Without(free[..n], k);
    }
  }

  class Pool {
    var free: seq<Buffer>
    var idleBytes: nat

    ghost predicate Valid()
      reads this
    {
      idleBytes == IdleBytes(free) && Bounded(free)
    }

    constructor ()
      ensures Valid() && free == []
    {
      free, idleBytes := [], 0;
    }

    /** `freshId` numbers the allocation made when the class has nothing idle. */
    method Acquire(len: nat, freshId: nat) returns (buffer: Buffer)
      requires Valid()
      modifies this
      ensures Valid() && len <= buffer.capacity == SizeClass(len)
      ensures match Newest(old(free), SizeClass(len))
              case Some(k) => buffer == old(free)[k] && free == Without(old(free), k)
              case None => buffer == Buffer(freshId, SizeClass(len)) && free == old(free)
    {
      var size := SizeClass(len);
      var k := Newest(free, size);
      if k.None? {
        return Buffer(freshId, size);
      }
      buffer := free[k.value];
      forall c: nat
        ensures InClass(Without(free, k.value), c) <= MAX_PER_CLASS
      {
        WithoutShrinks(free, k.value, c);
      }
      WithoutShrinks(free, k.value, size);
      free := Without(free, k.value);
      idleBytes := SaturatingSub(idleBytes, ByteSize(buffer));
    }

    /** Keep the buffer while both bounds allow it, free it otherwise. */
    method Release(buffer: Buffer) returns (kept: bool)
      requires Valid()
      modifies this
      ensures Valid()
      ensures kept == Keeps(old(free), buffer)
      ensures free == if kept then old(free) + [buffer] else old(free)
    {
      if MAX_PER_CLASS <= InClass(free, buffer.capacity) || POOL_BUDGET_BYTES < idleBytes + ByteSize(buffer) {
        return false;
      }
      assert (free + [buffer])[..|free|] == free;
      free := free + [buffer];
      idleBytes := idleBytes + ByteSize(buffer);
      return true;
    }
  }
}
