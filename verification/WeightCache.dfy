/** The weight-residency cache: device copies of graph initializers, keyed by
    name and derived form and checked against kernel role, origin and length. */
module WeightCache {
  import opened Wrappers
  import opened DispatchHelpers

  datatype OperandForm = Raw | Transposed

  /** A `transA`/`transB` node reads the transpose of its operand. */
  function FormFor(transposed: bool): OperandForm { if transposed then OperandForm.Transposed else Raw }

  /** A host tensor: the allocation its elements live in, and its last two
      dimensions under `batch` leading ones. */
  datatype HostTensor = HostTensor(address: nat, data: seq<real>, batch: nat, rows: nat, cols: nat)

  /** A value this run left on the device, by a node or merely uploaded. */
  datatype Resident = Resident(data: seq<real>, nodeOutput: bool)

  datatype WeightId = WeightId(name: string, origin: nat, originLen: nat, form: OperandForm)

  datatype Slot = Slot(bytes: seq<real>, role: string, origin: nat, originLen: nat, uploaded: nat)

  type Entries = map<(string, OperandForm), Slot>

  type Weights = map<string, HostTensor>

  predicate HoldsNodeOutput(residents: map<string, Resident>, name: string) {
    name in residents && residents[name].nodeOutput
  }

  /** An identity only for a named weight no node has produced a value under. */
  function InitializerId(name: Option<string>, weights: Weights, intermediates: map<string, HostTensor>,
                         residents: map<string, Resident>, tensor: HostTensor, form: OperandForm): Option<WeightId>
  {
    if name.None? || name.value == "" || name.value in intermediates || HoldsNodeOutput(residents, name.value) then None
    else if name.value in weights then Some(WeightId(name.value, tensor.address, |tensor.data|, form))
    else None
  }

  predicate Matches(slot: Slot, id: WeightId, role: string, uploaded: nat) {
    slot.role == role && slot.origin == id.origin && slot.originLen == id.originLen && slot.uploaded == uploaded
  }

  function KeyOf(id: WeightId): (string, OperandForm) { (id.name, id.form) }

  /** The four outcomes: transient without an identity, hit, conflict, first sighting. */
  ghost function Acquired(entries: Entries, id: Option<WeightId>, role: string, data: seq<real>): (Entries, seq<real>) {
    if id.None? then (entries, data)
    else
      var key := KeyOf(id.value);
      if key in entries then
        (entries, if Matches(entries[key], id.value, role, |data|) then entries[key].bytes else data)
      else if data == [] then (entries, data)
      else (entries[key := Slot(data, role, id.value.origin, id.value.originLen, |data|)], data)
  }

  class ResidentWeights {
    var entries: Entries

    constructor ()
      ensures entries == map[]
    {
      entries := map[];
    }

    /** `bound` is what the device buffer handed out will hold. What is there
        stays; one key appears, on a first sighting of something; and the bytes
        are the caller's unless a slot agrees in every respect. */
    method Acquire(id: Option<WeightId>, role: string, data: seq<real>) returns (bound: seq<real>)
      modifies this
      ensures forall key :: key in old(entries) ==> key in entries && entries[key] == old(entries)[key]
      ensures forall key :: key in entries && key !in old(entries) <==>
                id.Some? && key == KeyOf(id.value) && key !in old(entries) && data != []
      ensures forall key :: key in entries && key !in old(entries) ==>
                entries[key].bytes == data && Matches(entries[key], id.value, role, |data|)
      ensures var hit := id.Some? && KeyOf(id.value) in old(entries) &&
                         Matches(old(entries)[KeyOf(id.value)], id.value, role, |data|);
              bound == if hit then old(entries)[KeyOf(id.value)].bytes else data
      ensures (entries, bound) == old(Acquired(entries, id, role, data))
    {
      if id.None? {
        return data;
      }
      var key := (id.value.name, id.value.form);
      if key in entries {
        var slot := entries[key];
        if slot.role == role && slot.origin == id.value.origin && slot.originLen == id.value.originLen &&
           slot.uploaded == |data| {
          return slot.bytes;
        }
        return data;
      }
      if data == [] {
        return data;
      }
      entries := entries[key := Slot(data, role, id.value.origin, id.value.originLen, |data|)];
      return data;
    }

    /** A copy already held, found without the host bytes. */
    method Resident(id: WeightId, role: string, uploaded: nat) returns (bound: Option<seq<real>>)
      ensures bound.Some? <==> (id.name, id.form) in entries && Matches(entries[(id.name, id.form)], id, role, uploaded)
      ensures bound.Some? ==> bound.value == entries[(id.name, id.form)].bytes
    {
      var key := (id.name, id.form);
      if key in entries && entries[key].role == role && entries[key].origin == id.origin &&
         entries[key].originLen == id.originLen && entries[key].uploaded == uploaded {
        return Some(entries[key].bytes);
      }
      return None;
    }

    method Clear()
      modifies this
      ensures entries == map[]
    {
      entries := map[];
    }
  }

  // ----- the bytes a GEMM reads -----

  ghost function TransposedData(t: HostTensor): (out: seq<real>)
    requires t.batch * (t.rows * t.cols) <= |t.data|
    ensures |out| == |t.data|
  {
    seq(|t.data|, k requires 0 <= k < |t.data| => TransposedElement(t, k))
  }

  ghost function TransposedElement(t: HostTensor, k: nat): real
    requires t.batch * (t.rows * t.cols) <= |t.data| && k < |t.data|
  {
    if k < t.batch * (t.cols * t.rows) then
      var (b, c, r) := Coordinates(t, k);
      AtBelow(b, r, c, t.batch, t.rows, t.cols);
      t.data[At(b, r, c, t.rows, t.cols)]
    else 0.0
  }

  /** Block, row and column of position `k` of the transposed data. */
  ghost function Coordinates(t: HostTensor, k: nat): (x: (nat, nat, nat))
    requires k < t.batch * (t.cols * t.rows)
    ensures x.0 < t.batch && x.1 < t.cols && x.2 < t.rows && k == At(x.0, x.1, x.2, t.cols, t.rows)
  {
    assert exists b: nat, c: nat, r: nat ::
        b < t.batch && c < t.cols && r < t.rows && k == At(b, c, r, t.cols, t.rows) by {
      var b, c, r := AtCovers(k, t.batch, t.cols, t.rows);
    }
    var b: nat, c: nat, r: nat :| b < t.batch && c < t.cols && r < t.rows && k == At(b, c, r, t.cols, t.rows);
    (b, c, r)
  }

  /** What `Transpose2dBatched` computes is `TransposedData`. */
  lemma TransposeComputes(t: HostTensor, out: seq<real>)
    requires t.batch * (t.rows * t.cols) <= |t.data|
    requires DispatchHelpers.Transposed(t.data, out, t.batch, t.rows, t.cols)
    requires forall k :: t.batch * (t.rows * t.cols) <= k < |out| ==> out[k] == 0.0
    ensures out == TransposedData(t)
  {
    hide At;
    assert t.rows * t.cols == t.cols * t.rows;
    forall k: nat | k < |out| ensures out[k] == TransposedElement(t, k) {
      if k < t.batch * (t.cols * t.rows) {
        var (b, c, r) := Coordinates(t, k);
        assert Moved(t.data, out, t.rows, t.cols, b, r, c);
      }
    }
  }

  // ----- frames -----

  /** One operand of one dispatch: the run state it is resolved in, whether the
      kernel reads it transposed and how many elements, the kernel slot, and
      whether that slot can bind a value left on the device. */
  datatype Request = Request(name: string, transposed: bool, role: string, needed: nat, acceptsResident: bool,
                             intermediates: map<string, HostTensor>, residents: map<string, Resident>)

  /** Cache events; each frame may come with other weights. */
  datatype Event = Bind(request: Request, weights: Weights) | Clear

  /** Intermediates first, then weights. */
  function Resolve(name: string, intermediates: map<string, HostTensor>, weights: Weights): Option<HostTensor>
  {
    if name == "" then None
    else if name in intermediates then Some(intermediates[name])
    else if name in weights then Some(weights[name])
    else None
  }

  /** A value bound in place on the device, or host bytes to cache or upload. */
  datatype Operand = OnDevice(data: seq<real>) | FromHost(tensor: HostTensor)

  /** What this run left on the device comes first where the slot can bind it. */
  function OperandOf(r: Request, weights: Weights): Option<Operand> {
    if r.name == "" then None
    else if r.acceptsResident && r.name in r.residents then Some(OnDevice(r.residents[r.name].data))
    else
      match Resolve(r.name, r.intermediates, weights)
      case None => None
      case Some(tensor) => Some(FromHost(tensor))
  }

  /** The dispatch goes ahead: the operand exists, has enough elements, and is
      not a device value wanted transposed. */
  ghost predicate Answerable(r: Request, weights: Weights) {
    match OperandOf(r, weights)
    case None => false
    case Some(OnDevice(data)) => !r.transposed && r.needed <= |data|
    case Some(FromHost(t)) => HasForm(t, FormFor(r.transposed)) && r.needed <= |t.data|
  }

  ghost function BytesOf(t: HostTensor, form: OperandForm): (out: seq<real>)
    requires HasForm(t, form)
    ensures |out| == |t.data|
  {
    if form.Raw? then t.data else TransposedData(t)
  }

  /** The bytes a dispatch without any cache would have its kernel read. */
  ghost function CacheFree(r: Request, weights: Weights): (bytes: seq<real>)
    requires Answerable(r, weights)
    ensures |bytes| == r.needed
  {
    match OperandOf(r, weights).value
    case OnDevice(data) => data[..r.needed]
    case FromHost(t) => BytesOf(t, FormFor(r.transposed))[..r.needed]
  }

  /** Those bytes in plain terms: a device value where the slot takes one, else
      the host intermediate, else the weight, element for element or, for a
      transposed request, row `r` and column `c` of each block exchanged. */
  lemma CacheFreeMeaning(r: Request, weights: Weights)
    requires Answerable(r, weights)
    ensures var bytes := CacheFree(r, weights);
            if r.acceptsResident && r.name in r.residents then
              !r.transposed && r.needed <= |r.residents[r.name].data| &&
              forall i :: 0 <= i < r.needed ==> bytes[i] == r.residents[r.name].data[i]
            else
              && (r.name in r.intermediates || r.name in weights)
              && var t := if r.name in r.intermediates then r.intermediates[r.name] else weights[r.name];
                 && r.needed <= |t.data|
                 && if !r.transposed then forall i :: 0 <= i < r.needed ==> bytes[i] == t.data[i]
                    else IsTransposedPrefix(t, bytes)
  {
    if r.transposed { TransposedPrefix(OperandOf(r, weights).value.tensor, r.needed); }
  }

  /** Position of row `r`, column `c` of block `b` among the transposed bytes. */
  function MovedTo(t: HostTensor, b: nat, r: nat, c: nat): nat { b * (t.rows * t.cols) + c * t.rows + r }

  /** And in the tensor's own bytes. */
  function MovedFrom(t: HostTensor, b: nat, r: nat, c: nat): nat { b * (t.rows * t.cols) + r * t.cols + c }

  /** Element (b, r, c) of `t`, as far as `bytes` goes, stands at (b, c, r). */
  ghost predicate IsTransposedPrefix(t: HostTensor, bytes: seq<real>) {
    forall b: nat, r: nat, c: nat {:trigger MovedTo(t, b, r, c)} ::
      b < t.batch && r < t.rows && c < t.cols && MovedTo(t, b, r, c) < |bytes| ==>
        MovedFrom(t, b, r, c) < |t.data| && bytes[MovedTo(t, b, r, c)] == t.data[MovedFrom(t, b, r, c)]
  }

  lemma TransposedPrefix(t: HostTensor, needed: nat)
    requires t.batch * (t.rows * t.cols) <= |t.data| && needed <= |t.data|
    ensures IsTransposedPrefix(t, TransposedData(t)[..needed])
  {
    hide TransposedData, MovedTo, MovedFrom;
    forall b: nat, r: nat, c: nat | b < t.batch && r < t.rows && c < t.cols && MovedTo(t, b, r, c) < needed
      ensures MovedFrom(t, b, r, c) < |t.data|
      ensures TransposedData(t)[MovedTo(t, b, r, c)] == t.data[MovedFrom(t, b, r, c)]
    {
      TransposedEntry(t, b, r, c);
    }
  }

  lemma TransposedEntry(t: HostTensor, b: nat, r: nat, c: nat)
    requires t.batch * (t.rows * t.cols) <= |t.data| && b < t.batch && r < t.rows && c < t.cols
    ensures MovedTo(t, b, r, c) < |t.data| && MovedFrom(t, b, r, c) < |t.data|
    ensures TransposedData(t)[MovedTo(t, b, r, c)] == t.data[MovedFrom(t, b, r, c)]
  {
    AtUnfold(b, r, c, t.rows, t.cols);
    AtBelow(b, r, c, t.batch, t.rows, t.cols);
    AtBelow(b, c, r, t.batch, t.cols, t.rows);
    Commuted(t.rows, t.cols);
    EntryAt(t, b, r, c);
    hide At, TransposedData;
  }

  lemma EntryAt(t: HostTensor, b: nat, r: nat, c: nat)
    requires t.batch * (t.rows * t.cols) <= |t.data| && b < t.batch && r < t.rows && c < t.cols
    requires At(b, c, r, t.cols, t.rows) < t.batch * (t.cols * t.rows) && At(b, r, c, t.rows, t.cols) < |t.data|
    ensures At(b, c, r, t.cols, t.rows) < |t.data|
    ensures TransposedData(t)[At(b, c, r, t.cols, t.rows)] == t.data[At(b, r, c, t.rows, t.cols)]
  {
    Commuted(t.rows, t.cols);
    hide At;
    var at := At(b, c, r, t.cols, t.rows);
    var (b', c', r') := Coordinates(t, at);
    AtInjective(b, c, r, b', c', r', t.batch, t.cols, t.rows);
  }

  lemma Commuted(a: nat, b: nat)
    ensures a * b == b * a
  {
  }

  /** The identity the dispatch asks the cache with; none for a device value. */
  ghost function IdOf(r: Request, weights: Weights): Option<WeightId> {
    match OperandOf(r, weights)
    case Some(FromHost(t)) =>
      InitializerId(Some(r.name), weights, r.intermediates, r.residents, t, FormFor(r.transposed))
    case _ => None
  }

  /** The cached path: ask for a resident copy first, build and bind otherwise. */
  ghost function Bound(entries: Entries, r: Request, weights: Weights): (Entries, seq<real>)
    requires Answerable(r, weights)
  {
    var id := IdOf(r, weights);
    if id.Some? && KeyOf(id.value) in entries && Matches(entries[KeyOf(id.value)], id.value, r.role, r.needed)
    then (entries, entries[KeyOf(id.value)].bytes)
    else Acquired(entries, id, r.role, CacheFree(r, weights))
  }

  /** The dispatch's own steps: a resident copy spares building the bytes. */
  method BindOperand(cache: ResidentWeights, r: Request, weights: Weights) returns (bound: seq<real>)
    requires Answerable(r, weights)
    modifies cache
    ensures (cache.entries, bound) == Bound(old(cache.entries), r, weights)
  {
    if r.acceptsResident && r.name in r.residents {
      return r.residents[r.name].data[..r.needed];
    }
    var tensor := Resolve(r.name, r.intermediates, weights).value;
    var id := InitializerId(Some(r.name), weights, r.intermediates, r.residents, tensor, FormFor(r.transposed));
    if id.Some? {
      var resident := cache.Resident(id.value, r.role, r.needed);
      if resident.Some? {
        return resident.value;
      }
    }
    var bytes := tensor.data;
    if r.transposed {
      bytes := Transpose2dBatched(tensor.data, 0.0, tensor.batch, tensor.rows, tensor.cols);
      TransposeComputes(tensor, bytes);
    }
    bound := cache.Acquire(id, r.role, bytes[..r.needed]);
  }

  // ----- what a run produced is never cached -----

  /** A name a node has produced a value under is bound afresh, whatever the
      cache and the weights hold under it, and leaves the cache as it was. */
  lemma ProducedIsNotCached(entries: Entries, r: Request, weights: Weights)
    requires Answerable(r, weights)
    requires r.name in r.intermediates || HoldsNodeOutput(r.residents, r.name)
    ensures Bound(entries, r, weights) == (entries, CacheFree(r, weights))
  {
  }

  /** A slot that disagrees in role, origin or length neither serves the request
      nor gives way to it. */
  lemma ConflictIsTransient(entries: Entries, r: Request, weights: Weights)
    requires Answerable(r, weights) && IdOf(r, weights).Some? && KeyOf(IdOf(r, weights).value) in entries
    requires var slot, t := entries[KeyOf(IdOf(r, weights).value)], weights[r.name];
             slot.role != r.role || slot.origin != t.address || slot.originLen != |t.data| || slot.uploaded != r.needed
    ensures Bound(entries, r, weights) == (entries, CacheFree(r, weights))
  {
  }

  /** What the name stands for in this run: the value on the device, else the
      host intermediate, else the weight. */
  ghost function Latest(r: Request, weights: Weights): Option<seq<real>> {
    if r.name in r.residents then Some(r.residents[r.name].data)
    else
      match Resolve(r.name, r.intermediates, weights)
      case None => None
      case Some(t) => Some(t.data)
  }

  /** A slot that cannot bind device values sees those only once read back. */
  ghost predicate ReadBackWhereNeeded(r: Request) {
    r.name in r.residents && !r.acceptsResident ==>
      r.name in r.intermediates && r.intermediates[r.name].data == r.residents[r.name].data
  }

  lemma RunValuesComeFirst(r: Request, weights: Weights)
    requires Answerable(r, weights) && !r.transposed && ReadBackWhereNeeded(r)
    ensures Latest(r, weights).Some? && r.needed <= |Latest(r, weights).value|
    ensures CacheFree(r, weights) == Latest(r, weights).value[..r.needed]
  {
  }

  /** The run with other contents in the device value of the request's name. */
  function WithContents(r: Request, data: seq<real>, nodeOutput: bool): Request {
    r.(residents := r.residents[r.name := Resident(data, nodeOutput)])
  }

  /** The kernel reads the first elements of `data`. */
  ghost predicate Reads(r: Request, weights: Weights, data: seq<real>) {
    Answerable(r, weights) && r.needed <= |data| && CacheFree(r, weights) == data[..r.needed]
  }

  /** A value left on the device is what the kernel reads, whatever it contains,
      if and only if the slot can bind device values. */
  lemma DeviceValueIsReadIff(r: Request, weights: Weights, nodeOutput: bool)
    requires r.name != "" && !r.transposed && 0 < r.needed
    ensures (forall data: seq<real> | r.needed <= |data| ::
               Reads(WithContents(r, data, nodeOutput), weights, data)) <==> r.acceptsResident
  {
    if !r.acceptsResident {
      var zeros, ones := seq(r.needed, _ => 0.0), seq(r.needed, _ => 1.0);
      var a, b := WithContents(r, zeros, nodeOutput), WithContents(r, ones, nodeOutput);
      assert zeros[..r.needed][0] != ones[..r.needed][0];
      if Reads(a, weights, zeros) && Reads(b, weights, ones) { HostSlotReadsAlike(a, b, weights); }
    }
  }

  /** A slot that cannot bind them reads the same whatever is on the device. */
  lemma HostSlotReadsAlike(a: Request, b: Request, weights: Weights)
    requires a == b.(residents := a.residents) && !a.acceptsResident
    requires Answerable(a, weights) && Answerable(b, weights)
    ensures CacheFree(a, weights) == CacheFree(b, weights)
  {
  }

  /** One instance: the slot gets the initializer of the same name. */
  lemma UnreadDeviceValueIsMissed()
    ensures var weights: Weights := map["w" := HostTensor(0, [1.0], 1, 1, 1)];
            var r := Request("w", false, "conv_weight", 1, false, map[], map["w" := Resident([2.0], true)]);
            && Answerable(r, weights)
            && CacheFree(r, weights) == [1.0] && Latest(r, weights) == Some([2.0])
  {
  }

  // ----- histories -----

  /** `slot` holds a prefix of tensor `t` in the given form. */
  ghost predicate Backed(slot: Slot, t: HostTensor, form: OperandForm) {
    && slot.origin == t.address && slot.originLen == |t.data|
    && HasForm(t, form)
    && slot.uploaded <= |t.data|
    && slot.bytes == BytesOf(t, form)[..slot.uploaded]
  }

  ghost predicate BackedBySome(slot: Slot, key: (string, OperandForm), seen: seq<Weights>) {
    exists k :: 0 <= k < |seen| && key.0 in seen[k] && Backed(slot, seen[k][key.0], key.1)
  }

  /** Every slot holds what its key named in some weight map seen so far. */
  ghost predicate Faithful(entries: Entries, seen: seq<Weights>) {
    forall key :: key in entries ==> BackedBySome(entries[key], key, seen)
  }

  predicate HasForm(t: HostTensor, form: OperandForm) {
    form.Transposed? ==> t.batch * (t.rows * t.cols) <= |t.data|
  }

  ghost predicate SameForm(a: HostTensor, b: HostTensor, form: OperandForm) {
    HasForm(a, form) && HasForm(b, form) ==> BytesOf(a, form) == BytesOf(b, form)
  }

  /** Among the weight maps of a pool, one name at one address with one length
      has the same bytes in each form: what comparing origins takes for granted. */
  ghost predicate OriginsIdentify(pool: seq<Weights>) {
    forall a, b, name, form ::
      (0 <= a < |pool| && 0 <= b < |pool| && name != "" && name in pool[a] && name in pool[b] &&
       pool[a][name].address == pool[b][name].address && |pool[a][name].data| == |pool[b][name].data|) ==>
        SameForm(pool[a][name], pool[b][name], form)
  }

  lemma BindKeepsFaithful(entries: Entries, r: Request, weights: Weights, seen: seq<Weights>)
    requires Faithful(entries, seen) && Answerable(r, weights)
    ensures Faithful(Bound(entries, r, weights).0, seen + [weights])
  {
    hide BytesOf;
    var after, all := Bound(entries, r, weights).0, seen + [weights];
    forall key | key in after ensures BackedBySome(after[key], key, all) {
      if key in entries {
        var k :| 0 <= k < |seen| && key.0 in seen[k] && Backed(entries[key], seen[k][key.0], key.1);
        assert all[k] == seen[k];
      } else {
        var t := Resolve(r.name, r.intermediates, weights).value;
        assert all[|seen|] == weights && Backed(after[key], t, key.1);
      }
    }
  }

  lemma BindIsCacheFree(entries: Entries, r: Request, weights: Weights, seen: seq<Weights>)
    requires Faithful(entries, seen) && Answerable(r, weights) && OriginsIdentify(seen + [weights])
    ensures Bound(entries, r, weights).1 == CacheFree(r, weights)
  {
    hide BytesOf;
    var id, all := IdOf(r, weights), seen + [weights];
    if id.Some? && KeyOf(id.value) in entries && Matches(entries[KeyOf(id.value)], id.value, r.role, r.needed) {
      var key := KeyOf(id.value);
      var k :| 0 <= k < |seen| && key.0 in seen[k] && Backed(entries[key], seen[k][key.0], key.1);
      assert all[k] == seen[k] && all[|seen|] == weights;
      assert SameForm(seen[k][key.0], weights[r.name], key.1);
    }
  }

  /** Two first sightings at once: the later insert replaces the earlier one, and
      the entries stay faithful all the same. */
  lemma LateInsertKeepsFaithful(entries: Entries, r: Request, weights: Weights, seen: seq<Weights>)
    requires Faithful(entries, seen) && Answerable(r, weights) && IdOf(r, weights).Some?
    ensures var id := IdOf(r, weights).value;
            Faithful(entries[KeyOf(id) := Slot(CacheFree(r, weights), r.role, id.origin, id.originLen, r.needed)],
                     seen + [weights])
  {
    hide BytesOf;
    var id, all := IdOf(r, weights).value, seen + [weights];
    var after := entries[KeyOf(id) := Slot(CacheFree(r, weights), r.role, id.origin, id.originLen, r.needed)];
    forall key | key in after ensures BackedBySome(after[key], key, all) {
      if key == KeyOf(id) {
        assert all[|seen|] == weights && Backed(after[key], weights[r.name], key.1);
      } else {
        var k :| 0 <= k < |seen| && key.0 in seen[k] && Backed(entries[key], seen[k][key.0], key.1);
        assert all[k] == seen[k];
      }
    }
  }

  ghost predicate AllAnswerable(events: seq<Event>) {
    forall e :: e in events && e.Bind? ==> Answerable(e.request, e.weights)
  }

  ghost function EntriesAfter(events: seq<Event>): Entries
    requires AllAnswerable(events)
  {
    if events == [] then map[]
    else
      match events[|events| - 1]
      case Clear => map[]
      case Bind(r, weights) => Bound(EntriesAfter(events[..|events| - 1]), r, weights).0
  }

  ghost function Seen(events: seq<Event>): seq<Weights> {
    if events == [] then []
    else
      match events[|events| - 1]
      case Clear => Seen(events[..|events| - 1])
      case Bind(_, weights) => Seen(events[..|events| - 1]) + [weights]
  }

  lemma {:induction false} StaysFaithful(events: seq<Event>)
    requires AllAnswerable(events)
    ensures Faithful(EntriesAfter(events), Seen(events))
  {
    if events != [] {
      var front, last := events[..|events| - 1], events[|events| - 1];
      StaysFaithful(front);
      if last.Bind? { BindKeepsFaithful(EntriesAfter(front), last.request, last.weights, Seen(front)); }
    }
  }

  /** Over any history of frames with changing intermediates, cache clears and
      even changing weights, the next operand is bound with exactly the bytes a
      cache-free resolution would bind, as long as origins identify tensors. */
  lemma CachedBindsAreCacheFree(events: seq<Event>, r: Request, weights: Weights)
    requires AllAnswerable(events) && Answerable(r, weights) && OriginsIdentify(Seen(events) + [weights])
    ensures Bound(EntriesAfter(events), r, weights).1 == CacheFree(r, weights)
  {
    StaysFaithful(events);
    BindIsCacheFree(EntriesAfter(events), r, weights, Seen(events));
  }

  /** For weights that never change nothing needs to be assumed. */
  lemma FixedWeightsIdentify(events: seq<Event>, weights: Weights)
    requires forall e :: e in events && e.Bind? ==> e.weights == weights
    ensures OriginsIdentify(Seen(events) + [weights])
  {
    SeenAreFixed(events, weights);
  }

  lemma {:induction false} SeenAreFixed(events: seq<Event>, weights: Weights)
    requires forall e :: e in events && e.Bind? ==> e.weights == weights
    ensures forall k :: 0 <= k < |Seen(events)| ==> Seen(events)[k] == weights
  {
    if events != [] { SeenAreFixed(events[..|events| - 1], weights); }
  }

  /** A request for the whole of an initializer. */
  function Whole(name: string, role: string, t: HostTensor, transposed: bool): Request {
    Request(name, transposed, role, |t.data|, false, map[], map[])
  }

  /** Two tensors at one address with one length are told apart by nothing: the
      second frame is served the first one's bytes, in either form. */
  lemma ReusedAddressServesStale(name: string, role: string, first: HostTensor, second: HostTensor, transposed: bool,
                                 before: Weights, after: Weights)
    requires name in before && before[name] == first && name in after && after[name] == second
    requires name != "" && first.address == second.address && |first.data| == |second.data| && first.data != []
    requires HasForm(first, FormFor(transposed)) && HasForm(second, FormFor(transposed))
    ensures var held := Bound(map[], Whole(name, role, first, transposed), before).0;
            Bound(held, Whole(name, role, second, transposed), after).1 == BytesOf(first, FormFor(transposed))
  {
    hide BytesOf;
    var bytes := BytesOf(first, FormFor(transposed));
    assert bytes[..|first.data|] == bytes;
  }

  // ----- exactly when the cache can be trusted -----

  ghost predicate Drawn(events: seq<Event>, pool: seq<Weights>) {
    forall e :: e in events && e.Bind? ==> e.weights in pool
  }

  /** After this history the request is bound with its cache-free bytes. */
  ghost predicate BoundExactly(events: seq<Event>, r: Request, weights: Weights) {
    AllAnswerable(events) && Answerable(r, weights) ==>
      Bound(EntriesAfter(events), r, weights).1 == CacheFree(r, weights)
  }

  ghost predicate CacheIsTransparent(pool: seq<Weights>) {
    forall events, r, weights {:trigger BoundExactly(events, r, weights)} ::
      Drawn(events, pool) && weights in pool ==> BoundExactly(events, r, weights)
  }

  lemma {:induction false} SeenAreDrawn(events: seq<Event>, pool: seq<Weights>)
    requires Drawn(events, pool)
    ensures forall k :: 0 <= k < |Seen(events)| ==> Seen(events)[k] in pool
  {
    if events != [] { SeenAreDrawn(events[..|events| - 1], pool); }
  }

  lemma DrawnOriginsIdentify(seen: seq<Weights>, pool: seq<Weights>)
    requires OriginsIdentify(pool) && forall k :: 0 <= k < |seen| ==> seen[k] in pool
    ensures OriginsIdentify(seen)
  {
    hide SameForm;
    forall a, b, name, form |
      0 <= a < |seen| && 0 <= b < |seen| && name != "" && name in seen[a] && name in seen[b] &&
      seen[a][name].address == seen[b][name].address && |seen[a][name].data| == |seen[b][name].data|
      ensures SameForm(seen[a][name], seen[b][name], form)
    {
      var i :| 0 <= i < |pool| && pool[i] == seen[a];
      var j :| 0 <= j < |pool| && pool[j] == seen[b];
      assert name in pool[i] && name in pool[j];
    }
  }

  /** Over every history of frames whose weights come from a pool, every operand
      is bound with its cache-free bytes if and only if origins identify bytes
      in that pool. */
  lemma TransparentIffOriginsIdentify(pool: seq<Weights>)
    ensures CacheIsTransparent(pool) <==> OriginsIdentify(pool)
  {
    if OriginsIdentify(pool) {
      forall events, r, weights | Drawn(events, pool) && weights in pool ensures BoundExactly(events, r, weights) {
        if AllAnswerable(events) && Answerable(r, weights) {
          SeenAreDrawn(events, pool);
          DrawnOriginsIdentify(Seen(events) + [weights], pool);
          CachedBindsAreCacheFree(events, r, weights);
        }
      }
    } else {
      UnidentifiedIsMisbound(pool);
    }
  }

  lemma UnidentifiedIsMisbound(pool: seq<Weights>)
    requires !OriginsIdentify(pool)
    ensures !CacheIsTransparent(pool)
  {
    var a, b, name, form :| 0 <= a < |pool| && 0 <= b < |pool| && name != "" && name in pool[a] && name in pool[b] &&
      pool[a][name].address == pool[b][name].address && |pool[a][name].data| == |pool[b][name].data| &&
      !SameForm(pool[a][name], pool[b][name], form);
    var first, second, transposed := pool[a][name], pool[b][name], form.Transposed?;
    assert form == FormFor(transposed);
    hide BytesOf;
    var earlier, later := Whole(name, "operand", first, transposed), Whole(name, "operand", second, transposed);
    var history := [Event.Bind(earlier, pool[a])];
    assert history[..0] == [] && EntriesAfter([]) == map[];
    ReusedAddressServesStale(name, "operand", first, second, transposed, pool[a], pool[b]);
    assert Drawn(history, pool) && AllAnswerable(history) && Answerable(later, pool[b]);
    assert BytesOf(second, form)[..|second.data|] == BytesOf(second, form);
    assert !BoundExactly(history, later, pool[b]);
  }

  /** Once bound under an identity, the same request is served without an upload. */
  lemma SecondBindIsResident(entries: Entries, r: Request, weights: Weights)
    requires Answerable(r, weights) && 0 < r.needed && IdOf(r, weights).Some?
    requires KeyOf(IdOf(r, weights).value) !in entries
    ensures var after, id := Bound(entries, r, weights).0, IdOf(r, weights).value;
            KeyOf(id) in after && Matches(after[KeyOf(id)], id, r.role, r.needed)
  {
  }
}
