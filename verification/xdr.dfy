/**
 The wire format of descriptors, dispatches and return statuses, RFC 4506, as
 written and read by accelerators/vmaccel/src/vmaccel_rpc_xdr.c and
 accelerators/vmcl/src/vmcl_rpc_xdr.c.  A writer puts a value in front of what
 follows it; a reader takes a value off the front, or is stuck.
 */
module Xdr {
  import opened Options
  import opened IdentifierDb
  import D = DescAmounts

  type Byte = x: nat | x < 256 witness 0
  type Word = D.Uint32
  type Data = seq<Byte>

  const MAX_NONCE_SIZE: nat := 4
  const MAX_LOCATION_SIZE: nat := 4

  datatype Parsed<+T> = Stuck | Done(value: T, rest: Data) {
    predicate IsFailure() { Stuck? }

    function PropagateFailure<U>(): Parsed<U>
      requires Stuck?
    {
      Stuck
    }

    function Extract(): (T, Data)
      requires Done?
    {
      (value, rest)
    }
  }

  // ---------------------------------------------------------------------
  // Integers (sections 4.1 and 4.2)
  // ---------------------------------------------------------------------

  function WordBytes(n: Word): Data {
    [n / 0x100_0000, n / 0x1_0000 % 256, n / 256 % 256, n % 256]
  }

  lemma WordParts(n: Word)
    ensures (n / 0x100_0000) * 0x100_0000 + (n / 0x1_0000 % 256) * 0x1_0000 + (n / 256 % 256) * 256 + n % 256 == n
  {
    var a, b := n / 256, n / 0x1_0000;
    assert a / 256 == b;
    assert b / 256 == n / 0x100_0000;
  }

  function PutWord(n: Word, rest: Data): Data {
    WordBytes(n) + rest
  }

  function GetWord(bs: Data): Parsed<Word> {
    if |bs| < 4 then Stuck
    else
      var a: nat, b: nat, c: nat, d: nat := bs[0], bs[1], bs[2], bs[3];
      Done(a * 0x100_0000 + b * 0x1_0000 + c * 256 + d, bs[4..])
  }

  lemma WordRoundTrip(n: Word, rest: Data)
    ensures GetWord(PutWord(n, rest)) == Done(n, rest)
  {
    WordParts(n);
    assert PutWord(n, rest)[4..] == rest;
  }

  predicate IsInt(n: int) { -0x8000_0000 <= n < 0x8000_0000 }

  function GetInt(bs: Data): Parsed<int> {
    var (n, bs) :- GetWord(bs);
    Done(if n < 0x8000_0000 then n else n - UINT, bs)
  }

  lemma IntRoundTrip(n: int, rest: Data)
    requires IsInt(n)
    ensures GetInt(PutWord(n % UINT, rest)) == Done(n, rest)
  {
    WordRoundTrip(n % UINT, rest);
    assert n % UINT == if n < 0 then n + UINT else n;
  }

  // ---------------------------------------------------------------------
  // Variable-length opaque data (section 4.10)
  // ---------------------------------------------------------------------

  /** The bytes that fill up a unit of four. */
  function Padding(len: nat): nat {
    (4 - len % 4) % 4
  }

  function Zeros(n: nat): Data {
    seq(n, _ => 0)
  }

  function PutBytes(bytes: Data, rest: Data): Data
    requires |bytes| < UINT
  {
    PutWord(|bytes|, bytes + (Zeros(Padding(|bytes|)) + rest))
  }

  function GetBytes(max: nat, bs: Data): Parsed<Data> {
    var (len, bs) :- GetWord(bs);
    if len > max || |bs| < len + Padding(len) then Stuck else Done(bs[..len], bs[len + Padding(len)..])
  }

  lemma BytesRoundTrip(max: nat, bytes: Data, rest: Data)
    requires |bytes| <= max && |bytes| < UINT
    ensures GetBytes(max, PutBytes(bytes, rest)) == Done(bytes, rest)
  {
    var tail := Zeros(Padding(|bytes|)) + rest;
    WordRoundTrip(|bytes|, bytes + tail);
    assert (bytes + tail)[..|bytes|] == bytes;
    assert (bytes + tail)[|bytes|..] == tail;
    assert (bytes + tail)[|bytes| + Padding(|bytes|)..] == rest;
  }

  // ---------------------------------------------------------------------
  // Variable-length arrays (section 4.13)
  // ---------------------------------------------------------------------

  function PutItems<T>(put: (T, Data) -> Data, items: seq<T>, rest: Data): Data {
    if items == [] then rest else put(items[0], PutItems(put, items[1..], rest))
  }

  function GetItems<T>(get: Data -> Parsed<T>, n: nat, bs: Data): Parsed<seq<T>> {
    if n == 0 then Done([], bs)
    else
      var (item, bs) :- get(bs);
      var (items, bs) :- GetItems(get, n - 1, bs);
      Done([item] + items, bs)
  }

  function PutArray<T>(put: (T, Data) -> Data, items: seq<T>, rest: Data): Data
    requires |items| < UINT
  {
    PutWord(|items|, PutItems(put, items, rest))
  }

  function GetArray<T>(get: Data -> Parsed<T>, bs: Data): Parsed<seq<T>> {
    var (len, bs) :- GetWord(bs);
    GetItems(get, len, bs)
  }

  /** The reader takes back what the writer put. */
  ghost predicate Inverse<T(!new)>(put: (T, Data) -> Data, get: Data -> Parsed<T>) {
    forall x, rest :: get(put(x, rest)) == Done(x, rest)
  }

  lemma {:induction false} ItemsRoundTrip<T(!new)>(put: (T, Data) -> Data, get: Data -> Parsed<T>, items: seq<T>, rest: Data)
    requires Inverse(put, get)
    ensures GetItems(get, |items|, PutItems(put, items, rest)) == Done(items, rest)
  {
    if items != [] {
      ItemsRoundTrip(put, get, items[1..], rest);
      assert items == [items[0]] + items[1..];
    }
  }

  lemma ArrayRoundTrip<T(!new)>(put: (T, Data) -> Data, get: Data -> Parsed<T>, items: seq<T>, rest: Data)
    requires Inverse(put, get) && |items| < UINT
    ensures GetArray(get, PutArray(put, items, rest)) == Done(items, rest)
  {
    WordRoundTrip(|items|, PutItems(put, items, rest));
    ItemsRoundTrip(put, get, items, rest);
  }

  lemma WordsInvert()
    ensures Inverse(PutWord, GetWord)
  {
    hide PutWord, GetWord;
    forall n: Word, rest ensures GetWord(PutWord(n, rest)) == Done(n, rest) { WordRoundTrip(n, rest); }
  }

  // ---------------------------------------------------------------------
  // Descriptors
  // ---------------------------------------------------------------------

  datatype Address = Address(addr: Data, port: Word, resourceType: Word, subDevice: Word)

  datatype FormatDesc = FormatDesc(format: Word, caps: Word)

  datatype Limits = Limits(
    maxContexts: Word, maxQueues: Word, maxEvents: Word, maxFences: Word, maxSurfaces: Word, maxMappings: Word)

  datatype Desc = Desc(
    parentId: Word, parentAddr: Address, typeMask: Word, architecture: Word, caps: Word,
    formatCaps: seq<FormatDesc>, capacity: D.Workload, limits: Limits)

  function PutAddress(a: Address, rest: Data): Data
    requires |a.addr| < UINT
  {
    PutBytes(a.addr, PutWord(a.port, PutWord(a.resourceType, PutWord(a.subDevice, rest))))
  }

  function GetAddress(bs: Data): Parsed<Address> {
    var (addr, bs) :- GetBytes(MAX_LOCATION_SIZE, bs);
    var (port, bs) :- GetWord(bs);
    var (resourceType, bs) :- GetWord(bs);
    var (subDevice, bs) :- GetWord(bs);
    Done(Address(addr, port, resourceType, subDevice), bs)
  }

  lemma AddressRoundTrip(a: Address, rest: Data)
    requires |a.addr| <= MAX_LOCATION_SIZE
    ensures GetAddress(PutAddress(a, rest)) == Done(a, rest)
  {
    hide PutWord, GetWord, PutBytes, GetBytes;
    WordsInvert();
    BytesRoundTrip(MAX_LOCATION_SIZE, a.addr, PutWord(a.port, PutWord(a.resourceType, PutWord(a.subDevice, rest))));
  }

  function PutFormat(f: FormatDesc, rest: Data): Data {
    PutWord(f.format, PutWord(f.caps, rest))
  }

  function GetFormat(bs: Data): Parsed<FormatDesc> {
    var (format, bs) :- GetWord(bs);
    var (caps, bs) :- GetWord(bs);
    Done(FormatDesc(format, caps), bs)
  }

  lemma FormatsInvert()
    ensures Inverse(PutFormat, GetFormat)
  {
    WordsInvert();
    hide PutWord, GetWord;
    forall f, rest ensures GetFormat(PutFormat(f, rest)) == Done(f, rest) {}
  }

  function PutWorkload(w: D.Workload, rest: Data): Data {
    PutWord(w.megaFlops, PutWord(w.megaOps, PutWord(w.llcSizeKB, PutWord(w.llcBandwidthMBSec, PutWord(w.localMemSizeKB,
    PutWord(w.localMemBandwidthMBSec, PutWord(w.nonLocalMemSizeKB, PutWord(w.nonLocalMemBandwidthMBSec,
    PutWord(w.interconnectBandwidthMBSec, rest)))))))))
  }

  function GetWorkload(bs: Data): Parsed<D.Workload> {
    var (megaFlops, bs) :- GetWord(bs);
    var (megaOps, bs) :- GetWord(bs);
    var (llcSizeKB, bs) :- GetWord(bs);
    var (llcBandwidthMBSec, bs) :- GetWord(bs);
    var (localMemSizeKB, bs) :- GetWord(bs);
    var (localMemBandwidthMBSec, bs) :- GetWord(bs);
    var (nonLocalMemSizeKB, bs) :- GetWord(bs);
    var (nonLocalMemBandwidthMBSec, bs) :- GetWord(bs);
    var (interconnectBandwidthMBSec, bs) :- GetWord(bs);
    Done(D.Workload(megaFlops, megaOps, llcSizeKB, llcBandwidthMBSec, localMemSizeKB, localMemBandwidthMBSec,
                    nonLocalMemSizeKB, nonLocalMemBandwidthMBSec, interconnectBandwidthMBSec), bs)
  }

  lemma WorkloadRoundTrip(w: D.Workload, rest: Data)
    ensures GetWorkload(PutWorkload(w, rest)) == Done(w, rest)
  {
    WordsInvert();
    hide PutWord, GetWord;
  }

  function PutLimits(m: Limits, rest: Data): Data {
    PutWord(m.maxContexts, PutWord(m.maxQueues, PutWord(m.maxEvents, PutWord(m.maxFences, PutWord(m.maxSurfaces,
    PutWord(m.maxMappings, rest))))))
  }

  function GetLimits(bs: Data): Parsed<Limits> {
    var (maxContexts, bs) :- GetWord(bs);
    var (maxQueues, bs) :- GetWord(bs);
    var (maxEvents, bs) :- GetWord(bs);
    var (maxFences, bs) :- GetWord(bs);
    var (maxSurfaces, bs) :- GetWord(bs);
    var (maxMappings, bs) :- GetWord(bs);
    Done(Limits(maxContexts, maxQueues, maxEvents, maxFences, maxSurfaces, maxMappings), bs)
  }

  lemma LimitsRoundTrip(m: Limits, rest: Data)
    ensures GetLimits(PutLimits(m, rest)) == Done(m, rest)
  {
    WordsInvert();
    hide PutWord, GetWord;
  }

  /** The lengths that can be written. */
  predicate Sized(d: Desc) {
    |d.parentAddr.addr| < UINT && |d.formatCaps| < UINT
  }

  function PutDesc(d: Desc, rest: Data): Data
    requires Sized(d)
  {
    PutWord(d.parentId, PutAddress(d.parentAddr, PutWord(d.typeMask, PutWord(d.architecture, PutWord(d.caps,
    PutArray(PutFormat, d.formatCaps, PutWorkload(d.capacity, PutLimits(d.limits, rest))))))))
  }

  function GetDesc(bs: Data): Parsed<Desc> {
    var (parentId, bs) :- GetWord(bs);
    var (parentAddr, bs) :- GetAddress(bs);
    var (typeMask, bs) :- GetWord(bs);
    var (architecture, bs) :- GetWord(bs);
    var (caps, bs) :- GetWord(bs);
    var (formatCaps, bs) :- GetArray(GetFormat, bs);
    var (capacity, bs) :- GetWorkload(bs);
    var (limits, bs) :- GetLimits(bs);
    Done(Desc(parentId, parentAddr, typeMask, architecture, caps, formatCaps, capacity, limits), bs)
  }

  /** A descriptor survives the wire if and only if its address fits the four bytes that the reader admits. */
  lemma DescRoundTripIff(d: Desc, rest: Data)
    requires Sized(d)
    ensures GetDesc(PutDesc(d, rest)) == Done(d, rest) <==> |d.parentAddr.addr| <= MAX_LOCATION_SIZE
  {
    hide PutWord, GetWord, PutAddress, GetAddress, PutArray, GetArray, PutWorkload, GetWorkload, PutLimits, GetLimits;
    var limits := PutLimits(d.limits, rest);
    var capacity := PutWorkload(d.capacity, limits);
    var formats := PutArray(PutFormat, d.formatCaps, capacity);
    var caps := PutWord(d.typeMask, PutWord(d.architecture, PutWord(d.caps, formats)));
    WordsInvert();
    if |d.parentAddr.addr| <= MAX_LOCATION_SIZE {
      AddressRoundTrip(d.parentAddr, caps);
    } else {
      LongAddressStuck(d.parentAddr, caps);
    }
    FormatsInvert();
    ArrayRoundTrip(PutFormat, GetFormat, d.formatCaps, capacity);
    WorkloadRoundTrip(d.capacity, limits);
    LimitsRoundTrip(d.limits, rest);
  }

  lemma LongAddressStuck(a: Address, rest: Data)
    requires MAX_LOCATION_SIZE < |a.addr| < UINT
    ensures GetAddress(PutAddress(a, rest)) == Stuck
  {
    var tail := PutWord(a.port, PutWord(a.resourceType, PutWord(a.subDevice, rest)));
    WordRoundTrip(|a.addr|, a.addr + (Zeros(Padding(|a.addr|)) + tail));
  }

  // ---------------------------------------------------------------------
  // Dispatches
  // ---------------------------------------------------------------------

  datatype SurfaceId = SurfaceId(kind: Word, handleType: Word, id: Word, instance: Word, offset: Word, generation: Word)

  /** The identifier of a queue, a kernel or a sampler within a context. */
  datatype ContextItem = ContextItem(cid: Word, id: Word)

  datatype KernelArg = KernelArg(queue: ContextItem, index: Word, kind: Word, usage: Word, surf: SurfaceId, sampler: ContextItem)

  datatype DispatchOp = DispatchOp(
    queue: ContextItem, kernel: ContextItem, dimension: Word,
    globalWorkOffset: seq<Word>, globalWorkSize: seq<Word>, localWorkSize: seq<Word>,
    args: seq<KernelArg>, refs: seq<SurfaceId>)

  function PutSurfaceId(s: SurfaceId, rest: Data): Data {
    PutWord(s.kind, PutWord(s.handleType, PutWord(s.id, PutWord(s.instance, PutWord(s.offset, PutWord(s.generation, rest))))))
  }

  function GetSurfaceId(bs: Data): Parsed<SurfaceId> {
    var (kind, bs) :- GetWord(bs);
    var (handleType, bs) :- GetWord(bs);
    var (id, bs) :- GetWord(bs);
    var (instance, bs) :- GetWord(bs);
    var (offset, bs) :- GetWord(bs);
    var (generation, bs) :- GetWord(bs);
    Done(SurfaceId(kind, handleType, id, instance, offset, generation), bs)
  }

  function PutItem(c: ContextItem, rest: Data): Data {
    PutWord(c.cid, PutWord(c.id, rest))
  }

  function GetItem(bs: Data): Parsed<ContextItem> {
    var (cid, bs) :- GetWord(bs);
    var (id, bs) :- GetWord(bs);
    Done(ContextItem(cid, id), bs)
  }

  function PutArg(a: KernelArg, rest: Data): Data {
    PutItem(a.queue, PutWord(a.index, PutWord(a.kind, PutWord(a.usage, PutSurfaceId(a.surf, PutItem(a.sampler, rest))))))
  }

  function GetArg(bs: Data): Parsed<KernelArg> {
    var (queue, bs) :- GetItem(bs);
    var (index, bs) :- GetWord(bs);
    var (kind, bs) :- GetWord(bs);
    var (usage, bs) :- GetWord(bs);
    var (surf, bs) :- GetSurfaceId(bs);
    var (sampler, bs) :- GetItem(bs);
    Done(KernelArg(queue, index, kind, usage, surf, sampler), bs)
  }

  lemma SurfaceIdsInvert()
    ensures Inverse(PutSurfaceId, GetSurfaceId)
  {
    WordsInvert();
    hide PutWord, GetWord;
    forall s, rest ensures GetSurfaceId(PutSurfaceId(s, rest)) == Done(s, rest) {}
  }

  lemma ItemsInvert()
    ensures Inverse(PutItem, GetItem)
  {
    WordsInvert();
    hide PutWord, GetWord;
    forall c, rest ensures GetItem(PutItem(c, rest)) == Done(c, rest) {}
  }

  lemma ArgsInvert()
    ensures Inverse(PutArg, GetArg)
  {
    WordsInvert();
    SurfaceIdsInvert();
    ItemsInvert();
    hide PutWord, GetWord, PutSurfaceId, GetSurfaceId, PutItem, GetItem;
    forall a, rest ensures GetArg(PutArg(a, rest)) == Done(a, rest) {}
  }

  predicate SizedOp(op: DispatchOp) {
    && |op.globalWorkOffset| < UINT && |op.globalWorkSize| < UINT && |op.localWorkSize| < UINT
    && |op.args| < UINT && |op.refs| < UINT
  }

  function PutDispatch(op: DispatchOp, rest: Data): Data
    requires SizedOp(op)
  {
    PutItem(op.queue, PutItem(op.kernel, PutWord(op.dimension, PutArray(PutWord, op.globalWorkOffset,
    PutArray(PutWord, op.globalWorkSize, PutArray(PutWord, op.localWorkSize, PutArray(PutArg, op.args,
    PutArray(PutSurfaceId, op.refs, rest))))))))
  }

  function GetDispatch(bs: Data): Parsed<DispatchOp> {
    var (queue, bs) :- GetItem(bs);
    var (kernel, bs) :- GetItem(bs);
    var (dimension, bs) :- GetWord(bs);
    var (globalWorkOffset, bs) :- GetArray(GetWord, bs);
    var (globalWorkSize, bs) :- GetArray(GetWord, bs);
    var (localWorkSize, bs) :- GetArray(GetWord, bs);
    var (args, bs) :- GetArray(GetArg, bs);
    var (refs, bs) :- GetArray(GetSurfaceId, bs);
    Done(DispatchOp(queue, kernel, dimension, globalWorkOffset, globalWorkSize, localWorkSize, args, refs), bs)
  }

  /** Every dispatch survives the wire. */
  lemma DispatchRoundTrip(op: DispatchOp, rest: Data)
    requires SizedOp(op)
    ensures GetDispatch(PutDispatch(op, rest)) == Done(op, rest)
  {
    hide PutWord, GetWord, PutItem, GetItem, PutArg, GetArg, PutSurfaceId, GetSurfaceId, PutArray, GetArray;
    WordsInvert();
    ItemsInvert();
    ArgsInvert();
    SurfaceIdsInvert();
    var refs := PutArray(PutSurfaceId, op.refs, rest);
    var args := PutArray(PutArg, op.args, refs);
    var local := PutArray(PutWord, op.localWorkSize, args);
    var global := PutArray(PutWord, op.globalWorkSize, local);
    ArrayRoundTrip(PutSurfaceId, GetSurfaceId, op.refs, rest);
    ArrayRoundTrip(PutArg, GetArg, op.args, refs);
    ArrayRoundTrip(PutWord, GetWord, op.localWorkSize, args);
    ArrayRoundTrip(PutWord, GetWord, op.globalWorkSize, local);
    ArrayRoundTrip(PutWord, GetWord, op.globalWorkOffset, global);
  }

  // ---------------------------------------------------------------------
  // Return statuses: a union over the error number, and optional data (sections 4.15 and 4.19)
  // ---------------------------------------------------------------------

  datatype Status = Status(nonce: Data, status: Word)

  datatype ReturnStatus = ReturnStatus(errno: int, ret: Option<Status>)

  predicate SizedStatus(r: ReturnStatus) {
    IsInt(r.errno) && (r.ret.Some? ==> |r.ret.value.nonce| < UINT)
  }

  function PutStatus(s: Status, rest: Data): Data
    requires |s.nonce| < UINT
  {
    PutBytes(s.nonce, PutWord(s.status, rest))
  }

  function GetStatus(bs: Data): Parsed<Status> {
    var (nonce, bs) :- GetBytes(MAX_NONCE_SIZE, bs);
    var (status, bs) :- GetWord(bs);
    Done(Status(nonce, status), bs)
  }

  function PutReturnStatus(r: ReturnStatus, rest: Data): Data
    requires SizedStatus(r)
  {
    PutWord(r.errno % UINT,
      if r.errno != 0 then rest
      else match r.ret
           case None => PutWord(0, rest)
           case Some(s) => PutWord(1, PutStatus(s, rest)))
  }

  function GetReturnStatus(bs: Data): Parsed<ReturnStatus> {
    var (errno, bs) :- GetInt(bs);
    if errno != 0 then Done(ReturnStatus(errno, None), bs)
    else
      var (present, bs) :- GetWord(bs);
      if present == 0 then Done(ReturnStatus(errno, None), bs)
      else
        var (s, bs) :- GetStatus(bs);
        Done(ReturnStatus(errno, Some(s)), bs)
  }

  /**
   A return status survives the wire if and only if it carries a result only with
   error number 0, and then one whose nonce the reader admits.
   */
  lemma ReturnStatusRoundTripIff(r: ReturnStatus, rest: Data)
    requires SizedStatus(r)
    ensures GetReturnStatus(PutReturnStatus(r, rest)) == Done(r, rest) <==>
            r.ret.None? || (r.errno == 0 && |r.ret.value.nonce| <= MAX_NONCE_SIZE)
  {
    hide PutWord, GetWord, GetInt, PutStatus, GetStatus;
    WordsInvert();
    if r.errno != 0 {
      IntRoundTrip(r.errno, rest);
    } else {
      match r.ret
      case None => IntRoundTrip(0, PutWord(0, rest));
      case Some(s) =>
        IntRoundTrip(0, PutWord(1, PutStatus(s, rest)));
        StatusRoundTrip(s, rest);
    }
  }

  lemma StatusRoundTrip(s: Status, rest: Data)
    requires |s.nonce| < UINT
    ensures GetStatus(PutStatus(s, rest)) == if |s.nonce| <= MAX_NONCE_SIZE then Done(s, rest) else Stuck
  {
    var tail := PutWord(s.status, rest);
    WordRoundTrip(s.status, rest);
    if |s.nonce| <= MAX_NONCE_SIZE {
      BytesRoundTrip(MAX_NONCE_SIZE, s.nonce, tail);
    } else {
      WordRoundTrip(|s.nonce|, s.nonce + (Zeros(Padding(|s.nonce|)) + tail));
    }
  }
}
