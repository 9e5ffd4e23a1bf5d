/**
 Accelerator descriptors as allocator elements, common/inc/vmaccel_types_desc.hpp.
 A capacity has nine dimensions of `unsigned int`; three of them are compared.
 */
module DescAmounts {
  import opened Options
  import opened IdentifierDb
  import opened IdentifierRuns
  import opened Pool
  import opened Totals
  import opened Allocator
  import opened AllocatorPieces
  import opened Closure
  import opened Ledger
  import opened Scalars
  import opened ScalarRuns

  type Uint32 = x: nat | x < UINT witness 0

  datatype Workload = Workload(
    megaFlops: Uint32, megaOps: Uint32, llcSizeKB: Uint32, llcBandwidthMBSec: Uint32, localMemSizeKB: Uint32,
    localMemBandwidthMBSec: Uint32, nonLocalMemSizeKB: Uint32, nonLocalMemBandwidthMBSec: Uint32,
    interconnectBandwidthMBSec: Uint32)

  /** The fields of a descriptor that are copied, not divided. */
  datatype Attributes = Attributes(
    parentId: nat, parentAddr: seq<nat>, typeMask: nat, architecture: nat, caps: nat, formatCaps: seq<(nat, nat)>,
    maxContexts: nat, maxQueues: nat, maxEvents: nat, maxFences: nat, maxSurfaces: nat, maxMappings: nat)

  datatype VMAccelDesc = VMAccelDesc(attributes: Attributes, capacity: Workload)

  /** Less in at least one compared dimension. */
  predicate WorkloadLess(a: Workload, b: Workload) {
    a.localMemSizeKB < b.localMemSizeKB || a.megaFlops < b.megaFlops || a.megaOps < b.megaOps
  }

  predicate WorkloadLessEq(a: Workload, b: Workload) {
    a.localMemSizeKB <= b.localMemSizeKB && a.megaFlops <= b.megaFlops && a.megaOps <= b.megaOps
  }

  function Add(x: Uint32, y: Uint32): Uint32 { (x + y) % UINT }

  function Sub(x: Uint32, y: Uint32): Uint32 { (x - y) % UINT }

  function WorkloadAdd(a: Workload, b: Workload): Workload {
    Workload(Add(a.megaFlops, b.megaFlops), Add(a.megaOps, b.megaOps), Add(a.llcSizeKB, b.llcSizeKB),
             Add(a.llcBandwidthMBSec, b.llcBandwidthMBSec), Add(a.localMemSizeKB, b.localMemSizeKB),
             Add(a.localMemBandwidthMBSec, b.localMemBandwidthMBSec), Add(a.nonLocalMemSizeKB, b.nonLocalMemSizeKB),
             Add(a.nonLocalMemBandwidthMBSec, b.nonLocalMemBandwidthMBSec),
             Add(a.interconnectBandwidthMBSec, b.interconnectBandwidthMBSec))
  }

  function WorkloadSub(a: Workload, b: Workload): Workload {
    Workload(Sub(a.megaFlops, b.megaFlops), Sub(a.megaOps, b.megaOps), Sub(a.llcSizeKB, b.llcSizeKB),
             Sub(a.llcBandwidthMBSec, b.llcBandwidthMBSec), Sub(a.localMemSizeKB, b.localMemSizeKB),
             Sub(a.localMemBandwidthMBSec, b.localMemBandwidthMBSec), Sub(a.nonLocalMemSizeKB, b.nonLocalMemSizeKB),
             Sub(a.nonLocalMemBandwidthMBSec, b.nonLocalMemBandwidthMBSec),
             Sub(a.interconnectBandwidthMBSec, b.interconnectBandwidthMBSec))
  }

  function FieldSum(w: Workload): nat {
    w.megaFlops + w.megaOps + w.llcSizeKB + w.llcBandwidthMBSec + w.localMemSizeKB + w.localMemBandwidthMBSec
    + w.nonLocalMemSizeKB + w.nonLocalMemBandwidthMBSec + w.interconnectBandwidthMBSec
  }

  predicate DescLess(a: VMAccelDesc, b: VMAccelDesc) { WorkloadLess(a.capacity, b.capacity) }

  predicate DescLessEq(a: VMAccelDesc, b: VMAccelDesc) { WorkloadLessEq(a.capacity, b.capacity) }

  function DescPlus(a: VMAccelDesc, b: VMAccelDesc): VMAccelDesc {
    a.(capacity := WorkloadAdd(a.capacity, b.capacity))
  }

  function DescMinus(a: VMAccelDesc, b: VMAccelDesc): VMAccelDesc {
    a.(capacity := WorkloadSub(a.capacity, b.capacity))
  }

  /** The nine fields are added up in unsigned arithmetic. */
  predicate DescIsEmpty(a: VMAccelDesc) { FieldSum(a.capacity) % UINT == 0 }

  function DescReserve(a: VMAccelDesc, req: VMAccelDesc): Option<(VMAccelDesc, VMAccelDesc)> {
    if WorkloadLess(a.capacity, req.capacity) then None
    else
      var d := a.(capacity := req.capacity);
      var r := a.(capacity := WorkloadSub(a.capacity, d.capacity));
      if WorkloadLess(r.capacity, a.capacity) then Some((d, r)) else None
  }

  const DESC_ZERO: VMAccelDesc :=
    VMAccelDesc(Attributes(UINT - 1, [], 0, 0, 0, [], 0, 0, 0, 0, 0, 0), Workload(0, 0, 0, 0, 0, 0, 0, 0, 0))

  const DESC_OPS: Ops<VMAccelDesc> :=
    Ops(DESC_ZERO, DescLess, DescLessEq, DescPlus, DescPlus, DescMinus, DescIsEmpty, DescReserve, PerParent)

  // ---------------------------------------------------------------------
  // Dimensions
  // ---------------------------------------------------------------------

  /** The nine dimensions by number; 0, 1 and 4 are compared. */
  function Field(k: nat): VMAccelDesc -> int
    requires k < 9
  {
    if k == 0 then (a: VMAccelDesc) => a.capacity.megaFlops
    else if k == 1 then (a: VMAccelDesc) => a.capacity.megaOps
    else if k == 2 then (a: VMAccelDesc) => a.capacity.llcSizeKB
    else if k == 3 then (a: VMAccelDesc) => a.capacity.llcBandwidthMBSec
    else if k == 4 then (a: VMAccelDesc) => a.capacity.localMemSizeKB
    else if k == 5 then (a: VMAccelDesc) => a.capacity.localMemBandwidthMBSec
    else if k == 6 then (a: VMAccelDesc) => a.capacity.nonLocalMemSizeKB
    else if k == 7 then (a: VMAccelDesc) => a.capacity.nonLocalMemBandwidthMBSec
    else (a: VMAccelDesc) => a.capacity.interconnectBandwidthMBSec
  }

  function DescDims(): seq<VMAccelDesc -> int> {
    [Field(0), Field(1), Field(4)]
  }

  lemma DescAtMost(a: VMAccelDesc, b: VMAccelDesc)
    ensures AtMost(DescDims(), a, b) <==> WorkloadLessEq(a.capacity, b.capacity)
  {
    var dims := DescDims();
    assert dims[0](a) == a.capacity.megaFlops && dims[0](b) == b.capacity.megaFlops;
    assert dims[1](a) == a.capacity.megaOps && dims[1](b) == b.capacity.megaOps;
    assert dims[2](a) == a.capacity.localMemSizeKB && dims[2](b) == b.capacity.localMemSizeKB;
  }

  lemma SmallSub(x: Uint32, y: Uint32)
    requires y <= x
    ensures Sub(x, y) == x - y
  {}

  lemma DescDivides(a: VMAccelDesc, req: VMAccelDesc)
    ensures Divides(DESC_OPS, DescDims(), UINT, a, req)
  {
    var dims := DescDims();
    DescAtMost(req, a);
    if AtMost(dims, req, a) && Proper(dims, UINT, a) && Proper(dims, UINT, req) && Positive(dims, req) {
      assert 0 <= dims[0](a) < UINT && 0 <= dims[1](a) < UINT && 0 <= dims[2](a) < UINT;
      SmallSub(a.capacity.megaFlops, req.capacity.megaFlops);
      SmallSub(a.capacity.megaOps, req.capacity.megaOps);
      SmallSub(a.capacity.localMemSizeKB, req.capacity.localMemSizeKB);
      assert dims[0](req) > 0 || dims[1](req) > 0 || dims[2](req) > 0;
    }
  }

  lemma DescPlusDims(a: VMAccelDesc, b: VMAccelDesc, k: nat)
    requires k < 3 && DescDims()[k](a) + DescDims()[k](b) < UINT
    ensures DescDims()[k](DescPlus(a, b)) == DescDims()[k](a) + DescDims()[k](b)
  {}

  lemma DescLaws()
    ensures Laws(DESC_OPS, DescDims(), UINT)
  {
    hide Proper, Divides, AtMost;
    forall a, b ensures DESC_OPS.less(a, b) <==> !AtMost(DescDims(), b, a) { DescAtMost(b, a); }
    forall a, b ensures DESC_OPS.lessEq(a, b) <==> AtMost(DescDims(), a, b) { DescAtMost(a, b); }
    forall a, b, k | 0 <= k < |DescDims()| && DescDims()[k](a) + DescDims()[k](b) < UINT
      ensures DescDims()[k](DESC_OPS.plus(a, b)) == DescDims()[k](a) + DescDims()[k](b)
    {
      DescPlusDims(a, b, k);
    }
    forall a, req ensures Divides(DESC_OPS, DescDims(), UINT, a, req) { DescDivides(a, req); }
  }

  // ---------------------------------------------------------------------
  // What parts inherit
  // ---------------------------------------------------------------------

  /** Parts carry the attributes of the registered descriptor. */
  function SameAttributes(): (VMAccelDesc, VMAccelDesc) -> bool {
    (reg: VMAccelDesc, a: VMAccelDesc) => a.attributes == reg.attributes
  }

  function AnyDesc(): VMAccelDesc -> bool {
    _ => true
  }

  lemma DescHereditary()
    ensures Hereditary(DESC_OPS, SameAttributes(), AnyDesc(), AnyDesc()) && Uniform(DESC_OPS, SameAttributes())
  {
    forall regs ensures Closed(DESC_OPS, AnyDesc(), PartOf(SameAttributes(), regs)) {}
  }

  /** In every run, a reservation has the requested capacity and the attributes of its resource. */
  lemma DescReservation(deferFree: bool, num: nat, states: seq<State<VMAccelDesc>>, events: seq<Event<VMAccelDesc>>, n: nat)
    requires num <= UINT - 32 && IsRun(DESC_OPS, deferFree, num, states, events) && n < |events|
    requires events[n].Alloc? && events[n].found.Got?
    ensures events[n].req.parent < |states[n].registered|
    ensures events[n].found.d == VMAccelDesc(states[n].registered[events[n].req.parent].attributes, events[n].req.obj.capacity)
  {
    hide Hereditary, IsStep;
    DescHereditary();
    assert forall x :: AnyDesc()(x);
    RunInherits(DESC_OPS, SameAttributes(), AnyDesc(), AnyDesc(), deferFree, num, states, events, n);
  }

  /** Deferring frees is invisible for descriptors, whenever no remainder that is something is taken for nothing. */
  lemma DescDeferredIsInvisible(num: nat, eager: seq<State<VMAccelDesc>>, calls: seq<Event<VMAccelDesc>>,
                                deferred: seq<State<VMAccelDesc>>, calls': seq<Event<VMAccelDesc>>, n: nat)
    requires LegalRun(DESC_OPS, DescDims(), UINT, false, num, eager, calls)
    requires LegalRun(DESC_OPS, DescDims(), UINT, true, num, deferred, calls')
    requires |calls| == |calls'| && forall i :: 0 <= i < |calls| ==> SameCall(calls[i], calls'[i])
    requires forall i :: 0 <= i < |calls| && calls[i].Alloc? ==> eager[i].registeredIds.active == {calls[i].req.parent}
    requires forall i :: 0 <= i < |calls| ==> Lossless(DESC_OPS, DescDims(), calls[i]) && Lossless(DESC_OPS, DescDims(), calls'[i])
    requires n < |calls|
    ensures SameReply(calls[n], calls'[n])
  {
    hide Laws, Hereditary, Uniform, Lossless, IsStep, Legal;
    DescLaws();
    DescHereditary();
    assert forall x :: AnyDesc()(x);
    DeferredIsInvisible(DESC_OPS, DescDims(), UINT, SameAttributes(), AnyDesc(), AnyDesc(), num, eager, calls, deferred, calls', n);
  }

  // ---------------------------------------------------------------------
  // Remainders taken for nothing
  // ---------------------------------------------------------------------

  /** A machine workload is taken for nothing although it is something, exactly when its fields add up to a positive multiple of 2^32. */
  lemma EmptyButSomething(a: VMAccelDesc)
    ensures DescIsEmpty(a) && a.capacity != DESC_ZERO.capacity <==> FieldSum(a.capacity) % UINT == 0 && FieldSum(a.capacity) >= UINT
  {}

  /** A capacity whose remainder adds up to 2^32 vanishes from the pool. */
  lemma WrappedRemainderIsLost()
    ensures var half := 0x8000_0000;
            var a := DESC_ZERO.(capacity := Workload(half, 1, half, 0, 0, 0, 0, 0, 0));
            var req := DESC_ZERO.(capacity := Workload(0, 1, 0, 0, 0, 0, 0, 0, 0));
            var rest := DESC_ZERO.(capacity := Workload(half, 0, half, 0, 0, 0, 0, 0, 0));
            && IsTake(DESC_OPS, [Entry(0, a)], Entry(0, req), [], Got(req, rest))
            && Dropped(DESC_OPS, 0, Got(req, rest)) == [Entry(0, rest)]
  {
    var half := 0x8000_0000;
    var a := DESC_ZERO.(capacity := Workload(half, 1, half, 0, 0, 0, 0, 0, 0));
    var req := DESC_ZERO.(capacity := Workload(0, 1, 0, 0, 0, 0, 0, 0, 0));
    var rest := DESC_ZERO.(capacity := Workload(half, 0, half, 0, 0, 0, 0, 0, 0));
    assert DescReserve(a, req) == Some((req, rest));
    assert RemoveAt([Entry(0, a)], 0) == [];
    assert IsTakeAt(DESC_OPS, [Entry(0, a)], Entry(0, req), [], Got(req, rest), 0);
  }

  /** In every eager run that loses nothing, the compared dimensions of pool and reservations add up, without wrap, to what was registered. */
  lemma DescRunConserves(num: nat, states: seq<State<VMAccelDesc>>, events: seq<Event<VMAccelDesc>>, n: nat)
    requires LegalRun(DESC_OPS, DescDims(), UINT, false, num, states, events) && n < |states|
    requires forall i :: 0 <= i < n ==> Lossless(DESC_OPS, DescDims(), events[i])
    ensures AmountsKept(DescDims(), UINT, states[n]) && states[n].freed == []
    ensures forall p, k :: p in states[n].registeredIds.active && 0 <= k < 3 ==>
              DescDims()[k](states[n].registered[p]) ==
              Total(DescDims()[k], states[n].pool, p) + LiveTotal(DescDims()[k], states[n].live, p)
  {
    hide Laws;
    DescLaws();
    EagerQueue(DESC_OPS, num, states, events, n);
    forall i | 0 <= i < n ensures Nothing(DescDims(), Losses(DESC_OPS, events[i])) {
      EagerQueue(DESC_OPS, num, states, events, i);
      assert Lossless(DESC_OPS, DescDims(), events[i]);
    }
    RunConserves(DESC_OPS, DescDims(), UINT, false, num, states, events, n);
    var s := states[n];
    forall p, k | p in s.registeredIds.active && 0 <= k < 3
      ensures Total(DescDims()[k], s.pool, p) + LiveTotal(DescDims()[k], s.live, p) == DescDims()[k](s.registered[p])
    {
      PiecesTotal(DescDims()[k], s, p);
      assert Total(DescDims()[k], Pieces(s), p) == DescDims()[k](s.registered[p]);
    }
  }

  // ---------------------------------------------------------------------
  // All nine dimensions, modulo 2^32
  // ---------------------------------------------------------------------

  lemma FieldPlus(k: nat, a: VMAccelDesc, b: VMAccelDesc)
    requires k < 9
    ensures Field(k)(DescPlus(a, b)) == (Field(k)(a) + Field(k)(b)) % UINT
  {}

  lemma FieldReserve(k: nat, a: VMAccelDesc, req: VMAccelDesc)
    requires k < 9
    ensures DescReserve(a, req).Some? ==>
              var (d, r) := DescReserve(a, req).value;
              && Field(k)(d) == Field(k)(req)
              && Field(k)(r) == (Field(k)(a) - Field(k)(d)) % UINT
  {}

  lemma SameMod(x: int, x': int, y: int)
    requires x % UINT == x' % UINT
    ensures (x + y) % UINT == (x' + y) % UINT
  {
    ModAdd(x, y, UINT);
    ModAdd(x', y, UINT);
  }

  lemma FreeDescMod(k: nat, pool: seq<Entry<VMAccelDesc>>, obj: Entry<VMAccelDesc>, pool': seq<Entry<VMAccelDesc>>, p: nat)
    requires k < 9 && IsFreeObj(DESC_OPS, pool, obj, pool')
    ensures Total(Field(k), pool', p) % UINT == (Total(Field(k), pool, p) + Share(Field(k), obj, p)) % UINT
  {
    hide IsFreeObj;
    var m := Field(k);
    var i, v := FreeObjCases(DESC_OPS, pool, obj, pool');
    if i == |pool| {
      IsInsertTotal(DESC_OPS, m, pool, obj, pool', p);
    } else {
      IsReplaceTotal(DESC_OPS, m, pool, i, v, pool', p);
      FieldPlus(k, pool[i].obj, obj.obj);
      if obj.parent == p {
        ModAdd(m(pool[i].obj) + m(obj.obj), Total(m, pool, p) - m(pool[i].obj), UINT);
      }
    }
  }

  /** A reservation takes its capacity from the pool, in every dimension; a remainder taken for nothing is lost. */
  lemma TakeDescMod(k: nat, pool: seq<Entry<VMAccelDesc>>, req: Entry<VMAccelDesc>, pool': seq<Entry<VMAccelDesc>>,
                    found: Found<VMAccelDesc>, p: nat)
    requires k < 9 && IsTake(DESC_OPS, pool, req, pool', found) && found.Got?
    requires DescIsEmpty(found.rest) ==> Field(k)(found.rest) == 0
    ensures Total(Field(k), pool, p) % UINT
         == (Total(Field(k), pool', p) + Share(Field(k), Entry(req.parent, found.d), p)) % UINT
  {
    hide IsFreeObj, Total, Field, DescIsEmpty, DescReserve;
    var m := Field(k);
    var i: nat :| IsTakeAt(DESC_OPS, pool, req, pool', found, i);
    var a, base, d, r := pool[i], RemoveAt(pool, i), found.d, found.rest;
    TotalRemove(m, pool, i, p);
    FieldReserve(k, a.obj, req.obj);
    if !DescIsEmpty(r) { FreeDescMod(k, base, Entry(req.parent, r), pool', p); }
    TakenMod(Total(m, base, p), Total(m, pool', p), Share(m, a, p), Share(m, Entry(req.parent, d), p),
             Share(m, Entry(req.parent, r), p));
  }

  lemma MovedMod(pool: int, pool': int, d: int, live: int)
    requires pool % UINT == (pool' + d) % UINT
    ensures (pool + live) % UINT == (pool' + (live + d)) % UINT
  {
    SameMod(pool, pool' + d, live);
  }

  lemma TakenMod(base: int, pool': int, a: int, d: int, r: int)
    requires r == (a - d) % UINT && pool' % UINT == (base + r) % UINT
    ensures (base + a) % UINT == (pool' + d) % UINT
  {
    SameMod(pool', base + r, d);
    ModAdd(a - d, base + d, UINT);
  }

  lemma CoalesceOneMod(k: nat, pool: seq<Entry<VMAccelDesc>>, obj: Entry<VMAccelDesc>, pool': seq<Entry<VMAccelDesc>>, p: nat)
    requires k < 9 && IsCoalesce(DESC_OPS, pool, [obj], pool')
    ensures Total(Field(k), pool', p) % UINT == (Total(Field(k), pool, p) + Share(Field(k), obj, p)) % UINT
  {
    hide IsFreeObj;
    var mid :| IsFreeObj(DESC_OPS, pool, obj, mid) && IsCoalesce(DESC_OPS, mid, [obj][1..], pool');
    FreeDescMod(k, pool, obj, mid, p);
  }

  /** Pool and reservations of every resource add up to its registered capacity in dimension k, modulo 2^32. */
  ghost predicate ConservedMod(k: nat, s: State<VMAccelDesc>)
    requires k < 9 && s.Shaped()
  {
    forall p :: p in s.registeredIds.active ==>
      (Total(Field(k), s.pool, p) + LiveTotal(Field(k), s.live, p)) % UINT == Field(k)(s.registered[p]) % UINT
  }

  /** No remainder that is something is taken for nothing, in all nine dimensions. */
  predicate NoneWrapped(e: Event<VMAccelDesc>) {
    e.Alloc? && e.found.Got? && DescIsEmpty(e.found.rest) ==> e.found.rest.capacity == DESC_ZERO.capacity
  }

  lemma StepConservesMod(k: nat, s: State<VMAccelDesc>, e: Event<VMAccelDesc>, s': State<VMAccelDesc>)
    requires k < 9 && Kept(s) && Kept(s') && s.freed == [] && ConservedMod(k, s) && IsStep(DESC_OPS, false, s, e, s') && NoneWrapped(e)
    ensures ConservedMod(k, s')
  {
    hide IsFreeObj, IsCoalesce, Counted, Total, LiveTotal, IsSearch, Kept, NoneWrapped, Field;
    match e
    case Register(obj, r) =>
      if r.Allocated? { RegisterMod(k, s, obj, r, s'); }
    case Unregister(id, status) =>
      if status == SUCCESS { UnregisterMod(k, s, id, s'); }
    case Alloc(req, r, found, lost) =>
      if r.Allocated? && found.Got? {
        EmptyQueueMisses(s.pool, req, s'.pool, s'.freed, lost, found);
        FreshSlot(s, r);
        AllocMod(k, s, e, s');
      } else if r.Allocated? {
        UnservedPool(s.pool, req, s'.pool, s'.freed, lost, found);
      }
    case Free(id) =>
      FreeMod(k, s, id, s');
  }

  lemma FreshSlot(s: State<VMAccelDesc>, r: AllocOutcome)
    requires Kept(s) && r.Allocated? && r.id < |s.live| && r.id !in s.externalIds.active
    ensures s.live[r.id].None?
  {}

  lemma AllocMod(k: nat, s: State<VMAccelDesc>, e: Event<VMAccelDesc>, s': State<VMAccelDesc>)
    requires k < 9 && s.Shaped() && s'.Shaped() && ConservedMod(k, s) && e.Alloc? && NoneWrapped(e) && e.found.Got? && e.reservation.Allocated?
    requires IsTake(DESC_OPS, s.pool, e.req, s'.pool, e.found)
    requires e.reservation.id < |s.live| && s.live[e.reservation.id].None?
    requires s'.live == s.live[e.reservation.id := Some(Entry(e.req.parent, e.found.d))]
    requires s'.registered == s.registered && s'.registeredIds == s.registeredIds
    ensures ConservedMod(k, s')
  {
    hide IsTake, Total, LiveTotal, Field, DescIsEmpty;
    var m := Field(k);
    if DescIsEmpty(e.found.rest) { FieldZero(k, e.found.rest); }
    forall p | p in s'.registeredIds.active
      ensures (Total(m, s'.pool, p) + LiveTotal(m, s'.live, p)) % UINT == m(s'.registered[p]) % UINT
    {
      TakeDescMod(k, s.pool, e.req, s'.pool, e.found, p);
      LiveTotalUpdate(m, s.live, e.reservation.id, s'.live[e.reservation.id], p);
      MovedMod(Total(m, s.pool, p), Total(m, s'.pool, p), Share(m, Entry(e.req.parent, e.found.d), p), LiveTotal(m, s.live, p));
    }
  }

  lemma FreeMod(k: nat, s: State<VMAccelDesc>, id: nat, s': State<VMAccelDesc>)
    requires k < 9 && s.Shaped() && s'.Shaped() && s.freed == [] && ConservedMod(k, s) && IsFree(DESC_OPS, false, s, id, s')
    ensures ConservedMod(k, s')
  {
    hide IsCoalesce, Total, LiveTotal;
    var m, obj := Field(k), s.live[id].value;
    assert s.freed + [obj] == [obj];
    forall p | p in s'.registeredIds.active
      ensures (Total(m, s'.pool, p) + LiveTotal(m, s'.live, p)) % UINT == m(s'.registered[p]) % UINT
    {
      CoalesceOneMod(k, s.pool, obj, s'.pool, p);
      LiveTotalUpdate(m, s.live, id, None, p);
      SameMod(Total(m, s'.pool, p), Total(m, s.pool, p) + Share(m, obj, p), LiveTotal(m, s'.live, p));
    }
  }

  lemma EmptyQueueMisses(pool: seq<Entry<VMAccelDesc>>, req: Entry<VMAccelDesc>, pool': seq<Entry<VMAccelDesc>>,
                         queue': seq<Entry<VMAccelDesc>>, lost: seq<Entry<VMAccelDesc>>, found: Found<VMAccelDesc>)
    requires IsSearch(DESC_OPS, pool, [], req, pool', queue', lost, found) && found.Got?
    ensures IsTake(DESC_OPS, pool, req, pool', found)
  {
    hide IsTake;
  }

  lemma UnservedPool(pool: seq<Entry<VMAccelDesc>>, req: Entry<VMAccelDesc>, pool': seq<Entry<VMAccelDesc>>,
                     queue': seq<Entry<VMAccelDesc>>, lost: seq<Entry<VMAccelDesc>>, found: Found<VMAccelDesc>)
    requires IsSearch(DESC_OPS, pool, [], req, pool', queue', lost, found) && !found.Got?
    ensures pool' == pool
  {
    hide IsFreeObj;
  }

  lemma RegisterMod(k: nat, s: State<VMAccelDesc>, obj: VMAccelDesc, r: AllocOutcome, s': State<VMAccelDesc>)
    requires k < 9 && Kept(s) && Kept(s') && ConservedMod(k, s) && IsRegister(DESC_OPS, s, obj, r, s') && r.Allocated?
    ensures ConservedMod(k, s')
  {
    hide IsFreeObj, Counted, Total, LiveTotal;
    var m := Field(k);
    forall p | p in s'.registeredIds.active
      ensures (Total(m, s'.pool, p) + LiveTotal(m, s'.live, p)) % UINT == m(s'.registered[p]) % UINT
    {
      FreeDescMod(k, s.pool, Entry(r.id, obj), s'.pool, p);
      SameMod(Total(m, s'.pool, p), Total(m, s.pool, p) + Share(m, Entry(r.id, obj), p), LiveTotal(m, s.live, p));
      if p == r.id {
        TotalNone(m, s.pool, p);
        LiveTotalNone(m, s.live, p);
      }
    }
  }

  lemma UnregisterMod(k: nat, s: State<VMAccelDesc>, q: nat, s': State<VMAccelDesc>)
    requires k < 9 && Kept(s) && Kept(s') && s.freed == [] && ConservedMod(k, s) && IsUnregister(DESC_OPS, s, q, SUCCESS, s')
    ensures ConservedMod(k, s')
  {
    hide IsFreeObj, Counted, Total, LiveTotal, Without;
    var mid :| IsCoalesce(DESC_OPS, s.pool, s.freed, mid) && s'.pool == Without(mid, q);
    forall p | p in s'.registeredIds.active
      ensures (Total(Field(k), s'.pool, p) + LiveTotal(Field(k), s'.live, p)) % UINT == Field(k)(s'.registered[p]) % UINT
    {
      WithoutTotal(Field(k), mid, q, p);
    }
  }

  /** In every eager run that wraps no remainder, all nine dimensions are conserved modulo 2^32. */
  lemma {:induction false} DescRunConservesMod(k: nat, num: nat, states: seq<State<VMAccelDesc>>, events: seq<Event<VMAccelDesc>>, n: nat)
    requires k < 9 && num <= UINT - 32 && IsRun(DESC_OPS, false, num, states, events) && n < |states|
    requires forall i :: 0 <= i < n ==> NoneWrapped(events[i])
    ensures Kept(states[n]) && states[n].freed == [] && ConservedMod(k, states[n])
  {
    hide IsStep, NoneWrapped;
    RunKeeps(DESC_OPS, false, num, states, events, n);
    EagerQueue(DESC_OPS, num, states, events, n);
    if n > 0 {
      DescRunConservesMod(k, num, states, events, n - 1);
      assert NoneWrapped(events[n - 1]);
      StepConservesMod(k, states[n - 1], events[n - 1], states[n]);
    }
  }

  // ---------------------------------------------------------------------
  // Freeing everything restores what was registered
  // ---------------------------------------------------------------------

  /** An entry for p, found by its total. */
  lemma OnlyEntry(pool: seq<Entry<VMAccelDesc>>, p: nat, i: nat, m: VMAccelDesc -> int)
    requires OnePerParent(pool) && i < |pool| && pool[i].parent == p
    ensures Total(m, pool, p) == m(pool[i].obj)
  {
    TotalRemove(m, pool, i, p);
    TotalNone(m, RemoveAt(pool, i), p);
  }

  lemma EntryRestored(s: State<VMAccelDesc>, p: nat) returns (i: nat)
    requires Kept(s) && OnePerParent(s.pool) && p in s.registeredIds.active && s.refCount[p] == 0
    requires forall k: nat :: k < 9 ==> ConservedMod(k, s)
    requires s.registered[p].capacity != DESC_ZERO.capacity
    requires forall j :: 0 <= j < |s.pool| && s.pool[j].parent == p ==> s.pool[j].obj.attributes == s.registered[p].attributes
    ensures i < |s.pool| && s.pool[i] == Entry(p, s.registered[p])
  {
    hide Total, LiveTotal, Counted, Field, OnePerParent;
    i := 0;
    LiveCountZero(s.live, p);
    var reg := s.registered[p];
    forall k: nat | k < 9 ensures Total(Field(k), s.pool, p) % UINT == Field(k)(reg) % UINT {
      assert ConservedMod(k, s);
      LiveTotalNone(Field(k), s.live, p);
    }
    if j :| 0 <= j < |s.pool| && s.pool[j].parent == p {
      i := j;
      forall k: nat | k < 9 ensures Field(k)(s.pool[i].obj) % UINT == Field(k)(reg) % UINT { OnlyEntry(s.pool, p, i, Field(k)); }
      SameFields(s.pool[i].obj, reg);
    } else {
      var nil := reg.(capacity := DESC_ZERO.capacity);
      forall k: nat | k < 9 ensures Field(k)(reg) % UINT == Field(k)(nil) % UINT {
        TotalNone(Field(k), s.pool, p);
        FieldZero(k, nil);
      }
      SameFields(reg, nil);
    }
  }

  lemma FieldZero(k: nat, a: VMAccelDesc)
    requires k < 9 && a.capacity == DESC_ZERO.capacity
    ensures Field(k)(a) == 0
  {}

  lemma SameFields(a: VMAccelDesc, b: VMAccelDesc)
    requires a.attributes == b.attributes
    requires forall k: nat :: k < 9 ==> Field(k)(a) % UINT == Field(k)(b) % UINT
    ensures a == b
  {
    FieldAgrees(a, b, 0);
    FieldAgrees(a, b, 1);
    FieldAgrees(a, b, 2);
    FieldAgrees(a, b, 3);
    FieldAgrees(a, b, 4);
    FieldAgrees(a, b, 5);
    FieldAgrees(a, b, 6);
    FieldAgrees(a, b, 7);
    FieldAgrees(a, b, 8);
  }

  lemma FieldAgrees(a: VMAccelDesc, b: VMAccelDesc, k: nat)
    requires k < 9 && Field(k)(a) % UINT == Field(k)(b) % UINT
    ensures Field(k)(a) == Field(k)(b)
  {
    FieldRange(a, k);
    FieldRange(b, k);
  }

  lemma FieldRange(a: VMAccelDesc, k: nat)
    requires k < 9
    ensures 0 <= Field(k)(a) < UINT
  {}

  /**
   In every eager run that wraps no remainder: when no reservation of p is left,
   however and in whatever order they were freed, the pool holds exactly the
   registered descriptor of p, in all nine dimensions and in its attributes.
   */
  lemma FreeingAllRestores(num: nat, states: seq<State<VMAccelDesc>>, events: seq<Event<VMAccelDesc>>, n: nat, p: nat) returns (i: nat)
    requires LegalRun(DESC_OPS, DescDims(), UINT, false, num, states, events) && n < |states|
    requires forall i :: 0 <= i < n ==> NoneWrapped(events[i])
    requires states[n].Shaped() && p in states[n].registeredIds.active && states[n].refCount[p] == 0
    requires states[n].registered[p].capacity != DESC_ZERO.capacity
    ensures i < |states[n].pool| && states[n].pool[i] == Entry(p, states[n].registered[p])
    ensures forall j :: 0 <= j < |states[n].pool| && states[n].pool[j].parent == p ==> j == i
  {
    hide Laws, Hereditary, NoneWrapped, Fits, IsStep, ConservedMod;
    DescLaws();
    DescHereditary();
    RunKeepsAmounts(DESC_OPS, DescDims(), UINT, false, num, states, events, n);
    assert forall x :: AnyDesc()(x);
    RunInherits(DESC_OPS, SameAttributes(), AnyDesc(), AnyDesc(), false, num, states, events, n);
    forall k: nat | k < 9 ensures ConservedMod(k, states[n]) { DescRunConservesMod(k, num, states, events, n); }
    i := EntryRestored(states[n], p);
  }

  /** The books of a descriptor allocator are kept in each of the nine dimensions. */
  lemma DescBooks(k: nat)
    requires k < 9
    ensures Books(DESC_OPS, Field(k), UINT)
  {
    FieldZero(k, DESC_ZERO);
    forall a, b ensures Field(k)(DESC_OPS.addTo(a, b)) == (Field(k)(a) + Field(k)(b)) % UINT { FieldPlus(k, a, b); }
    forall a, b ensures Field(k)(DESC_OPS.subFrom(a, b)) == (Field(k)(a) - Field(k)(b)) % UINT { FieldMinus(k, a, b); }
  }

  lemma FieldMinus(k: nat, a: VMAccelDesc, b: VMAccelDesc)
    requires k < 9
    ensures Field(k)(DescMinus(a, b)) == (Field(k)(a) - Field(k)(b)) % UINT
  {}

  /**
   In every run, the load of a resource is the sum of its reservations in each
   dimension, and capacity and load are all that was ever registered.
   */
  lemma DescRunBooks(k: nat, deferFree: bool, num: nat, states: seq<State<VMAccelDesc>>, events: seq<Event<VMAccelDesc>>, n: nat, p: nat)
    requires k < 9 && num <= UINT - 32 && IsRun(DESC_OPS, deferFree, num, states, events) && n < |states| && p < num
    ensures |states[n].load| == |states[n].capacity| == num
    ensures Field(k)(states[n].load[p]) == LiveTotal(Field(k), states[n].live, p) % UINT
    ensures (Field(k)(states[n].capacity[p]) + Field(k)(states[n].load[p])) % UINT == EverRegistered(Field(k), events, n, p) % UINT
  {
    hide Books, IsStep;
    DescBooks(k);
    RunKeepsBooks(DESC_OPS, Field(k), UINT, deferFree, num, states, events, n, p);
  }
}
