/**
 Descriptor allocators whose inputs keep every remainder from being taken for
 nothing when it is something, and what then holds of them without further condition.
 */
module DescInputs {
  import opened Options
  import opened IdentifierDb
  import opened Pool
  import opened Totals
  import opened Allocator
  import opened AllocatorPieces
  import opened Closure
  import opened Scalars
  import opened ScalarRuns
  import opened AmountDrops
  import opened DescAmounts

  type States = seq<State<VMAccelDesc>>
  type Events = seq<Event<VMAccelDesc>>

  /** The nine fields do not wrap when they are added up. */
  predicate Small(a: VMAccelDesc) {
    FieldSum(a.capacity) < UINT
  }

  /**
   In every run, eager or deferred, whose earlier requests were safe and left no
   remainder that was taken for nothing: a request that names the one registered
   resource is served if and only if an external identifier is free and the request
   and the reservations together are at most the registered capacity in the three
   compared dimensions; a failed request changes nothing but the place of queued
   capacity.
   */
  lemma DescAllocExact(deferFree: bool, num: nat, states: States, events: Events, n: nat)
    requires LegalRun(DESC_OPS, DescDims(), UINT, deferFree, num, states, events)
    requires n < |events| && events[n].Alloc? && states[n].registeredIds.active == {events[n].req.parent}
    requires deferFree ==> SafeCalls(DESC_OPS, states, events, n)
    requires forall i :: 0 <= i < n ==> Lossless(DESC_OPS, DescDims(), events[i])
    ensures events[n].req.parent < |states[n].registered|
    ensures var s, e, p := states[n], events[n], events[n].req.parent;
            e.reservation.Allocated? && e.found.Got? <==>
            && (exists id: nat :: id < |s.live| && id !in s.externalIds.active)
            && FitsField(s, p, e.req.obj, 0) && FitsField(s, p, e.req.obj, 1) && FitsField(s, p, e.req.obj, 4)
    ensures var s, e, s' := states[n], events[n], states[n + 1];
            !(e.reservation.Allocated? && e.found.Got?) ==>
              s' == s.(pool := s'.pool, freed := s'.freed) && SameSums(DescDims(), Pieces(s), Pieces(s')) && (s.freed == [] ==> s' == s)
  {
    hide Laws, SafeCalls, IsStep, Legal, Fits, SameSums, Lossless;
    DescLaws();
    RunAllocExact(DESC_OPS, DescDims(), UINT, deferFree, num, states, events, n);
    DescFitsIff(states[n], events[n].req);
  }

  /** The request fits what is not reserved of resource p, in dimension k. */
  predicate FitsField(s: State<VMAccelDesc>, p: nat, req: VMAccelDesc, k: nat)
    requires k < 9 && p < |s.registered|
  {
    Field(k)(req) + LiveTotal(Field(k), s.live, p) <= Field(k)(s.registered[p])
  }

  lemma DescFitsIff(s: State<VMAccelDesc>, req: Entry<VMAccelDesc>)
    requires s.Shaped() && req.parent < |s.registered|
    ensures FitsUnallocated(DescDims(), s, req.parent, req.obj) <==>
            FitsField(s, req.parent, req.obj, 0) && FitsField(s, req.parent, req.obj, 1) && FitsField(s, req.parent, req.obj, 4)
  {
    hide Field;
    var dims, p := DescDims(), req.parent;
    assert dims[0] == Field(0) && dims[1] == Field(1) && dims[2] == Field(4);
    if FitsUnallocated(dims, s, p, req.obj) {
      assert forall k :: 0 <= k < 3 ==> dims[k](req.obj) + LiveTotal(dims[k], s.live, p) <= dims[k](s.registered[p]);
      assert dims[0](req.obj) + LiveTotal(dims[0], s.live, p) <= dims[0](s.registered[p]);
      assert dims[1](req.obj) + LiveTotal(dims[1], s.live, p) <= dims[1](s.registered[p]);
      assert dims[2](req.obj) + LiveTotal(dims[2], s.live, p) <= dims[2](s.registered[p]);
    }
  }

  // ---------------------------------------------------------------------
  // Descriptors that use the compared dimensions only
  // ---------------------------------------------------------------------

  /** Nothing but the three compared dimensions is used. */
  predicate Plain(a: VMAccelDesc) {
    && a.capacity.llcSizeKB == 0 && a.capacity.llcBandwidthMBSec == 0 && a.capacity.localMemBandwidthMBSec == 0
    && a.capacity.nonLocalMemSizeKB == 0 && a.capacity.nonLocalMemBandwidthMBSec == 0
    && a.capacity.interconnectBandwidthMBSec == 0
  }

  function IsPlain(): VMAccelDesc -> bool {
    (a: VMAccelDesc) => Plain(a)
  }

  function PlainAndSmall(): VMAccelDesc -> bool {
    (a: VMAccelDesc) => Plain(a) && Small(a)
  }

  function PlainPart(): (VMAccelDesc, VMAccelDesc) -> bool {
    (reg: VMAccelDesc, a: VMAccelDesc) => a.attributes == reg.attributes && Plain(a) && Small(reg)
  }

  lemma PlainHereditary()
    ensures Hereditary(DESC_OPS, PlainPart(), PlainAndSmall(), IsPlain()) && Uniform(DESC_OPS, PlainPart())
  {
    forall regs ensures Closed(DESC_OPS, IsPlain(), PartOf(PlainPart(), regs)) {}
  }

  /** Every registered and every requested descriptor is plain, and the registered ones are small. */
  ghost predicate PlainCalls(events: Events) {
    forall i :: 0 <= i < |events| ==> PlainCall(events[i])
  }

  predicate PlainCall(e: Event<VMAccelDesc>) {
    (e.Register? ==> Plain(e.obj) && Small(e.obj)) && (e.Alloc? ==> Plain(e.req.obj))
  }

  /** What an Alloc drops for nothing is at most the resource, in the compared dimensions. */
  lemma DroppedFits(deferFree: bool, s: State<VMAccelDesc>, e: Event<VMAccelDesc>, s': State<VMAccelDesc>, k: nat)
    requires AmountsKept(DescDims(), UINT, s) && Legal(DescDims(), UINT, e) && IsStep(DESC_OPS, deferFree, s, e, s')
    requires e.Alloc? && e.found.Got? && DescIsEmpty(e.found.rest) && k < 3
    ensures e.req.parent in s.registeredIds.active && 0 <= DescDims()[k](e.found.rest) <= DescDims()[k](s.registered[e.req.parent])
  {
    hide Laws, IsSearch, DescDims, DescIsEmpty, Total;
    DescLaws();
    var dims, out := DescDims(), Losses(DESC_OPS, e);
    var rest := Entry(e.req.parent, e.found.rest);
    AllocSums(DESC_OPS, dims, UINT, deferFree, s, e, s');
    StepKeeps(DESC_OPS, deferFree, s, e, s');
    PiecesParents(s');
    ProperConcat(dims, UINT, Pieces(s'), out);
    FitsSame(dims, UINT, s.registered, s.registeredIds.active, Pieces(s), Pieces(s') + out);
    FitsParts(dims, UINT, s.registered, s.registeredIds.active, Pieces(s'), out);
    assert out[|e.lost|] == rest;
    DimsThree();
    ProperTotal(dims, UINT, out, k, e.req.parent);
    assert Share(dims[k], out[|e.lost|], e.req.parent) <= Total(dims[k], out, e.req.parent);
  }

  lemma DimsThree()
    ensures |DescDims()| == 3
  {}

  lemma DroppedFields(deferFree: bool, s: State<VMAccelDesc>, e: Event<VMAccelDesc>, s': State<VMAccelDesc>)
    requires AmountsKept(DescDims(), UINT, s) && Legal(DescDims(), UINT, e) && IsStep(DESC_OPS, deferFree, s, e, s')
    requires e.Alloc? && e.found.Got? && DescIsEmpty(e.found.rest)
    ensures e.req.parent < |s.registered|
    ensures var rest, reg := e.found.rest.capacity, s.registered[e.req.parent].capacity;
            rest.megaFlops <= reg.megaFlops && rest.megaOps <= reg.megaOps && rest.localMemSizeKB <= reg.localMemSizeKB
  {
    DroppedFits(deferFree, s, e, s', 0);
    DroppedFits(deferFree, s, e, s', 1);
    DroppedFits(deferFree, s, e, s', 2);
    assert s.Shaped();
    hide AmountsKept, Legal, IsStep, DescIsEmpty, DescDims;
    ComparedDims(e.found.rest);
    ComparedDims(s.registered[e.req.parent]);
  }

  lemma PlainStepLossless(deferFree: bool, s: State<VMAccelDesc>, e: Event<VMAccelDesc>, s': State<VMAccelDesc>)
    requires AmountsKept(DescDims(), UINT, s) && Legal(DescDims(), UINT, e) && IsStep(DESC_OPS, deferFree, s, e, s')
    requires e.Alloc? && Plain(e.req.obj) && DividedFrom(DESC_OPS, PartOf(PlainPart(), s.registered), e.req, e.found)
    ensures Lossless(DESC_OPS, DescDims(), e)
  {
    hide AmountsKept, Legal, IsStep, DescIsEmpty, DescDims, DividedFrom;
    if e.found.Got? && DescIsEmpty(e.found.rest) {
      PlainRest(s, e);
      DroppedFields(deferFree, s, e, s');
      PlainEmpty(e.found.rest, s.registered[e.req.parent]);
      ComparedDims(e.found.rest);
    }
  }

  /** In every run of plain calls, eager or deferred, a remainder that is taken for nothing is nothing. */
  lemma PlainRunLossless(deferFree: bool, num: nat, states: States, events: Events, n: nat)
    requires LegalRun(DESC_OPS, DescDims(), UINT, deferFree, num, states, events) && PlainCalls(events) && n < |events|
    ensures Lossless(DESC_OPS, DescDims(), events[n])
  {
    hide Laws, IsStep, Hereditary, Legal, AmountsKept, Uniform, DescDims, DividedFrom;
    DescLaws();
    PlainHereditary();
    forall i | 0 <= i < |events| ensures PlainCall(events[i]) {}
    RunInherits(DESC_OPS, PlainPart(), PlainAndSmall(), IsPlain(), deferFree, num, states, events, n);
    RunKeepsAmounts(DESC_OPS, DescDims(), UINT, deferFree, num, states, events, n);
    assert IsStep(DESC_OPS, deferFree, states[n], events[n], states[n + 1]) && Legal(DescDims(), UINT, events[n]) && PlainCall(events[n]);
    if events[n].Alloc? { PlainStepLossless(deferFree, states[n], events[n], states[n + 1]); }
  }

  lemma PlainRest(s: State<VMAccelDesc>, e: Event<VMAccelDesc>)
    requires e.Alloc? && e.found.Got? && Plain(e.req.obj)
    requires DividedFrom(DESC_OPS, PartOf(PlainPart(), s.registered), e.req, e.found)
    ensures e.req.parent < |s.registered| && Plain(e.found.rest) && Small(s.registered[e.req.parent])
  {
    var q := PartOf(PlainPart(), s.registered);
    var a :| q(Entry(e.req.parent, a)) && DESC_OPS.reserve(a, e.req.obj) == Some((e.found.d, e.found.rest));
  }

  lemma PlainEmpty(rest: VMAccelDesc, reg: VMAccelDesc)
    requires Plain(rest) && Small(reg) && DescIsEmpty(rest)
    requires rest.capacity.megaFlops <= reg.capacity.megaFlops && rest.capacity.megaOps <= reg.capacity.megaOps
    requires rest.capacity.localMemSizeKB <= reg.capacity.localMemSizeKB
    ensures rest.capacity.megaFlops == 0 && rest.capacity.megaOps == 0 && rest.capacity.localMemSizeKB == 0
  {
    hide DescIsEmpty;
    PlainSum(rest.capacity, reg.capacity);
    SmallEmpty(rest);
  }

  lemma PlainSum(w: Workload, v: Workload)
    requires w.llcSizeKB == 0 && w.llcBandwidthMBSec == 0 && w.localMemBandwidthMBSec == 0 && w.nonLocalMemSizeKB == 0
    requires w.nonLocalMemBandwidthMBSec == 0 && w.interconnectBandwidthMBSec == 0
    requires w.megaFlops <= v.megaFlops && w.megaOps <= v.megaOps && w.localMemSizeKB <= v.localMemSizeKB
    ensures FieldSum(w) == w.megaFlops + w.megaOps + w.localMemSizeKB <= FieldSum(v)
  {}

  lemma ComparedDims(a: VMAccelDesc)
    ensures |DescDims()| == 3
    ensures DescDims()[0](a) == a.capacity.megaFlops && DescDims()[1](a) == a.capacity.megaOps && DescDims()[2](a) == a.capacity.localMemSizeKB
  {}

  lemma SmallEmpty(a: VMAccelDesc)
    requires DescIsEmpty(a) && Small(a)
    ensures FieldSum(a.capacity) == 0
  {}

  /** With plain calls, deferring frees is invisible without further condition: same calls on the one registered resource, same replies. */
  lemma PlainDeferredIsInvisible(num: nat, eager: States, calls: Events, deferred: States, calls': Events, n: nat)
    requires LegalRun(DESC_OPS, DescDims(), UINT, false, num, eager, calls)
    requires LegalRun(DESC_OPS, DescDims(), UINT, true, num, deferred, calls')
    requires |calls| == |calls'| && forall i :: 0 <= i < |calls| ==> SameCall(calls[i], calls'[i])
    requires forall i :: 0 <= i < |calls| && calls[i].Alloc? ==> eager[i].registeredIds.active == {calls[i].req.parent}
    requires PlainCalls(calls) && n < |calls|
    ensures SameReply(calls[n], calls'[n])
  {
    hide IsStep, Legal, Lossless;
    forall i | 0 <= i < |calls'| ensures PlainCall(calls'[i]) {
      assert PlainCall(calls[i]) && SameCall(calls[i], calls'[i]);
    }
    forall i | 0 <= i < |calls| ensures Lossless(DESC_OPS, DescDims(), calls[i]) && Lossless(DESC_OPS, DescDims(), calls'[i]) {
      PlainRunLossless(false, num, eager, calls, i);
      PlainRunLossless(true, num, deferred, calls', i);
    }
    DescDeferredIsInvisible(num, eager, calls, deferred, calls', n);
  }

  /** In every run of plain calls, eager or deferred, whose requests are made when they are safe, every resource is conserved. */
  lemma PlainRunConserves(deferFree: bool, num: nat, states: States, events: Events, n: nat)
    requires LegalRun(DESC_OPS, DescDims(), UINT, deferFree, num, states, events) && PlainCalls(events) && n < |states|
    requires deferFree ==> SafeCalls(DESC_OPS, states, events, n)
    ensures AmountsKept(DescDims(), UINT, states[n]) && Conserved(DescDims(), states[n])
  {
    hide Laws, IsStep, Legal, Lossless, SafeCalls, AmountsKept, Conserved, PlainCalls;
    DescLaws();
    forall i | 0 <= i < n ensures Lossless(DESC_OPS, DescDims(), events[i]) { PlainRunLossless(deferFree, num, states, events, i); }
    if !deferFree { EagerSafe(DESC_OPS, num, states, events, n); }
    SafeRunConserves(DESC_OPS, DescDims(), UINT, deferFree, num, states, events, n);
  }

  // ---------------------------------------------------------------------
  // Requests that fit in all nine dimensions
  // ---------------------------------------------------------------------

  /** A request that fits what is not reserved in the compared dimensions fits it in all nine. */
  ghost predicate Modest(s: State<VMAccelDesc>, e: Event<VMAccelDesc>) {
    && (e.Register? ==> Small(e.obj))
    && (e.Alloc? && e.req.parent in s.registeredIds.active && e.req.parent < |s.registered| ==>
          var p, req := e.req.parent, e.req.obj;
          FitsField(s, p, req, 0) && FitsField(s, p, req, 1) && FitsField(s, p, req, 4) ==> forall k: nat :: k < 9 ==> FitsField(s, p, req, k))
  }

  /** The registered descriptors are small, and their reservations are at most them in all nine dimensions. */
  ghost predicate LiveFits(s: State<VMAccelDesc>)
    requires s.Shaped()
  {
    forall p :: p in s.registeredIds.active ==>
      Small(s.registered[p]) && forall k: nat :: k < 9 ==> LiveTotal(Field(k), s.live, p) <= Field(k)(s.registered[p])
  }

  lemma ModEqual(x: int, live: int, reg: int)
    requires (x + live) % UINT == reg % UINT && 0 <= x < UINT && 0 <= live <= reg < UINT
    ensures x == reg - live
  {
    assert (x + live) % UINT == if x + live < UINT then x + live else x + live - UINT;
    assert reg % UINT == reg;
  }

  lemma LiveNonNegative(k: nat, live: seq<Option<Entry<VMAccelDesc>>>, p: nat)
    requires k < 9
    ensures LiveTotal(Field(k), live, p) >= 0
  {
    forall id | 0 <= id < |live| && live[id].Some? ensures Field(k)(live[id].value.obj) >= 0 { FieldRange(live[id].value.obj, k); }
    LiveTotalAtLeast(Field(k), live, p);
  }

  /** What is free of a resource is what is registered less what is reserved, in each dimension and without wrap. */
  lemma FreeField(s: State<VMAccelDesc>, i: nat, k: nat)
    requires Kept(s) && OnePerParent(s.pool) && k < 9 && ConservedMod(k, s) && LiveFits(s) && i < |s.pool|
    ensures s.pool[i].parent in s.registeredIds.active
    ensures Field(k)(s.pool[i].obj) + LiveTotal(Field(k), s.live, s.pool[i].parent) == Field(k)(s.registered[s.pool[i].parent])
  {
    hide Field, OnePerParent, LiveTotal, Total;
    var p := s.pool[i].parent;
    assert p in s.registeredIds.active;
    OnlyEntry(s.pool, p, i, Field(k));
    FieldRange(s.pool[i].obj, k);
    FieldRange(s.registered[p], k);
    LiveNonNegative(k, s.live, p);
    ModEqual(Field(k)(s.pool[i].obj), LiveTotal(Field(k), s.live, p), Field(k)(s.registered[p]));
  }

  ghost predicate AtMostNine(a: VMAccelDesc, b: VMAccelDesc) {
    forall k: nat :: k < 9 ==> Field(k)(a) <= Field(k)(b)
  }

  lemma NineFields(a: VMAccelDesc, b: VMAccelDesc)
    requires AtMostNine(a, b)
    ensures var w, v := a.capacity, b.capacity;
            && w.megaFlops <= v.megaFlops && w.megaOps <= v.megaOps && w.llcSizeKB <= v.llcSizeKB
            && w.llcBandwidthMBSec <= v.llcBandwidthMBSec && w.localMemSizeKB <= v.localMemSizeKB
            && w.localMemBandwidthMBSec <= v.localMemBandwidthMBSec && w.nonLocalMemSizeKB <= v.nonLocalMemSizeKB
            && w.nonLocalMemBandwidthMBSec <= v.nonLocalMemBandwidthMBSec && w.interconnectBandwidthMBSec <= v.interconnectBandwidthMBSec
  {
    assert Field(0)(a) <= Field(0)(b) && Field(1)(a) <= Field(1)(b) && Field(2)(a) <= Field(2)(b);
    assert Field(3)(a) <= Field(3)(b) && Field(4)(a) <= Field(4)(b) && Field(5)(a) <= Field(5)(b);
    assert Field(6)(a) <= Field(6)(b) && Field(7)(a) <= Field(7)(b) && Field(8)(a) <= Field(8)(b);
  }

  /** Taking what is there from a small capacity leaves a small one, which is taken for nothing only if it is. */
  lemma SmallRest(a: VMAccelDesc, req: VMAccelDesc, reg: VMAccelDesc)
    requires AtMostNine(req, a) && AtMostNine(a, reg) && Small(reg)
    ensures var rest := a.(capacity := WorkloadSub(a.capacity, req.capacity));
            DescIsEmpty(rest) ==> rest.capacity == DESC_ZERO.capacity
  {
    NineFields(req, a);
    NineFields(a, reg);
    hide Field;
    var w, v := a.capacity, req.capacity;
    SmallSub(w.megaFlops, v.megaFlops);
    SmallSub(w.megaOps, v.megaOps);
    SmallSub(w.llcSizeKB, v.llcSizeKB);
    SmallSub(w.llcBandwidthMBSec, v.llcBandwidthMBSec);
    SmallSub(w.localMemSizeKB, v.localMemSizeKB);
    SmallSub(w.localMemBandwidthMBSec, v.localMemBandwidthMBSec);
    SmallSub(w.nonLocalMemSizeKB, v.nonLocalMemSizeKB);
    SmallSub(w.nonLocalMemBandwidthMBSec, v.nonLocalMemBandwidthMBSec);
    SmallSub(w.interconnectBandwidthMBSec, v.interconnectBandwidthMBSec);
    hide Sub;
    assert FieldSum(WorkloadSub(w, v)) <= FieldSum(reg.capacity) < UINT;
  }

  /** The entry of the pool that a request was served from covers it in all nine dimensions. */
  lemma ServedFits(s: State<VMAccelDesc>, e: Event<VMAccelDesc>, i: nat)
    requires Kept(s) && OnePerParent(s.pool) && LiveFits(s) && forall k: nat :: k < 9 ==> ConservedMod(k, s)
    requires e.Alloc? && Modest(s, e) && i < |s.pool| && s.pool[i].parent == e.req.parent
    requires !WorkloadLess(s.pool[i].obj.capacity, e.req.obj.capacity)
    ensures e.req.parent in s.registeredIds.active
    ensures forall k: nat :: k < 9 ==> FitsField(s, e.req.parent, e.req.obj, k)
    ensures AtMostNine(e.req.obj, s.pool[i].obj) && AtMostNine(s.pool[i].obj, s.registered[e.req.parent])
  {
    var a, req, p := s.pool[i].obj, e.req.obj, e.req.parent;
    assert Field(0)(req) <= Field(0)(a) && Field(1)(req) <= Field(1)(a) && Field(4)(req) <= Field(4)(a);
    hide Field, OnePerParent, ConservedMod, LiveTotal;
    FreeField(s, i, 0);
    FreeField(s, i, 1);
    FreeField(s, i, 4);
    assert FitsField(s, p, req, 0) && FitsField(s, p, req, 1) && FitsField(s, p, req, 4);
    forall k: nat | k < 9 ensures Field(k)(req) <= Field(k)(a) <= Field(k)(s.registered[p]) {
      FreeField(s, i, k);
      LiveNonNegative(k, s.live, p);
      assert FitsField(s, p, req, k);
    }
  }

  /** A modest call wraps no remainder and keeps reservations within their resource, in all nine dimensions. */
  lemma ModestStep(s: State<VMAccelDesc>, e: Event<VMAccelDesc>, s': State<VMAccelDesc>)
    requires Kept(s) && Kept(s') && OnePerParent(s.pool) && s.freed == [] && LiveFits(s) && forall k: nat :: k < 9 ==> ConservedMod(k, s)
    requires IsStep(DESC_OPS, false, s, e, s') && Modest(s, e)
    ensures NoneWrapped(e) && LiveFits(s')
  {
    hide IsFreeObj, IsCoalesce, IsSearch, OnePerParent, ConservedMod, LiveTotal, Field, Kept, Modest;
    match e
    case Register(obj, r) =>
      if r.Allocated? { RegisterLiveFits(s, e, s'); }
    case Unregister(id, status) =>
    case Alloc(req, r, found, lost) =>
      if r.Allocated? && found.Got? {
        EmptyQueueMisses(s.pool, req, s'.pool, s'.freed, lost, found);
        AllocModest(s, e, s');
      }
    case Free(id) =>
      FreeLiveFits(s, id, s');
  }

  lemma RegisterLiveFits(s: State<VMAccelDesc>, e: Event<VMAccelDesc>, s': State<VMAccelDesc>)
    requires Kept(s) && s'.Shaped() && LiveFits(s) && e.Register? && e.registration.Allocated? && IsStep(DESC_OPS, false, s, e, s') && Modest(s, e)
    ensures LiveFits(s')
  {
    var p0 := e.registration.id;
    NewIds(s, e.registration, s');
    assert s'.registered == s.registered[p0 := e.obj] && s'.registeredIds.active == s.registeredIds.active + {p0} && s'.live == s.live;
    forall id | 0 <= id < |s.live| && s.live[id].Some? ensures s.live[id].value.parent != p0 {}
    hide IsStep, LiveFits, Kept;
    NewLiveFits(s, e.obj, p0, s');
  }

  lemma NewLiveFits(s: State<VMAccelDesc>, obj: VMAccelDesc, p0: nat, s': State<VMAccelDesc>)
    requires s.Shaped() && s'.Shaped() && LiveFits(s) && Small(obj) && p0 < |s.registered|
    requires s'.registered == s.registered[p0 := obj] && s'.registeredIds.active == s.registeredIds.active + {p0} && s'.live == s.live
    requires forall id :: 0 <= id < |s.live| && s.live[id].Some? ==> s.live[id].value.parent != p0
    ensures LiveFits(s')
  {
    hide LiveTotal, Field;
    forall k: nat | k < 9 ensures LiveTotal(Field(k), s'.live, p0) <= Field(k)(s'.registered[p0]) {
      LiveTotalNone(Field(k), s.live, p0);
      FieldRange(obj, k);
    }
  }

  lemma FreeLiveFits(s: State<VMAccelDesc>, id: nat, s': State<VMAccelDesc>)
    requires s.Shaped() && s'.Shaped() && LiveFits(s) && IsFree(DESC_OPS, false, s, id, s')
    ensures LiveFits(s')
  {
    hide IsCoalesce, LiveTotal, Field;
    forall p, k: nat | p in s'.registeredIds.active && k < 9 ensures LiveTotal(Field(k), s'.live, p) <= Field(k)(s'.registered[p]) {
      LiveTotalUpdate(Field(k), s.live, id, None, p);
      FieldRange(s.live[id].value.obj, k);
    }
  }

  lemma AllocModest(s: State<VMAccelDesc>, e: Event<VMAccelDesc>, s': State<VMAccelDesc>)
    requires Kept(s) && s'.Shaped() && OnePerParent(s.pool) && LiveFits(s) && forall k: nat :: k < 9 ==> ConservedMod(k, s)
    requires e.Alloc? && e.reservation.Allocated? && e.found.Got? && IsStep(DESC_OPS, false, s, e, s') && Modest(s, e)
    requires IsTake(DESC_OPS, s.pool, e.req, s'.pool, e.found)
    ensures NoneWrapped(e) && LiveFits(s')
  {
    hide IsFreeObj, IsSearch, OnePerParent, ConservedMod, LiveTotal, Field, Modest, DescIsEmpty;
    var i: nat :| IsTakeAt(DESC_OPS, s.pool, e.req, s'.pool, e.found, i);
    var a, req, p := s.pool[i].obj, e.req.obj, e.req.parent;
    ServedFits(s, e, i);
    SmallRest(a, req, s.registered[p]);
    FreshSlot(s, e.reservation);
    forall q, k: nat | q in s'.registeredIds.active && k < 9 ensures LiveTotal(Field(k), s'.live, q) <= Field(k)(s'.registered[q]) {
      LiveTotalUpdate(Field(k), s.live, e.reservation.id, s'.live[e.reservation.id], q);
      FieldReserve(k, a, req);
      assert FitsField(s, p, req, k);
    }
  }

  ghost predicate ModestCalls(states: States, events: Events, n: nat)
    requires n <= |events| <= |states|
  {
    forall i :: 0 <= i < n ==> Modest(states[i], events[i])
  }

  /** In every eager run of modest calls, no remainder that is something is taken for nothing. */
  lemma {:induction false} ModestRunWrapsNone(num: nat, states: States, events: Events, n: nat)
    requires LegalRun(DESC_OPS, DescDims(), UINT, false, num, states, events) && n < |states| && ModestCalls(states, events, n)
    ensures AmountsKept(DescDims(), UINT, states[n]) && states[n].freed == [] && LiveFits(states[n])
    ensures forall i :: 0 <= i < n ==> NoneWrapped(events[i])
    ensures forall k: nat :: k < 9 ==> ConservedMod(k, states[n])
  {
    hide Laws, IsStep, Legal, NoneWrapped, Modest, ConservedMod, Fits, OnePerParent, LiveFits;
    DescLaws();
    RunKeepsAmounts(DESC_OPS, DescDims(), UINT, false, num, states, events, n);
    EagerQueue(DESC_OPS, num, states, events, n);
    if n == 0 {
      NothingFits(num);
    } else {
      ModestRunWrapsNone(num, states, events, n - 1);
      assert IsStep(DESC_OPS, false, states[n - 1], events[n - 1], states[n]) && Modest(states[n - 1], events[n - 1]);
      ModestStep(states[n - 1], events[n - 1], states[n]);
    }
    forall k: nat | k < 9 ensures ConservedMod(k, states[n]) { DescRunConservesMod(k, num, states, events, n); }
  }

  lemma NothingFits(num: nat)
    ensures Initial(DESC_OPS, num).Shaped() && LiveFits(Initial(DESC_OPS, num))
  {}

  /**
   In every eager run of modest calls, the capacity of a registered resource is what
   the pool holds of it and what is reserved, in all nine dimensions and without wrap.
   */
  lemma ModestRunConserves(num: nat, states: States, events: Events, n: nat, p: nat, k: nat)
    requires LegalRun(DESC_OPS, DescDims(), UINT, false, num, states, events) && n < |states| && ModestCalls(states, events, n)
    requires states[n].Shaped() && p in states[n].registeredIds.active && k < 9
    ensures Total(Field(k), states[n].pool, p) + LiveTotal(Field(k), states[n].live, p) == Field(k)(states[n].registered[p])
  {
    hide IsStep, Legal, NoneWrapped, Modest, Fits, Field, Total, LiveTotal;
    ModestRunWrapsNone(num, states, events, n);
    var s := states[n];
    assert ConservedMod(k, s);
    LiveNonNegative(k, s.live, p);
    FieldRange(s.registered[p], k);
    if i: nat :| i < |s.pool| && s.pool[i].parent == p {
      OnlyEntry(s.pool, p, i, Field(k));
      FreeField(s, i, k);
    } else {
      TotalNone(Field(k), s.pool, p);
      ModEqual(0, LiveTotal(Field(k), s.live, p), Field(k)(s.registered[p]));
    }
  }

  /** In every eager run of modest calls, freeing all reservations of a resource restores its registered descriptor. */
  lemma ModestFreeingRestores(num: nat, states: States, events: Events, n: nat, p: nat) returns (i: nat)
    requires LegalRun(DESC_OPS, DescDims(), UINT, false, num, states, events) && n < |states| && ModestCalls(states, events, n)
    requires states[n].Shaped() && p in states[n].registeredIds.active && states[n].refCount[p] == 0
    requires states[n].registered[p].capacity != DESC_ZERO.capacity
    ensures i < |states[n].pool| && states[n].pool[i] == Entry(p, states[n].registered[p])
    ensures forall j :: 0 <= j < |states[n].pool| && states[n].pool[j].parent == p ==> j == i
  {
    hide IsStep, Legal, NoneWrapped, Modest, Fits, ConservedMod;
    ModestRunWrapsNone(num, states, events, n);
    i := FreeingAllRestores(num, states, events, n, p);
  }
}
