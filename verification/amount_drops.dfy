/**
 When an allocator of amounts that defers frees conserves its resources.
 */
module AmountDrops {
  import opened Pool
  import opened Totals
  import opened Allocator
  import opened AllocatorPieces
  import opened Scalars
  import opened ScalarRuns
  import opened Drops

  // ---------------------------------------------------------------------
  // One search
  // ---------------------------------------------------------------------

  lemma AmountsDivide<T(!new)>(ops: Ops<T>, dims: seq<T -> int>, bound: int, queue: seq<Entry<T>>, req: Entry<T>)
    requires Laws(ops, dims, bound) && AllProper(dims, bound, queue) && IsRequest(dims, bound, req.obj)
    ensures Divisible(ops, queue, req)
  {
    hide Laws, IsRequest;
    forall i | 0 <= i < |queue| && ops.lessEq(req.obj, queue[i].obj) ensures ops.reserve(queue[i].obj, req.obj).Some? {
      ReserveCovers(ops, dims, bound, queue[i].obj, req.obj);
    }
  }

  /** Another resource has something in the pool. */
  ghost predicate HasOther<T>(pool: seq<Entry<T>>, p: nat) {
    exists i :: 0 <= i < |pool| && pool[i].parent != p
  }

  /**
   The search may come to entry f of the queue, of another resource: nothing before
   it is large enough, and the amounts before it, put together, are not found, because
   another resource is in the pool or because they do not cover the request.
   */
  ghost predicate Drains<T>(ops: Ops<T>, dims: seq<T -> int>, pool: seq<Entry<T>>, queue: seq<Entry<T>>, req: Entry<T>, f: nat) {
    && Reaches(ops, queue, req, f)
    && (f == 0 || HasOther(pool, req.parent) || !Covers(dims, pool + queue[..f], req.parent, req.obj))
  }

  /** With one entry per resource, a merged entry goes to the front of the pool. */
  lemma MergedFront<T>(ops: Ops<T>, pool: seq<Entry<T>>, obj: Entry<T>, mid: seq<Entry<T>>) returns (v: Entry<T>, others: seq<Entry<T>>)
    requires ops.policy.PerParent? && OnePerParent(pool) && IsFreeObj(ops, pool, obj, mid)
    ensures mid == [v] + others && v.parent == obj.parent
    ensures forall i :: 0 <= i < |others| ==> others[i].parent != obj.parent
    ensures others != [] <==> HasOther(pool, obj.parent)
  {
    hide IsFreeObj, IsInsert;
    var i, w := FreeObjCases(ops, pool, obj, mid);
    v, others := if i == |pool| then obj else w, if i == |pool| then pool else RemoveAt(pool, i);
    OthersOf(pool, obj.parent, i, others);
    InsertFront(ops, others, v, mid);
  }

  lemma OthersOf<T>(pool: seq<Entry<T>>, p: nat, i: nat, others: seq<Entry<T>>)
    requires OnePerParent(pool) && IsFirstOf(pool, p, i) && others == if i == |pool| then pool else RemoveAt(pool, i)
    ensures forall j :: 0 <= j < |others| ==> others[j].parent != p
    ensures others != [] <==> HasOther(pool, p)
  {
    if i == |pool| {
      assert others != [] ==> pool[0].parent != p;
    } else {
      forall j | 0 <= j < |others| ensures others[j].parent != p {
        assert others[j] == pool[if j < i then j else j + 1];
      }
      if others != [] { assert others[0] == pool[if i == 0 then 1 else 0]; }
    }
  }

  lemma InsertFront<T>(ops: Ops<T>, others: seq<Entry<T>>, v: Entry<T>, mid: seq<Entry<T>>)
    requires IsInsert(ops, others, v, mid) && forall j :: 0 <= j < |others| ==> others[j].parent != v.parent
    ensures mid == [v] + others
  {
    var u: nat :| IsUpperBound(ops, others, v, u) && mid == InsertAt(others, u, v);
    assert u == 0;
  }

  /** After a merge, the lookup may miss if and only if another resource is in the pool or the merged amount does not cover the request. */
  lemma MergedMayMiss<T(!new)>(
    ops: Ops<T>, dims: seq<T -> int>, bound: int, pool: seq<Entry<T>>, obj: Entry<T>, mid: seq<Entry<T>>, req: Entry<T>)
    requires Laws(ops, dims, bound) && OnePerParent(pool) && obj.parent == req.parent && IsFreeObj(ops, pool, obj, mid)
    ensures HasOther(mid, req.parent) <==> HasOther(pool, req.parent)
    ensures MayMiss(ops, mid, req) <==> HasOther(pool, req.parent) || !Covers(dims, mid, req.parent, req.obj)
  {
    hide IsFreeObj;
    var v, others := MergedFront(ops, pool, obj, mid);
    if others == [] {
      assert mid == [v];
      forall k | 0 <= k < |dims| ensures Total(dims[k], mid, req.parent) == dims[k](v.obj) { TotalSingle(dims[k], v, req.parent); }
      assert Covers(dims, mid, req.parent, req.obj) <==> AtMost(dims, req.obj, v.obj);
    } else {
      assert mid[1] == others[0] && mid[|mid| - 1] == others[|others| - 1];
    }
  }

  /** The state of the search after the front of the queue was merged and the lookup missed. */
  lemma DrainOne<T(!new)>(
    ops: Ops<T>, dims: seq<T -> int>, bound: int, regs: seq<T>, active: set<nat>, pool: seq<Entry<T>>, queue: seq<Entry<T>>, req: Entry<T>,
    mid: seq<Entry<T>>, f: nat)
    requires Laws(ops, dims, bound) && Fits(dims, bound, regs, active, pool + queue) && OnePerParent(pool) && IsRequest(dims, bound, req.obj)
    requires 0 < f < |queue| && queue[0].parent == req.parent && !ops.lessEq(req.obj, queue[0].obj)
    requires IsFreeObj(ops, pool, queue[0], mid) && MayMiss(ops, mid, req)
    ensures Fits(dims, bound, regs, active, mid + queue[1..]) && OnePerParent(mid)
    ensures Drains(ops, dims, mid, queue[1..], req, f - 1) <==> Drains(ops, dims, pool, queue, req, f)
  {
    hide IsFreeObj, Laws, Fits, Covers, IsRequest;
    var a, rest, p := queue[0], queue[1..], req.parent;
    MissIff(ops, mid, req);
    FindFreedMerge(ops, dims, bound, regs, active, pool, queue, req, mid, mid, Missed);
    MergedFits(ops, dims, bound, regs, active, pool, queue, req, mid, Missed);
    MergedMayMiss(ops, dims, bound, pool, a, mid, req);
    ReachesTail(ops, queue, req, f);
    FitsParts(dims, bound, regs, active, pool, queue);
    assert queue[..f][1..] == rest[..f - 1] && queue[..f][0] == a;
    MidCovers(dims, bound, pool, queue[..f], mid, p, req.obj);
    if f == 1 { assert mid + rest[..0] == mid; }
  }

  lemma ReachesTail<T>(ops: Ops<T>, queue: seq<Entry<T>>, req: Entry<T>, f: nat)
    requires 0 < f < |queue| && queue[0].parent == req.parent && !ops.lessEq(req.obj, queue[0].obj)
    ensures Reaches(ops, queue, req, f) <==> Reaches(ops, queue[1..], req, f - 1)
  {
    assert forall j :: 0 <= j < f - 1 ==> queue[1..][j] == queue[j + 1];
    assert forall j :: 0 < j < f ==> queue[j] == queue[1..][j - 1];
  }

  lemma {:induction false} DrainedDrops<T(!new)>(
    ops: Ops<T>, dims: seq<T -> int>, bound: int, regs: seq<T>, active: set<nat>,
    pool: seq<Entry<T>>, queue: seq<Entry<T>>, req: Entry<T>, f: nat)
    returns (pool': seq<Entry<T>>, queue': seq<Entry<T>>, lost: seq<Entry<T>>, found: Found<T>)
    requires Laws(ops, dims, bound) && Fits(dims, bound, regs, active, pool + queue) && OnePerParent(pool) && IsRequest(dims, bound, req.obj)
    requires Drains(ops, dims, pool, queue, req, f)
    ensures IsFindFreed(ops, pool, queue, req, pool', queue', lost, found) && lost != []
    decreases f
  {
    hide IsFreeObj, Laws, Fits, Covers, IsRequest, IsTake;
    if f == 0 {
      pool', queue', lost, found := FindFreedExists(ops, pool, queue, req);
    } else {
      var mid := FreeObjExists(ops, pool, queue[0]);
      MergedMayMiss(ops, dims, bound, pool, queue[0], mid, req);
      PartCovers(ops, dims, bound, regs, active, pool, queue, req, mid, f);
      DrainOne(ops, dims, bound, regs, active, pool, queue, req, mid, f);
      MissIff(ops, mid, req);
      pool', queue', lost, found := DrainedDrops(ops, dims, bound, regs, active, mid, queue[1..], req, f - 1);
    }
  }

  /** If the amounts up to f do not cover the request, neither does the first of them with the pool. */
  lemma PartCovers<T(!new)>(
    ops: Ops<T>, dims: seq<T -> int>, bound: int, regs: seq<T>, active: set<nat>, pool: seq<Entry<T>>, queue: seq<Entry<T>>, req: Entry<T>,
    mid: seq<Entry<T>>, f: nat)
    requires Laws(ops, dims, bound) && Fits(dims, bound, regs, active, pool + queue) && 0 < f < |queue| && IsFreeObj(ops, pool, queue[0], mid)
    ensures Covers(dims, mid, req.parent, req.obj) ==> Covers(dims, pool + queue[..f], req.parent, req.obj)
  {
    hide IsFreeObj, Laws, Fits, Covers;
    FitsParts(dims, bound, regs, active, pool, queue);
    assert pool + queue == pool + [queue[0]] + queue[1..];
    FitsParts(dims, bound, regs, active, pool + [queue[0]], queue[1..]);
    FreeAmount(ops, dims, bound, regs, active, pool, queue[0], mid);
    assert queue[..f][0] == queue[0];
    MidCovers(dims, bound, pool, queue[..f], mid, req.parent, req.obj);
  }

  lemma {:induction false} DroppedDrains<T(!new)>(
    ops: Ops<T>, dims: seq<T -> int>, bound: int, regs: seq<T>, active: set<nat>,
    pool: seq<Entry<T>>, queue: seq<Entry<T>>, req: Entry<T>,
    pool': seq<Entry<T>>, queue': seq<Entry<T>>, lost: seq<Entry<T>>, found: Found<T>) returns (f: nat)
    requires Laws(ops, dims, bound) && Fits(dims, bound, regs, active, pool + queue) && OnePerParent(pool) && IsRequest(dims, bound, req.obj)
    requires IsFindFreed(ops, pool, queue, req, pool', queue', lost, found) && lost != []
    ensures f < |queue| && Drains(ops, dims, pool, queue, req, f)
    decreases |queue|
  {
    hide IsFreeObj, Laws, Fits, Covers, IsRequest, IsTake;
    f := 0;
    FitsParts(dims, bound, regs, active, pool, queue);
    if queue[0].parent == req.parent {
      var a := queue[0];
      ReserveCovers(ops, dims, bound, a.obj, req.obj);
      var mid, pool1, found1 :|
        && IsFreeObj(ops, pool, a, mid)
        && IsTake(ops, mid, req, pool1, found1)
        && if found1.Got? then pool' == pool1 && queue' == queue[1..] && lost == [] && found == found1
           else IsFindFreed(ops, pool1, queue[1..], req, pool', queue', lost, found);
      DrainedMid(ops, dims, bound, regs, active, pool, queue, req, mid, pool1, found1);
      hide Drains;
      f := DroppedDrains(ops, dims, bound, regs, active, mid, queue[1..], req, pool', queue', lost, found);
      f := f + 1;
      DrainOne(ops, dims, bound, regs, active, pool, queue, req, mid, f);
    }
  }

  lemma DrainedMid<T(!new)>(
    ops: Ops<T>, dims: seq<T -> int>, bound: int, regs: seq<T>, active: set<nat>, pool: seq<Entry<T>>, queue: seq<Entry<T>>, req: Entry<T>,
    mid: seq<Entry<T>>, pool1: seq<Entry<T>>, found1: Found<T>)
    requires Laws(ops, dims, bound) && Fits(dims, bound, regs, active, pool + queue) && OnePerParent(pool) && IsRequest(dims, bound, req.obj)
    requires queue != [] && IsFreeObj(ops, pool, queue[0], mid) && IsTake(ops, mid, req, pool1, found1) && !found1.Got?
    ensures pool1 == mid && MayMiss(ops, mid, req) && OnePerParent(mid) && Fits(dims, bound, regs, active, mid + queue[1..])
  {
    hide IsFreeObj, Laws, Fits, IsRequest, IsTake;
    FindFreedMerge(ops, dims, bound, regs, active, pool, queue, req, mid, pool1, found1);
    MissedPool(ops, mid, req, pool1, found1);
    MissIff(ops, mid, req);
    MergedFits(ops, dims, bound, regs, active, pool, queue, req, pool1, found1);
  }

  lemma MissedPool<T>(ops: Ops<T>, pool: seq<Entry<T>>, req: Entry<T>, pool': seq<Entry<T>>, found: Found<T>)
    requires IsTake(ops, pool, req, pool', found) && !found.Got?
    ensures pool' == pool
  {}

  /** A search may drop a queued amount if and only if its lookup may miss and draining may come to an entry of another resource. */
  lemma MayDropIff<T(!new)>(
    ops: Ops<T>, dims: seq<T -> int>, bound: int, regs: seq<T>, active: set<nat>, pool: seq<Entry<T>>, queue: seq<Entry<T>>, req: Entry<T>)
    requires Laws(ops, dims, bound) && Fits(dims, bound, regs, active, pool + queue) && OnePerParent(pool) && IsRequest(dims, bound, req.obj)
    ensures MayDrop(ops, pool, queue, req) <==> MayMiss(ops, pool, req) && exists f: nat :: Drains(ops, dims, pool, queue, req, f)
  {
    hide Laws, Fits, IsRequest, IsTake, IsFindFreed, Drains;
    MissIff(ops, pool, req);
    if MayDrop(ops, pool, queue, req) {
      var pool', queue', lost, found :| IsSearch(ops, pool, queue, req, pool', queue', lost, found) && lost != [];
      var f := DroppedDrains(ops, dims, bound, regs, active, pool, queue, req, pool', queue', lost, found);
    }
    if f: nat :| MayMiss(ops, pool, req) && Drains(ops, dims, pool, queue, req, f) {
      var pool', queue', lost, found := DrainedDrops(ops, dims, bound, regs, active, pool, queue, req, f);
      assert IsSearch(ops, pool, queue, req, pool', queue', lost, found);
    }
  }

  // ---------------------------------------------------------------------
  // One call
  // ---------------------------------------------------------------------

  /** A safe Alloc drops no queued amount. */
  lemma SafeAllocKeeps<T(!new)>(ops: Ops<T>, dims: seq<T -> int>, bound: int, deferFree: bool, s: State<T>, e: Event<T>, s': State<T>)
    requires Laws(ops, dims, bound) && AmountsKept(dims, bound, s) && IsStep(ops, deferFree, s, e, s')
    requires e.Alloc? && Legal(dims, bound, e) && Safe(ops, s.pool, s.freed, e.req)
    ensures e.lost == [] && Losses(ops, e) == Dropped(ops, e.req.parent, e.found)
  {
    hide Laws, Fits, IsRequest, IsSearch, Safe;
    if e.reservation.Allocated? {
      PoolFits(dims, bound, s);
      AmountsDivide(ops, dims, bound, s.freed, e.req);
      SafeKeeps(ops, s.pool, s.freed, e.req, s'.pool, s'.freed, e.lost, e.found);
    }
    assert [] + Dropped(ops, e.req.parent, e.found) == Dropped(ops, e.req.parent, e.found);
  }

  /** An Alloc drained nothing of another resource that was something. */
  ghost predicate DrainedNothing<T>(dims: seq<T -> int>, s: State<T>, e: Event<T>, s': State<T>)
    requires e.Alloc?
  {
    && |s'.freed| <= |s.freed|
    && forall i, k :: 0 <= i < |s.freed| - |s'.freed| && 0 <= k < |dims| && s.freed[i].parent != e.req.parent ==> dims[k](s.freed[i].obj) == 0
  }

  /**
   An Alloc whose remainder is not taken for nothing when it is something conserves
   every resource if and only if the part of the queue that it drained holds nothing
   of another resource.
   */
  lemma AllocConservesIff<T(!new)>(ops: Ops<T>, dims: seq<T -> int>, bound: int, deferFree: bool, s: State<T>, e: Event<T>, s': State<T>)
    requires Laws(ops, dims, bound) && AmountsKept(dims, bound, s) && Conserved(dims, s) && Legal(dims, bound, e)
    requires IsStep(ops, deferFree, s, e, s') && e.Alloc? && Lossless(ops, dims, e)
    ensures AmountsKept(dims, bound, s')
    ensures Conserved(dims, s') <==> DrainedNothing(dims, s, e, s')
  {
    hide Laws, Fits, IsRequest, IsSearch, Conserved, Total;
    StepConserves(ops, dims, bound, deferFree, s, e, s');
    LossesIff(ops, dims, e);
    if e.reservation.Allocated? {
      PoolFits(dims, bound, s);
      AmountsDivide(ops, dims, bound, s.freed, e.req);
      SearchDroppedEntries(ops, s.pool, s.freed, e.req, s'.pool, s'.freed, e.lost, e.found);
      LostIff(dims, s.freed, |s.freed| - |s'.freed|, e.req.parent, e.lost);
    }
  }

  lemma LossesIff<T>(ops: Ops<T>, dims: seq<T -> int>, e: Event<T>)
    requires e.Alloc? && Lossless(ops, dims, e)
    ensures Nothing(dims, Losses(ops, e)) <==> Nothing(dims, e.lost)
  {
    var lost, dropped := e.lost, Dropped(ops, e.req.parent, e.found);
    assert forall i :: 0 <= i < |lost| ==> (lost + dropped)[i] == lost[i];
  }

  lemma SearchDroppedEntries<T(!new)>(
    ops: Ops<T>, pool: seq<Entry<T>>, queue: seq<Entry<T>>, req: Entry<T>,
    pool': seq<Entry<T>>, queue': seq<Entry<T>>, lost: seq<Entry<T>>, found: Found<T>)
    requires IsSearch(ops, pool, queue, req, pool', queue', lost, found) && Divisible(ops, queue, req)
    ensures |queue'| <= |queue|
    ensures forall i :: 0 <= i < |queue| - |queue'| && queue[i].parent != req.parent ==> queue[i] in lost
    ensures forall x :: x in lost ==> x.parent != req.parent && x in queue[..|queue| - |queue'|]
  {
    hide IsTake, IsFindFreed;
    if !(IsTake(ops, pool, req, pool', found) && !found.Missed? && queue' == queue && lost == []) {
      DroppedEntries(ops, pool, queue, req, pool', queue', lost, found);
    }
  }

  lemma LostIff<T>(dims: seq<T -> int>, queue: seq<Entry<T>>, n: nat, p: nat, lost: seq<Entry<T>>)
    requires n <= |queue|
    requires forall i :: 0 <= i < n && queue[i].parent != p ==> queue[i] in lost
    requires forall x :: x in lost ==> x.parent != p && x in queue[..n]
    ensures Nothing(dims, lost) <==> forall i, k :: 0 <= i < n && 0 <= k < |dims| && queue[i].parent != p ==> dims[k](queue[i].obj) == 0
  {
    if Nothing(dims, lost) {
      forall i, k | 0 <= i < n && 0 <= k < |dims| && queue[i].parent != p ensures dims[k](queue[i].obj) == 0 {
        var j :| 0 <= j < |lost| && lost[j] == queue[i];
      }
    }
    if forall i, k :: 0 <= i < n && 0 <= k < |dims| && queue[i].parent != p ==> dims[k](queue[i].obj) == 0 {
      forall j, k | 0 <= j < |lost| && 0 <= k < |dims| ensures dims[k](lost[j].obj) == 0 {
        assert lost[j] in lost;
        var i :| 0 <= i < n && queue[..n][i] == lost[j];
        assert queue[i] == lost[j];
      }
    }
  }

  // ---------------------------------------------------------------------
  // Every run
  // ---------------------------------------------------------------------

  ghost predicate SafeCalls<T>(ops: Ops<T>, states: seq<State<T>>, events: seq<Event<T>>, n: nat)
    requires n <= |events| <= |states|
  {
    forall i :: 0 <= i < n && events[i].Alloc? ==> Safe(ops, states[i].pool, states[i].freed, events[i].req)
  }

  /**
   In every run, eager or deferred, whose requests are made when they are safe and
   whose remainders are not taken for nothing when they are something, every resource
   is conserved.
   */
  lemma SafeRunConserves<T(!new)>(
    ops: Ops<T>, dims: seq<T -> int>, bound: int, deferFree: bool, num: nat, states: seq<State<T>>, events: seq<Event<T>>, n: nat)
    requires Laws(ops, dims, bound) && LegalRun(ops, dims, bound, deferFree, num, states, events) && n < |states|
    requires SafeCalls(ops, states, events, n)
    requires forall i :: 0 <= i < n ==> Lossless(ops, dims, events[i])
    ensures AmountsKept(dims, bound, states[n]) && Conserved(dims, states[n])
  {
    hide Laws, IsStep, Legal, Safe, AmountsKept, Conserved, Nothing, Losses, Lossless;
    forall i | 0 <= i < n ensures Nothing(dims, Losses(ops, events[i])) {
      RunKeepsAmounts(ops, dims, bound, deferFree, num, states, events, i);
      assert IsStep(ops, deferFree, states[i], events[i], states[i + 1]) && Legal(dims, bound, events[i]) && Lossless(ops, dims, events[i]);
      NothingLost(ops, dims, bound, deferFree, states[i], events[i], states[i + 1]);
    }
    RunConserves(ops, dims, bound, deferFree, num, states, events, n);
  }

  lemma NothingLost<T(!new)>(ops: Ops<T>, dims: seq<T -> int>, bound: int, deferFree: bool, s: State<T>, e: Event<T>, s': State<T>)
    requires Laws(ops, dims, bound) && AmountsKept(dims, bound, s) && IsStep(ops, deferFree, s, e, s') && Legal(dims, bound, e)
    requires Lossless(ops, dims, e) && (e.Alloc? ==> Safe(ops, s.pool, s.freed, e.req))
    ensures Nothing(dims, Losses(ops, e))
  {
    if e.Alloc? {
      SafeAllocKeeps(ops, dims, bound, deferFree, s, e, s');
    }
  }

  /** With one registered resource, which the request names, every Alloc is safe. */
  lemma OneResourceSafe<T>(ops: Ops<T>, dims: seq<T -> int>, bound: int, s: State<T>, req: Entry<T>)
    requires Kept(s) && s.registeredIds.active <= {req.parent}
    ensures Safe(ops, s.pool, s.freed, req)
  {
    forall i | 0 <= i < |s.freed| ensures s.freed[i].parent == req.parent {
      assert s.freed[i].parent in s.registeredIds.active;
    }
    OwnQueueGuarded(ops, s.freed, req);
  }

  /** An eager build has nothing in the queue, so that every Alloc is safe. */
  lemma EagerSafe<T(!new)>(ops: Ops<T>, num: nat, states: seq<State<T>>, events: seq<Event<T>>, n: nat)
    requires IsRun(ops, false, num, states, events) && n <= |events|
    ensures SafeCalls(ops, states, events, n)
  {
    forall i | 0 <= i < n && events[i].Alloc? ensures Safe(ops, states[i].pool, states[i].freed, events[i].req) {
      EagerQueue(ops, num, states, events, i);
      OwnQueueGuarded(ops, states[i].freed, events[i].req);
    }
  }

  /** What Alloc answers and leaves, with one registered resource. */
  ghost predicate IsExact<T>(dims: seq<T -> int>, s: State<T>, e: Event<T>, s': State<T>)
    requires s.Shaped() && e.Alloc? && e.req.parent < |s.registered|
  {
    && (e.reservation.Allocated? <==> exists id: nat :: id < |s.live| && id !in s.externalIds.active)
    && (e.reservation.Allocated? ==> (e.found.Got? <==> FitsUnallocated(dims, s, e.req.parent, e.req.obj)))
    && (!(e.reservation.Allocated? && e.found.Got?) ==>
          s' == s.(pool := s'.pool, freed := s'.freed) && SameSums(dims, Pieces(s), Pieces(s')))
    && (!(e.reservation.Allocated? && e.found.Got?) && s.freed == [] ==> s' == s)
  }

  /**
   In every run, eager or deferred, whose requests were safe and whose remainders were
   not taken for nothing when they were something: a request that names the one
   registered resource is served if and only if an external identifier is free and it
   fits what is not reserved, and a failed one leaves no trace.
   */
  lemma RunAllocExact<T(!new)>(
    ops: Ops<T>, dims: seq<T -> int>, bound: int, deferFree: bool, num: nat, states: seq<State<T>>, events: seq<Event<T>>, n: nat)
    requires Laws(ops, dims, bound) && LegalRun(ops, dims, bound, deferFree, num, states, events)
    requires n < |events| && events[n].Alloc? && states[n].registeredIds.active == {events[n].req.parent}
    requires deferFree ==> SafeCalls(ops, states, events, n)
    requires forall i :: 0 <= i < n ==> Lossless(ops, dims, events[i])
    ensures AmountsKept(dims, bound, states[n]) && IsExact(dims, states[n], events[n], states[n + 1])
  {
    hide Laws, IsStep, Legal, SafeCalls, Conserved, Lossless, Fits;
    if !deferFree { EagerSafe(ops, num, states, events, n); }
    SafeRunConserves(ops, dims, bound, deferFree, num, states, events, n);
    assert IsStep(ops, deferFree, states[n], events[n], states[n + 1]) && Legal(dims, bound, events[n]);
    AllocExact(ops, dims, bound, deferFree, states[n], events[n], states[n + 1]);
    assert events[n].req.parent in states[n].registeredIds.active;
  }
}
