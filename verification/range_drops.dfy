/**
 When a range allocator that defers frees keeps its tiling.
 */
module RangeDrops {
  import opened Pool
  import opened Allocator
  import opened AllocRanges
  import opened RangeTiling
  import opened Drops

  lemma RangesDivide(queue: seq<Entry<AllocRange>>, req: Entry<AllocRange>)
    requires AllWellFormed(queue) && IsRequest(req.obj)
    ensures Divisible(RANGE_OPS, queue, req)
  {
    forall i | 0 <= i < |queue| && RangeLessEq(req.obj, queue[i].obj) ensures ReserveRange(queue[i].obj, req.obj).Some? {
      ReserveSplits(queue[i].obj, req.obj);
    }
  }

  /** A queued range of resource 1 that a request to resource 0 makes away with. */
  lemma QueuedRangeIsDropped()
    ensures var a, req := Entry(1, AllocRange(false, 5, 10, 14)), Entry(0, AllocRange(false, 3, 0, 0));
            WellFormed(a.obj) && IsRequest(req.obj) && IsSearch(RANGE_OPS, [], [a], req, [], [], [a], Missed)
  {
    var a, req := Entry(1, AllocRange(false, 5, 10, 14)), Entry(0, AllocRange(false, 3, 0, 0));
    MissIff(RANGE_OPS, [], req);
    assert [a][1..] == [];
    assert IsFindFreed(RANGE_OPS, [], [], req, [], [], [], Missed);
    assert IsFindFreed(RANGE_OPS, [], [a], req, [], [], [a], Missed);
  }

  // ---------------------------------------------------------------------
  // One search
  // ---------------------------------------------------------------------

  /** A range at the end of the pool is no neighbour of a range of another resource. */
  lemma LastApart(regs: seq<AllocRange>, active: set<nat>, pool: seq<Entry<AllocRange>>, obj: Entry<AllocRange>)
    requires Covered(regs, active, pool + [obj]) && pool != [] && pool[|pool| - 1].parent != obj.parent
    ensures !Neighbour(RANGE_OPS, pool, obj, |pool| - 1)
  {
    if Neighbour(RANGE_OPS, pool, obj, |pool| - 1) {
      CoveredAppend(regs, active, pool, obj);
      MergeOnlyPrepends(regs, active, obj, pool[|pool| - 1]);
      assert false;
    }
  }

  lemma {:induction false} LastOtherDrops(
    regs: seq<AllocRange>, active: set<nat>, pool: seq<Entry<AllocRange>>, queue: seq<Entry<AllocRange>>, req: Entry<AllocRange>, f: nat)
    returns (pool': seq<Entry<AllocRange>>, queue': seq<Entry<AllocRange>>, lost: seq<Entry<AllocRange>>, found: Found<AllocRange>)
    requires Covered(regs, active, pool + queue) && IsRequest(req.obj) && Reaches(RANGE_OPS, queue, req, f)
    requires pool != [] && pool[|pool| - 1].parent != req.parent
    ensures IsFindFreed(RANGE_OPS, pool, queue, req, pool', queue', lost, found) && lost != []
    decreases f
  {
    hide IsFreeObj, Covered, IsTake;
    if f == 0 {
      pool', queue', lost, found := FindFreedExists(RANGE_OPS, pool, queue, req);
    } else {
      var a, rest := queue[0], queue[1..];
      assert pool + queue == pool + [a] + rest;
      CoveredParts(regs, active, pool + [a], rest);
      LastApart(regs, active, pool, a);
      var mid := FreeObjExists(RANGE_OPS, pool, a);
      LastStays(RANGE_OPS, pool, a, mid);
      MissIff(RANGE_OPS, mid, req);
      MergedCovered(regs, active, pool, queue, req, mid);
      assert forall j :: 0 <= j < f ==> rest[j] == queue[j + 1];
      pool', queue', lost, found := LastOtherDrops(regs, active, mid, rest, req, f - 1);
    }
  }

  lemma MergedCovered(
    regs: seq<AllocRange>, active: set<nat>, pool: seq<Entry<AllocRange>>, queue: seq<Entry<AllocRange>>, req: Entry<AllocRange>,
    mid: seq<Entry<AllocRange>>)
    requires Covered(regs, active, pool + queue) && IsRequest(req.obj) && queue != []
    requires IsFreeObj(RANGE_OPS, pool, queue[0], mid) && IsTake(RANGE_OPS, mid, req, mid, Missed)
    ensures Covered(regs, active, mid + queue[1..])
  {
    hide IsFreeObj, Covered, IsTake, Splits;
    FindFreedMerge(regs, active, pool, queue, req, mid, mid, Missed);
    assert mid + queue[1..] + Taken(req.parent, Missed) == mid + queue[1..];
    CoveredSame(regs, active, pool + queue, mid + queue[1..]);
  }

  /**
   A search that is not safe may drop a queued range: always only then, and always
   then if another resource is at the end of the pool or in front of the queue.
   */
  lemma MayDropIff(
    regs: seq<AllocRange>, active: set<nat>, pool: seq<Entry<AllocRange>>, queue: seq<Entry<AllocRange>>, req: Entry<AllocRange>)
    requires Covered(regs, active, pool + queue) && IsRequest(req.obj)
    ensures MayDrop(RANGE_OPS, pool, queue, req) ==> !Safe(RANGE_OPS, pool, queue, req)
    ensures (pool != [] && pool[|pool| - 1].parent != req.parent) || (queue != [] && queue[0].parent != req.parent) ==>
              (MayDrop(RANGE_OPS, pool, queue, req) <==> !Safe(RANGE_OPS, pool, queue, req))
  {
    hide Covered, IsSearch, IsFindFreed, IsTake;
    CoveredParts(regs, active, pool, queue);
    CoveredWellFormed(regs, active, queue);
    RangesDivide(queue, req);
    if MayDrop(RANGE_OPS, pool, queue, req) && Safe(RANGE_OPS, pool, queue, req) {
      var pool', queue', lost, found :| IsSearch(RANGE_OPS, pool, queue, req, pool', queue', lost, found) && lost != [];
      SafeKeeps(RANGE_OPS, pool, queue, req, pool', queue', lost, found);
    }
    if !Safe(RANGE_OPS, pool, queue, req) {
      var f :| 0 <= f < |queue| && Reaches(RANGE_OPS, queue, req, f);
      if pool != [] && pool[|pool| - 1].parent != req.parent {
        var pool', queue', lost, found := LastOtherDrops(regs, active, pool, queue, req, f);
        DropFound(pool, queue, req, pool', queue', lost, found);
      } else if queue[0].parent != req.parent {
        FrontDropIff(RANGE_OPS, pool, queue, req);
      }
    }
  }

  lemma CoveredWellFormed(regs: seq<AllocRange>, active: set<nat>, es: seq<Entry<AllocRange>>)
    requires Covered(regs, active, es)
    ensures AllWellFormed(es)
  {}

  lemma DropFound(pool: seq<Entry<AllocRange>>, queue: seq<Entry<AllocRange>>, req: Entry<AllocRange>,
              pool': seq<Entry<AllocRange>>, queue': seq<Entry<AllocRange>>, lost: seq<Entry<AllocRange>>, found: Found<AllocRange>)
    requires MayMiss(RANGE_OPS, pool, req) && IsFindFreed(RANGE_OPS, pool, queue, req, pool', queue', lost, found) && lost != []
    ensures MayDrop(RANGE_OPS, pool, queue, req)
  {
    hide IsFindFreed, IsTake;
    MissIff(RANGE_OPS, pool, req);
    assert IsSearch(RANGE_OPS, pool, queue, req, pool', queue', lost, found);
  }

  // ---------------------------------------------------------------------
  // One call
  // ---------------------------------------------------------------------

  /** An Alloc keeps the tiling if and only if the part of the queue that it drained holds no range of another resource. */
  lemma AllocTilesIff(deferFree: bool, s: State<AllocRange>, e: Event<AllocRange>, s': State<AllocRange>)
    requires RangesKept(s) && Tiled(s) && Legal(s, e) && IsStep(RANGE_OPS, deferFree, s, e, s') && e.Alloc?
    ensures RangesKept(s') && |s'.freed| <= |s.freed|
    ensures Tiled(s') <==> forall i :: 0 <= i < |s.freed| - |s'.freed| ==> s.freed[i].parent == e.req.parent
  {
    hide RangesKept, IsSearch, Tiled;
    StepKeepsRanges(deferFree, s, e, s');
    StepTiles(deferFree, s, e, s');
    PoolCovered(s);
    RangesDivide(s.freed, e.req);
    if e.reservation.Allocated? {
      SearchDropsIff(RANGE_OPS, s.pool, s.freed, e.req, s'.pool, s'.freed, e.lost, e.found);
    }
  }

  /** A safe Alloc drops nothing. */
  lemma SafeAllocKeeps(deferFree: bool, s: State<AllocRange>, e: Event<AllocRange>, s': State<AllocRange>)
    requires RangesKept(s) && Legal(s, e) && IsStep(RANGE_OPS, deferFree, s, e, s') && e.Alloc?
    requires Safe(RANGE_OPS, s.pool, s.freed, e.req)
    ensures e.lost == []
  {
    hide RangesKept, IsSearch, Safe;
    PoolCovered(s);
    RangesDivide(s.freed, e.req);
    if e.reservation.Allocated? {
      SafeKeeps(RANGE_OPS, s.pool, s.freed, e.req, s'.pool, s'.freed, e.lost, e.found);
    }
  }

  // ---------------------------------------------------------------------
  // Every run
  // ---------------------------------------------------------------------

  ghost predicate SafeCalls(states: seq<State<AllocRange>>, events: seq<Event<AllocRange>>, n: nat)
    requires n <= |events| <= |states|
  {
    forall i :: 0 <= i < n && events[i].Alloc? ==> Safe(RANGE_OPS, states[i].pool, states[i].freed, events[i].req)
  }

  /** In every run, eager or deferred, whose requests are made when they are safe, the pieces tile the registered ranges. */
  lemma SafeRunTiles(deferFree: bool, num: nat, states: seq<State<AllocRange>>, events: seq<Event<AllocRange>>, n: nat)
    requires LegalRun(deferFree, num, states, events) && n < |states| && SafeCalls(states, events, n)
    ensures RangesKept(states[n]) && Tiled(states[n])
  {
    hide RangesKept, Safe, IsStep, Legal, Tiled;
    forall i | 0 <= i < n && events[i].Alloc? ensures events[i].lost == [] {
      RunKeepsRanges(deferFree, num, states, events, i);
      assert IsStep(RANGE_OPS, deferFree, states[i], events[i], states[i + 1]) && Legal(states[i], events[i]);
      SafeAllocKeeps(deferFree, states[i], events[i], states[i + 1]);
    }
    RunTiles(deferFree, num, states, events, n);
  }

  /** Every request is made while the queue holds ranges of its resource only. */
  ghost predicate OwnQueues(states: seq<State<AllocRange>>, events: seq<Event<AllocRange>>, n: nat)
    requires n <= |events| <= |states|
  {
    forall i, j :: 0 <= i < n && events[i].Alloc? && 0 <= j < |states[i].freed| ==> states[i].freed[j].parent == events[i].req.parent
  }

  /** In every deferred run whose requests find ranges of their own resource only in the queue, the pieces tile the registered ranges. */
  lemma OwnQueueRunTiles(num: nat, states: seq<State<AllocRange>>, events: seq<Event<AllocRange>>, n: nat)
    requires LegalRun(true, num, states, events) && n < |states| && OwnQueues(states, events, n)
    ensures RangesKept(states[n]) && Tiled(states[n])
  {
    hide RangesKept, IsStep, Legal, Tiled;
    forall i | 0 <= i < n && events[i].Alloc? ensures Safe(RANGE_OPS, states[i].pool, states[i].freed, events[i].req) {
      OwnQueueGuarded(RANGE_OPS, states[i].freed, events[i].req);
    }
    SafeRunTiles(true, num, states, events, n);
  }

  /** In every deferred run whose requests name the one registered resource, the pieces tile the registered range. */
  lemma OneResourceRunTiles(num: nat, states: seq<State<AllocRange>>, events: seq<Event<AllocRange>>, n: nat)
    requires LegalRun(true, num, states, events) && n < |states|
    requires forall i :: 0 <= i < n && events[i].Alloc? ==> states[i].registeredIds.active <= {events[i].req.parent}
    ensures RangesKept(states[n]) && Tiled(states[n])
  {
    hide IsStep, Legal, Tiled, Covered;
    forall i, j | 0 <= i < n && events[i].Alloc? && 0 <= j < |states[i].freed|
      ensures states[i].freed[j].parent == events[i].req.parent
    {
      RunKeepsRanges(true, num, states, events, i);
      assert states[i].freed[j].parent in states[i].registeredIds.active;
    }
    OwnQueueRunTiles(num, states, events, n);
  }
}
