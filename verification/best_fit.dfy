/**
 Best fit: with one registered resource the pool of a range allocator stays in
 order of size, and Alloc takes from a smallest range that is large enough.
 */
module BestFit {
  import opened IdentifierDb
  import opened IdentifierRuns
  import opened Pool
  import opened Allocator
  import opened AllocatorPieces
  import opened AllocRanges
  import opened RangeTiling

  // ---------------------------------------------------------------------
  // Every call keeps the order
  // ---------------------------------------------------------------------

  /** A pool of one resource, in order of size. */
  ghost predicate SortedBySize(pool: seq<Entry<AllocRange>>, p: nat) {
    && (forall i :: 0 <= i < |pool| ==> pool[i].parent == p && !pool[i].obj.cmpRange)
    && (forall i, j :: 0 <= i < j < |pool| ==> pool[i].obj.size <= pool[j].obj.size)
  }

  lemma InsertSorted(pool: seq<Entry<AllocRange>>, v: Entry<AllocRange>, pool': seq<Entry<AllocRange>>, p: nat)
    requires SortedBySize(pool, p) && v.parent == p && !v.obj.cmpRange && IsInsert(RANGE_OPS, pool, v, pool')
    ensures SortedBySize(pool', p)
  {
    var i: nat :| IsUpperBound(RANGE_OPS, pool, v, i) && pool' == InsertAt(pool, i, v);
    assert i < |pool| ==> v.obj.size < pool[i].obj.size;
    assert i > 0 ==> pool[i - 1].obj.size <= v.obj.size;
    InsertedSorted(pool, v, i, p);
  }

  lemma InsertedSorted(pool: seq<Entry<AllocRange>>, v: Entry<AllocRange>, i: nat, p: nat)
    requires SortedBySize(pool, p) && v.parent == p && !v.obj.cmpRange && i <= |pool|
    requires i < |pool| ==> v.obj.size < pool[i].obj.size
    requires i > 0 ==> pool[i - 1].obj.size <= v.obj.size
    ensures SortedBySize(InsertAt(pool, i, v), p)
  {
    var pool' := InsertAt(pool, i, v);
    assert forall a :: 0 <= a < |pool'| ==> pool'[a] == if a < i then pool[a] else if a == i then v else pool[a - 1];
    hide InsertAt;
    forall a, b | 0 <= a < b < |pool'| ensures pool'[a].obj.size <= pool'[b].obj.size {}
  }

  lemma FreeObjSorted(pool: seq<Entry<AllocRange>>, obj: Entry<AllocRange>, pool': seq<Entry<AllocRange>>, p: nat)
    requires SortedBySize(pool, p) && obj.parent == p && !obj.obj.cmpRange && IsFreeObj(RANGE_OPS, pool, obj, pool')
    ensures SortedBySize(pool', p)
  {
    hide IsFreeObj, Cmp;
    var i, v := FreeObjCases(RANGE_OPS, pool, obj, pool');
    if i == |pool| {
      InsertSorted(pool, obj, pool', p);
    } else {
      InsertSorted(RemoveAt(pool, i), v, pool', p);
    }
  }

  lemma {:induction false} CoalesceSorted(
    pool: seq<Entry<AllocRange>>, queue: seq<Entry<AllocRange>>, pool': seq<Entry<AllocRange>>, p: nat)
    requires SortedBySize(pool, p) && IsCoalesce(RANGE_OPS, pool, queue, pool')
    requires forall i :: 0 <= i < |queue| ==> queue[i].parent == p && !queue[i].obj.cmpRange
    ensures SortedBySize(pool', p)
    decreases |queue|
  {
    hide IsFreeObj;
    if queue != [] {
      var mid :| IsFreeObj(RANGE_OPS, pool, queue[0], mid) && IsCoalesce(RANGE_OPS, mid, queue[1..], pool');
      FreeObjSorted(pool, queue[0], mid, p);
      CoalesceSorted(mid, queue[1..], pool', p);
    }
  }

  lemma TakeSorted(pool: seq<Entry<AllocRange>>, req: Entry<AllocRange>, pool': seq<Entry<AllocRange>>, found: Found<AllocRange>, p: nat)
    requires SortedBySize(pool, p) && IsTake(RANGE_OPS, pool, req, pool', found)
    ensures SortedBySize(pool', p)
  {
    hide IsFreeObj;
    var i: nat :| IsTakeAt(RANGE_OPS, pool, req, pool', found, i);
    if found.Got? && !IsEmptyRange(found.rest) {
      FreeObjSorted(RemoveAt(pool, i), Entry(req.parent, found.rest), pool', p);
    }
  }

  lemma {:induction false} WithoutSorted(pool: seq<Entry<AllocRange>>, q: nat, p: nat)
    requires SortedBySize(pool, p)
    ensures Without(pool, q) == if q == p then [] else pool
  {
    if pool != [] { WithoutSorted(pool[..|pool| - 1], q, p); }
  }

  ghost predicate Own(es: seq<Entry<AllocRange>>, p: nat) {
    forall i :: 0 <= i < |es| ==> es[i].parent == p && !es[i].obj.cmpRange
  }

  lemma {:induction false} FindFreedSorted(
    pool: seq<Entry<AllocRange>>, queue: seq<Entry<AllocRange>>, req: Entry<AllocRange>,
    pool': seq<Entry<AllocRange>>, queue': seq<Entry<AllocRange>>, lost: seq<Entry<AllocRange>>, found: Found<AllocRange>, p: nat)
    requires SortedBySize(pool, p) && Own(queue, p) && IsFindFreed(RANGE_OPS, pool, queue, req, pool', queue', lost, found)
    ensures SortedBySize(pool', p)
    decreases |queue|
  {
    hide IsFreeObj, IsTake, SortedBySize;
    if queue != [] {
      var a := queue[0];
      if a.parent != req.parent {
        FindFreedSorted(pool, queue[1..], req, pool', queue', lost[1..], found, p);
      } else if RangeLessEq(req.obj, a.obj) {
        if found.Got? && !IsEmptyRange(found.rest) { FreeObjSorted(pool, Entry(req.parent, found.rest), pool', p); }
      } else {
        var mid, pool1, found1 :|
          && IsFreeObj(RANGE_OPS, pool, a, mid)
          && IsTake(RANGE_OPS, mid, req, pool1, found1)
          && if found1.Got? then pool' == pool1 && queue' == queue[1..] && lost == [] && found == found1
             else IsFindFreed(RANGE_OPS, pool1, queue[1..], req, pool', queue', lost, found);
        FreeObjSorted(pool, a, mid, p);
        TakeSorted(mid, req, pool1, found1, p);
        if !found1.Got? { FindFreedSorted(pool1, queue[1..], req, pool', queue', lost, found, p); }
      }
    }
  }

  lemma SearchSorted(
    pool: seq<Entry<AllocRange>>, queue: seq<Entry<AllocRange>>, req: Entry<AllocRange>,
    pool': seq<Entry<AllocRange>>, queue': seq<Entry<AllocRange>>, lost: seq<Entry<AllocRange>>, found: Found<AllocRange>, p: nat)
    requires SortedBySize(pool, p) && Own(queue, p) && IsSearch(RANGE_OPS, pool, queue, req, pool', queue', lost, found)
    ensures SortedBySize(pool', p)
  {
    hide IsTake, IsFindFreed, SortedBySize;
    if IsTake(RANGE_OPS, pool, req, pool', found) && !found.Missed? && queue' == queue && lost == [] {
      TakeSorted(pool, req, pool', found, p);
    } else {
      FindFreedSorted(pool, queue, req, pool', queue', lost, found, p);
    }
  }

  lemma OwnParts(s: State<AllocRange>, p: nat)
    requires RangesKept(s) && s.registeredIds.active <= {p}
    ensures Own(s.pool, p) && Own(s.freed, p)
    ensures forall id :: 0 <= id < |s.live| && s.live[id].Some? ==> Own([s.live[id].value], p)
  {
    PoolCovered(s);
  }

  /** With one registered resource, every call, eager or deferred, keeps the pool in order of size. */
  lemma StepKeepsSorted(deferFree: bool, s: State<AllocRange>, e: Event<AllocRange>, s': State<AllocRange>, p: nat)
    requires RangesKept(s) && Legal(s, e) && IsStep(RANGE_OPS, deferFree, s, e, s')
    requires s.registeredIds.active <= {p} && s'.registeredIds.active <= {p}
    requires SortedBySize(s.pool, p)
    ensures SortedBySize(s'.pool, p)
  {
    hide IsCoalesce, IsFreeObj, IsSearch, Counted;
    OwnParts(s, p);
    match e
    case Register(obj, r) =>
      if r.Allocated? {
        assert r.id in s'.registeredIds.active;
        FreeObjSorted(s.pool, Entry(r.id, obj), s'.pool, p);
      }
    case Unregister(id, status) =>
      if status == SUCCESS {
        var mid :| IsCoalesce(RANGE_OPS, s.pool, s.freed, mid) && s'.pool == Without(mid, id);
        CoalesceSorted(s.pool, s.freed, mid, p);
        WithoutSorted(mid, id, p);
      }
    case Alloc(req, r, found, lost) =>
      if r.Allocated? { SearchSorted(s.pool, s.freed, req, s'.pool, s'.freed, lost, found, p); }
    case Free(id) =>
      if !deferFree {
        assert Own([s.live[id].value], p);
        assert [s.live[id].value][0] == s.live[id].value;
        CoalesceSorted(s.pool, s.freed + [s.live[id].value], s'.pool, p);
      }
  }

  /** Nothing but resource p is ever registered, up to call n. */
  ghost predicate OnlyResource(states: seq<State<AllocRange>>, n: nat, p: nat) {
    forall i :: 0 <= i <= n && i < |states| ==> states[i].registeredIds.active <= {p}
  }

  /** In every run with one resource, eager or deferred, the pool stays in order of size. */
  lemma {:induction false} RunKeepsSorted(
    deferFree: bool, num: nat, states: seq<State<AllocRange>>, events: seq<Event<AllocRange>>, n: nat, p: nat)
    requires LegalRun(deferFree, num, states, events) && n < |states| && OnlyResource(states, n, p)
    ensures RangesKept(states[n]) && SortedBySize(states[n].pool, p)
  {
    hide RangesKept, SortedBySize, IsStep, Legal;
    RunKeepsRanges(deferFree, num, states, events, n);
    if n == 0 {
      EmptySorted(p);
    } else {
      RunKeepsSorted(deferFree, num, states, events, n - 1, p);
      StepKeepsSorted(deferFree, states[n - 1], events[n - 1], states[n], p);
    }
  }

  lemma EmptySorted(p: nat)
    ensures SortedBySize([], p)
  {}

  // ---------------------------------------------------------------------
  // Best fit
  // ---------------------------------------------------------------------

  /** The free range that the request was cut from. */
  ghost predicate IsBestFit(pool: seq<Entry<AllocRange>>, req: AllocRange, d: AllocRange, i: nat) {
    && i < |pool|
    && req.size <= pool[i].obj.size
    && (forall j :: 0 <= j < |pool| && req.size <= pool[j].obj.size ==> pool[i].obj.size <= pool[j].obj.size)
    && d.begin == pool[i].obj.begin && d.size == req.size
  }

  lemma TakeBestFit(pool: seq<Entry<AllocRange>>, req: Entry<AllocRange>, pool': seq<Entry<AllocRange>>, found: Found<AllocRange>)
    requires SortedBySize(pool, req.parent) && AllWellFormed(pool) && IsRequest(req.obj)
    requires IsTake(RANGE_OPS, pool, req, pool', found)
    ensures found.Got? || found.Missed?
    ensures found.Missed? <==> forall i :: 0 <= i < |pool| ==> pool[i].obj.size < req.obj.size
    ensures found.Got? ==> exists i: nat :: IsBestFit(pool, req.obj, found.d, i)
  {
    hide IsFreeObj;
    var i: nat :| IsTakeAt(RANGE_OPS, pool, req, pool', found, i);
    if i < |pool| {
      ReserveSplits(pool[i].obj, req.obj);
      assert IsBestFit(pool, req.obj, found.d, i);
    }
  }

  /** Some range is large enough. */
  ghost predicate HasFit(es: seq<Entry<AllocRange>>, req: AllocRange) {
    exists i :: 0 <= i < |es| && req.size <= es[i].obj.size
  }

  /** A queued range that is large enough is found, at the latest when the queue is drained up to it. */
  lemma {:induction false} QueuedFitIsFound(
    pool: seq<Entry<AllocRange>>, queue: seq<Entry<AllocRange>>, req: Entry<AllocRange>,
    pool': seq<Entry<AllocRange>>, queue': seq<Entry<AllocRange>>, lost: seq<Entry<AllocRange>>, found: Found<AllocRange>)
    requires Own(queue, req.parent) && AllWellFormed(queue) && IsRequest(req.obj) && HasFit(queue, req.obj)
    requires IsFindFreed(RANGE_OPS, pool, queue, req, pool', queue', lost, found)
    ensures found.Got?
    decreases |queue|
  {
    hide IsFreeObj, IsTake;
    var a := queue[0];
    ReserveSplits(a.obj, req.obj);
    if !RangeLessEq(req.obj, a.obj) {
      var mid, pool1, found1 :|
        && IsFreeObj(RANGE_OPS, pool, a, mid)
        && IsTake(RANGE_OPS, mid, req, pool1, found1)
        && if found1.Got? then pool' == pool1 && queue' == queue[1..] && lost == [] && found == found1
           else IsFindFreed(RANGE_OPS, pool1, queue[1..], req, pool', queue', lost, found);
      if !found1.Got? {
        var i :| 0 <= i < |queue| && req.obj.size <= queue[i].obj.size;
        assert queue[1..][i - 1] == queue[i];
        QueuedFitIsFound(pool1, queue[1..], req, pool', queue', lost, found);
      }
    }
  }

  /** What Alloc does, on a pool in order of size. */
  lemma AllocIsBestFit(s: State<AllocRange>, req: Entry<AllocRange>, r: AllocOutcome, found: Found<AllocRange>,
                       lost: seq<Entry<AllocRange>>, s': State<AllocRange>)
    requires RangesKept(s) && IsRequest(req.obj) && SortedBySize(s.pool, req.parent) && Own(s.freed, req.parent)
    requires IsReserve(RANGE_OPS, s, req, r, found, lost, s')
    ensures r.Allocated? <==> exists id: nat :: id < |s.live| && id !in s.externalIds.active
    ensures r.Allocated? && HasFit(s.pool, req.obj) ==>
              found.Got? && s'.freed == s.freed && exists i: nat :: IsBestFit(s.pool, req.obj, found.d, i)
    ensures r.Allocated? && HasFit(s.freed, req.obj) ==> found.Got?
    ensures r.Allocated? && s.freed == [] && !HasFit(s.pool, req.obj) ==> found.Missed? && s' == s
  {
    hide IsFreeObj, IsTake, Covered;
    PoolCovered(s);
    if r.Allocated? {
      CountedAlloc(s.externalIds, ReserveIn(s.externalIds, r.id), r);
      FullIff(s.externalIds);
      if IsTake(RANGE_OPS, s.pool, req, s'.pool, found) && !found.Missed? && s'.freed == s.freed && lost == [] {
        TakeBestFit(s.pool, req, s'.pool, found);
      } else {
        TakeBestFit(s.pool, req, s.pool, Missed);
        if HasFit(s.freed, req.obj) { QueuedFitIsFound(s.pool, s.freed, req, s'.pool, s'.freed, lost, found); }
      }
    } else {
      CountedAlloc(s.externalIds, s.externalIds, r);
      FullIff(s.externalIds);
    }
  }

  /**
   In every run with one resource, eager or deferred: an Alloc with a large enough
   range in the pool cuts the request from the beginning of a smallest such range and
   leaves the queue alone; one with a large enough range in the queue is served too.
   */
  lemma RunIsBestFit(deferFree: bool, num: nat, states: seq<State<AllocRange>>, events: seq<Event<AllocRange>>, n: nat)
    requires LegalRun(deferFree, num, states, events) && n < |events| && events[n].Alloc?
    requires OnlyResource(states, n, events[n].req.parent)
    ensures var s, e, s' := states[n], events[n], states[n + 1];
            && (e.reservation.Allocated? <==> exists id: nat :: id < |s.live| && id !in s.externalIds.active)
            && (e.reservation.Allocated? && HasFit(s.pool, e.req.obj) ==>
                  e.found.Got? && s'.freed == s.freed && exists i: nat :: IsBestFit(s.pool, e.req.obj, e.found.d, i))
            && (e.reservation.Allocated? && HasFit(s.freed, e.req.obj) ==> e.found.Got?)
  {
    var s, e, s' := states[n], events[n], states[n + 1];
    assert IsStep(RANGE_OPS, deferFree, s, e, s') && Legal(s, e);
    RunKeepsSorted(deferFree, num, states, events, n, e.req.parent);
    OwnParts(s, e.req.parent);
    hide RangesKept, SortedBySize, LegalRun, Own, IsReserve;
    AllocIsBestFit(s, e.req, e.reservation, e.found, e.lost, s');
  }

  /**
   In every eager run with one resource, Alloc succeeds if and only if an external
   identifier and a large enough free range exist; it then cuts the request from the
   beginning of a smallest such range, and otherwise changes nothing.
   */
  lemma EagerRunIsBestFit(num: nat, states: seq<State<AllocRange>>, events: seq<Event<AllocRange>>, n: nat)
    requires LegalRun(false, num, states, events) && n < |events| && events[n].Alloc?
    requires OnlyResource(states, n, events[n].req.parent)
    ensures var s, e, s' := states[n], events[n], states[n + 1];
            && (e.reservation.Allocated? && e.found.Got? <==>
                  (exists id: nat :: id < |s.live| && id !in s.externalIds.active) && HasFit(s.pool, e.req.obj))
            && (e.reservation.Allocated? && e.found.Got? ==> exists i: nat :: IsBestFit(s.pool, e.req.obj, e.found.d, i))
            && (!(e.reservation.Allocated? && e.found.Got?) ==> s' == s)
  {
    var s, e, s' := states[n], events[n], states[n + 1];
    assert IsStep(RANGE_OPS, false, s, e, s') && Legal(s, e);
    RunKeepsSorted(false, num, states, events, n, e.req.parent);
    OwnParts(s, e.req.parent);
    EagerQueue(RANGE_OPS, num, states, events, n);
    if !e.reservation.Allocated? { NotReserved(s, e, s'); }
    hide RangesKept, SortedBySize, LegalRun, Own, IsReserve;
    AllocIsBestFit(s, e.req, e.reservation, e.found, e.lost, s');
  }

  lemma NotReserved(s: State<AllocRange>, e: Event<AllocRange>, s': State<AllocRange>)
    requires IsStep(RANGE_OPS, false, s, e, s') && e.Alloc? && !e.reservation.Allocated?
    ensures s' == s
  {}
}
