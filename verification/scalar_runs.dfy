/**
 Allocators of amounts over every run: the free, queued and reserved amounts of a
 resource add up to what was registered, a request is served exactly when it fits
 what is unallocated, and deferring frees changes no reply.
 */
module ScalarRuns {
  import opened Options
  import opened IdentifierDb
  import opened IdentifierRuns
  import opened Pool
  import opened Totals
  import opened Allocator
  import opened AllocatorPieces
  import opened Closure
  import opened Scalars

  // ---------------------------------------------------------------------
  // Searching the queue
  // ---------------------------------------------------------------------

  /** What a search hands out and what it loses. */
  function Out<T>(ops: Ops<T>, p: nat, found: Found<T>, lost: seq<Entry<T>>): seq<Entry<T>> {
    lost + Taken(p, found) + Dropped(ops, p, found)
  }

  ghost predicate SearchFacts<T>(
    ops: Ops<T>, dims: seq<T -> int>, bound: int, active: set<nat>, pool: seq<Entry<T>>, queue: seq<Entry<T>>, req: Entry<T>,
    pool': seq<Entry<T>>, queue': seq<Entry<T>>, lost: seq<Entry<T>>, found: Found<T>)
  {
    && AllProper(dims, bound, pool') && ParentsIn(pool', active)
    && AllProper(dims, bound, queue') && ParentsIn(queue', active)
    && AllProper(dims, bound, lost) && ParentsIn(lost, active)
    && !found.Refused?
    && (found.Got? ==> req.parent in active && SameAmount(dims, found.d, req.obj))
    && (found.Got? ==> Proper(dims, bound, found.d) && Proper(dims, bound, found.rest))
    && SameSums(dims, pool + queue, pool' + queue' + Out(ops, req.parent, found, lost))
    && (OnePerParent(pool) ==> OnePerParent(pool'))
    && (forall i :: 0 <= i < |lost| ==> lost[i].parent != req.parent)
  }

  lemma {:induction false} FindFreedAmount<T(!new)>(
    ops: Ops<T>, dims: seq<T -> int>, bound: int, regs: seq<T>, active: set<nat>,
    pool: seq<Entry<T>>, queue: seq<Entry<T>>, req: Entry<T>,
    pool': seq<Entry<T>>, queue': seq<Entry<T>>, lost: seq<Entry<T>>, found: Found<T>)
    requires Laws(ops, dims, bound) && Fits(dims, bound, regs, active, pool + queue) && IsRequest(dims, bound, req.obj)
    requires IsFindFreed(ops, pool, queue, req, pool', queue', lost, found)
    ensures SearchFacts(ops, dims, bound, active, pool, queue, req, pool', queue', lost, found)
    decreases |queue|
  {
    hide IsFreeObj, Laws, Fits, Total, IsTake, IsRequest, Proper, SearchFacts;
    FitsParts(dims, bound, regs, active, pool, queue);
    if queue == [] {
      assert pool' + queue' + Out(ops, req.parent, found, lost) == pool + queue;
      NothingFound(ops, dims, bound, active, pool, queue, req, pool', queue', lost, found);
    } else {
      var a := queue[0];
      if a.parent != req.parent {
        SkipQueued(dims, bound, regs, active, pool, queue);
        FindFreedAmount(ops, dims, bound, regs, active, pool, queue[1..], req, pool', queue', lost[1..], found);
        FindFreedSkip(ops, dims, bound, active, pool, queue, req, pool', queue', lost, found);
      } else if ops.lessEq(req.obj, a.obj) {
        FindFreedCut(ops, dims, bound, regs, active, pool, queue, req, pool', queue', lost, found);
      } else {
        var mid, pool1, found1 :|
          && IsFreeObj(ops, pool, a, mid)
          && IsTake(ops, mid, req, pool1, found1)
          && if found1.Got? then pool' == pool1 && queue' == queue[1..] && lost == [] && found == found1
             else IsFindFreed(ops, pool1, queue[1..], req, pool', queue', lost, found);
        FindFreedMerge(ops, dims, bound, regs, active, pool, queue, req, mid, pool1, found1);
        if found1.Got? {
        } else {
          MergedFits(ops, dims, bound, regs, active, pool, queue, req, pool1, found1);
          FindFreedAmount(ops, dims, bound, regs, active, pool1, queue[1..], req, pool', queue', lost, found);
          FactsAfter(ops, dims, bound, active, pool, queue, req, pool1, queue[1..], pool', queue', lost, found);
        }
      }
    }
  }

  lemma NothingFound<T>(
    ops: Ops<T>, dims: seq<T -> int>, bound: int, active: set<nat>, pool: seq<Entry<T>>, queue: seq<Entry<T>>, req: Entry<T>,
    pool': seq<Entry<T>>, queue': seq<Entry<T>>, lost: seq<Entry<T>>, found: Found<T>)
    requires pool' == pool && queue' == queue == [] && lost == [] && found == Missed
    requires AllProper(dims, bound, pool) && ParentsIn(pool, active)
    ensures SearchFacts(ops, dims, bound, active, pool, queue, req, pool', queue', lost, found)
  {
    assert pool' + queue' + Out(ops, req.parent, found, lost) == pool + queue;
  }

  /** The rest of the queue, without its front. */
  lemma SkipQueued<T>(dims: seq<T -> int>, bound: int, regs: seq<T>, active: set<nat>, pool: seq<Entry<T>>, queue: seq<Entry<T>>)
    requires Fits(dims, bound, regs, active, pool + queue) && queue != []
    ensures Fits(dims, bound, regs, active, pool + queue[1..])
    ensures Proper(dims, bound, queue[0].obj) && queue[0].parent in active
  {
    hide Fits, Total, Proper;
    var a, rest := queue[0], queue[1..];
    FitsParts(dims, bound, regs, active, pool, queue);
    assert pool + queue == pool + [a] + rest;
    SameSumsSwap(dims, pool, [a], rest);
    assert forall i :: 0 <= i < |rest| ==> rest[i] == queue[i + 1];
    FitsSame(dims, bound, regs, active, pool + queue, pool + rest + [a]);
    FitsParts(dims, bound, regs, active, pool + rest, [a]);
  }

  lemma FindFreedSkip<T>(
    ops: Ops<T>, dims: seq<T -> int>, bound: int, active: set<nat>, pool: seq<Entry<T>>, queue: seq<Entry<T>>, req: Entry<T>,
    pool': seq<Entry<T>>, queue': seq<Entry<T>>, lost: seq<Entry<T>>, found: Found<T>)
    requires queue != [] && queue[0].parent != req.parent && lost != [] && lost[0] == queue[0]
    requires Proper(dims, bound, queue[0].obj) && queue[0].parent in active
    requires SearchFacts(ops, dims, bound, active, pool, queue[1..], req, pool', queue', lost[1..], found)
    ensures SearchFacts(ops, dims, bound, active, pool, queue, req, pool', queue', lost, found)
  {
    hide Total, Proper;
    var a, rest, p := queue[0], queue[1..], req.parent;
    var out, out' := Out(ops, p, found, lost[1..]), Out(ops, p, found, lost);
    assert pool + queue == pool + [a] + rest;
    SameSumsSwap(dims, pool, [a], rest);
    SameSumsConcat(dims, pool + rest, pool' + queue' + out, [a], [a]);
    SameSumsTrans(dims, pool + queue, pool + rest + [a], pool' + queue' + out + [a]);
    SameSumsSwap(dims, pool' + queue', out, [a]);
    SameSumsTrans(dims, pool + queue, pool' + queue' + out + [a], pool' + queue' + [a] + out);
    assert pool' + queue' + [a] + out == pool' + queue' + out';
    forall i | 0 <= i < |lost|
      ensures lost[i].parent != p && Proper(dims, bound, lost[i].obj) && lost[i].parent in active
    {
      if i > 0 { assert lost[i] == lost[1..][i - 1]; }
    }
  }

  lemma FindFreedCut<T(!new)>(
    ops: Ops<T>, dims: seq<T -> int>, bound: int, regs: seq<T>, active: set<nat>,
    pool: seq<Entry<T>>, queue: seq<Entry<T>>, req: Entry<T>,
    pool': seq<Entry<T>>, queue': seq<Entry<T>>, lost: seq<Entry<T>>, found: Found<T>)
    requires Laws(ops, dims, bound) && Fits(dims, bound, regs, active, pool + queue) && IsRequest(dims, bound, req.obj)
    requires queue != [] && queue[0].parent == req.parent && ops.lessEq(req.obj, queue[0].obj)
    requires IsFindFreed(ops, pool, queue, req, pool', queue', lost, found)
    ensures SearchFacts(ops, dims, bound, active, pool, queue, req, pool', queue', lost, found)
    ensures found.Got?
  {
    hide IsFreeObj, Laws, Fits, Total, IsTake, IsRequest, Proper;
    var a, rest, p := queue[0], queue[1..], req.parent;
    FitsParts(dims, bound, regs, active, pool, queue);
    assert forall i :: 0 <= i < |rest| ==> rest[i] == queue[i + 1];
    ReserveCovers(ops, dims, bound, a.obj, req.obj);
    var (d, r) := ops.reserve(a.obj, req.obj).value;
    assert pool + queue == pool + [a] + rest;
    FitsParts(dims, bound, regs, active, pool + [a], rest);
    CutFrom(ops, dims, bound, regs, active, pool, a, req.obj, d, r, pool');
    var out := [Entry(p, d)] + Dropped(ops, p, Got(d, r));
    assert pool' + [Entry(p, d)] + Dropped(ops, p, Got(d, r)) == pool' + out;
    SameSumsConcat(dims, pool + [a], pool' + out, rest, rest);
    SameSumsSwap(dims, pool', out, rest);
    SameSumsTrans(dims, pool + queue, pool' + out + rest, pool' + rest + out);
    assert Out(ops, p, found, lost) == out;
  }

  lemma FindFreedMerge<T(!new)>(
    ops: Ops<T>, dims: seq<T -> int>, bound: int, regs: seq<T>, active: set<nat>,
    pool: seq<Entry<T>>, queue: seq<Entry<T>>, req: Entry<T>, mid: seq<Entry<T>>, pool1: seq<Entry<T>>, found1: Found<T>)
    requires Laws(ops, dims, bound) && Fits(dims, bound, regs, active, pool + queue) && IsRequest(dims, bound, req.obj)
    requires queue != [] && IsFreeObj(ops, pool, queue[0], mid) && IsTake(ops, mid, req, pool1, found1)
    ensures SearchFacts(ops, dims, bound, active, pool, queue, req, pool1, queue[1..], [], found1)
    ensures SameSums(dims, pool + [queue[0]], mid) && Fits(dims, bound, regs, active, mid)
    ensures OnePerParent(pool) ==> OnePerParent(mid)
  {
    hide IsFreeObj, Laws, Fits, Total, IsTake, IsRequest, Proper;
    var a, rest, p := queue[0], queue[1..], req.parent;
    FitsParts(dims, bound, regs, active, pool, queue);
    assert forall i :: 0 <= i < |rest| ==> rest[i] == queue[i + 1];
    assert pool + queue == pool + [a] + rest;
    FitsParts(dims, bound, regs, active, pool + [a], rest);
    FreeAmount(ops, dims, bound, regs, active, pool, a, mid);
    FitsSame(dims, bound, regs, active, pool + [a], mid);
    TakeAmount(ops, dims, bound, regs, active, mid, req, pool1, found1);
    var out := Out(ops, p, found1, []);
    assert pool1 + Taken(p, found1) + Dropped(ops, p, found1) == pool1 + out;
    SameSumsTrans(dims, pool + [a], mid, pool1 + out);
    SameSumsConcat(dims, pool + [a], pool1 + out, rest, rest);
    SameSumsSwap(dims, pool1, out, rest);
    SameSumsTrans(dims, pool + queue, pool1 + out + rest, pool1 + rest + out);
  }

  lemma MergedFits<T(!new)>(
    ops: Ops<T>, dims: seq<T -> int>, bound: int, regs: seq<T>, active: set<nat>,
    pool: seq<Entry<T>>, queue: seq<Entry<T>>, req: Entry<T>, pool1: seq<Entry<T>>, found1: Found<T>)
    requires Fits(dims, bound, regs, active, pool + queue) && queue != [] && !found1.Got?
    requires SearchFacts(ops, dims, bound, active, pool, queue, req, pool1, queue[1..], [], found1)
    ensures Fits(dims, bound, regs, active, pool1 + queue[1..])
    ensures SameSums(dims, pool + queue, pool1 + queue[1..]) && (OnePerParent(pool) ==> OnePerParent(pool1))
  {
    assert pool1 + queue[1..] + Out(ops, req.parent, found1, []) == pool1 + queue[1..];
    FitsSame(dims, bound, regs, active, pool + queue, pool1 + queue[1..]);
  }

  lemma FactsAfter<T>(
    ops: Ops<T>, dims: seq<T -> int>, bound: int, active: set<nat>, pool: seq<Entry<T>>, queue: seq<Entry<T>>, req: Entry<T>,
    pool1: seq<Entry<T>>, queue1: seq<Entry<T>>,
    pool': seq<Entry<T>>, queue': seq<Entry<T>>, lost: seq<Entry<T>>, found: Found<T>)
    requires SameSums(dims, pool + queue, pool1 + queue1) && (OnePerParent(pool) ==> OnePerParent(pool1))
    requires SearchFacts(ops, dims, bound, active, pool1, queue1, req, pool', queue', lost, found)
    ensures SearchFacts(ops, dims, bound, active, pool, queue, req, pool', queue', lost, found)
  {
    hide Total, Proper, AllProper;
    SameSumsTrans(dims, pool + queue, pool1 + queue1, pool' + queue' + Out(ops, req.parent, found, lost));
  }

  lemma SearchAmount<T(!new)>(
    ops: Ops<T>, dims: seq<T -> int>, bound: int, regs: seq<T>, active: set<nat>,
    pool: seq<Entry<T>>, queue: seq<Entry<T>>, req: Entry<T>,
    pool': seq<Entry<T>>, queue': seq<Entry<T>>, lost: seq<Entry<T>>, found: Found<T>)
    requires Laws(ops, dims, bound) && Fits(dims, bound, regs, active, pool + queue) && IsRequest(dims, bound, req.obj)
    requires IsSearch(ops, pool, queue, req, pool', queue', lost, found)
    ensures SearchFacts(ops, dims, bound, active, pool, queue, req, pool', queue', lost, found)
  {
    hide IsFreeObj, Laws, Fits, Total, IsTake, IsFindFreed, IsRequest, Proper;
    if IsTake(ops, pool, req, pool', found) && !found.Missed? && queue' == queue && lost == [] {
      FitsParts(dims, bound, regs, active, pool, queue);
      TakeAmount(ops, dims, bound, regs, active, pool, req, pool', found);
      var out := Out(ops, req.parent, found, lost);
      assert pool' + Taken(req.parent, found) + Dropped(ops, req.parent, found) == pool' + out;
      SameSumsConcat(dims, pool, pool' + out, queue, queue);
      SameSumsSwap(dims, pool', out, queue);
      SameSumsTrans(dims, pool + queue, pool' + out + queue, pool' + queue + out);
    } else {
      FindFreedAmount(ops, dims, bound, regs, active, pool, queue, req, pool', queue', lost, found);
    }
  }

  // ---------------------------------------------------------------------
  // One call
  // ---------------------------------------------------------------------

  ghost predicate AmountsKept<T>(dims: seq<T -> int>, bound: int, s: State<T>) {
    Kept(s) && OnePerParent(s.pool) && Fits(dims, bound, s.registered, s.registeredIds.active, Pieces(s))
  }

  /** Free, queued and reserved amounts add up to the registered amount, in every compared dimension. */
  ghost predicate Conserved<T>(dims: seq<T -> int>, s: State<T>)
    requires s.Shaped()
  {
    forall p, k :: p in s.registeredIds.active && 0 <= k < |dims| ==> Total(dims[k], Pieces(s), p) == dims[k](s.registered[p])
  }

  ghost predicate Nothing<T>(dims: seq<T -> int>, es: seq<Entry<T>>) {
    forall i, k :: 0 <= i < |es| && 0 <= k < |dims| ==> dims[k](es[i].obj) == 0
  }

  /** What callers provide: machine amounts, and requests for something. */
  ghost predicate Legal<T>(dims: seq<T -> int>, bound: int, e: Event<T>) {
    match e
    case Register(obj, r) => Proper(dims, bound, obj)
    case Alloc(req, r, found, lost) => IsRequest(dims, bound, req.obj)
    case _ => true
  }

  /** What a reservation loses: the queued objects FindFreed drops, and a remainder that IsEmpty takes for nothing. */
  function Losses<T>(ops: Ops<T>, e: Event<T>): seq<Entry<T>> {
    if e.Alloc? then e.lost + Dropped(ops, e.req.parent, e.found) else []
  }

  lemma {:induction false} FlatProper<T>(dims: seq<T -> int>, bound: int, live: seq<Option<Entry<T>>>)
    ensures AllProper(dims, bound, Flat(live)) <==>
            forall id :: 0 <= id < |live| && live[id].Some? ==> Proper(dims, bound, live[id].value.obj)
  {
    hide Proper;
    FlatHas(live);
    var es := Flat(live);
    if AllProper(dims, bound, es) {
      forall id | 0 <= id < |live| && live[id].Some? ensures Proper(dims, bound, live[id].value.obj) {
        assert live[id].value in es;
      }
    }
    if forall id :: 0 <= id < |live| && live[id].Some? ==> Proper(dims, bound, live[id].value.obj) {
      forall i | 0 <= i < |es| ensures Proper(dims, bound, es[i].obj) {
        assert Some(es[i]) in live;
      }
    }
  }

  lemma PiecesProper<T>(dims: seq<T -> int>, bound: int, s: State<T>)
    ensures AllProper(dims, bound, Pieces(s)) <==>
            AllProper(dims, bound, s.pool) && AllProper(dims, bound, s.freed) &&
            forall id :: 0 <= id < |s.live| && s.live[id].Some? ==> Proper(dims, bound, s.live[id].value.obj)
  {
    hide Proper;
    FlatProper(dims, bound, s.live);
    ProperConcat(dims, bound, s.pool + s.freed, Flat(s.live));
    ProperConcat(dims, bound, s.pool, s.freed);
  }

  lemma ProperConcat<T>(dims: seq<T -> int>, bound: int, a: seq<Entry<T>>, b: seq<Entry<T>>)
    ensures AllProper(dims, bound, a + b) <==> AllProper(dims, bound, a) && AllProper(dims, bound, b)
  {
    hide Proper;
    assert forall i :: 0 <= i < |a| ==> (a + b)[i] == a[i];
    assert forall i :: 0 <= i < |b| ==> (a + b)[|a| + i] == b[i];
  }

  lemma PoolFits<T>(dims: seq<T -> int>, bound: int, s: State<T>)
    requires AmountsKept(dims, bound, s)
    ensures Fits(dims, bound, s.registered, s.registeredIds.active, s.pool + s.freed)
    ensures AllProper(dims, bound, s.pool) && AllProper(dims, bound, s.freed)
    ensures forall id :: 0 <= id < |s.live| && s.live[id].Some? ==> Proper(dims, bound, s.live[id].value.obj)
  {
    hide Proper, Kept;
    FitsParts(dims, bound, s.registered, s.registeredIds.active, s.pool + s.freed, Flat(s.live));
    PiecesProper(dims, bound, s);
  }

  lemma AllocSums<T(!new)>(ops: Ops<T>, dims: seq<T -> int>, bound: int, deferFree: bool, s: State<T>, e: Event<T>, s': State<T>)
    requires Laws(ops, dims, bound) && AmountsKept(dims, bound, s)
    requires e.Alloc? && Legal(dims, bound, e) && IsStep(ops, deferFree, s, e, s')
    ensures AllProper(dims, bound, Pieces(s')) && OnePerParent(s'.pool)
    ensures SameSums(dims, Pieces(s), Pieces(s') + Losses(ops, e))
    ensures !e.found.Refused? && (e.found.Got? ==> SameAmount(dims, e.found.d, e.req.obj))
    ensures forall i :: 0 <= i < |e.lost| ==> e.lost[i].parent != e.req.parent
    ensures AllProper(dims, bound, Losses(ops, e)) && ParentsIn(Losses(ops, e), s.registeredIds.active)
  {
    hide IsSearch, Fits, Counted, Laws, Proper, IsRequest;
    PoolFits(dims, bound, s);
    var lost, found, p0 := e.lost, e.found, e.req.parent;
    if e.reservation.Allocated? {
      SearchAmount(ops, dims, bound, s.registered, s.registeredIds.active, s.pool, s.freed, e.req, s'.pool, s'.freed, lost, found);
      PiecesProper(dims, bound, s');
      forall k, p: nat | 0 <= k < |dims| ensures Total(dims[k], Pieces(s') + Losses(ops, e), p) == Total(dims[k], Pieces(s), p) {
        AllocTotal(ops, dims[k], s, e, s', p);
      }
    } else {
      assert Pieces(s') + Losses(ops, e) == Pieces(s);
      PiecesProper(dims, bound, s);
    }
  }

  lemma AllocTotal<T(!new)>(ops: Ops<T>, m: T -> int, s: State<T>, e: Event<T>, s': State<T>, p: nat)
    requires s.Shaped() && e.Alloc? && e.reservation.Allocated? && e.reservation.id < |s.live|
    requires s.live[e.reservation.id].None?
    requires s'.live == if e.found.Got? then s.live[e.reservation.id := Some(Entry(e.req.parent, e.found.d))] else s.live
    requires Total(m, s'.pool + s'.freed + Out(ops, e.req.parent, e.found, e.lost), p) == Total(m, s.pool + s.freed, p)
    ensures Total(m, Pieces(s') + Losses(ops, e), p) == Total(m, Pieces(s), p)
  {
    var p0, lost := e.req.parent, e.lost;
    var out, drop := Taken(p0, e.found), Dropped(ops, p0, e.found);
    OutTotal(m, s'.pool, s'.freed, lost, out, drop, p);
    LossTotal(m, s', lost, drop, p);
    PiecesTotal(m, s, p);
    TotalConcat(m, s.pool, s.freed, p);
    ReservedTotal(m, s.live, e, s'.live, p);
  }

  lemma OutTotal<T>(m: T -> int, pool: seq<Entry<T>>, queue: seq<Entry<T>>, lost: seq<Entry<T>>, out: seq<Entry<T>>, drop: seq<Entry<T>>, p: nat)
    ensures Total(m, pool + queue + (lost + out + drop), p)
         == Total(m, pool, p) + Total(m, queue, p) + Total(m, lost, p) + Total(m, out, p) + Total(m, drop, p)
  {
    hide Total;
    TotalConcat(m, pool + queue, lost + out + drop, p);
    TotalConcat(m, pool, queue, p);
    TotalConcat(m, lost + out, drop, p);
    TotalConcat(m, lost, out, p);
  }

  lemma LossTotal<T>(m: T -> int, s: State<T>, lost: seq<Entry<T>>, drop: seq<Entry<T>>, p: nat)
    ensures Total(m, Pieces(s) + (lost + drop), p)
         == Total(m, s.pool, p) + Total(m, s.freed, p) + LiveTotal(m, s.live, p) + Total(m, lost, p) + Total(m, drop, p)
  {
    hide Total, LiveTotal, Pieces;
    TotalConcat(m, Pieces(s), lost + drop, p);
    TotalConcat(m, lost, drop, p);
    PiecesTotal(m, s, p);
  }

  lemma ReservedTotal<T>(m: T -> int, live: seq<Option<Entry<T>>>, e: Event<T>, live': seq<Option<Entry<T>>>, p: nat)
    requires e.Alloc? && e.reservation.Allocated? && e.reservation.id < |live| && live[e.reservation.id].None?
    requires live' == if e.found.Got? then live[e.reservation.id := Some(Entry(e.req.parent, e.found.d))] else live
    ensures LiveTotal(m, live', p) == LiveTotal(m, live, p) + Total(m, Taken(e.req.parent, e.found), p)
  {
    if e.found.Got? {
      LiveTotalUpdate(m, live, e.reservation.id, live'[e.reservation.id], p);
      TotalSingle(m, Entry(e.req.parent, e.found.d), p);
    }
  }

  lemma FreeSums<T(!new)>(ops: Ops<T>, dims: seq<T -> int>, bound: int, deferFree: bool, s: State<T>, id: nat, s': State<T>)
    requires Laws(ops, dims, bound) && AmountsKept(dims, bound, s) && IsFree(ops, deferFree, s, id, s')
    ensures AllProper(dims, bound, Pieces(s')) && OnePerParent(s'.pool)
    ensures SameSums(dims, Pieces(s), Pieces(s'))
  {
    hide IsCoalesce, Fits, Counted, Laws, Proper, IsFreeObj;
    var obj, active := s.live[id].value, s.registeredIds.active;
    PoolFits(dims, bound, s);
    var queue := s.freed + [obj];
    forall k, p: nat | 0 <= k < |dims|
      ensures Total(dims[k], s.pool + queue, p) + LiveTotal(dims[k], s'.live, p) == Total(dims[k], Pieces(s), p)
    {
      QueuedTotal(dims[k], s, id, p);
    }
    FreeFits(dims, bound, s, obj, s'.live);
    if !deferFree {
      CoalesceAmounts(ops, dims, bound, s.registered, active, s.pool, queue, s'.pool);
    }
    PiecesProper(dims, bound, s');
    forall k, p: nat | 0 <= k < |dims| ensures Total(dims[k], Pieces(s'), p) == Total(dims[k], Pieces(s), p) {
      PiecesTotal(dims[k], s', p);
      TotalConcat(dims[k], s.pool, queue, p);
    }
  }

  lemma QueuedTotal<T>(m: T -> int, s: State<T>, id: nat, p: nat)
    requires id < |s.live| && s.live[id].Some?
    ensures Total(m, s.pool + (s.freed + [s.live[id].value]), p) + LiveTotal(m, s.live[id := None], p) == Total(m, Pieces(s), p)
  {
    var obj := s.live[id].value;
    PiecesTotal(m, s, p);
    TotalConcat(m, s.pool, s.freed + [obj], p);
    TotalConcat(m, s.freed, [obj], p);
    TotalSingle(m, obj, p);
    LiveTotalUpdate(m, s.live, id, None, p);
  }

  lemma FreeFits<T>(dims: seq<T -> int>, bound: int, s: State<T>, obj: Entry<T>, live': seq<Option<Entry<T>>>)
    requires AmountsKept(dims, bound, s) && Proper(dims, bound, obj.obj) && obj.parent in s.registeredIds.active
    requires forall id :: 0 <= id < |live'| && live'[id].Some? ==> Proper(dims, bound, live'[id].value.obj)
    requires forall k, p: nat :: 0 <= k < |dims| ==>
               Total(dims[k], s.pool + (s.freed + [obj]), p) + LiveTotal(dims[k], live', p) == Total(dims[k], Pieces(s), p)
    ensures Fits(dims, bound, s.registered, s.registeredIds.active, s.pool + (s.freed + [obj]))
  {
    var es := s.pool + (s.freed + [obj]);
    PoolFits(dims, bound, s);
    forall p, k | p in s.registeredIds.active && 0 <= k < |dims| ensures Total(dims[k], es, p) <= dims[k](s.registered[p]) {
      LiveTotalAtLeast(dims[k], live', p);
      assert Total(dims[k], Pieces(s), p) <= dims[k](s.registered[p]);
    }
  }

  lemma RegisterSums<T(!new)>(ops: Ops<T>, dims: seq<T -> int>, bound: int, s: State<T>, obj: T, r: AllocOutcome, s': State<T>)
    requires Laws(ops, dims, bound) && AmountsKept(dims, bound, s) && Kept(s')
    requires IsRegister(ops, s, obj, r, s') && r.Allocated? && Proper(dims, bound, obj)
    ensures AmountsKept(dims, bound, s')
    ensures forall k, p: nat :: 0 <= k < |dims| ==>
              Total(dims[k], Pieces(s'), p) == Total(dims[k], Pieces(s), p) + Share(dims[k], Entry(r.id, obj), p)
  {
    hide IsFreeObj, Counted, Laws, Proper, Fits;
    var p0, active' := r.id, s'.registeredIds.active;
    CountedAlloc(s.registeredIds, s'.registeredIds, r);
    PoolFits(dims, bound, s);
    NewFits(dims, bound, s, obj, p0, s'.registered, active');
    FreeAmount(ops, dims, bound, s'.registered, active', s.pool, Entry(p0, obj), s'.pool);
    PiecesProper(dims, bound, s');
    PiecesParents(s');
    forall k, p: nat | 0 <= k < |dims|
      ensures Total(dims[k], Pieces(s'), p) == Total(dims[k], Pieces(s), p) + Share(dims[k], Entry(p0, obj), p)
    {
      PiecesTotal(dims[k], s, p);
      PiecesTotal(dims[k], s', p);
      TotalConcat(dims[k], s.pool, [Entry(p0, obj)], p);
      TotalSingle(dims[k], Entry(p0, obj), p);
    }
    NewPiecesFit(dims, bound, s, obj, p0, s');
  }

  lemma NewFits<T>(dims: seq<T -> int>, bound: int, s: State<T>, obj: T, p0: nat, regs': seq<T>, active': set<nat>)
    requires AmountsKept(dims, bound, s) && Proper(dims, bound, obj) && p0 !in s.registeredIds.active && p0 < |s.registered|
    requires regs' == s.registered[p0 := obj] && active' == s.registeredIds.active + {p0}
    ensures Fits(dims, bound, regs', active', s.pool + [Entry(p0, obj)])
  {
    PoolFits(dims, bound, s);
    FitsParts(dims, bound, s.registered, s.registeredIds.active, s.pool, s.freed);
    forall p, k | p in active' && 0 <= k < |dims|
      ensures Total(dims[k], s.pool + [Entry(p0, obj)], p) <= dims[k](regs'[p])
    {
      TotalConcat(dims[k], s.pool, [Entry(p0, obj)], p);
      TotalSingle(dims[k], Entry(p0, obj), p);
      if p == p0 { TotalNone(dims[k], s.pool, p); }
    }
  }

  lemma NewPiecesFit<T>(dims: seq<T -> int>, bound: int, s: State<T>, obj: T, p0: nat, s': State<T>)
    requires AmountsKept(dims, bound, s) && Proper(dims, bound, obj) && p0 !in s.registeredIds.active && p0 < |s.registered|
    requires AllProper(dims, bound, Pieces(s')) && ParentsIn(Pieces(s'), s'.registeredIds.active)
    requires s'.registered == s.registered[p0 := obj] && s'.registeredIds.active == s.registeredIds.active + {p0}
    requires forall k, p: nat :: 0 <= k < |dims| ==>
               Total(dims[k], Pieces(s'), p) == Total(dims[k], Pieces(s), p) + Share(dims[k], Entry(p0, obj), p)
    ensures Fits(dims, bound, s'.registered, s'.registeredIds.active, Pieces(s'))
  {
    PiecesParents(s);
    forall p, k | p in s'.registeredIds.active && 0 <= k < |dims|
      ensures Total(dims[k], Pieces(s'), p) <= dims[k](s'.registered[p])
    {
      if p == p0 { TotalNone(dims[k], Pieces(s), p); }
    }
  }

  lemma {:induction false} WithoutAmounts<T>(dims: seq<T -> int>, bound: int, es: seq<Entry<T>>, p: nat)
    ensures AllProper(dims, bound, es) ==> AllProper(dims, bound, Without(es, p))
    ensures OnePerParent(es) ==> OnePerParent(Without(es, p))
    ensures forall i :: 0 <= i < |Without(es, p)| ==> Without(es, p)[i] in es
  {
    hide Proper;
    if es != [] { WithoutAmounts(dims, bound, es[..|es| - 1], p); }
  }

  lemma UnregisterSums<T(!new)>(ops: Ops<T>, dims: seq<T -> int>, bound: int, s: State<T>, q: nat, status: Status, s': State<T>)
    requires Laws(ops, dims, bound) && AmountsKept(dims, bound, s) && Kept(s')
    requires IsUnregister(ops, s, q, status, s') && status == SUCCESS
    ensures AmountsKept(dims, bound, s')
    ensures forall k, p: nat :: 0 <= k < |dims| ==> Total(dims[k], Pieces(s'), p) == if p == q then 0 else Total(dims[k], Pieces(s), p)
  {
    hide IsCoalesce, Counted, IsFreeObj, Laws, Proper, Fits, Without;
    PoolFits(dims, bound, s);
    var mid :| IsCoalesce(ops, s.pool, s.freed, mid) && s'.pool == Without(mid, q);
    CoalesceAmounts(ops, dims, bound, s.registered, s.registeredIds.active, s.pool, s.freed, mid);
    LiveCountZero(s.live, q);
    WithoutAmounts(dims, bound, mid, q);
    PiecesProper(dims, bound, s');
    PiecesParents(s');
    forall k, p: nat | 0 <= k < |dims|
      ensures Total(dims[k], Pieces(s'), p) == if p == q then 0 else Total(dims[k], Pieces(s), p)
    {
      PiecesTotal(dims[k], s, p);
      PiecesTotal(dims[k], s', p);
      TotalConcat(dims[k], s.pool, s.freed, p);
      WithoutTotal(dims[k], mid, q, p);
      if p == q { LiveTotalNone(dims[k], s.live, p); }
    }
    LeftFits(dims, bound, s, q, s');
  }

  /** Unregistering one resource leaves all that was free or queued of another one free. */
  lemma UnregisterKeepsOthers<T(!new)>(ops: Ops<T>, dims: seq<T -> int>, bound: int, s: State<T>, q: nat, status: Status, s': State<T>,
                                       p: nat, k: nat)
    requires Laws(ops, dims, bound) && AmountsKept(dims, bound, s) && IsUnregister(ops, s, q, status, s')
    requires status == SUCCESS && p != q && k < |dims|
    ensures Total(dims[k], s'.pool, p) == Total(dims[k], s.pool, p) + Total(dims[k], s.freed, p)
  {
    hide IsCoalesce, Counted, Laws, Proper, Fits;
    UnregisterKeeps(ops, s, q, status, s');
    UnregisterSums(ops, dims, bound, s, q, status, s');
    PiecesTotal(dims[k], s, p);
    PiecesTotal(dims[k], s', p);
  }

  lemma LeftFits<T>(dims: seq<T -> int>, bound: int, s: State<T>, q: nat, s': State<T>)
    requires AmountsKept(dims, bound, s) && AllProper(dims, bound, Pieces(s')) && ParentsIn(Pieces(s'), s'.registeredIds.active)
    requires s'.registered == s.registered && s'.registeredIds.active == s.registeredIds.active - {q}
    requires forall k, p: nat :: 0 <= k < |dims| ==> Total(dims[k], Pieces(s'), p) == if p == q then 0 else Total(dims[k], Pieces(s), p)
    ensures Fits(dims, bound, s'.registered, s'.registeredIds.active, Pieces(s'))
  {}

  /** Every call keeps the amounts of a resource within what is registered, one free entry per resource. */
  lemma StepKeepsAmounts<T(!new)>(ops: Ops<T>, dims: seq<T -> int>, bound: int, deferFree: bool, s: State<T>, e: Event<T>, s': State<T>)
    requires Laws(ops, dims, bound) && AmountsKept(dims, bound, s) && Legal(dims, bound, e) && IsStep(ops, deferFree, s, e, s')
    ensures AmountsKept(dims, bound, s')
  {
    hide IsCoalesce, IsFreeObj, IsSearch, Counted, Laws, Proper, Fits;
    StepKeeps(ops, deferFree, s, e, s');
    PiecesParents(s');
    match e
    case Register(obj, r) =>
      if r.Allocated? { RegisterSums(ops, dims, bound, s, obj, r, s'); }
    case Unregister(id, status) =>
      if status == SUCCESS { UnregisterSums(ops, dims, bound, s, id, status, s'); }
    case Alloc(req, r, found, lost) =>
      AllocSums(ops, dims, bound, deferFree, s, e, s');
      AllocFits(ops, dims, bound, s, e, s');
    case Free(id) =>
      FreeSums(ops, dims, bound, deferFree, s, id, s');
      FitsSame(dims, bound, s.registered, s.registeredIds.active, Pieces(s), Pieces(s'));
  }

  lemma AllocFits<T>(ops: Ops<T>, dims: seq<T -> int>, bound: int, s: State<T>, e: Event<T>, s': State<T>)
    requires AmountsKept(dims, bound, s) && AllProper(dims, bound, Pieces(s')) && ParentsIn(Pieces(s'), s.registeredIds.active)
    requires AllProper(dims, bound, Losses(ops, e)) && ParentsIn(Losses(ops, e), s.registeredIds.active)
    requires SameSums(dims, Pieces(s), Pieces(s') + Losses(ops, e))
    requires s'.registered == s.registered && s'.registeredIds == s.registeredIds
    ensures Fits(dims, bound, s'.registered, s'.registeredIds.active, Pieces(s'))
  {
    hide Proper;
    ProperConcat(dims, bound, Pieces(s'), Losses(ops, e));
    FitsSame(dims, bound, s.registered, s.registeredIds.active, Pieces(s), Pieces(s') + Losses(ops, e));
    FitsParts(dims, bound, s.registered, s.registeredIds.active, Pieces(s'), Losses(ops, e));
  }

  lemma {:induction false} NothingTotal<T>(dims: seq<T -> int>, bound: int, es: seq<Entry<T>>)
    requires AllProper(dims, bound, es)
    ensures Nothing(dims, es) <==> forall k, p: nat :: 0 <= k < |dims| ==> Total(dims[k], es, p) == 0
  {
    if Nothing(dims, es) {
      forall k, p: nat | 0 <= k < |dims| ensures Total(dims[k], es, p) == 0 { ZeroTotal(dims[k], es, p); }
    } else {
      var i, k :| 0 <= i < |es| && 0 <= k < |dims| && dims[k](es[i].obj) != 0;
      ProperTotal(dims, bound, es, k, es[i].parent);
      assert Total(dims[k], es, es[i].parent) >= Share(dims[k], es[i], es[i].parent) > 0;
    }
  }

  lemma {:induction false} ZeroTotal<T>(m: T -> int, es: seq<Entry<T>>, p: nat)
    requires forall i :: 0 <= i < |es| ==> m(es[i].obj) == 0
    ensures Total(m, es, p) == 0
  {
    if es != [] { ZeroTotal(m, es[..|es| - 1], p); }
  }

  /** A call conserves every resource, with one exception: an Alloc does so if and only if what it loses is nothing. */
  lemma StepConserves<T(!new)>(ops: Ops<T>, dims: seq<T -> int>, bound: int, deferFree: bool, s: State<T>, e: Event<T>, s': State<T>)
    requires Laws(ops, dims, bound) && AmountsKept(dims, bound, s) && Legal(dims, bound, e) && IsStep(ops, deferFree, s, e, s')
    requires Conserved(dims, s)
    ensures AmountsKept(dims, bound, s')
    ensures Conserved(dims, s') <==> Nothing(dims, Losses(ops, e))
  {
    hide IsCoalesce, IsFreeObj, IsSearch, Counted, Laws, Proper, Fits, Total;
    StepKeepsAmounts(ops, dims, bound, deferFree, s, e, s');
    match e
    case Register(obj, r) =>
      if r.Allocated? {
        RegisterSums(ops, dims, bound, s, obj, r, s');
        PiecesParents(s);
        forall k | 0 <= k < |dims| ensures Total(dims[k], Pieces(s), r.id) == 0 { TotalNone(dims[k], Pieces(s), r.id); }
      }
    case Unregister(id, status) =>
      if status == SUCCESS { UnregisterSums(ops, dims, bound, s, id, status, s'); }
    case Alloc(req, r, found, lost) =>
      AllocSums(ops, dims, bound, deferFree, s, e, s');
      AllocConserves(ops, dims, bound, s, e, s');
    case Free(id) =>
      FreeSums(ops, dims, bound, deferFree, s, id, s');
  }

  lemma AllocConserves<T>(ops: Ops<T>, dims: seq<T -> int>, bound: int, s: State<T>, e: Event<T>, s': State<T>)
    requires s.Shaped() && s'.Shaped() && Conserved(dims, s)
    requires AllProper(dims, bound, Losses(ops, e)) && ParentsIn(Losses(ops, e), s.registeredIds.active)
    requires SameSums(dims, Pieces(s), Pieces(s') + Losses(ops, e))
    requires s'.registered == s.registered && s'.registeredIds == s.registeredIds
    ensures Conserved(dims, s') <==> Nothing(dims, Losses(ops, e))
  {
    var out, active := Losses(ops, e), s.registeredIds.active;
    NothingTotal(dims, bound, out);
    forall k, p: nat | 0 <= k < |dims|
      ensures Total(dims[k], Pieces(s), p) == Total(dims[k], Pieces(s'), p) + Total(dims[k], out, p)
    {
      TotalConcat(dims[k], Pieces(s'), out, p);
    }
    hide Total;
    forall k, p: nat | 0 <= k < |dims| && p !in active ensures Total(dims[k], out, p) == 0 { TotalNone(dims[k], out, p); }
    if Conserved(dims, s') {
      forall k, p: nat | 0 <= k < |dims| ensures Total(dims[k], out, p) == 0 {
        if p in active {
          assert Total(dims[k], Pieces(s), p) == dims[k](s.registered[p]) == Total(dims[k], Pieces(s'), p);
        }
      }
    }
    if Nothing(dims, out) {
      forall p, k | p in active && 0 <= k < |dims| ensures Total(dims[k], Pieces(s'), p) == dims[k](s'.registered[p]) {
        assert Total(dims[k], Pieces(s), p) == dims[k](s.registered[p]);
        assert Total(dims[k], out, p) == 0;
      }
    }
  }

  // ---------------------------------------------------------------------
  // Every run
  // ---------------------------------------------------------------------

  ghost predicate LegalRun<T(!new)>(ops: Ops<T>, dims: seq<T -> int>, bound: int, deferFree: bool, num: nat,
                                    states: seq<State<T>>, events: seq<Event<T>>)
  {
    && num <= UINT - 32
    && IsRun(ops, deferFree, num, states, events)
    && forall i :: 0 <= i < |events| ==> Legal(dims, bound, events[i])
  }

  /** In every run, eager or deferred, with any number of resources: amounts stay within what is registered. */
  lemma {:induction false} RunKeepsAmounts<T(!new)>(
    ops: Ops<T>, dims: seq<T -> int>, bound: int, deferFree: bool, num: nat, states: seq<State<T>>, events: seq<Event<T>>, n: nat)
    requires Laws(ops, dims, bound) && LegalRun(ops, dims, bound, deferFree, num, states, events) && n < |states|
    ensures AmountsKept(dims, bound, states[n])
  {
    hide Laws, IsStep, Proper, Legal;
    if n == 0 {
      InitialKept(ops, num);
      InitialPieces(ops, num);
    } else {
      RunKeepsAmounts(ops, dims, bound, deferFree, num, states, events, n - 1);
      assert Legal(dims, bound, events[n - 1]);
      StepKeepsAmounts(ops, dims, bound, deferFree, states[n - 1], events[n - 1], states[n]);
    }
  }

  /** As long as no call loses anything, every resource is conserved. */
  lemma {:induction false} RunConserves<T(!new)>(
    ops: Ops<T>, dims: seq<T -> int>, bound: int, deferFree: bool, num: nat, states: seq<State<T>>, events: seq<Event<T>>, n: nat)
    requires Laws(ops, dims, bound) && LegalRun(ops, dims, bound, deferFree, num, states, events) && n < |states|
    requires forall i :: 0 <= i < n ==> Nothing(dims, Losses(ops, events[i]))
    ensures AmountsKept(dims, bound, states[n]) && Conserved(dims, states[n])
  {
    hide Laws, IsStep, Proper, Legal, Nothing;
    RunKeepsAmounts(ops, dims, bound, deferFree, num, states, events, n);
    if n == 0 {
    } else {
      RunConserves(ops, dims, bound, deferFree, num, states, events, n - 1);
      assert Legal(dims, bound, events[n - 1]) && Nothing(dims, Losses(ops, events[n - 1]));
      StepConserves(ops, dims, bound, deferFree, states[n - 1], events[n - 1], states[n]);
    }
  }

  // ---------------------------------------------------------------------
  // Exact success, with one resource
  // ---------------------------------------------------------------------

  ghost predicate Covers<T>(dims: seq<T -> int>, es: seq<Entry<T>>, p: nat, req: T) {
    forall k :: 0 <= k < |dims| ==> dims[k](req) <= Total(dims[k], es, p)
  }

  lemma TwoEntries<T>(pool: seq<Entry<T>>, p: nat)
    requires |pool| > 1 && ParentsIn(pool, {p})
    ensures !OnePerParent(pool)
  {
    assert pool[0].parent == pool[1].parent;
  }

  lemma TakeExact<T(!new)>(ops: Ops<T>, dims: seq<T -> int>, bound: int, pool: seq<Entry<T>>, req: Entry<T>,
                           pool': seq<Entry<T>>, found: Found<T>)
    requires Laws(ops, dims, bound) && IsRequest(dims, bound, req.obj) && AllProper(dims, bound, pool)
    requires OnePerParent(pool) && ParentsIn(pool, {req.parent}) && IsTake(ops, pool, req, pool', found)
    ensures found.Got? <==> Covers(dims, pool, req.parent, req.obj)
    ensures !found.Got? ==> found.Missed? && pool' == pool
  {
    hide Laws, IsFreeObj;
    if |pool| > 1 { TwoEntries(pool, req.parent); }
    var i: nat :| IsTakeAt(ops, pool, req, pool', found, i);
    LowerBoundCovers(ops, dims, bound, pool, req, i);
    if pool == [] {
      var k :| 0 <= k < |dims| && dims[k](req.obj) > 0;
      assert Total(dims[k], pool, req.parent) == 0;
    } else {
      assert pool == [pool[0]];
      forall k | 0 <= k < |dims| ensures Total(dims[k], pool, req.parent) == dims[k](pool[0].obj) {
        TotalSingle(dims[k], pool[0], req.parent);
      }
      ReserveCovers(ops, dims, bound, pool[0].obj, req.obj);
    }
  }

  lemma {:induction false} FindFreedExact<T(!new)>(
    ops: Ops<T>, dims: seq<T -> int>, bound: int, regs: seq<T>, pool: seq<Entry<T>>, queue: seq<Entry<T>>, req: Entry<T>,
    pool': seq<Entry<T>>, queue': seq<Entry<T>>, lost: seq<Entry<T>>, found: Found<T>)
    requires Laws(ops, dims, bound) && Fits(dims, bound, regs, {req.parent}, pool + queue) && IsRequest(dims, bound, req.obj)
    requires OnePerParent(pool) && !Covers(dims, pool, req.parent, req.obj)
    requires IsFindFreed(ops, pool, queue, req, pool', queue', lost, found)
    ensures found.Got? <==> Covers(dims, pool + queue, req.parent, req.obj)
    ensures lost == [] && (!found.Got? ==> queue' == [])
    decreases |queue|
  {
    hide IsFreeObj, Laws, Fits, Total, IsTake, IsRequest, Proper, Covers;
    var p := req.parent;
    FitsParts(dims, bound, regs, {p}, pool, queue);
    if queue == [] {
      assert pool + queue == pool;
    } else {
      var a := queue[0];
      assert a.parent == p;
      if ops.lessEq(req.obj, a.obj) {
        FindFreedCut(ops, dims, bound, regs, {p}, pool, queue, req, pool', queue', lost, found);
        QueuedCovers(dims, bound, pool, queue, req, ops);
      } else {
        var mid, pool1, found1 :|
          && IsFreeObj(ops, pool, a, mid)
          && IsTake(ops, mid, req, pool1, found1)
          && if found1.Got? then pool' == pool1 && queue' == queue[1..] && lost == [] && found == found1
             else IsFindFreed(ops, pool1, queue[1..], req, pool', queue', lost, found);
        FindFreedMerge(ops, dims, bound, regs, {p}, pool, queue, req, mid, pool1, found1);
        assert mid + [] == mid;
        FitsParts(dims, bound, regs, {p}, mid, []);
        TakeExact(ops, dims, bound, mid, req, pool1, found1);
        MidCovers(dims, bound, pool, queue, mid, p, req.obj);
        if !found1.Got? {
          MergedFits(ops, dims, bound, regs, {p}, pool, queue, req, pool1, found1);
          FindFreedExact(ops, dims, bound, regs, pool1, queue[1..], req, pool', queue', lost, found);
        }
      }
    }
  }

  lemma QueuedCovers<T(!new)>(dims: seq<T -> int>, bound: int, pool: seq<Entry<T>>, queue: seq<Entry<T>>, req: Entry<T>, ops: Ops<T>)
    requires Laws(ops, dims, bound) && AllProper(dims, bound, pool) && AllProper(dims, bound, queue)
    requires queue != [] && queue[0].parent == req.parent && ops.lessEq(req.obj, queue[0].obj)
    ensures Covers(dims, pool + queue, req.parent, req.obj)
  {
    assert AtMost(dims, req.obj, queue[0].obj);
    forall k | 0 <= k < |dims| ensures dims[k](req.obj) <= Total(dims[k], pool + queue, req.parent) {
      TotalConcat(dims[k], pool, queue, req.parent);
      ProperTotal(dims, bound, pool, k, req.parent);
      ProperTotal(dims, bound, queue, k, req.parent);
      assert Share(dims[k], queue[0], req.parent) == dims[k](queue[0].obj);
    }
  }

  /** With the front of the queue merged in, the same total is covered; a covered part covers the whole. */
  lemma MidCovers<T>(dims: seq<T -> int>, bound: int, pool: seq<Entry<T>>, queue: seq<Entry<T>>, mid: seq<Entry<T>>, p: nat, req: T)
    requires queue != [] && SameSums(dims, pool + [queue[0]], mid) && AllProper(dims, bound, queue)
    ensures Covers(dims, mid + queue[1..], p, req) <==> Covers(dims, pool + queue, p, req)
    ensures Covers(dims, mid, p, req) ==> Covers(dims, pool + queue, p, req)
  {
    var rest := queue[1..];
    forall k | 0 <= k < |dims|
      ensures Total(dims[k], mid + rest, p) == Total(dims[k], pool + queue, p) >= Total(dims[k], mid, p)
    {
      assert pool + queue == pool + [queue[0]] + rest;
      TotalConcat(dims[k], pool + [queue[0]], rest, p);
      TotalConcat(dims[k], mid, rest, p);
      ProperTotal(dims, bound, rest, k, p);
    }
  }

  /** With one resource, a search succeeds exactly when the free and queued amounts cover the request, and drops no queued amount. */
  lemma SearchExact<T(!new)>(
    ops: Ops<T>, dims: seq<T -> int>, bound: int, regs: seq<T>, pool: seq<Entry<T>>, queue: seq<Entry<T>>, req: Entry<T>,
    pool': seq<Entry<T>>, queue': seq<Entry<T>>, lost: seq<Entry<T>>, found: Found<T>)
    requires Laws(ops, dims, bound) && Fits(dims, bound, regs, {req.parent}, pool + queue) && IsRequest(dims, bound, req.obj)
    requires OnePerParent(pool) && IsSearch(ops, pool, queue, req, pool', queue', lost, found)
    ensures found.Got? <==> Covers(dims, pool + queue, req.parent, req.obj)
    ensures lost == [] && (!found.Got? ==> queue' == [])
    ensures !found.Got? && queue == [] ==> pool' == pool
  {
    hide IsFreeObj, Laws, Fits, Total, IsTake, IsFindFreed, IsRequest, Proper, Covers;
    FitsParts(dims, bound, regs, {req.parent}, pool, queue);
    if IsTake(ops, pool, req, pool', found) && !found.Missed? && queue' == queue && lost == [] {
      TakeExact(ops, dims, bound, pool, req, pool', found);
      PoolCovers(dims, bound, pool, queue, req.parent, req.obj);
    } else {
      TakeExact(ops, dims, bound, pool, req, pool, Missed);
      FindFreedExact(ops, dims, bound, regs, pool, queue, req, pool', queue', lost, found);
      if queue == [] { EmptyQueue(ops, pool, req, pool', queue', lost, found); }
    }
  }

  lemma EmptyQueue<T(!new)>(ops: Ops<T>, pool: seq<Entry<T>>, req: Entry<T>,
                            pool': seq<Entry<T>>, queue': seq<Entry<T>>, lost: seq<Entry<T>>, found: Found<T>)
    requires IsFindFreed(ops, pool, [], req, pool', queue', lost, found)
    ensures pool' == pool
  {}

  lemma PoolCovers<T>(dims: seq<T -> int>, bound: int, pool: seq<Entry<T>>, queue: seq<Entry<T>>, p: nat, req: T)
    requires AllProper(dims, bound, queue)
    ensures Covers(dims, pool, p, req) ==> Covers(dims, pool + queue, p, req)
  {
    forall k | 0 <= k < |dims| ensures Total(dims[k], pool, p) <= Total(dims[k], pool + queue, p) {
      TotalConcat(dims[k], pool, queue, p);
      ProperTotal(dims, bound, queue, k, p);
    }
  }

  /** The request fits what is not reserved of resource p. */
  ghost predicate FitsUnallocated<T>(dims: seq<T -> int>, s: State<T>, p: nat, req: T)
    requires s.Shaped() && p < |s.registered|
  {
    forall k :: 0 <= k < |dims| ==> dims[k](req) + LiveTotal(dims[k], s.live, p) <= dims[k](s.registered[p])
  }

  /**
   With one registered resource, a request for something is served if and only if
   an external identifier is free and the request fits the unallocated amount.
   With no identifier left it fails; otherwise the resource is unavailable.  A
   failed request changes neither reservations nor books nor identifiers; it may
   only move queued amounts into the pool.
   */
  lemma AllocExact<T(!new)>(ops: Ops<T>, dims: seq<T -> int>, bound: int, deferFree: bool, s: State<T>, e: Event<T>, s': State<T>)
    requires Laws(ops, dims, bound) && AmountsKept(dims, bound, s) && Conserved(dims, s)
    requires e.Alloc? && Legal(dims, bound, e) && IsStep(ops, deferFree, s, e, s')
    requires s.registeredIds.active == {e.req.parent}
    ensures e.reservation.Allocated? <==> exists id: nat :: id < |s.live| && id !in s.externalIds.active
    ensures e.reservation.Allocated? ==> (e.found.Got? <==> FitsUnallocated(dims, s, e.req.parent, e.req.obj))
    ensures e.lost == []
    ensures !(e.reservation.Allocated? && e.found.Got?) ==>
              s' == s.(pool := s'.pool, freed := s'.freed) && SameSums(dims, Pieces(s), Pieces(s'))
    ensures !(e.reservation.Allocated? && e.found.Got?) && s.freed == [] ==> s' == s
  {
    hide IsFreeObj, Laws, Fits, Total, IsSearch, IsRequest, Proper, Covers, Counted;
    PoolFits(dims, bound, s);
    var p := e.req.parent;
    if e.reservation.Allocated? {
      AllocIdIff(s.externalIds, ReserveIn(s.externalIds, e.reservation.id), e.reservation);
      SearchExact(ops, dims, bound, s.registered, s.pool, s.freed, e.req, s'.pool, s'.freed, e.lost, e.found);
      UnallocatedIff(dims, s, p, e.req.obj);
    } else {
      AllocIdIff(s.externalIds, s.externalIds, e.reservation);
    }
    if !(e.reservation.Allocated? && e.found.Got?) {
      AllocSums(ops, dims, bound, deferFree, s, e, s');
      assert Pieces(s') + Losses(ops, e) == Pieces(s');
    }
  }

  lemma AllocIdIff(db: Db, db': Db, r: AllocOutcome)
    requires Counted(db) && IsAlloc(db, db', r)
    ensures r.Allocated? <==> exists id: nat :: id < db.size && id !in db.active
  {
    CountedAlloc(db, db', r);
    FullIff(db);
  }

  lemma UnallocatedIff<T>(dims: seq<T -> int>, s: State<T>, p: nat, req: T)
    requires s.Shaped() && Conserved(dims, s) && p in s.registeredIds.active
    ensures Covers(dims, s.pool + s.freed, p, req) <==> FitsUnallocated(dims, s, p, req)
  {
    forall k | 0 <= k < |dims|
      ensures Total(dims[k], s.pool + s.freed, p) + LiveTotal(dims[k], s.live, p) == dims[k](s.registered[p])
    {
      PiecesTotal(dims[k], s, p);
      TotalConcat(dims[k], s.pool, s.freed, p);
    }
  }

  // ---------------------------------------------------------------------
  // Deferring frees is invisible
  // ---------------------------------------------------------------------

  /** A call, without its outcome. */
  predicate SameCall<T(==)>(e: Event<T>, f: Event<T>) {
    match e
    case Register(obj, _) => f.Register? && f.obj == obj
    case Unregister(id, _) => f.Unregister? && f.id == id
    case Alloc(req, _, _, _) => f.Alloc? && f.req == req
    case Free(id) => f.Free? && f.id == id
  }

  /** What the caller sees of a call. */
  predicate SameReply<T(==)>(e: Event<T>, f: Event<T>) {
    match e
    case Register(_, r) => f.Register? && f.registration == r
    case Unregister(_, status) => f.Unregister? && f.status == status
    case Alloc(_, r, found, _) =>
      && f.Alloc? && f.reservation == r && (f.found.Got? <==> found.Got?)
      && (found.Got? ==> f.found.d == found.d)
    case Free(_) => f.Free?
  }

  /** A remainder that is taken for nothing is nothing. */
  ghost predicate Lossless<T>(ops: Ops<T>, dims: seq<T -> int>, e: Event<T>) {
    e.Alloc? ==> Nothing(dims, Dropped(ops, e.req.parent, e.found))
  }

  /** Two allocators that differ only in how much of what is free they have coalesced. */
  ghost predicate Agree<T>(dims: seq<T -> int>, s: State<T>, t: State<T>) {
    && s == t.(pool := s.pool, freed := s.freed)
    && SameSums(dims, Pieces(s), Pieces(t))
  }

  /** Objects that inherit from the same registered object are divided alike. */
  ghost predicate Uniform<T(!new)>(ops: Ops<T>, inherits: (T, T) -> bool) {
    forall reg, a, b, req :: inherits(reg, a) && inherits(reg, b) && ops.reserve(a, req).Some? && ops.reserve(b, req).Some? ==>
                               ops.reserve(a, req).value.0 == ops.reserve(b, req).value.0
  }

  lemma SameDivision<T(!new)>(ops: Ops<T>, inherits: (T, T) -> bool, regs: seq<T>, req: Entry<T>, found: Found<T>, found': Found<T>)
    requires Uniform(ops, inherits) && found.Got? && found'.Got?
    requires DividedFrom(ops, PartOf(inherits, regs), req, found) && DividedFrom(ops, PartOf(inherits, regs), req, found')
    ensures found.d == found'.d
  {
    var q := PartOf(inherits, regs);
    var a :| q(Entry(req.parent, a)) && ops.reserve(a, req.obj) == Some((found.d, found.rest));
    var b :| q(Entry(req.parent, b)) && ops.reserve(b, req.obj) == Some((found'.d, found'.rest));
    assert inherits(regs[req.parent], a) && inherits(regs[req.parent], b);
  }

  lemma SameOutcome(db: Db, db1: Db, r1: AllocOutcome, db2: Db, r2: AllocOutcome)
    requires IsAlloc(db, db1, r1) && IsAlloc(db, db2, r2)
    ensures r1 == r2 && db1 == db2
  {
    if r1.Allocated? && r2.Allocated? {
      assert !(r1.id < r2.id) && !(r2.id < r1.id);
    }
  }

  lemma AgreeStep<T(!new)>(ops: Ops<T>, dims: seq<T -> int>, bound: int, inherits: (T, T) -> bool, s: State<T>, e: Event<T>, s': State<T>,
                           t: State<T>, f: Event<T>, t': State<T>)
    requires Uniform(ops, inherits)
    requires e.Alloc? ==> DividedFrom(ops, PartOf(inherits, s.registered), e.req, e.found)
    requires f.Alloc? ==> DividedFrom(ops, PartOf(inherits, t.registered), f.req, f.found)
    requires Laws(ops, dims, bound) && Agree(dims, s, t) && AmountsKept(dims, bound, s) && AmountsKept(dims, bound, t)
    requires IsStep(ops, false, s, e, s') && IsStep(ops, true, t, f, t') && SameCall(e, f)
    requires Legal(dims, bound, e) && (e.Alloc? ==> s.registeredIds.active == {e.req.parent})
    requires Lossless(ops, dims, e) && Lossless(ops, dims, f)
    ensures SameReply(e, f) && Agree(dims, s', t')
  {
    hide IsCoalesce, IsFreeObj, IsSearch, Counted, Laws, Proper, Fits, Total, IsAlloc, Kept, IsRequest, Nothing, DividedFrom, Uniform;
    StepKeeps(ops, false, s, e, s');
    StepKeeps(ops, true, t, f, t');
    match e
    case Register(obj, r) =>
      SameOutcome(s.registeredIds, s'.registeredIds, r, t'.registeredIds, f.registration);
      if r.Allocated? {
        RegisterSums(ops, dims, bound, s, obj, r, s');
        RegisterSums(ops, dims, bound, t, obj, r, t');
      }
    case Unregister(id, status) =>
      if status == SUCCESS {
        UnregisterSums(ops, dims, bound, s, id, status, s');
        UnregisterSums(ops, dims, bound, t, id, status, t');
      }
    case Alloc(req, r, found, lost) =>
      AgreeAlloc(ops, dims, bound, inherits, s, e, s', t, f, t');
    case Free(id) =>
      FreeSums(ops, dims, bound, false, s, id, s');
      FreeSums(ops, dims, bound, true, t, id, t');
      SameSumsTrans(dims, Pieces(s), Pieces(t), Pieces(t'));
      SameSumsFlip(dims, Pieces(s), Pieces(s'));
      SameSumsTrans(dims, Pieces(s'), Pieces(s), Pieces(t'));
  }

  lemma SameSumsFlip<T>(dims: seq<T -> int>, a: seq<Entry<T>>, b: seq<Entry<T>>)
    requires SameSums(dims, a, b)
    ensures SameSums(dims, b, a)
  {}

  lemma NothingSums<T>(dims: seq<T -> int>, bound: int, a: seq<Entry<T>>, out: seq<Entry<T>>)
    requires AllProper(dims, bound, out) && Nothing(dims, out)
    ensures SameSums(dims, a + out, a)
  {
    NothingTotal(dims, bound, out);
    forall k, p: nat | 0 <= k < |dims| ensures Total(dims[k], a, p) == Total(dims[k], a + out, p) {
      TotalConcat(dims[k], a, out, p);
    }
  }

  /** An Alloc that loses nothing leaves the pieces of every resource with the same sums. */
  lemma AllocKeepsSums<T(!new)>(ops: Ops<T>, dims: seq<T -> int>, bound: int, deferFree: bool, s: State<T>, e: Event<T>, s': State<T>)
    requires Laws(ops, dims, bound) && AmountsKept(dims, bound, s)
    requires e.Alloc? && Legal(dims, bound, e) && IsStep(ops, deferFree, s, e, s') && Nothing(dims, Losses(ops, e))
    ensures SameSums(dims, Pieces(s), Pieces(s')) && SameSums(dims, Pieces(s'), Pieces(s))
  {
    hide IsFreeObj, IsSearch, Counted, Laws, Proper, Fits, Total, IsRequest, Nothing, IsStep;
    AllocSums(ops, dims, bound, deferFree, s, e, s');
    NothingSums(dims, bound, Pieces(s'), Losses(ops, e));
    SameSumsTrans(dims, Pieces(s), Pieces(s') + Losses(ops, e), Pieces(s'));
    SameSumsFlip(dims, Pieces(s), Pieces(s'));
  }

  /** With one resource, FindFreed drops no queued amount. */
  lemma NoneLost<T(!new)>(ops: Ops<T>, dims: seq<T -> int>, bound: int, deferFree: bool, s: State<T>, e: Event<T>, s': State<T>)
    requires Laws(ops, dims, bound) && AmountsKept(dims, bound, s) && IsStep(ops, deferFree, s, e, s')
    requires e.Alloc? && Legal(dims, bound, e) && s.registeredIds.active == {e.req.parent}
    ensures e.lost == [] && Losses(ops, e) == Dropped(ops, e.req.parent, e.found)
  {
    hide IsFreeObj, IsSearch, Counted, Laws, Proper, Fits, Total, IsRequest, Covers;
    if e.reservation.Allocated? {
      PoolFits(dims, bound, s);
      SearchExact(ops, dims, bound, s.registered, s.pool, s.freed, e.req, s'.pool, s'.freed, e.lost, e.found);
    }
    assert [] + Dropped(ops, e.req.parent, e.found) == Dropped(ops, e.req.parent, e.found);
  }

  lemma AgreeAlloc<T(!new)>(
    ops: Ops<T>, dims: seq<T -> int>, bound: int, inherits: (T, T) -> bool, s: State<T>, e: Event<T>, s': State<T>,
                            t: State<T>, f: Event<T>, t': State<T>)
    requires Uniform(ops, inherits)
    requires e.Alloc? ==> DividedFrom(ops, PartOf(inherits, s.registered), e.req, e.found)
    requires f.Alloc? ==> DividedFrom(ops, PartOf(inherits, t.registered), f.req, f.found)
    requires Laws(ops, dims, bound) && Agree(dims, s, t) && AmountsKept(dims, bound, s) && AmountsKept(dims, bound, t)
    requires IsStep(ops, false, s, e, s') && IsStep(ops, true, t, f, t') && SameCall(e, f)
    requires e.Alloc? && Legal(dims, bound, e) && s.registeredIds.active == {e.req.parent}
    requires Lossless(ops, dims, e) && Lossless(ops, dims, f)
    ensures SameReply(e, f) && Agree(dims, s', t')
  {
    hide IsFreeObj, IsSearch, Counted, Laws, Proper, Fits, Total, IsAlloc, Kept, IsRequest, Nothing, Covers, DividedFrom, Uniform;
    NoneLost(ops, dims, bound, false, s, e, s');
    NoneLost(ops, dims, bound, true, t, f, t');
    AllocKeepsSums(ops, dims, bound, false, s, e, s');
    AllocKeepsSums(ops, dims, bound, true, t, f, t');
    SameSumsTrans(dims, Pieces(s'), Pieces(s), Pieces(t));
    SameSumsTrans(dims, Pieces(s'), Pieces(t), Pieces(t'));
    AllocSums(ops, dims, bound, false, s, e, s');
    AllocSums(ops, dims, bound, true, t, f, t');
    SameReservation(ops, s, e, s', t, f, t');
    if e.reservation.Allocated? {
      PoolFits(dims, bound, s);
      PoolFits(dims, bound, t);
      SearchExact(ops, dims, bound, s.registered, s.pool, s.freed, e.req, s'.pool, s'.freed, e.lost, e.found);
      SearchExact(ops, dims, bound, t.registered, t.pool, t.freed, f.req, t'.pool, t'.freed, f.lost, f.found);
      AgreeCovers(dims, s, t, e.req.parent, e.req.obj);
      if e.found.Got? { SameDivision(ops, inherits, s.registered, e.req, e.found, f.found); }
    }
  }

  lemma SameReservation<T(!new)>(ops: Ops<T>, s: State<T>, e: Event<T>, s': State<T>, t: State<T>, f: Event<T>, t': State<T>)
    requires s.externalIds == t.externalIds && e.Alloc? && f.Alloc?
    requires IsStep(ops, false, s, e, s') && IsStep(ops, true, t, f, t')
    ensures e.reservation == f.reservation
  {
    hide IsSearch;
    SameOutcome(s.externalIds, if e.reservation.Allocated? then ReserveIn(s.externalIds, e.reservation.id) else s.externalIds, e.reservation,
                if f.reservation.Allocated? then ReserveIn(t.externalIds, f.reservation.id) else t.externalIds, f.reservation);
  }

  lemma AgreeCovers<T>(dims: seq<T -> int>, s: State<T>, t: State<T>, p: nat, req: T)
    requires Agree(dims, s, t)
    ensures Covers(dims, s.pool + s.freed, p, req) <==> Covers(dims, t.pool + t.freed, p, req)
  {
    forall k | 0 <= k < |dims| ensures Total(dims[k], s.pool + s.freed, p) == Total(dims[k], t.pool + t.freed, p) {
      PiecesTotal(dims[k], s, p);
      PiecesTotal(dims[k], t, p);
      TotalConcat(dims[k], s.pool, s.freed, p);
      TotalConcat(dims[k], t.pool, t.freed, p);
    }
  }

  /**
   An allocator that leaves frees in the queue gives, call by call, the replies of
   one that coalesces at each Free: for every two runs of the same calls, where a
   request names the one registered resource and no remainder is taken for
   nothing.
   */
  lemma {:induction false} DeferredIsInvisible<T(!new)>(
    ops: Ops<T>, dims: seq<T -> int>, bound: int, inherits: (T, T) -> bool, fit: T -> bool, asks: T -> bool, num: nat,
    eager: seq<State<T>>, calls: seq<Event<T>>, deferred: seq<State<T>>, calls': seq<Event<T>>, n: nat)
    requires Laws(ops, dims, bound) && Hereditary(ops, inherits, fit, asks) && Uniform(ops, inherits)
    requires forall i :: 0 <= i < |calls| && calls[i].Register? ==> fit(calls[i].obj)
    requires forall i :: 0 <= i < |calls'| && calls'[i].Register? ==> fit(calls'[i].obj)
    requires forall i :: 0 <= i < |calls| && calls[i].Alloc? ==> asks(calls[i].req.obj)
    requires forall i :: 0 <= i < |calls'| && calls'[i].Alloc? ==> asks(calls'[i].req.obj)
    requires LegalRun(ops, dims, bound, false, num, eager, calls) && LegalRun(ops, dims, bound, true, num, deferred, calls')
    requires |calls| == |calls'| && forall i :: 0 <= i < |calls| ==> SameCall(calls[i], calls'[i])
    requires forall i :: 0 <= i < |calls| && calls[i].Alloc? ==> eager[i].registeredIds.active == {calls[i].req.parent}
    requires forall i :: 0 <= i < |calls| ==> Lossless(ops, dims, calls[i]) && Lossless(ops, dims, calls'[i])
    requires n < |eager|
    ensures Agree(dims, eager[n], deferred[n])
    ensures n < |calls| ==> SameReply(calls[n], calls'[n])
  {
    hide Laws, IsStep, Proper, Legal, Lossless, Agree, SameReply, SameCall, Hereditary, Uniform, DividedFrom;
    if n == 0 {
      AgreeSelf(dims, eager[0]);
    } else {
      DeferredIsInvisible(ops, dims, bound, inherits, fit, asks, num, eager, calls, deferred, calls', n - 1);
      AgreeAt(ops, dims, bound, inherits, fit, asks, num, eager, calls, deferred, calls', n - 1);
    }
    if n < |calls| { AgreeAt(ops, dims, bound, inherits, fit, asks, num, eager, calls, deferred, calls', n); }
  }

  lemma AgreeSelf<T>(dims: seq<T -> int>, s: State<T>)
    ensures Agree(dims, s, s)
  {}

  lemma AgreeAt<T(!new)>(
    ops: Ops<T>, dims: seq<T -> int>, bound: int, inherits: (T, T) -> bool, fit: T -> bool, asks: T -> bool, num: nat,
    eager: seq<State<T>>, calls: seq<Event<T>>, deferred: seq<State<T>>, calls': seq<Event<T>>, i: nat)
    requires Laws(ops, dims, bound) && Hereditary(ops, inherits, fit, asks) && Uniform(ops, inherits)
    requires forall i :: 0 <= i < |calls| && calls[i].Register? ==> fit(calls[i].obj)
    requires forall i :: 0 <= i < |calls'| && calls'[i].Register? ==> fit(calls'[i].obj)
    requires forall i :: 0 <= i < |calls| && calls[i].Alloc? ==> asks(calls[i].req.obj)
    requires forall i :: 0 <= i < |calls'| && calls'[i].Alloc? ==> asks(calls'[i].req.obj)
    requires LegalRun(ops, dims, bound, false, num, eager, calls) && LegalRun(ops, dims, bound, true, num, deferred, calls')
    requires |calls| == |calls'| && i < |calls| && SameCall(calls[i], calls'[i])
    requires calls[i].Alloc? ==> eager[i].registeredIds.active == {calls[i].req.parent}
    requires Lossless(ops, dims, calls[i]) && Lossless(ops, dims, calls'[i])
    requires Agree(dims, eager[i], deferred[i])
    ensures Agree(dims, eager[i + 1], deferred[i + 1]) && SameReply(calls[i], calls'[i])
  {
    hide Laws, IsStep, Proper, Legal, Lossless, Agree, SameReply, SameCall, Hereditary, Uniform, DividedFrom;
    RunKeepsAmounts(ops, dims, bound, false, num, eager, calls, i);
    RunKeepsAmounts(ops, dims, bound, true, num, deferred, calls', i);
    assert Legal(dims, bound, calls[i]);
    RunInherits(ops, inherits, fit, asks, false, num, eager, calls, i);
    RunInherits(ops, inherits, fit, asks, true, num, deferred, calls', i);
    AgreeStep(ops, dims, bound, inherits, eager[i], calls[i], eager[i + 1], deferred[i], calls'[i], deferred[i + 1]);
  }
}
