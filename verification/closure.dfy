/**
 Properties of single entries that merging and dividing keep.  If every entry has
 such a property, then so does everything a call makes of them.
 */
module Closure {
  import opened Options
  import opened IdentifierDb
  import opened IdentifierRuns
  import opened Pool
  import opened Allocator

  ghost predicate AllHold<T>(q: Entry<T> -> bool, es: seq<Entry<T>>) {
    forall i :: 0 <= i < |es| ==> q(es[i])
  }

  /** q survives merging two entries of one parent and dividing an entry by a request that may be asked. */
  ghost predicate Closed<T(!new)>(ops: Ops<T>, asks: T -> bool, q: Entry<T> -> bool) {
    && ops.policy.PerParent?
    && (forall p: nat, a, b :: q(Entry(p, a)) && q(Entry(p, b)) ==> q(Entry(p, ops.plus(a, b))))
    && (forall p: nat, a, req :: asks(req) && q(Entry(p, a)) && ops.reserve(a, req).Some? ==>
                                   q(Entry(p, ops.reserve(a, req).value.0)) && q(Entry(p, ops.reserve(a, req).value.1)))
  }

  /** The entry that a reservation was divided from. */
  ghost predicate DividedFrom<T(!new)>(ops: Ops<T>, q: Entry<T> -> bool, req: Entry<T>, found: Found<T>) {
    found.Got? ==> q(Entry(req.parent, found.d)) &&
                   exists a :: q(Entry(req.parent, a)) && ops.reserve(a, req.obj) == Some((found.d, found.rest))
  }

  lemma InsertHolds<T>(ops: Ops<T>, q: Entry<T> -> bool, pool: seq<Entry<T>>, v: Entry<T>, pool': seq<Entry<T>>)
    requires AllHold(q, pool) && q(v) && IsInsert(ops, pool, v, pool')
    ensures AllHold(q, pool')
  {
    var i: nat :| IsUpperBound(ops, pool, v, i) && pool' == InsertAt(pool, i, v);
  }

  lemma FreeObjHolds<T(!new)>(ops: Ops<T>, asks: T -> bool, q: Entry<T> -> bool, pool: seq<Entry<T>>, obj: Entry<T>, pool': seq<Entry<T>>)
    requires Closed(ops, asks, q) && AllHold(q, pool) && q(obj) && IsFreeObj(ops, pool, obj, pool')
    ensures AllHold(q, pool')
  {
    hide IsFreeObj;
    var i, v := FreeObjCases(ops, pool, obj, pool');
    if i == |pool| {
      InsertHolds(ops, q, pool, obj, pool');
    } else {
      assert pool[i] == Entry(obj.parent, pool[i].obj) && obj == Entry(obj.parent, obj.obj);
      InsertHolds(ops, q, RemoveAt(pool, i), v, pool');
    }
  }

  lemma {:induction false} CoalesceHolds<T(!new)>(
    ops: Ops<T>, asks: T -> bool, q: Entry<T> -> bool, pool: seq<Entry<T>>, queue: seq<Entry<T>>, pool': seq<Entry<T>>)
    requires Closed(ops, asks, q) && AllHold(q, pool) && AllHold(q, queue) && IsCoalesce(ops, pool, queue, pool')
    ensures AllHold(q, pool')
    decreases |queue|
  {
    hide IsFreeObj, Closed;
    if queue != [] {
      var mid :| IsFreeObj(ops, pool, queue[0], mid) && IsCoalesce(ops, mid, queue[1..], pool');
      FreeObjHolds(ops, asks, q, pool, queue[0], mid);
      CoalesceHolds(ops, asks, q, mid, queue[1..], pool');
    }
  }

  /** Dividing entry a, with the remainder put back into `base`. */
  lemma DivideHolds<T(!new)>(
    ops: Ops<T>, asks: T -> bool, q: Entry<T> -> bool, base: seq<Entry<T>>, a: Entry<T>, req: Entry<T>, d: T, r: T, pool': seq<Entry<T>>)
    requires Closed(ops, asks, q) && AllHold(q, base) && q(a) && a.parent == req.parent && ops.reserve(a.obj, req.obj) == Some((d, r))
    requires if ops.isEmpty(r) then pool' == base else IsFreeObj(ops, base, Entry(req.parent, r), pool')
    requires asks(req.obj)
    ensures AllHold(q, pool') && DividedFrom(ops, q, req, Got(d, r))
  {
    hide IsFreeObj;
    assert a == Entry(req.parent, a.obj);
    if !ops.isEmpty(r) { FreeObjHolds(ops, asks, q, base, Entry(req.parent, r), pool'); }
  }

  lemma TakeHolds<T(!new)>(
    ops: Ops<T>, asks: T -> bool, q: Entry<T> -> bool, pool: seq<Entry<T>>, req: Entry<T>, pool': seq<Entry<T>>, found: Found<T>)
    requires Closed(ops, asks, q) && AllHold(q, pool) && IsTake(ops, pool, req, pool', found)
    requires asks(req.obj)
    ensures AllHold(q, pool') && DividedFrom(ops, q, req, found)
  {
    hide IsFreeObj, Closed;
    var i: nat :| IsTakeAt(ops, pool, req, pool', found, i);
    if i < |pool| {
      match ops.reserve(pool[i].obj, req.obj)
      case None =>
      case Some((d, r)) => DivideHolds(ops, asks, q, RemoveAt(pool, i), pool[i], req, d, r, pool');
    }
  }

  lemma {:induction false} FindFreedHolds<T(!new)>(
    ops: Ops<T>, asks: T -> bool, q: Entry<T> -> bool, pool: seq<Entry<T>>, queue: seq<Entry<T>>, req: Entry<T>,
    pool': seq<Entry<T>>, queue': seq<Entry<T>>, lost: seq<Entry<T>>, found: Found<T>)
    requires Closed(ops, asks, q) && AllHold(q, pool) && AllHold(q, queue)
    requires IsFindFreed(ops, pool, queue, req, pool', queue', lost, found)
    requires asks(req.obj)
    ensures AllHold(q, pool') && AllHold(q, queue') && DividedFrom(ops, q, req, found)
    decreases |queue|
  {
    hide IsFreeObj, Closed, IsTake, DividedFrom;
    if queue == [] {
      NotFound(ops, q, req, found);
    } else {
      var a := queue[0];
      if a.parent != req.parent {
        FindFreedHolds(ops, asks, q, pool, queue[1..], req, pool', queue', lost[1..], found);
      } else if ops.lessEq(req.obj, a.obj) {
        match ops.reserve(a.obj, req.obj)
        case None => NotFound(ops, q, req, found);
        case Some((d, r)) => DivideHolds(ops, asks, q, pool, a, req, d, r, pool');
      } else {
        var mid, pool1, found1 :|
          && IsFreeObj(ops, pool, a, mid)
          && IsTake(ops, mid, req, pool1, found1)
          && if found1.Got? then pool' == pool1 && queue' == queue[1..] && lost == [] && found == found1
             else IsFindFreed(ops, pool1, queue[1..], req, pool', queue', lost, found);
        FreeObjHolds(ops, asks, q, pool, a, mid);
        TakeHolds(ops, asks, q, mid, req, pool1, found1);
        if !found1.Got? { FindFreedHolds(ops, asks, q, pool1, queue[1..], req, pool', queue', lost, found); }
      }
    }
  }

  lemma NotFound<T(!new)>(ops: Ops<T>, q: Entry<T> -> bool, req: Entry<T>, found: Found<T>)
    requires !found.Got?
    ensures DividedFrom(ops, q, req, found)
  {}

  lemma SearchHolds<T(!new)>(
    ops: Ops<T>, asks: T -> bool, q: Entry<T> -> bool, pool: seq<Entry<T>>, queue: seq<Entry<T>>, req: Entry<T>,
    pool': seq<Entry<T>>, queue': seq<Entry<T>>, lost: seq<Entry<T>>, found: Found<T>)
    requires Closed(ops, asks, q) && AllHold(q, pool) && AllHold(q, queue)
    requires IsSearch(ops, pool, queue, req, pool', queue', lost, found)
    requires asks(req.obj)
    ensures AllHold(q, pool') && AllHold(q, queue') && DividedFrom(ops, q, req, found)
  {
    hide IsFreeObj, Closed, IsTake, DividedFrom, IsFindFreed;
    if IsTake(ops, pool, req, pool', found) && !found.Missed? && queue' == queue && lost == [] {
      TakeHolds(ops, asks, q, pool, req, pool', found);
    } else {
      FindFreedHolds(ops, asks, q, pool, queue, req, pool', queue', lost, found);
    }
  }

  lemma {:induction false} WithoutHolds<T>(q: Entry<T> -> bool, es: seq<Entry<T>>, p: nat)
    requires AllHold(q, es)
    ensures AllHold(q, Without(es, p))
  {
    if es != [] { WithoutHolds(q, es[..|es| - 1], p); }
  }

  // ---------------------------------------------------------------------
  // What the objects of a resource inherit from it
  // ---------------------------------------------------------------------

  /** A relation between a registered object and its parts. */
  ghost function PartOf<T>(inherits: (T, T) -> bool, regs: seq<T>): Entry<T> -> bool {
    (e: Entry<T>) => e.parent < |regs| && inherits(regs[e.parent], e.obj)
  }

  ghost predicate Hereditary<T(!new)>(ops: Ops<T>, inherits: (T, T) -> bool, fit: T -> bool, asks: T -> bool) {
    && (forall x :: fit(x) ==> inherits(x, x))
    && (forall regs :: Closed(ops, asks, PartOf(inherits, regs)))
  }

  ghost predicate Inherited<T>(inherits: (T, T) -> bool, s: State<T>) {
    && AllHold(PartOf(inherits, s.registered), s.pool)
    && AllHold(PartOf(inherits, s.registered), s.freed)
    && forall id :: 0 <= id < |s.live| && s.live[id].Some? ==> PartOf(inherits, s.registered)(s.live[id].value)
  }

  /** Every call hands down to the parts of a resource what `inherits` says of it. */
  lemma StepInherits<T(!new)>(
    ops: Ops<T>, inherits: (T, T) -> bool, fit: T -> bool, asks: T -> bool, deferFree: bool, s: State<T>, e: Event<T>, s': State<T>)
    requires Hereditary(ops, inherits, fit, asks) && Kept(s) && Inherited(inherits, s) && IsStep(ops, deferFree, s, e, s')
    requires (e.Register? ==> fit(e.obj)) && (e.Alloc? ==> asks(e.req.obj))
    ensures Inherited(inherits, s')
    ensures e.Alloc? ==> DividedFrom(ops, PartOf(inherits, s.registered), e.req, e.found)
  {
    hide IsFreeObj, IsCoalesce, IsSearch, Counted, DividedFrom, Closed, Without;
    var q := PartOf(inherits, s.registered);
    assert Closed(ops, asks, q);
    match e
    case Register(obj, r) =>
      if r.Allocated? {
        var q' := PartOf(inherits, s'.registered);
        assert Closed(ops, asks, q');
        NewIds(s, r, s');
        assert r.id !in s.registeredIds.active;
        assert AllHold(q', s.pool);
        FreeObjHolds(ops, asks, q', s.pool, Entry(r.id, obj), s'.pool);
      }
    case Unregister(id, status) =>
      if status == SUCCESS {
        var mid :| IsCoalesce(ops, s.pool, s.freed, mid) && s'.pool == Without(mid, id);
        CoalesceHolds(ops, asks, q, s.pool, s.freed, mid);
        WithoutHolds(q, mid, id);
      }
    case Alloc(req, r, found, lost) =>
      if r.Allocated? {
        SearchHolds(ops, asks, q, s.pool, s.freed, req, s'.pool, s'.freed, lost, found);
        Holds(ops, q, req, found);
      } else {
        NotFound(ops, q, req, found);
      }
    case Free(id) =>
      if !deferFree { CoalesceHolds(ops, asks, q, s.pool, s.freed + [s.live[id].value], s'.pool); }
  }

  lemma NewIds<T>(s: State<T>, r: AllocOutcome, s': State<T>)
    requires s.Shaped() && IsAlloc(s.registeredIds, s'.registeredIds, r) && r.Allocated?
    ensures r.id !in s.registeredIds.active
  {}

  lemma Holds<T(!new)>(ops: Ops<T>, q: Entry<T> -> bool, req: Entry<T>, found: Found<T>)
    requires DividedFrom(ops, q, req, found)
    ensures found.Got? ==> q(Entry(req.parent, found.d))
  {}

  lemma NothingInherited<T>(inherits: (T, T) -> bool, s: State<T>)
    requires s.pool == [] && s.freed == [] && forall id :: 0 <= id < |s.live| ==> s.live[id].None?
    ensures Inherited(inherits, s)
  {}

  lemma {:induction false} RunInherits<T(!new)>(
    ops: Ops<T>, inherits: (T, T) -> bool, fit: T -> bool, asks: T -> bool, deferFree: bool, num: nat, states: seq<State<T>>, events: seq<Event<T>>, n: nat)
    requires Hereditary(ops, inherits, fit, asks) && num <= UINT - 32 && IsRun(ops, deferFree, num, states, events) && n < |states|
    requires forall i :: 0 <= i < |events| && events[i].Register? ==> fit(events[i].obj)
    requires forall i :: 0 <= i < |events| && events[i].Alloc? ==> asks(events[i].req.obj)
    ensures Kept(states[n]) && Inherited(inherits, states[n])
    ensures n < |events| && events[n].Alloc? ==>
              DividedFrom(ops, PartOf(inherits, states[n].registered), events[n].req, events[n].found)
  {
    hide Hereditary, DividedFrom, IsStep, Inherited, Kept;
    RunKeeps(ops, deferFree, num, states, events, n);
    if n == 0 {
      NothingInherited(inherits, states[0]);
    } else {
      RunInherits(ops, inherits, fit, asks, deferFree, num, states, events, n - 1);
      StepInherits(ops, inherits, fit, asks, deferFree, states[n - 1], events[n - 1], states[n]);
    }
    if n < |events| {
      StepInherits(ops, inherits, fit, asks, deferFree, states[n], events[n], states[n + 1]);
    }
  }
}
