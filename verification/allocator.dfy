/**
 VMAccelAllocator of common/inc/vmaccel_allocator.hpp: registered resources are
 divided into reservations, which are freed, queued and coalesced again.
 `State` is the value of an allocator and `IsStep` one call; the class is the code.
 Waiting for a fence is taken to succeed.
 */
module Allocator {
  import opened Options
  import opened IdentifierDb
  import opened IdentifierRuns
  import opened Pool
  import opened Totals

  datatype Status = SUCCESS | FAIL | RESOURCE_UNAVAILABLE

  datatype State<T> = State(
    capacity: seq<T>,
    load: seq<T>,
    registered: seq<T>,
    refCount: seq<int>,
    pool: seq<Entry<T>>,
    freed: seq<Entry<T>>,
    live: seq<Option<Entry<T>>>,
    registeredIds: Db,
    externalIds: Db)
  {
    ghost predicate Shaped() {
      && |capacity| == |load| == |registered| == |refCount| == |live| == registeredIds.size == externalIds.size
      && (forall p :: p in registeredIds.active ==> p < |load|)
      && (forall id :: id in externalIds.active ==> id < |live| && live[id].Some? && live[id].value.parent < |load|)
    }
  }

  /** One call and what it did. */
  datatype Event<T> =
    | Register(obj: T, registration: AllocOutcome)
    | Unregister(id: nat, status: Status)
    | Alloc(req: Entry<T>, reservation: AllocOutcome, found: Found<T>, lost: seq<Entry<T>>)
    | Free(id: nat)

  function ReleaseIn(db: Db, id: nat): Db {
    db.(active := db.active - {id}, free := (db.free + 1) % UINT)
  }

  function ReserveIn(db: Db, id: nat): Db
    requires db.free > 0
  {
    db.(active := db.active + {id}, free := db.free - 1)
  }

  ghost predicate IsRegister<T>(ops: Ops<T>, s: State<T>, obj: T, r: AllocOutcome, s': State<T>)
    requires s.Shaped()
  {
    && IsAlloc(s.registeredIds, s'.registeredIds, r)
    && match r
       case Allocated(p) =>
         && p < |s.load|
         && IsFreeObj(ops, s.pool, Entry(p, obj), s'.pool)
         && s' == s.(capacity := s.capacity[p := ops.addTo(s.capacity[p], obj)],
                     registered := s.registered[p := obj],
                     refCount := s.refCount[p := 0],
                     pool := s'.pool, registeredIds := s'.registeredIds)
       case _ => s' == s
  }

  ghost predicate IsUnregister<T(!new)>(ops: Ops<T>, s: State<T>, p: nat, status: Status, s': State<T>)
    requires s.Shaped()
  {
    && p in s.registeredIds.active
    && if s.refCount[p] != 0 then status == FAIL && s' == s
       else
         && status == SUCCESS
         && (exists mid :: IsCoalesce(ops, s.pool, s.freed, mid) && s'.pool == Without(mid, p))
         && s' == s.(pool := s'.pool, freed := [], registeredIds := ReleaseIn(s.registeredIds, p))
  }

  /** The entries of other parents, in order. */
  function Without<T>(pool: seq<Entry<T>>, p: nat): seq<Entry<T>> {
    if pool == [] then []
    else
      var rest := Without(pool[..|pool| - 1], p);
      var last := pool[|pool| - 1];
      if last.parent == p then rest else rest + [last]
  }

  ghost predicate IsReserve<T(!new)>(ops: Ops<T>, s: State<T>, req: Entry<T>, r: AllocOutcome, found: Found<T>,
                                     lost: seq<Entry<T>>, s': State<T>)
    requires s.Shaped()
  {
    match r
    case Allocated(id) =>
      && id < |s.live|
      && s.externalIds.free > 0
      && IsAlloc(s.externalIds, ReserveIn(s.externalIds, id), r)
      && IsSearch(ops, s.pool, s.freed, req, s'.pool, s'.freed, lost, found)
      && if found.Got? then
           && req.parent < |s.load|
           && s' == s.(pool := s'.pool, freed := s'.freed,
                       live := s.live[id := Some(Entry(req.parent, found.d))],
                       capacity := s.capacity[req.parent := ops.subFrom(s.capacity[req.parent], found.d)],
                       load := s.load[req.parent := ops.addTo(s.load[req.parent], found.d)],
                       refCount := s.refCount[req.parent := s.refCount[req.parent] + 1],
                       externalIds := ReserveIn(s.externalIds, id))
         else s' == s.(pool := s'.pool, freed := s'.freed)
    case _ => IsAlloc(s.externalIds, s.externalIds, r) && found == Missed && lost == [] && s' == s
  }

  ghost predicate IsFree<T(!new)>(ops: Ops<T>, deferFree: bool, s: State<T>, id: nat, s': State<T>)
    requires s.Shaped()
  {
    && id in s.externalIds.active
    && var obj := s.live[id].value;
       var p := obj.parent;
       && (if deferFree then s'.pool == s.pool && s'.freed == s.freed + [obj]
           else IsCoalesce(ops, s.pool, s.freed + [obj], s'.pool) && s'.freed == [])
       && s' == s.(pool := s'.pool, freed := s'.freed,
                   live := s.live[id := None],
                   capacity := s.capacity[p := ops.addTo(s.capacity[p], obj.obj)],
                   load := s.load[p := ops.subFrom(s.load[p], obj.obj)],
                   refCount := s.refCount[p := s.refCount[p] - 1],
                   externalIds := ReleaseIn(s.externalIds, id))
  }

  ghost predicate IsStep<T(!new)>(ops: Ops<T>, deferFree: bool, s: State<T>, e: Event<T>, s': State<T>) {
    && s.Shaped()
    && match e
       case Register(obj, r) => IsRegister(ops, s, obj, r, s')
       case Unregister(id, status) => IsUnregister(ops, s, id, status, s')
       case Alloc(req, r, found, lost) => IsReserve(ops, s, req, r, found, lost, s')
       case Free(id) => IsFree(ops, deferFree, s, id, s')
  }

  function Initial<T>(ops: Ops<T>, num: nat): State<T> {
    State(seq(num, _ => ops.zero), seq(num, _ => ops.zero), seq(num, _ => ops.zero), seq(num, _ => 0),
          [], [], seq(num, _ => None), Db(num, {}, num), Db(num, {}, num))
  }

  ghost predicate IsRun<T(!new)>(ops: Ops<T>, deferFree: bool, num: nat, states: seq<State<T>>, events: seq<Event<T>>) {
    && |states| == |events| + 1
    && states[0] == Initial(ops, num)
    && forall i :: 0 <= i < |events| ==> IsStep(ops, deferFree, states[i], events[i], states[i + 1])
  }

  // ---------------------------------------------------------------------
  // What every call keeps, for every element type
  // ---------------------------------------------------------------------

  ghost predicate ParentsIn<T>(es: seq<Entry<T>>, ps: set<nat>) {
    forall i :: 0 <= i < |es| ==> es[i].parent in ps
  }

  lemma InsertParents<T>(ops: Ops<T>, pool: seq<Entry<T>>, v: Entry<T>, pool': seq<Entry<T>>, ps: set<nat>)
    requires IsInsert(ops, pool, v, pool') && ParentsIn(pool, ps) && v.parent in ps
    ensures ParentsIn(pool', ps)
  {
    var i: nat :| IsUpperBound(ops, pool, v, i) && pool' == InsertAt(pool, i, v);
  }

  lemma FreeObjParents<T>(ops: Ops<T>, pool: seq<Entry<T>>, obj: Entry<T>, pool': seq<Entry<T>>, ps: set<nat>)
    requires IsFreeObj(ops, pool, obj, pool') && ParentsIn(pool, ps) && obj.parent in ps
    ensures ParentsIn(pool', ps)
  {
    var i, v := FreeObjCases(ops, pool, obj, pool');
    if i == |pool| {
      InsertParents(ops, pool, obj, pool', ps);
    } else {
      InsertParents(ops, RemoveAt(pool, i), v, pool', ps);
    }
  }

  lemma TakeParents<T>(ops: Ops<T>, pool: seq<Entry<T>>, req: Entry<T>, pool': seq<Entry<T>>, found: Found<T>, ps: set<nat>)
    requires IsTake(ops, pool, req, pool', found) && ParentsIn(pool, ps)
    ensures ParentsIn(pool', ps)
    ensures !found.Missed? ==> req.parent in ps
  {
    var i: nat :| IsTakeAt(ops, pool, req, pool', found, i);
    if i < |pool| {
      assert pool[i].parent == req.parent;
      match ops.reserve(pool[i].obj, req.obj)
      case None =>
      case Some((d, r)) =>
        if !ops.isEmpty(r) { FreeObjParents(ops, RemoveAt(pool, i), Entry(req.parent, r), pool', ps); }
    }
  }

  lemma {:induction false} CoalesceParents<T(!new)>(
    ops: Ops<T>, pool: seq<Entry<T>>, queue: seq<Entry<T>>, pool': seq<Entry<T>>, ps: set<nat>)
    requires IsCoalesce(ops, pool, queue, pool') && ParentsIn(pool, ps) && ParentsIn(queue, ps)
    ensures ParentsIn(pool', ps)
    decreases |queue|
  {
    if queue != [] {
      var mid :| IsFreeObj(ops, pool, queue[0], mid) && IsCoalesce(ops, mid, queue[1..], pool');
      FreeObjParents(ops, pool, queue[0], mid, ps);
      CoalesceParents(ops, mid, queue[1..], pool', ps);
    }
  }

  lemma {:induction false} FindFreedParents<T(!new)>(
    ops: Ops<T>, pool: seq<Entry<T>>, queue: seq<Entry<T>>, req: Entry<T>,
    pool': seq<Entry<T>>, queue': seq<Entry<T>>, lost: seq<Entry<T>>, found: Found<T>, ps: set<nat>)
    requires IsFindFreed(ops, pool, queue, req, pool', queue', lost, found)
    requires ParentsIn(pool, ps) && ParentsIn(queue, ps)
    ensures ParentsIn(pool', ps) && ParentsIn(queue', ps)
    ensures found.Got? ==> req.parent in ps
    decreases |queue|
  {
    if queue != [] {
      var a := queue[0];
      if a.parent != req.parent {
        FindFreedParents(ops, pool, queue[1..], req, pool', queue', lost[1..], found, ps);
      } else if ops.lessEq(req.obj, a.obj) {
        match ops.reserve(a.obj, req.obj)
        case None =>
        case Some((d, r)) =>
          if !ops.isEmpty(r) { FreeObjParents(ops, pool, Entry(req.parent, r), pool', ps); }
      } else {
        var mid, pool1, found1 :|
          && IsFreeObj(ops, pool, a, mid)
          && IsTake(ops, mid, req, pool1, found1)
          && if found1.Got? then pool' == pool1 && queue' == queue[1..] && lost == [] && found == found1
             else IsFindFreed(ops, pool1, queue[1..], req, pool', queue', lost, found);
        FreeObjParents(ops, pool, a, mid, ps);
        TakeParents(ops, mid, req, pool1, found1, ps);
        if !found1.Got? { FindFreedParents(ops, pool1, queue[1..], req, pool', queue', lost, found, ps); }
      }
    }
  }

  lemma SearchParents<T(!new)>(
    ops: Ops<T>, pool: seq<Entry<T>>, queue: seq<Entry<T>>, req: Entry<T>,
    pool': seq<Entry<T>>, queue': seq<Entry<T>>, lost: seq<Entry<T>>, found: Found<T>, ps: set<nat>)
    requires IsSearch(ops, pool, queue, req, pool', queue', lost, found)
    requires ParentsIn(pool, ps) && ParentsIn(queue, ps)
    ensures ParentsIn(pool', ps) && ParentsIn(queue', ps)
    ensures found.Got? ==> req.parent in ps
  {
    if IsTake(ops, pool, req, pool', found) && !found.Missed? && queue' == queue {
      TakeParents(ops, pool, req, pool', found, ps);
    } else {
      FindFreedParents(ops, pool, queue, req, pool', queue', lost, found, ps);
    }
  }

  lemma {:induction false} WithoutParents<T>(pool: seq<Entry<T>>, p: nat, ps: set<nat>)
    requires ParentsIn(pool, ps)
    ensures ParentsIn(Without(pool, p), ps - {p})
  {
    if pool != [] { WithoutParents(pool[..|pool| - 1], p, ps); }
  }

  /** What Unregister removes from the pool: the entries of its resource and no others, and the rest stay in order. */
  lemma {:induction false} WithoutConcat<T>(a: seq<Entry<T>>, b: seq<Entry<T>>, p: nat)
    ensures Without(a + b, p) == Without(a, p) + Without(b, p)
    ensures |b| == 1 ==> Without(b, p) == if b[0].parent == p then [] else b
  {
    if b == [] {
      assert a + b == a;
    } else {
      assert (a + b)[..|a + b| - 1] == a + b[..|b| - 1];
      WithoutConcat(a, b[..|b| - 1], p);
    }
  }

  lemma {:induction false} WithoutTotal<T>(m: T -> int, es: seq<Entry<T>>, p: nat, q: nat)
    ensures Total(m, Without(es, p), q) == if p == q then 0 else Total(m, es, q)
  {
    if es != [] {
      var front, last := es[..|es| - 1], es[|es| - 1];
      WithoutTotal(m, front, p, q);
      if last.parent != p {
        var kept := Without(front, p);
        TotalConcat(m, kept, [last], q);
        TotalSingle(m, last, q);
      }
    }
  }

  /**
   The invariant common to all element types: both identifier databases are
   exact, every free, queued or reserved object belongs to a registered resource,
   the table of reservations agrees with the external identifiers, and a
   resource's reference count is the number of its reservations.
   */
  ghost predicate Kept<T>(s: State<T>) {
    && s.Shaped()
    && Counted(s.registeredIds) && Counted(s.externalIds)
    && ParentsIn(s.pool, s.registeredIds.active)
    && ParentsIn(s.freed, s.registeredIds.active)
    && (forall id :: 0 <= id < |s.live| ==> (s.live[id].Some? <==> id in s.externalIds.active))
    && (forall id :: 0 <= id < |s.live| && s.live[id].Some? ==> s.live[id].value.parent in s.registeredIds.active)
    && (forall p :: p in s.registeredIds.active ==> s.refCount[p] == LiveTotal(One(), s.live, p))
  }

  lemma InitialKept<T>(ops: Ops<T>, num: nat)
    requires num <= UINT - 32
    ensures Kept(Initial(ops, num))
  {}

  lemma RegisterKeeps<T>(ops: Ops<T>, s: State<T>, obj: T, r: AllocOutcome, s': State<T>)
    requires Kept(s) && IsRegister(ops, s, obj, r, s')
    ensures Kept(s')
  {
    CountedAlloc(s.registeredIds, s'.registeredIds, r);
    if r.Allocated? {
      FreeObjParents(ops, s.pool, Entry(r.id, obj), s'.pool, s'.registeredIds.active);
      LiveTotalNone(One(), s.live, r.id);
    }
  }

  lemma ReleaseCounted(db: Db, id: nat)
    requires Counted(db) && id in db.active
    ensures Counted(ReleaseIn(db, id))
  {
    CountedStep(db, ReleaseOp(id), ReleaseReply, ReleaseIn(db, id));
  }

  lemma UnregisterKeeps<T(!new)>(ops: Ops<T>, s: State<T>, p: nat, status: Status, s': State<T>)
    requires Kept(s) && IsUnregister(ops, s, p, status, s')
    ensures Kept(s')
  {
    if s.refCount[p] == 0 {
      ReleaseCounted(s.registeredIds, p);
      LiveCountZero(s.live, p);
      var mid :| IsCoalesce(ops, s.pool, s.freed, mid) && s'.pool == Without(mid, p);
      CoalesceParents(ops, s.pool, s.freed, mid, s.registeredIds.active);
      WithoutParents(mid, p, s.registeredIds.active);
    }
  }

  lemma ReserveKeeps<T(!new)>(
    ops: Ops<T>, s: State<T>, req: Entry<T>, r: AllocOutcome, found: Found<T>, lost: seq<Entry<T>>, s': State<T>)
    requires Kept(s) && IsReserve(ops, s, req, r, found, lost, s')
    ensures Kept(s')
  {
    if r.Allocated? {
      SearchParents(ops, s.pool, s.freed, req, s'.pool, s'.freed, lost, found, s.registeredIds.active);
      CountedAlloc(s.externalIds, ReserveIn(s.externalIds, r.id), r);
      if found.Got? {
        forall p | p in s.registeredIds.active ensures s'.refCount[p] == LiveTotal(One(), s'.live, p) {
          LiveTotalUpdate(One(), s.live, r.id, s'.live[r.id], p);
        }
      }
    }
  }

  lemma FreeKeeps<T(!new)>(ops: Ops<T>, deferFree: bool, s: State<T>, id: nat, s': State<T>)
    requires Kept(s) && IsFree(ops, deferFree, s, id, s')
    ensures Kept(s')
  {
    ReleaseCounted(s.externalIds, id);
    if !deferFree {
      CoalesceParents(ops, s.pool, s.freed + [s.live[id].value], s'.pool, s.registeredIds.active);
    }
    forall p | p in s.registeredIds.active ensures s'.refCount[p] == LiveTotal(One(), s'.live, p) {
      LiveTotalUpdate(One(), s.live, id, None, p);
    }
  }

  lemma StepKeeps<T(!new)>(ops: Ops<T>, deferFree: bool, s: State<T>, e: Event<T>, s': State<T>)
    requires Kept(s) && IsStep(ops, deferFree, s, e, s')
    ensures Kept(s')
  {
    match e
    case Register(obj, r) => RegisterKeeps(ops, s, obj, r, s');
    case Unregister(id, status) => UnregisterKeeps(ops, s, id, status, s');
    case Alloc(req, r, found, lost) => ReserveKeeps(ops, s, req, r, found, lost, s');
    case Free(id) => FreeKeeps(ops, deferFree, s, id, s');
  }

  lemma {:induction false} RunKeeps<T(!new)>(ops: Ops<T>, deferFree: bool, num: nat, states: seq<State<T>>, events: seq<Event<T>>, n: nat)
    requires num <= UINT - 32 && IsRun(ops, deferFree, num, states, events) && n < |states|
    ensures Kept(states[n])
  {
    if n == 0 {
      InitialKept(ops, num);
    } else {
      RunKeeps(ops, deferFree, num, states, events, n - 1);
      StepKeeps(ops, deferFree, states[n - 1], events[n - 1], states[n]);
    }
  }
}
