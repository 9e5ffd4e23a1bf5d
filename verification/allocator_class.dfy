/**
 The allocator's code: its fields are the vectors, the multiset and the queue of
 the C++ template, and each method is one of its calls.
 */
module AllocatorClass {
  import opened Options
  import opened IdentifierDb
  import opened IdentifierRuns
  import opened Pool
  import opened Allocator

  class VMAccelAllocator<T(!new)> {
    const ops: Ops<T>
    const deferFree: bool
    const registeredIds: IdentifierDB
    const externalIds: IdentifierDB
    var registered: seq<T>
    var capacity: seq<T>
    var load: seq<T>
    var refCount: seq<int>
    var free: seq<Entry<T>>
    var freed: seq<Entry<T>>
    var reservations: seq<Option<Entry<T>>>

    ghost function View(): State<T>
      reads this, registeredIds, externalIds
    {
      State(capacity, load, registered, refCount, free, freed, reservations, registeredIds.View(), externalIds.View())
    }

    ghost predicate Valid()
      reads this, registeredIds, registeredIds.bits, externalIds, externalIds.bits
    {
      DatabasesValid() && Kept(View())
    }

    constructor (ops: Ops<T>, num: nat, deferFree: bool)
      requires num <= UINT - 32
      ensures Valid() && View() == Initial(ops, num) && this.ops == ops && this.deferFree == deferFree
      ensures fresh(registeredIds) && fresh(registeredIds.bits) && fresh(externalIds) && fresh(externalIds.bits)
    {
      var regDb := new IdentifierDB(num);
      var extDb := new IdentifierDB(num);
      WordsCoverSize(num);
      InitialKept(ops, num);
      this.ops, this.deferFree, registeredIds, externalIds := ops, deferFree, regDb, extDb;
      registered, capacity, load := seq(num, _ => ops.zero), seq(num, _ => ops.zero), seq(num, _ => ops.zero);
      refCount := seq(num, _ => 0);
      free, freed := [], [];
      reservations := seq(num, _ => None);
    }

    method Register(a: T) returns (status: Status, id: nat, ghost r: AllocOutcome)
      requires Valid()
      modifies this, registeredIds, registeredIds.bits
      ensures Valid()
      ensures IsStep(ops, deferFree, old(View()), Event.Register(a, r), View())
      ensures status == if r.Allocated? then SUCCESS else FAIL
      ensures r.Allocated? ==> id == r.id
    {
      hide Kept, IsFreeObj, ActiveIn, Counted, IsAlloc, IsRegister;
      ghost var s := View();
      KeptFacts(s);
      var outcome := registeredIds.AllocId();
      r, id := outcome, 0;
      CountedAlloc(s.registeredIds, registeredIds.View(), r);
      if !outcome.Allocated? {
        status := FAIL;
        NotRegistered(ops, s, a, r, registeredIds.View());
        return;
      }
      id := outcome.id;
      capacity := capacity[id := ops.addTo(capacity[id], a)];
      registered := registered[id := a];
      refCount := refCount[id := 0];
      free := FreeObj(ops, free, Entry(id, a));
      status := SUCCESS;
      Registered(ops, s, a, r, View());
    }

    /** The caller names a registered resource: the database asserts it. */
    method Unregister(id: nat) returns (status: Status)
      requires Valid() && id in View().registeredIds.active
      modifies this, registeredIds, registeredIds.bits
      ensures Valid()
      ensures IsStep(ops, deferFree, old(View()), Event.Unregister(id, status), View())
    {
      hide Kept, IsFreeObj, IsCoalesce, ActiveIn, Counted, Without;
      ghost var s := View();
      KeptFacts(s);
      if refCount[id] != 0 {
        return FAIL;
      }
      free := Coalesce(ops, free, freed);
      ghost var mid := free;
      freed := [];
      registeredIds.ReleaseId(id);
      free := Erase(free, id);
      assert IsCoalesce(ops, s.pool, s.freed, mid) && free == Without(mid, id);
      UnregisterKeeps(ops, s, id, SUCCESS, View());
      return SUCCESS;
    }

    /** Assigns the fields that a reservation or its release changes. */
    method Store(free: seq<Entry<T>>, freed: seq<Entry<T>>, reservations: seq<Option<Entry<T>>>,
                 capacity: seq<T>, load: seq<T>, refCount: seq<int>)
      modifies this
      ensures this.free == free && this.freed == freed && this.reservations == reservations
      ensures this.capacity == capacity && this.load == load && this.refCount == refCount
      ensures registered == old(registered)
    {
      this.free, this.freed, this.reservations := free, freed, reservations;
      this.capacity, this.load, this.refCount := capacity, load, refCount;
    }

    method Alloc(parentId: nat, a: T) returns (status: Status, id: nat, d: Option<T>,
                                               ghost r: AllocOutcome, ghost found: Found<T>, ghost lost: seq<Entry<T>>)
      requires Valid()
      modifies this, externalIds, externalIds.bits
      ensures Valid()
      ensures IsStep(ops, deferFree, old(View()), Event.Alloc(Entry(parentId, a), r, found, lost), View())
      ensures status == if !r.Allocated? then FAIL else if found.Got? then SUCCESS else RESOURCE_UNAVAILABLE
      ensures status == SUCCESS ==> id == r.id && d == Some(found.d)
    {
      hide Kept, IsSearch, ActiveIn, Counted;
      ghost var s := View();
      KeptFacts(s);
      var req := Entry(parentId, a);
      var outcome := externalIds.AllocId();
      r, id, d, found, lost := outcome, 0, None, Missed, [];
      CountedAlloc(s.externalIds, externalIds.View(), r);
      if !outcome.Allocated? {
        status := FAIL;
        assert View() == s;
        return;
      }
      id := outcome.id;
      d, found, lost := Place(req, id, s);
      status := if d.Some? then SUCCESS else RESOURCE_UNAVAILABLE;
    }

    ghost predicate DatabasesValid()
      reads this, registeredIds, registeredIds.bits, externalIds, externalIds.bits
    {
      && registeredIds != externalIds && registeredIds.bits != externalIds.bits
      && registeredIds.Valid() && registeredIds.Roomy()
      && externalIds.Valid() && externalIds.Roomy()
    }

    /** Alloc without success: the pool and the queue were coalesced, and the external identifier goes back. */
    method GiveBack(id: nat, free': seq<Entry<T>>, freed': seq<Entry<T>>, ghost s: State<T>)
      requires DatabasesValid() && Kept(s) && s.externalIds.free > 0 && id < |s.live|
      requires View() == s.(externalIds := ReserveIn(s.externalIds, id))
      requires IsAlloc(s.externalIds, ReserveIn(s.externalIds, id), Allocated(id))
      modifies this, externalIds, externalIds.bits
      ensures DatabasesValid()
      ensures View() == s.(pool := free', freed := freed')
    {
      hide Kept, ActiveIn, Counted, IsAlloc;
      KeptFacts(s);
      GivenBack(s.externalIds, id);
      free, freed := free', freed';
      externalIds.ReleaseId(id);
    }

    /** The rest of Alloc, once it holds the external identifier id. */
    method Place(req: Entry<T>, id: nat, ghost s: State<T>)
      returns (d: Option<T>, ghost found: Found<T>, ghost lost: seq<Entry<T>>)
      requires DatabasesValid() && Kept(s) && s.externalIds.free > 0 && id < |s.live|
      requires View() == s.(externalIds := ReserveIn(s.externalIds, id))
      requires IsAlloc(s.externalIds, ReserveIn(s.externalIds, id), Allocated(id))
      modifies this, externalIds, externalIds.bits
      ensures DatabasesValid() && Kept(View())
      ensures IsReserve(ops, s, req, Allocated(id), found, lost, View())
      ensures d == if found.Got? then Some(found.d) else None
    {
      hide Kept, IsSearch, ActiveIn, Counted, IsReserve, IsAlloc;
      KeptFacts(s);
      d := None;
      var free', freed', hit;
      free', freed', hit, lost := Search(ops, free, freed, req);
      found := hit;
      SearchParents(ops, free, freed, req, free', freed', lost, found, s.registeredIds.active);
      if !hit.Got? {
        GiveBack(id, free', freed', s);
        Unserved(ops, s, req, Allocated(id), found, lost, View());
      } else {
        var p := req.parent;
        Store(free', freed', reservations[id := Some(Entry(p, hit.d))],
              capacity[p := ops.subFrom(capacity[p], hit.d)],
              load[p := ops.addTo(load[p], hit.d)],
              refCount[p := refCount[p] + 1]);
        d := Some(hit.d);
        Served(ops, s, req, Allocated(id), found, lost, View());
      }
    }

    /** The caller names a reservation: the code asserts it. */
    method Free(id: nat)
      requires Valid() && id in View().externalIds.active
      modifies this, externalIds, externalIds.bits
      ensures Valid()
      ensures IsStep(ops, deferFree, old(View()), Event.Free(id), View())
    {
      hide Kept, IsCoalesce, ActiveIn, Counted;
      ghost var s := View();
      KeptFacts(s);
      var obj := reservations[id].value;
      var p := obj.parent;
      var free', freed' := free, freed + [obj];
      if !deferFree {
        free' := Coalesce(ops, free, freed');
        freed' := [];
      }
      Store(free', freed', reservations[id := None],
            capacity[p := ops.addTo(capacity[p], obj.obj)],
            load[p := ops.subFrom(load[p], obj.obj)],
            refCount[p := refCount[p] - 1]);
      externalIds.ReleaseId(id);
      assert registeredIds.View() == s.registeredIds;
      assert externalIds.View() == ReleaseIn(s.externalIds, id);
      ghost var s' := s.(pool := free', freed := freed', live := s.live[id := None],
                         capacity := s.capacity[p := ops.addTo(s.capacity[p], obj.obj)],
                         load := s.load[p := ops.subFrom(s.load[p], obj.obj)],
                         refCount := s.refCount[p := s.refCount[p] - 1],
                         externalIds := ReleaseIn(s.externalIds, id));
      assert View() == s';
      assert IsFree(ops, deferFree, s, id, s');
      FreeKeeps(ops, deferFree, s, id, s');
    }
  }

  lemma KeptFacts<T>(s: State<T>)
    requires Kept(s)
    ensures s.Shaped() && Counted(s.registeredIds) && Counted(s.externalIds)
    ensures ParentsIn(s.pool, s.registeredIds.active) && ParentsIn(s.freed, s.registeredIds.active)
  {}

  /** The search of Alloc. */
  method Search<T(!new)>(ops: Ops<T>, pool: seq<Entry<T>>, queue: seq<Entry<T>>, req: Entry<T>)
    returns (pool': seq<Entry<T>>, queue': seq<Entry<T>>, found: Found<T>, ghost lost: seq<Entry<T>>)
    ensures IsSearch(ops, pool, queue, req, pool', queue', lost, found)
  {
    queue', lost := queue, [];
    pool', found := Take(ops, pool, req);
    if found.Missed? {
      assert IsTake(ops, pool, req, pool, Missed);
      pool', queue', found, lost := FindFreed(ops, pool, queue, req);
    }
  }

  /** An identifier that was just allocated and is released leaves the database as it was. */
  lemma GivenBack(db: Db, id: nat)
    requires db.free > 0 && db.free < UINT && IsAlloc(db, ReserveIn(db, id), Allocated(id))
    ensures ReleaseIn(ReserveIn(db, id), id) == db
  {}

  lemma NotRegistered<T>(ops: Ops<T>, s: State<T>, obj: T, r: AllocOutcome, db: Db)
    requires s.Shaped() && !r.Allocated? && IsAlloc(s.registeredIds, db, r)
    ensures db == s.registeredIds && IsRegister(ops, s, obj, r, s)
  {}

  lemma Registered<T(!new)>(ops: Ops<T>, s: State<T>, obj: T, r: AllocOutcome, s': State<T>)
    requires Kept(s) && r.Allocated? && r.id < |s.load|
    requires IsAlloc(s.registeredIds, s'.registeredIds, r)
    requires IsFreeObj(ops, s.pool, Entry(r.id, obj), s'.pool)
    requires s' == s.(capacity := s.capacity[r.id := ops.addTo(s.capacity[r.id], obj)],
                      registered := s.registered[r.id := obj],
                      refCount := s.refCount[r.id := 0],
                      pool := s'.pool, registeredIds := s'.registeredIds)
    ensures Kept(s') && IsRegister(ops, s, obj, r, s')
  {
    RegisterKeeps(ops, s, obj, r, s');
  }

  lemma Unserved<T(!new)>(ops: Ops<T>, s: State<T>, req: Entry<T>, r: AllocOutcome, found: Found<T>, lost: seq<Entry<T>>, s': State<T>)
    requires Kept(s) && r.Allocated? && s.externalIds.free > 0 && r.id < |s.live|
    requires IsAlloc(s.externalIds, ReserveIn(s.externalIds, r.id), r)
    requires IsSearch(ops, s.pool, s.freed, req, s'.pool, s'.freed, lost, found) && !found.Got?
    requires s' == s.(pool := s'.pool, freed := s'.freed)
    ensures Kept(s') && IsReserve(ops, s, req, r, found, lost, s')
  {
    ReserveKeeps(ops, s, req, r, found, lost, s');
  }

  lemma Served<T(!new)>(ops: Ops<T>, s: State<T>, req: Entry<T>, r: AllocOutcome, found: Found<T>, lost: seq<Entry<T>>, s': State<T>)
    requires Kept(s) && r.Allocated? && s.externalIds.free > 0 && r.id < |s.live|
    requires IsAlloc(s.externalIds, ReserveIn(s.externalIds, r.id), r)
    requires IsSearch(ops, s.pool, s.freed, req, s'.pool, s'.freed, lost, found) && found.Got?
    requires req.parent < |s.load|
    requires s' == s.(pool := s'.pool, freed := s'.freed,
                      live := s.live[r.id := Some(Entry(req.parent, found.d))],
                      capacity := s.capacity[req.parent := ops.subFrom(s.capacity[req.parent], found.d)],
                      load := s.load[req.parent := ops.addTo(s.load[req.parent], found.d)],
                      refCount := s.refCount[req.parent := s.refCount[req.parent] + 1],
                      externalIds := ReserveIn(s.externalIds, r.id))
    ensures Kept(s') && IsReserve(ops, s, req, r, found, lost, s')
  {
    ReserveKeeps(ops, s, req, r, found, lost, s');
  }

  /** The loop of Unregister that erases the entries of one parent. */
  method Erase<T>(pool: seq<Entry<T>>, p: nat) returns (pool': seq<Entry<T>>)
    ensures pool' == Without(pool, p)
  {
    pool' := [];
    var i := 0;
    while i < |pool|
      invariant i <= |pool| && pool' == Without(pool[..i], p)
    {
      assert pool[..i + 1][..i] == pool[..i];
      if pool[i].parent != p { pool' := pool' + [pool[i]]; }
      i := i + 1;
    }
    assert pool[..i] == pool;
  }
}
