/**
 Over every run of a range allocator, the free, queued and reserved ranges of a
 resource are disjoint pieces of its registered range; and they tile it exactly
 as long as FindFreed drops nothing.
 */
module RangeTiling {
  import opened Options
  import opened IdentifierDb
  import opened IdentifierRuns
  import opened Pool
  import opened Totals
  import opened Allocator
  import opened AllocatorPieces
  import opened AllocRanges
  import opened Ledger

  ghost predicate RangesKept(s: State<AllocRange>) {
    Kept(s) && Covered(s.registered, s.registeredIds.active, Pieces(s))
  }

  /** Every address of a registered range lies in exactly one of its pieces. */
  ghost predicate Tiled(s: State<AllocRange>)
    requires s.Shaped()
  {
    forall p, x: nat :: p in s.registeredIds.active ==> Total(PointAt(x), Pieces(s), p) == PointAt(x)(s.registered[p])
  }

  /** What the callers of a range allocator provide: whole ranges that touch no other resource, and non-empty requests. */
  ghost predicate Legal(s: State<AllocRange>, e: Event<AllocRange>)
    requires s.Shaped()
  {
    match e
    case Register(obj, r) =>
      WellFormed(obj) && forall q :: q in s.registeredIds.active ==> Apart(obj, s.registered[q]) && Apart(s.registered[q], obj)
    case Alloc(req, r, found, lost) => IsRequest(req.obj)
    case _ => true
  }

  // ---------------------------------------------------------------------
  // What the pieces mean
  // ---------------------------------------------------------------------

  /** The pieces are pairwise disjoint, whatever resources they belong to. */
  lemma PiecesDisjoint(s: State<AllocRange>, i: nat, j: nat)
    requires RangesKept(s) && i < j < |Pieces(s)|
    ensures WellFormed(Pieces(s)[i].obj) && Disjoint(Pieces(s)[i].obj, Pieces(s)[j].obj)
  {
    var es := Pieces(s);
    CoveredWithin(s.registered, s.registeredIds.active, es, i);
    CoveredWithin(s.registered, s.registeredIds.active, es, j);
    if es[i].parent == es[j].parent {
      CoveredDisjoint(s.registered, s.registeredIds.active, es, i, j);
    } else {
      assert Apart(s.registered[es[i].parent], s.registered[es[j].parent]);
    }
  }

  /** Every address of a tiled resource is in a piece of it. */
  lemma AddressHasPiece(s: State<AllocRange>, p: nat, x: nat) returns (i: nat)
    requires RangesKept(s) && Tiled(s)
    requires p in s.registeredIds.active && s.registered[p].begin <= x <= s.registered[p].end
    ensures i < |Pieces(s)| && Pieces(s)[i].parent == p && Pieces(s)[i].obj.begin <= x <= Pieces(s)[i].obj.end
  {
    assert Total(PointAt(x), Pieces(s), p) == 1;
    i := PositiveShare(PointAt(x), Pieces(s), p);
  }

  lemma {:induction false} PositiveShare<T>(m: T -> int, es: seq<Entry<T>>, p: nat) returns (i: nat)
    requires Total(m, es, p) > 0
    ensures i < |es| && es[i].parent == p && m(es[i].obj) > 0
  {
    if Share(m, es[|es| - 1], p) > 0 {
      i := |es| - 1;
    } else {
      i := PositiveShare(m, es[..|es| - 1], p);
    }
  }

  // ---------------------------------------------------------------------
  // One call
  // ---------------------------------------------------------------------

  lemma {:induction false} WithoutWellFormed(es: seq<Entry<AllocRange>>, p: nat)
    requires AllWellFormed(es)
    ensures AllWellFormed(Without(es, p))
  {
    if es != [] { WithoutWellFormed(es[..|es| - 1], p); }
  }

  lemma {:induction false} FlatWellFormed(live: seq<Option<Entry<AllocRange>>>)
    ensures AllWellFormed(Flat(live)) <==> forall id :: 0 <= id < |live| && live[id].Some? ==> WellFormed(live[id].value.obj)
  {
    FlatHas(live);
    var es := Flat(live);
    if AllWellFormed(es) {
      forall id | 0 <= id < |live| && live[id].Some? ensures WellFormed(live[id].value.obj) {
        assert live[id].value in es;
      }
    }
    if forall id :: 0 <= id < |live| && live[id].Some? ==> WellFormed(live[id].value.obj) {
      forall i | 0 <= i < |es| ensures WellFormed(es[i].obj) {
        assert Some(es[i]) in live;
      }
    }
  }

  lemma PiecesWellFormed(s: State<AllocRange>)
    ensures AllWellFormed(Pieces(s)) <==>
            AllWellFormed(s.pool) && AllWellFormed(s.freed) &&
            forall id :: 0 <= id < |s.live| && s.live[id].Some? ==> WellFormed(s.live[id].value.obj)
  {
    FlatWellFormed(s.live);
    var a, b := s.pool + s.freed, Flat(s.live);
    assert forall i :: 0 <= i < |s.pool| ==> Pieces(s)[i] == s.pool[i];
    assert forall i :: 0 <= i < |s.freed| ==> Pieces(s)[|s.pool| + i] == s.freed[i];
    assert forall i :: 0 <= i < |b| ==> Pieces(s)[|a| + i] == b[i];
  }

  lemma PoolCovered(s: State<AllocRange>)
    requires RangesKept(s)
    ensures Covered(s.registered, s.registeredIds.active, s.pool + s.freed)
    ensures AllWellFormed(s.pool) && AllWellFormed(s.freed)
    ensures forall id :: 0 <= id < |s.live| && s.live[id].Some? ==> WellFormed(s.live[id].value.obj)
  {
    CoveredParts(s.registered, s.registeredIds.active, s.pool + s.freed, Flat(s.live));
    PiecesWellFormed(s);
  }

  lemma AllocPieces(deferFree: bool, s: State<AllocRange>, e: Event<AllocRange>, s': State<AllocRange>)
    requires RangesKept(s) && e.Alloc? && Legal(s, e) && IsStep(RANGE_OPS, deferFree, s, e, s')
    ensures AllWellFormed(Pieces(s'))
    ensures SameTotals(Pieces(s), Pieces(s') + e.lost)
    ensures AllWellFormed(e.lost) && ParentsIn(e.lost, s.registeredIds.active)
    ensures forall i :: 0 <= i < |e.lost| ==> e.lost[i].parent != e.req.parent
    ensures e.found.Got? ==> e.found.d.size == e.req.obj.size
  {
    hide IsSearch, Splits, Covered, Counted;
    var lost := e.lost;
    PoolCovered(s);
    if e.reservation.Allocated? {
      var id, found := e.reservation.id, e.found;
      SearchRange(s.registered, s.registeredIds.active, s.pool, s.freed, e.req, s'.pool, s'.freed, lost, found);
      PiecesWellFormed(s');
      forall m, p | Splits(m) ensures Total(m, Pieces(s') + lost, p) == Total(m, Pieces(s), p) {
        var out := Taken(e.req.parent, found);
        TotalConcat(m, Pieces(s'), lost, p);
        PiecesTotal(m, s, p);
        PiecesTotal(m, s', p);
        TotalConcat(m, s.pool, s.freed, p);
        TotalConcat(m, s'.pool + s'.freed + lost, out, p);
        TotalConcat(m, s'.pool + s'.freed, lost, p);
        TotalConcat(m, s'.pool, s'.freed, p);
        if found.Got? {
          LiveTotalUpdate(m, s.live, id, s'.live[id], p);
          TotalSingle(m, out[0], p);
        }
      }
    } else {
      assert Pieces(s') + lost == Pieces(s);
      PiecesWellFormed(s);
    }
  }

  lemma FreePieces(deferFree: bool, s: State<AllocRange>, id: nat, s': State<AllocRange>)
    requires RangesKept(s) && IsFree(RANGE_OPS, deferFree, s, id, s')
    ensures AllWellFormed(Pieces(s')) && SameTotals(Pieces(s), Pieces(s'))
  {
    hide IsCoalesce, Splits, Counted, IsFreeObj;
    var obj, active := s.live[id].value, s.registeredIds.active;
    PoolCovered(s);
    var queue := s.freed + [obj];
    forall m, p | Splits(m)
      ensures Total(m, s.pool + queue, p) + LiveTotal(m, s'.live, p) == Total(m, Pieces(s), p)
    {
      PiecesTotal(m, s, p);
      TotalConcat(m, s.pool, queue, p);
      TotalConcat(m, s.freed, [obj], p);
      TotalSingle(m, obj, p);
      LiveTotalUpdate(m, s.live, id, None, p);
    }
    FreeCovered(s, obj, s'.live);
    if deferFree {
      PiecesWellFormed(s');
    } else {
      CoalesceRanges(s.registered, active, s.pool, queue, s'.pool);
      PiecesWellFormed(s');
    }
    forall m, p | Splits(m) ensures Total(m, Pieces(s'), p) == Total(m, Pieces(s), p) {
      PiecesTotal(m, s', p);
      TotalConcat(m, s.pool, queue, p);
    }
  }

  /** The reservation that is freed takes part in the cover. */
  lemma FreeCovered(s: State<AllocRange>, obj: Entry<AllocRange>, live': seq<Option<Entry<AllocRange>>>)
    requires RangesKept(s) && WellFormed(obj.obj) && obj.parent in s.registeredIds.active
    requires forall m, p :: Splits(m) ==>
               Total(m, s.pool + (s.freed + [obj]), p) + LiveTotal(m, live', p) == Total(m, Pieces(s), p)
    ensures Covered(s.registered, s.registeredIds.active, s.pool + (s.freed + [obj]))
  {
    hide Splits;
    var es := s.pool + (s.freed + [obj]);
    PoolCovered(s);
    forall p, x: nat | p in s.registeredIds.active ensures Total(PointAt(x), es, p) <= Total(PointAt(x), Pieces(s), p) {
      PointSplits(x);
      LiveTotalAtLeast(PointAt(x), live', p);
    }
    CoveredLess(s.registered, s.registeredIds.active, Pieces(s), es);
  }

  lemma RegisterPieces(s: State<AllocRange>, obj: AllocRange, r: AllocOutcome, s': State<AllocRange>)
    requires RangesKept(s) && Kept(s') && IsRegister(RANGE_OPS, s, obj, r, s') && r.Allocated?
    requires WellFormed(obj)
    requires forall q :: q in s.registeredIds.active ==> Apart(obj, s.registered[q]) && Apart(s.registered[q], obj)
    ensures RangesKept(s')
    ensures forall m, p :: Splits(m) ==> Total(m, Pieces(s'), p) == Total(m, Pieces(s), p) + Share(m, Entry(r.id, obj), p)
  {
    hide IsFreeObj, Splits, Counted, Covered, Apart;
    var p0, active' := r.id, s'.registeredIds.active;
    CountedAlloc(s.registeredIds, s'.registeredIds, r);
    PoolCovered(s);
    PoolAndNew(s, s', obj, p0);
    FreeRange(s'.registered, active', s.pool, Entry(p0, obj), s'.pool);
    PiecesWellFormed(s');
    PiecesParents(s');
    forall m, p | Splits(m)
      ensures Total(m, Pieces(s'), p) == Total(m, Pieces(s), p) + Share(m, Entry(p0, obj), p)
    {
      PiecesTotal(m, s, p);
      PiecesTotal(m, s', p);
    }
    RegisterCovered(s, obj, p0, s');
  }

  lemma RegisterCovered(s: State<AllocRange>, obj: AllocRange, p0: nat, s': State<AllocRange>)
    requires RangesKept(s) && AllWellFormed(Pieces(s')) && ParentsIn(Pieces(s'), s'.registeredIds.active)
    requires p0 !in s.registeredIds.active && p0 < |s.registered|
    requires s'.registered == s.registered[p0 := obj] && s'.registeredIds.active == s.registeredIds.active + {p0}
    requires RegionsApart(s'.registered, s'.registeredIds.active)
    requires forall m, p :: Splits(m) ==> Total(m, Pieces(s'), p) == Total(m, Pieces(s), p) + Share(m, Entry(p0, obj), p)
    ensures Covered(s'.registered, s'.registeredIds.active, Pieces(s'))
  {
    hide Counted, Apart;
    PiecesParents(s);
    forall p, x: nat | p in s'.registeredIds.active ensures Total(PointAt(x), Pieces(s'), p) <= PointAt(x)(s'.registered[p]) {
      PointSplits(x);
      if p == p0 { TotalNone(PointAt(x), Pieces(s), p); }
    }
  }

  lemma PoolAndNew(s: State<AllocRange>, s': State<AllocRange>, obj: AllocRange, p0: nat)
    requires RangesKept(s) && WellFormed(obj) && p0 !in s.registeredIds.active && p0 < |s.registered|
    requires s'.registered == s.registered[p0 := obj] && s'.registeredIds.active == s.registeredIds.active + {p0}
    requires forall q :: q in s.registeredIds.active ==> Apart(obj, s.registered[q]) && Apart(s.registered[q], obj)
    ensures RegionsApart(s'.registered, s'.registeredIds.active)
    ensures Covered(s'.registered, s'.registeredIds.active, s.pool + [Entry(p0, obj)])
  {
    hide Counted, Apart;
    PoolCovered(s);
    CoveredParts(s.registered, s.registeredIds.active, s.pool, s.freed);
    forall p, x: nat | p in s'.registeredIds.active
      ensures Total(PointAt(x), s.pool + [Entry(p0, obj)], p) <= PointAt(x)(s'.registered[p])
    {
      NewCover(s, obj, p0, p, x);
    }
  }

  lemma NewCover(s: State<AllocRange>, obj: AllocRange, p0: nat, p: nat, x: nat)
    requires RangesKept(s) && p0 !in s.registeredIds.active && p0 < |s.registered| && p in s.registeredIds.active + {p0}
    requires Covered(s.registered, s.registeredIds.active, s.pool)
    ensures Total(PointAt(x), s.pool + [Entry(p0, obj)], p) <= PointAt(x)(s.registered[p0 := obj][p])
  {
    TotalConcat(PointAt(x), s.pool, [Entry(p0, obj)], p);
    TotalSingle(PointAt(x), Entry(p0, obj), p);
    if p == p0 {
      TotalNone(PointAt(x), s.pool, p);
    } else {
      assert Total(PointAt(x), s.pool, p) <= PointAt(x)(s.registered[p]);
    }
  }

  lemma UnregisterPieces(s: State<AllocRange>, q: nat, status: Status, s': State<AllocRange>)
    requires RangesKept(s) && Kept(s') && IsUnregister(RANGE_OPS, s, q, status, s') && status == SUCCESS
    ensures RangesKept(s')
    ensures forall m, p :: Splits(m) ==> Total(m, Pieces(s'), p) == if p == q then 0 else Total(m, Pieces(s), p)
  {
    hide IsCoalesce, Splits, Counted, IsFreeObj, Covered, Without;
    PoolCovered(s);
    var mid :| IsCoalesce(RANGE_OPS, s.pool, s.freed, mid) && s'.pool == Without(mid, q);
    CoalesceRanges(s.registered, s.registeredIds.active, s.pool, s.freed, mid);
    LiveCountZero(s.live, q);
    WithoutWellFormed(mid, q);
    PiecesWellFormed(s');
    PiecesParents(s');
    forall m, p | Splits(m)
      ensures Total(m, Pieces(s'), p) == if p == q then 0 else Total(m, Pieces(s), p)
    {
      PiecesTotal(m, s, p);
      PiecesTotal(m, s', p);
      TotalConcat(m, s.pool, s.freed, p);
      WithoutTotal(m, mid, q, p);
      if p == q { LiveTotalNone(m, s.live, p); }
    }
    UnregisterCovered(s, q, s');
  }

  /** Unregistering one resource leaves every address that was free or queued of another one free. */
  lemma UnregisterKeepsOthers(s: State<AllocRange>, q: nat, status: Status, s': State<AllocRange>, p: nat, x: nat)
    requires RangesKept(s) && IsUnregister(RANGE_OPS, s, q, status, s') && status == SUCCESS && p != q
    ensures Total(PointAt(x), s'.pool, p) == Total(PointAt(x), s.pool, p) + Total(PointAt(x), s.freed, p)
  {
    hide IsCoalesce, Splits, Counted, Covered, IsUnregister;
    UnregisterKeeps(RANGE_OPS, s, q, status, s');
    UnregisterPieces(s, q, status, s');
    UnregisteredParts(s, q, status, s');
    PointSplits(x);
    PiecesTotal(PointAt(x), s, p);
    PiecesTotal(PointAt(x), s', p);
  }

  lemma UnregisteredParts(s: State<AllocRange>, q: nat, status: Status, s': State<AllocRange>)
    requires s.Shaped() && IsUnregister(RANGE_OPS, s, q, status, s') && status == SUCCESS
    ensures s'.freed == [] && s'.live == s.live
  {
    hide IsCoalesce;
  }

  lemma UnregisterCovered(s: State<AllocRange>, q: nat, s': State<AllocRange>)
    requires RangesKept(s) && AllWellFormed(Pieces(s')) && ParentsIn(Pieces(s'), s'.registeredIds.active)
    requires s'.registered == s.registered && s'.registeredIds.active == s.registeredIds.active - {q}
    requires forall m, p :: Splits(m) ==> Total(m, Pieces(s'), p) == if p == q then 0 else Total(m, Pieces(s), p)
    ensures Covered(s'.registered, s'.registeredIds.active, Pieces(s'))
  {
    forall p, x: nat | p in s'.registeredIds.active ensures Total(PointAt(x), Pieces(s'), p) <= PointAt(x)(s'.registered[p]) {
      PointSplits(x);
    }
  }

  /** Every call keeps the pieces disjoint and inside their resources. */
  lemma StepKeepsRanges(deferFree: bool, s: State<AllocRange>, e: Event<AllocRange>, s': State<AllocRange>)
    requires RangesKept(s) && Legal(s, e) && IsStep(RANGE_OPS, deferFree, s, e, s')
    ensures RangesKept(s')
  {
    hide IsCoalesce, Splits, IsFreeObj, IsSearch, Counted;
    StepKeeps(RANGE_OPS, deferFree, s, e, s');
    PiecesParents(s');
    match e
    case Register(obj, r) =>
      if r.Allocated? { RegisterPieces(s, obj, r, s'); }
    case Unregister(id, status) =>
      if status == SUCCESS { UnregisterPieces(s, id, status, s'); }
    case Alloc(req, r, found, lost) =>
      AllocPieces(deferFree, s, e, s');
      forall p, x: nat | p in s'.registeredIds.active
        ensures Total(PointAt(x), Pieces(s'), p) <= Total(PointAt(x), Pieces(s), p)
      {
        PointSplits(x);
        TotalConcat(PointAt(x), Pieces(s'), lost, p);
        PointTotalNonNegative(lost, x, p);
      }
      CoveredLess(s.registered, s.registeredIds.active, Pieces(s), Pieces(s'));
    case Free(id) =>
      FreePieces(deferFree, s, id, s');
      CoveredSame(s.registered, s.registeredIds.active, Pieces(s), Pieces(s'));
  }

  /**
   A call keeps the tiling, with one exception: an Alloc keeps it if and only if
   FindFreed dropped nothing.
   */
  lemma StepTiles(deferFree: bool, s: State<AllocRange>, e: Event<AllocRange>, s': State<AllocRange>)
    requires RangesKept(s) && Tiled(s) && Legal(s, e) && IsStep(RANGE_OPS, deferFree, s, e, s') && RangesKept(s')
    ensures !e.Alloc? ==> Tiled(s')
    ensures e.Alloc? ==> (Tiled(s') <==> e.lost == [])
  {
    hide IsCoalesce, Splits, IsFreeObj, IsSearch, Counted, Covered;
    match e
    case Register(obj, r) =>
      if r.Allocated? { RegisterTiles(s, obj, r, s'); }
    case Unregister(id, status) =>
      if status == SUCCESS {
        UnregisterPieces(s, id, status, s');
        forall p, x: nat | p in s'.registeredIds.active ensures Total(PointAt(x), Pieces(s'), p) == PointAt(x)(s'.registered[p]) {
          PointSplits(x);
        }
      }
    case Alloc(req, r, found, lost) =>
      AllocPieces(deferFree, s, e, s');
      AllocTiles(s, lost, s');
    case Free(id) =>
      FreePieces(deferFree, s, id, s');
      forall p, x: nat | p in s'.registeredIds.active ensures Total(PointAt(x), Pieces(s'), p) == PointAt(x)(s'.registered[p]) {
        PointSplits(x);
      }
  }

  lemma RegisterTiles(s: State<AllocRange>, obj: AllocRange, r: AllocOutcome, s': State<AllocRange>)
    requires RangesKept(s) && Tiled(s) && RangesKept(s') && IsRegister(RANGE_OPS, s, obj, r, s') && r.Allocated?
    requires WellFormed(obj)
    requires forall q :: q in s.registeredIds.active ==> Apart(obj, s.registered[q]) && Apart(s.registered[q], obj)
    ensures Tiled(s')
  {
    hide Splits, IsFreeObj, Counted, Covered;
    RegisterPieces(s, obj, r, s');
    PiecesParents(s);
    forall p, x: nat | p in s'.registeredIds.active ensures Total(PointAt(x), Pieces(s'), p) == PointAt(x)(s'.registered[p]) {
      PointSplits(x);
      if p == r.id { TotalNone(PointAt(x), Pieces(s), p); }
    }
  }

  lemma AllocTiles(s: State<AllocRange>, lost: seq<Entry<AllocRange>>, s': State<AllocRange>)
    requires s.Shaped() && s'.Shaped() && Tiled(s) && SameTotals(Pieces(s), Pieces(s') + lost)
    requires AllWellFormed(lost) && ParentsIn(lost, s.registeredIds.active)
    requires s'.registered == s.registered && s'.registeredIds == s.registeredIds
    ensures Tiled(s') <==> lost == []
  {
    hide Splits;
    if lost == [] {
      forall p, x: nat | p in s'.registeredIds.active ensures Total(PointAt(x), Pieces(s'), p) == PointAt(x)(s'.registered[p]) {
        PointSplits(x);
        assert Pieces(s') + lost == Pieces(s');
      }
    } else {
      var p, x := lost[0].parent, lost[0].obj.begin;
      PointSplits(x);
      TotalConcat(PointAt(x), Pieces(s'), lost, p);
      TotalAtLeast(PointAt(x), lost, p);
      assert Total(PointAt(x), Pieces(s'), p) < PointAt(x)(s.registered[p]);
    }
  }

  // ---------------------------------------------------------------------
  // Every run
  // ---------------------------------------------------------------------

  ghost predicate LegalRun(deferFree: bool, num: nat, states: seq<State<AllocRange>>, events: seq<Event<AllocRange>>) {
    && num <= UINT - 32
    && IsRun(RANGE_OPS, deferFree, num, states, events)
    && forall i :: 0 <= i < |events| ==> states[i].Shaped() && Legal(states[i], events[i])
  }

  /** In every run, eager or deferred, no two pieces ever overlap and none leaves its resource. */
  lemma {:induction false} RunKeepsRanges(
    deferFree: bool, num: nat, states: seq<State<AllocRange>>, events: seq<Event<AllocRange>>, n: nat)
    requires LegalRun(deferFree, num, states, events) && n < |states|
    ensures RangesKept(states[n])
  {
    if n == 0 {
      InitialKept(RANGE_OPS, num);
      InitialPieces(RANGE_OPS, num);
    } else {
      RunKeepsRanges(deferFree, num, states, events, n - 1);
      StepKeepsRanges(deferFree, states[n - 1], events[n - 1], states[n]);
    }
  }

  /** As long as no Alloc drops a queued range, the pieces tile the registered ranges. */
  lemma {:induction false} RunTiles(deferFree: bool, num: nat, states: seq<State<AllocRange>>, events: seq<Event<AllocRange>>, n: nat)
    requires LegalRun(deferFree, num, states, events) && n < |states|
    requires forall i :: 0 <= i < n && events[i].Alloc? ==> events[i].lost == []
    ensures RangesKept(states[n]) && Tiled(states[n])
  {
    RunKeepsRanges(deferFree, num, states, events, n);
    if n == 0 {
      InitialPieces(RANGE_OPS, num);
    } else {
      RunTiles(deferFree, num, states, events, n - 1);
      StepTiles(deferFree, states[n - 1], events[n - 1], states[n]);
    }
  }

  /** In every run of an eager build, with any number of resources, the pieces tile the registered ranges. */
  lemma EagerRunTiles(num: nat, states: seq<State<AllocRange>>, events: seq<Event<AllocRange>>, n: nat)
    requires LegalRun(false, num, states, events) && n < |states|
    ensures RangesKept(states[n]) && Tiled(states[n])
  {
    forall i | 0 <= i < n && events[i].Alloc? ensures events[i].lost == [] {
      EagerQueue(RANGE_OPS, num, states, events, i);
    }
    RunTiles(false, num, states, events, n);
  }

  /**
   A range of a resource that has nothing in the pool yet, such as one that is being
   registered, is merged with another resource if and only if it touches the range at
   the front of the pool.
   */
  lemma ForeignMergeIff(pool: seq<Entry<AllocRange>>, obj: Entry<AllocRange>, pool': seq<Entry<AllocRange>>)
    requires IsFreeObj(RANGE_OPS, pool, obj, pool')
    requires forall i :: 0 <= i < |pool| ==> pool[i].parent != obj.parent
    ensures |pool'| == |pool| || |pool'| == |pool| + 1
    ensures |pool'| == |pool| <==> pool != [] && (Precedes(obj.obj, pool[0].obj) || Follows(obj.obj, pool[0].obj))
  {
    var key := Entry(obj.parent, KeyRange(obj.obj));
    var i: nat, j: nat :| IsMergeAdjacent(RANGE_OPS, pool, obj, pool', i, j);
    assert i == |pool|;
    assert j == 0;
  }

  /** Resources that touch are not kept apart: a freed range of one swallows the free range of the next. */
  lemma TouchingResourcesMerge()
    ensures var a, b := AllocRange(false, 10, 0, 9), AllocRange(false, 10, 10, 19);
            WellFormed(a) && WellFormed(b) && Disjoint(a, b) &&
            IsFreeObj(RANGE_OPS, [Entry(1, b)], Entry(0, a), [Entry(0, AllocRange(false, 20, 0, 19))])
  {
    var a, b := AllocRange(false, 10, 0, 9), AllocRange(false, 10, 10, 19);
    var pool, v := [Entry(1, b)], Entry(0, AllocRange(false, 20, 0, 19));
    assert RemoveAt(pool, 0) == [];
    assert InsertAt([], 0, v) == [v];
    assert IsUpperBound(RANGE_OPS, [], v, 0);
    assert IsReplace(RANGE_OPS, pool, 0, v, [v]);
    assert IsMergeAdjacent(RANGE_OPS, pool, Entry(0, a), [v], 1, 0);
  }

  /** In every run, the load of a resource is the size of its reservations, and capacity and load are all that was ever registered. */
  lemma RangeRunBooks(deferFree: bool, num: nat, states: seq<State<AllocRange>>, events: seq<Event<AllocRange>>, n: nat, p: nat)
    requires num <= UINT - 32 && IsRun(RANGE_OPS, deferFree, num, states, events) && n < |states| && p < num
    ensures |states[n].load| == |states[n].capacity| == num
    ensures states[n].load[p].size == LiveTotal(SizeOf(), states[n].live, p) % UINT64
    ensures (states[n].capacity[p].size + states[n].load[p].size) % UINT64 == EverRegistered(SizeOf(), events, n, p) % UINT64
  {
    hide IsStep;
    RunKeepsBooks(RANGE_OPS, SizeOf(), UINT64, deferFree, num, states, events, n, p);
  }
}
