/**
 When a freed range is joined with a free range of its own resource.  The pool is in
 order of size but is looked up by address, and a range that lies before the freed one
 is never joined, so it depends on the order in which ranges are freed.
 */
module Coalescing {
  import opened Options
  import opened IdentifierDb
  import opened Pool
  import opened Allocator
  import opened AllocRanges

  // ---------------------------------------------------------------------
  // One call of FreeObj
  // ---------------------------------------------------------------------

  /** Free ranges of the resource `region`, none of which overlaps the one that is freed. */
  ghost predicate OwnEntries(region: AllocRange, pool: seq<Entry<AllocRange>>, obj: Entry<AllocRange>) {
    && WellFormed(region) && WellFormed(obj.obj) && Within(obj.obj, region)
    && forall k :: 0 <= k < |pool| ==>
         && pool[k].parent == obj.parent && WellFormed(pool[k].obj)
         && Within(pool[k].obj, region) && Disjoint(pool[k].obj, obj.obj)
  }

  /** The entry at k, if there is one, begins where the freed range ends. */
  predicate BeginsAfter(pool: seq<Entry<AllocRange>>, obj: Entry<AllocRange>, k: nat) {
    k < |pool| && pool[k].obj.begin == obj.obj.end + 1
  }

  /** What a lookup finds is a neighbour exactly when it begins where the freed range ends. */
  lemma NeighbourIff(region: AllocRange, pool: seq<Entry<AllocRange>>, obj: Entry<AllocRange>, k: nat)
    requires OwnEntries(region, pool, obj)
    requires var key := Entry(obj.parent, KeyRange(obj.obj));
             k < |pool| ==> !Cmp(RANGE_OPS, pool[k], key) || Cmp(RANGE_OPS, key, pool[k])
    ensures Neighbour(RANGE_OPS, pool, obj, k) <==> BeginsAfter(pool, obj, k)
    ensures BeginsAfter(pool, obj, k) ==>
              && Precedes(obj.obj, pool[k].obj)
              && Prepend(pool[k].obj, obj.obj) == AllocRanges.Join(obj.obj, pool[k].obj)
  {
    if k < |pool| {
      var e := pool[k];
      NextAddress(obj.obj.end);
      if Neighbour(RANGE_OPS, pool, obj, k) || BeginsAfter(pool, obj, k) {
        MergeOnlyPrepends(seq(obj.parent + 1, _ => region), {obj.parent}, obj, e);
      }
    }
  }

  lemma InsertCounts(pool: seq<Entry<AllocRange>>, v: Entry<AllocRange>, pool': seq<Entry<AllocRange>>)
    requires IsInsert(RANGE_OPS, pool, v, pool')
    ensures |pool'| == |pool| + 1 && multiset(pool') == multiset(pool) + multiset{v}
  {
    var i: nat :| IsUpperBound(RANGE_OPS, pool, v, i) && pool' == InsertAt(pool, i, v);
    assert pool == pool[..i] + pool[i..];
  }

  lemma ReplaceCounts(pool: seq<Entry<AllocRange>>, k: nat, v: Entry<AllocRange>, pool': seq<Entry<AllocRange>>)
    requires IsReplace(RANGE_OPS, pool, k, v, pool')
    ensures |pool'| == |pool| && multiset(pool') == multiset(pool) - multiset{pool[k]} + multiset{v}
  {
    InsertCounts(RemoveAt(pool, k), v, pool');
    assert pool == pool[..k] + [pool[k]] + pool[k + 1..];
  }

  /**
   A range goes back to the free ranges of its resource.  With `i` and `j` what its two
   lookups find, it is joined if and only if one of them begins where it ends; the pool
   then holds the joined range in place of that entry, and otherwise the range itself.
   */
  lemma OwnMergeIff(region: AllocRange, pool: seq<Entry<AllocRange>>, obj: Entry<AllocRange>, pool': seq<Entry<AllocRange>>, i: nat, j: nat)
    requires OwnEntries(region, pool, obj) && IsMergeAdjacent(RANGE_OPS, pool, obj, pool', i, j)
    ensures |pool'| == |pool| <==> BeginsAfter(pool, obj, i) || BeginsAfter(pool, obj, j)
    ensures |pool'| != |pool| ==> multiset(pool') == multiset(pool) + multiset{obj}
    ensures |pool'| == |pool| ==>
              var k := if BeginsAfter(pool, obj, i) then i else j;
              && BeginsAfter(pool, obj, k)
              && multiset(pool') == multiset(pool) - multiset{pool[k]} + multiset{Entry(obj.parent, AllocRanges.Join(obj.obj, pool[k].obj))}
  {
    NeighbourIff(region, pool, obj, i);
    NeighbourIff(region, pool, obj, j);
    hide OwnEntries, IsLowerBound, IsUpperBound, IsInsert, BeginsAfter;
    if Neighbour(RANGE_OPS, pool, obj, i) {
      ReplaceCounts(pool, i, Entry(obj.parent, Prepend(pool[i].obj, obj.obj)), pool');
    } else if Neighbour(RANGE_OPS, pool, obj, j) {
      ReplaceCounts(pool, j, Entry(obj.parent, Prepend(pool[j].obj, obj.obj)), pool');
    } else {
      InsertCounts(pool, obj, pool');
    }
  }

  lemma FreeIntoEmpty(obj: Entry<AllocRange>, pool': seq<Entry<AllocRange>>)
    requires IsFreeObj(RANGE_OPS, [], obj, pool')
    ensures pool' == [obj]
  {
    var i: nat, j: nat :| IsMergeAdjacent(RANGE_OPS, [], obj, pool', i, j);
    var k: nat :| IsUpperBound(RANGE_OPS, [], obj, k) && pool' == InsertAt([], k, obj);
  }

  /** With one free range in the pool it is a matter of the ranges alone: the freed one must end where the free one begins. */
  lemma SingleMergeIff(region: AllocRange, e: Entry<AllocRange>, obj: Entry<AllocRange>, pool': seq<Entry<AllocRange>>)
    requires OwnEntries(region, [e], obj) && IsFreeObj(RANGE_OPS, [e], obj, pool')
    ensures |pool'| == 1 <==> obj.obj.end + 1 == e.obj.begin
    ensures |pool'| == 1 ==> pool' == [Entry(obj.parent, AllocRanges.Join(obj.obj, e.obj))]
    ensures |pool'| != 1 ==> pool' == [e, obj] || pool' == [obj, e]
  {
    var pool := [e];
    assert pool[0] == e;
    var i: nat, j: nat :| IsMergeAdjacent(RANGE_OPS, pool, obj, pool', i, j);
    OwnMergeIff(region, pool, obj, pool', i, j);
    if obj.obj.end + 1 == e.obj.begin {
      assert i == 0;
      OneLeft(pool', e, Entry(obj.parent, AllocRanges.Join(obj.obj, e.obj)));
    } else {
      TwoLeft(pool', e, obj);
    }
  }

  lemma OneLeft(pool': seq<Entry<AllocRange>>, e: Entry<AllocRange>, v: Entry<AllocRange>)
    requires |pool'| == 1 && multiset(pool') == multiset([e]) - multiset{e} + multiset{v}
    ensures pool' == [v]
  {
    assert pool'[0] in multiset(pool');
  }

  lemma TwoLeft(pool': seq<Entry<AllocRange>>, e: Entry<AllocRange>, obj: Entry<AllocRange>)
    requires |pool'| == 2 && multiset(pool') == multiset([e]) + multiset{obj}
    ensures pool' == [e, obj] || pool' == [obj, e]
  {
    assert pool' == [pool'[0], pool'[1]];
    assert pool'[0] in multiset(pool') && pool'[1] in multiset(pool');
    assert e in multiset(pool') && obj in multiset(pool');
  }

  // ---------------------------------------------------------------------
  // A run
  // ---------------------------------------------------------------------

  /** The range of `size` addresses from `begin` on. */
  function RangeFrom(begin: nat, size: nat): AllocRange
    requires size > 0
  {
    AllocRange(false, size, begin, begin + size - 1)
  }

  function Request(size: nat): Entry<AllocRange> {
    Entry(0, AllocRange(false, size, 0, 0))
  }

  /** One resource is registered, nothing is queued, and the first two reservations are x and y. */
  ghost predicate At(
    s: State<AllocRange>, num: nat, pool: seq<Entry<AllocRange>>, x: Option<Entry<AllocRange>>, y: Option<Entry<AllocRange>>)
  {
    && s.Shaped() && |s.live| == num && 2 <= num <= UINT - 32
    && s.pool == pool && s.freed == [] && s.live[0] == x && s.live[1] == y
    && s.registeredIds == Db(num, {0}, num - 1)
    && s.externalIds == Ids(num, x, y)
  }

  function Taken(x: Option<Entry<AllocRange>>, id: nat): set<nat> {
    if x.Some? then {id} else {}
  }

  function Ids(num: nat, x: Option<Entry<AllocRange>>, y: Option<Entry<AllocRange>>): Db
    requires 2 <= num
  {
    Db(num, Taken(x, 0) + Taken(y, 1), num - (if x.Some? then 1 else 0) - if y.Some? then 1 else 0)
  }

  lemma HasWord(size: nat, id: nat)
    requires id < size <= UINT - 32
    ensures id < 32 * NumWords(size)
  {
    assert NumWords(size) == (size + 31) / 32;
  }

  /** The least free identifier, in a database that is not full. */
  lemma LeastId(db: Db, db': Db, r: AllocOutcome, id: nat)
    requires IsAlloc(db, db', r) && db.free > 0 && id < db.size <= UINT - 32 && id !in db.active && forall k: nat :: k < id ==> k in db.active
    ensures r == Allocated(id)
  {
    hide NumWords;
    HasWord(db.size, id);
  }

  lemma FirstRegistered(deferFree: bool, num: nat, range: AllocRange, r: AllocOutcome, s': State<AllocRange>)
    requires 2 <= num <= UINT - 32 && IsStep(RANGE_OPS, deferFree, Initial(RANGE_OPS, num), Register(range, r), s')
    ensures r == Allocated(0) && At(s', num, [Entry(0, range)], None, None)
  {
    hide IsFreeObj, NumWords;
    var s := Initial(RANGE_OPS, num);
    LeastId(s.registeredIds, s'.registeredIds, r, 0);
    FreeIntoEmpty(Entry(0, range), s'.pool);
  }

  lemma OnlyOne(range: AllocRange, size: nat, i: nat)
    requires WellFormed(range) && size <= range.size && IsLowerBound(RANGE_OPS, [Entry(0, range)], Request(size), i)
    ensures i == 0
  {}

  /** Taking from a pool of one range. */
  lemma TakeFromOne(
    range: AllocRange, size: nat, pool': seq<Entry<AllocRange>>, queue': seq<Entry<AllocRange>>, lost: seq<Entry<AllocRange>>,
    found: Found<AllocRange>)
    requires WellFormed(range) && 1 <= size <= range.size
    requires IsSearch(RANGE_OPS, [Entry(0, range)], [], Request(size), pool', queue', lost, found)
    ensures found.Got? && found.d == RangeFrom(range.begin, size) && queue' == []
    ensures pool' == if size == range.size then [] else [Entry(0, RangeFrom(range.begin + size, range.size - size))]
  {
    hide ReserveRange, IsFreeObj, IsLowerBound, IsFindFreed, NumWords;
    var pool := [Entry(0, range)];
    ReserveSplits(range, Request(size).obj);
    forall p: seq<Entry<AllocRange>>, f: Found<AllocRange> | IsTake(RANGE_OPS, pool, Request(size), p, f)
      ensures f.Got? && f.d == RangeFrom(range.begin, size)
      ensures p == if size == range.size then [] else [Entry(0, RangeFrom(range.begin + size, range.size - size))]
    {
      var i: nat :| IsTakeAt(RANGE_OPS, pool, Request(size), p, f, i);
      OnlyOne(range, size, i);
      assert RemoveAt(pool, 0) == [];
      if size < range.size { FreeIntoEmpty(Entry(0, f.rest), p); }
    }
  }

  /** From a pool of ranges that are all too small nothing is taken. */
  lemma TakeFromSmall(
    pool: seq<Entry<AllocRange>>, size: nat, pool': seq<Entry<AllocRange>>, queue': seq<Entry<AllocRange>>, lost: seq<Entry<AllocRange>>,
    found: Found<AllocRange>)
    requires forall i :: 0 <= i < |pool| ==> pool[i].parent == 0 && !pool[i].obj.cmpRange && pool[i].obj.size < size
    requires IsSearch(RANGE_OPS, pool, [], Request(size), pool', queue', lost, found)
    ensures found == Missed
  {
    assert forall i :: 0 <= i < |pool| ==> Cmp(RANGE_OPS, pool[i], Request(size));
    forall p: seq<Entry<AllocRange>>, f: Found<AllocRange> | IsTake(RANGE_OPS, pool, Request(size), p, f) ensures f == Missed {
      var i: nat :| IsTakeAt(RANGE_OPS, pool, Request(size), p, f, i);
      assert i == |pool|;
    }
  }

  /** The first reservation gets identifier 0, and the second gets 1. */
  lemma Reserved(
    deferFree: bool, s: State<AllocRange>, num: nat, range: AllocRange, x: Option<Entry<AllocRange>>, e: Event<AllocRange>,
    s': State<AllocRange>)
    requires At(s, num, [Entry(0, range)], x, None) && IsStep(RANGE_OPS, deferFree, s, e, s') && WellFormed(range)
    requires e.Alloc? && e.req == Request(e.req.obj.size) && 1 <= e.req.obj.size <= range.size
    ensures var size := e.req.obj.size;
            var got := Some(Entry(0, RangeFrom(range.begin, size)));
            var rest := if size == range.size then [] else [Entry(0, RangeFrom(range.begin + size, range.size - size))];
            && e.reservation.Allocated? && e.found.Got? && e.found.d == RangeFrom(range.begin, size)
            && if x.None? then At(s', num, rest, got, None) else At(s', num, rest, x, got)
  {
    hide IsSearch, NumWords;
    var id := if x.None? then 0 else 1;
    assert forall k: nat :: k < id ==> k in s.externalIds.active;
    var db' := if e.reservation.Allocated? then ReserveIn(s.externalIds, e.reservation.id) else s.externalIds;
    assert IsAlloc(s.externalIds, db', e.reservation);
    LeastId(s.externalIds, db', e.reservation, id);
    TakeFromOne(range, e.req.obj.size, s'.pool, s'.freed, e.lost, e.found);
  }

  lemma ReleasedIds(num: nat, x: Option<Entry<AllocRange>>, y: Option<Entry<AllocRange>>)
    requires 2 <= num <= UINT - 32
    ensures x.Some? ==> ReleaseIn(Ids(num, x, y), 0) == Ids(num, None, y)
    ensures y.Some? ==> ReleaseIn(Ids(num, x, y), 1) == Ids(num, x, None)
  {}

  lemma FreedIntoPool(pool: seq<Entry<AllocRange>>, obj: Entry<AllocRange>, pool': seq<Entry<AllocRange>>)
    requires IsCoalesce(RANGE_OPS, pool, [obj], pool')
    ensures IsFreeObj(RANGE_OPS, pool, obj, pool')
  {
    hide IsFreeObj;
    var queue := [obj];
    assert queue[0] == obj && queue[1..] == [];
  }

  lemma Returned(
    s: State<AllocRange>, num: nat, x: Option<Entry<AllocRange>>, y: Option<Entry<AllocRange>>, id: nat, s': State<AllocRange>)
    requires At(s, num, s.pool, x, y) && IsStep(RANGE_OPS, false, s, Free(id), s') && id < 2
    ensures if id == 0 then x.Some? else y.Some?
    ensures IsFreeObj(RANGE_OPS, s.pool, if id == 0 then x.value else y.value, s'.pool)
    ensures if id == 0 then At(s', num, s'.pool, None, y) else At(s', num, s'.pool, x, None)
  {
    hide IsCoalesce, IsFreeObj;
    ReleasedIds(num, x, y);
    assert s.freed + [s.live[id].value] == [s.live[id].value];
    FreedIntoPool(s.pool, s.live[id].value, s'.pool);
  }

  /** A resource is registered and reserved in two parts, which are then freed, the second one first or last; then all of it is asked for. */
  ghost predicate SplitAndFree(events: seq<Event<AllocRange>>, begin: nat, a: nat, b: nat, secondFirst: bool) {
    && |events| == 6 && 1 <= a && 1 <= b
    && events[0].Register? && events[0].obj == RangeFrom(begin, a + b)
    && events[1].Alloc? && events[1].req == Request(a)
    && events[2].Alloc? && events[2].req == Request(b)
    && events[3] == Free(if secondFirst then 1 else 0)
    && events[4] == Free(if secondFirst then 0 else 1)
    && events[5].Alloc? && events[5].req == Request(a + b)
  }

  lemma BothReserved(deferFree: bool, num: nat, states: seq<State<AllocRange>>, events: seq<Event<AllocRange>>, begin: nat, a: nat, b: nat, secondFirst: bool)
    requires 2 <= num <= UINT - 32 && IsRun(RANGE_OPS, deferFree, num, states, events) && SplitAndFree(events, begin, a, b, secondFirst)
    requires 1 <= a && 1 <= b && begin + a + b <= SIZE_T && a + b < SIZE_T
    ensures At(states[3], num, [], Some(Entry(0, RangeFrom(begin, a))), Some(Entry(0, RangeFrom(begin + a, b))))
    ensures events[1].found.Got? && events[1].found.d == RangeFrom(begin, a)
    ensures events[2].found.Got? && events[2].found.d == RangeFrom(begin + a, b)
  {
    hide IsStep, At;
    assert forall i :: 0 <= i < 6 ==> IsStep(RANGE_OPS, deferFree, states[i], events[i], states[i + 1]);
    FirstRegistered(deferFree, num, RangeFrom(begin, a + b), events[0].registration, states[1]);
    Reserved(deferFree, states[1], num, RangeFrom(begin, a + b), None, events[1], states[2]);
    Reserved(deferFree, states[2], num, RangeFrom(begin + a, b), Some(Entry(0, RangeFrom(begin, a))), events[2], states[3]);
  }

  /**
   Whatever the sizes, and with frees that are eager or deferred, all of the resource
   can be had again if and only if the second part was freed first: freed in order, the
   two parts stay apart.
   */
  lemma RejoinedIff(deferFree: bool, num: nat, states: seq<State<AllocRange>>, events: seq<Event<AllocRange>>, begin: nat, a: nat, b: nat, secondFirst: bool)
    requires 2 <= num <= UINT - 32 && IsRun(RANGE_OPS, deferFree, num, states, events) && SplitAndFree(events, begin, a, b, secondFirst)
    requires 1 <= a && 1 <= b && begin + a + b <= SIZE_T && a + b < SIZE_T
    ensures events[1].found.Got? && events[1].found.d == RangeFrom(begin, a)
    ensures events[2].found.Got? && events[2].found.d == RangeFrom(begin + a, b)
    ensures events[5].found.Got? <==> secondFirst
    ensures secondFirst ==> events[5].reservation.Allocated? && events[5].found.d == RangeFrom(begin, a + b)
    ensures secondFirst && !deferFree ==> states[5].pool == [Entry(0, RangeFrom(begin, a + b))]
  {
    hide IsStep, IsRun, At, RangeFrom, SplitAndFree;
    BothReserved(deferFree, num, states, events, begin, a, b, secondFirst);
    LastSteps(deferFree, num, states, events, begin, a, b, secondFirst);
    if deferFree {
      FreedLater(states[3], num, begin, a, b, secondFirst, states[4], states[5]);
      QueuedReserved(states[5], num, begin, a, b, secondFirst, events[5], states[6]);
    } else if secondFirst {
      FreedSecondFirst(states[3], num, begin, a, b, states[4], states[5]);
      AllReserved(states[5], num, begin, a + b, events[5], states[6]);
    } else {
      FreedInOrder(states[3], num, begin, a, b, states[4], states[5]);
      NotReserved(states[5], events[5], states[6], a + b);
    }
  }

  lemma LastSteps(deferFree: bool, num: nat, states: seq<State<AllocRange>>, events: seq<Event<AllocRange>>, begin: nat, a: nat, b: nat, secondFirst: bool)
    requires IsRun(RANGE_OPS, deferFree, num, states, events) && SplitAndFree(events, begin, a, b, secondFirst)
    ensures |states| == 7 && |events| == 6 && events[5].Alloc? && events[5].req == Request(a + b)
    ensures IsStep(RANGE_OPS, deferFree, states[3], Free(if secondFirst then 1 else 0), states[4])
    ensures IsStep(RANGE_OPS, deferFree, states[4], Free(if secondFirst then 0 else 1), states[5])
    ensures IsStep(RANGE_OPS, deferFree, states[5], events[5], states[6])
  {
    hide IsStep;
    assert IsStep(RANGE_OPS, deferFree, states[3], events[3], states[4]);
    assert IsStep(RANGE_OPS, deferFree, states[4], events[4], states[5]);
  }

  lemma AllReserved(s: State<AllocRange>, num: nat, begin: nat, size: nat, e: Event<AllocRange>, s': State<AllocRange>)
    requires 1 <= size < SIZE_T && begin + size <= SIZE_T
    requires At(s, num, [Entry(0, RangeFrom(begin, size))], None, None) && IsStep(RANGE_OPS, false, s, e, s')
    requires e.Alloc? && e.req == Request(size)
    ensures e.reservation.Allocated? && e.found.Got? && e.found.d == RangeFrom(begin, size)
    ensures s.pool == [Entry(0, RangeFrom(begin, size))]
  {
    hide IsStep;
    Reserved(false, s, num, RangeFrom(begin, size), None, e, s');
  }

  lemma AtFacts(s: State<AllocRange>, num: nat, pool: seq<Entry<AllocRange>>, x: Option<Entry<AllocRange>>, y: Option<Entry<AllocRange>>)
    requires At(s, num, pool, x, y)
    ensures s.pool == pool && s.freed == []
  {}

  lemma PartsFit(begin: nat, a: nat, b: nat)
    requires 1 <= a && 1 <= b && begin + a + b <= SIZE_T && a + b < SIZE_T
    ensures var first, second := Entry(0, RangeFrom(begin, a)), Entry(0, RangeFrom(begin + a, b));
            && OwnEntries(RangeFrom(begin, a + b), [first], second) && OwnEntries(RangeFrom(begin, a + b), [second], first)
            && AllocRanges.Join(first.obj, second.obj) == RangeFrom(begin, a + b)
  {}

  lemma FreedSecondFirst(s: State<AllocRange>, num: nat, begin: nat, a: nat, b: nat, s1: State<AllocRange>, s2: State<AllocRange>)
    requires 1 <= a && 1 <= b && begin + a + b <= SIZE_T && a + b < SIZE_T
    requires At(s, num, [], Some(Entry(0, RangeFrom(begin, a))), Some(Entry(0, RangeFrom(begin + a, b))))
    requires IsStep(RANGE_OPS, false, s, Free(1), s1) && IsStep(RANGE_OPS, false, s1, Free(0), s2)
    ensures At(s2, num, [Entry(0, RangeFrom(begin, a + b))], None, None)
  {
    var first, second := Entry(0, RangeFrom(begin, a)), Entry(0, RangeFrom(begin + a, b));
    PartsFit(begin, a, b);
    AtFacts(s, num, [], Some(first), Some(second));
    hide IsStep, At, IsFreeObj, RangeFrom, OwnEntries;
    Returned(s, num, Some(first), Some(second), 1, s1);
    FreeIntoEmpty(second, s1.pool);
    Returned(s1, num, Some(first), None, 0, s2);
    SingleMergeIff(RangeFrom(begin, a + b), second, first, s2.pool);
    assert first.obj.end + 1 == second.obj.begin by { PartsMeet(begin, a, b); }
  }

  lemma PartsMeet(begin: nat, a: nat, b: nat)
    requires 1 <= a && 1 <= b
    ensures RangeFrom(begin, a).end + 1 == RangeFrom(begin + a, b).begin
    ensures RangeFrom(begin + a, b).end + 1 != RangeFrom(begin, a).begin
  {}

  lemma FreedInOrder(s: State<AllocRange>, num: nat, begin: nat, a: nat, b: nat, s1: State<AllocRange>, s2: State<AllocRange>)
    requires 1 <= a && 1 <= b && begin + a + b <= SIZE_T && a + b < SIZE_T
    requires At(s, num, [], Some(Entry(0, RangeFrom(begin, a))), Some(Entry(0, RangeFrom(begin + a, b))))
    requires IsStep(RANGE_OPS, false, s, Free(0), s1) && IsStep(RANGE_OPS, false, s1, Free(1), s2)
    ensures s2.freed == []
    ensures forall i :: 0 <= i < |s2.pool| ==> s2.pool[i].parent == 0 && !s2.pool[i].obj.cmpRange && s2.pool[i].obj.size < a + b
  {
    var first, second := Entry(0, RangeFrom(begin, a)), Entry(0, RangeFrom(begin + a, b));
    PartsFit(begin, a, b);
    AtFacts(s, num, [], Some(first), Some(second));
    PartsMeet(begin, a, b);
    hide IsStep, At, IsFreeObj, OwnEntries;
    Returned(s, num, Some(first), Some(second), 0, s1);
    FreeIntoEmpty(first, s1.pool);
    Returned(s1, num, None, Some(second), 1, s2);
    AtFacts(s2, num, s2.pool, None, None);
    SingleMergeIff(RangeFrom(begin, a + b), first, second, s2.pool);
  }

  lemma NotReserved(s: State<AllocRange>, e: Event<AllocRange>, s': State<AllocRange>, size: nat)
    requires IsStep(RANGE_OPS, false, s, e, s') && e.Alloc? && e.req == Request(size) && s.freed == []
    requires forall i :: 0 <= i < |s.pool| ==> s.pool[i].parent == 0 && !s.pool[i].obj.cmpRange && s.pool[i].obj.size < size
    ensures e.found == Missed
  {
    if e.reservation.Allocated? { TakeFromSmall(s.pool, size, s'.pool, s'.freed, e.lost, e.found); }
  }

  // ---------------------------------------------------------------------
  // The same through the queue
  // ---------------------------------------------------------------------

  lemma Queued(s: State<AllocRange>, num: nat, x: Option<Entry<AllocRange>>, y: Option<Entry<AllocRange>>, id: nat, s': State<AllocRange>)
    requires At(s.(freed := []), num, [], x, y) && IsStep(RANGE_OPS, true, s, Free(id), s') && id < 2
    ensures if id == 0 then x.Some? else y.Some?
    ensures s'.freed == s.freed + [if id == 0 then x.value else y.value]
    ensures if id == 0 then At(s'.(freed := []), num, [], None, y) else At(s'.(freed := []), num, [], x, None)
  {
    ReleasedIds(num, x, y);
  }

  /** Both parts, in the order in which they are freed. */
  function Parts(begin: nat, a: nat, b: nat, secondFirst: bool): seq<Entry<AllocRange>>
    requires 1 <= a && 1 <= b
  {
    var first, second := Entry(0, RangeFrom(begin, a)), Entry(0, RangeFrom(begin + a, b));
    if secondFirst then [second, first] else [first, second]
  }

  lemma FreedLater(s: State<AllocRange>, num: nat, begin: nat, a: nat, b: nat, secondFirst: bool, s1: State<AllocRange>, s2: State<AllocRange>)
    requires 1 <= a && 1 <= b
    requires At(s, num, [], Some(Entry(0, RangeFrom(begin, a))), Some(Entry(0, RangeFrom(begin + a, b))))
    requires IsStep(RANGE_OPS, true, s, Free(if secondFirst then 1 else 0), s1)
    requires IsStep(RANGE_OPS, true, s1, Free(if secondFirst then 0 else 1), s2)
    ensures At(s2.(freed := []), num, [], None, None) && s2.freed == Parts(begin, a, b, secondFirst)
  {
    var first, second := Entry(0, RangeFrom(begin, a)), Entry(0, RangeFrom(begin + a, b));
    AtFacts(s, num, [], Some(first), Some(second));
    assert s.(freed := []) == s;
    hide IsStep, At;
    if secondFirst {
      Queued(s, num, Some(first), Some(second), 1, s1);
      Queued(s1, num, Some(first), None, 0, s2);
    } else {
      Queued(s, num, Some(first), Some(second), 0, s1);
      Queued(s1, num, None, Some(second), 1, s2);
    }
  }

  /** A queued range that is too small goes to the pool, and the pool is searched again. */
  lemma TooSmall(
    pool: seq<Entry<AllocRange>>, queue: seq<Entry<AllocRange>>, size: nat,
    pool': seq<Entry<AllocRange>>, queue': seq<Entry<AllocRange>>, lost: seq<Entry<AllocRange>>, found: Found<AllocRange>)
    returns (mid: seq<Entry<AllocRange>>, pool1: seq<Entry<AllocRange>>, found1: Found<AllocRange>)
    requires queue != [] && queue[0].parent == 0 && WellFormed(queue[0].obj) && queue[0].obj.size < size
    requires IsFindFreed(RANGE_OPS, pool, queue, Request(size), pool', queue', lost, found)
    ensures IsFreeObj(RANGE_OPS, pool, queue[0], mid) && IsTake(RANGE_OPS, mid, Request(size), pool1, found1)
    ensures if found1.Got? then found == found1
            else IsFindFreed(RANGE_OPS, pool1, queue[1..], Request(size), pool', queue', lost, found)
  {
    hide IsFreeObj, IsTake;
    var req := Request(size);
    mid, pool1, found1 :|
      && IsFreeObj(RANGE_OPS, pool, queue[0], mid)
      && IsTake(RANGE_OPS, mid, req, pool1, found1)
      && if found1.Got? then pool' == pool1 && queue' == queue[1..] && lost == [] && found == found1
         else IsFindFreed(RANGE_OPS, pool1, queue[1..], req, pool', queue', lost, found);
  }

  lemma TakeSmall(pool: seq<Entry<AllocRange>>, size: nat, pool': seq<Entry<AllocRange>>, found: Found<AllocRange>)
    requires forall i :: 0 <= i < |pool| ==> pool[i].parent == 0 && !pool[i].obj.cmpRange && pool[i].obj.size < size
    requires IsTake(RANGE_OPS, pool, Request(size), pool', found)
    ensures found == Missed && pool' == pool
  {
    assert forall i :: 0 <= i < |pool| ==> Cmp(RANGE_OPS, pool[i], Request(size));
    var i: nat :| IsTakeAt(RANGE_OPS, pool, Request(size), pool', found, i);
    assert i == |pool|;
  }

  lemma TakeAll(range: AllocRange, pool': seq<Entry<AllocRange>>, found: Found<AllocRange>)
    requires WellFormed(range) && IsTake(RANGE_OPS, [Entry(0, range)], Request(range.size), pool', found)
    ensures found.Got? && found.d == range
  {
    hide ReserveRange, IsFreeObj, IsLowerBound;
    var pool := [Entry(0, range)];
    ReserveSplits(range, Request(range.size).obj);
    var i: nat :| IsTakeAt(RANGE_OPS, pool, Request(range.size), pool', found, i);
    OnlyOne(range, range.size, i);
  }

  lemma OwnFacts(region: AllocRange, x: Entry<AllocRange>, y: Entry<AllocRange>)
    requires OwnEntries(region, [x], y)
    ensures x.parent == y.parent && WellFormed(x.obj) && WellFormed(y.obj)
  {
    assert [x][0] == x;
  }

  /** With nothing in the pool, the queue is drained in the order in which it was filled. */
  lemma DrainTwo(
    region: AllocRange, x: Entry<AllocRange>, y: Entry<AllocRange>, size: nat,
    pool': seq<Entry<AllocRange>>, queue': seq<Entry<AllocRange>>, lost: seq<Entry<AllocRange>>, found: Found<AllocRange>)
    requires OwnEntries(region, [x], y) && y.parent == 0 && size == x.obj.size + y.obj.size < SIZE_T
    requires IsFindFreed(RANGE_OPS, [], [x, y], Request(size), pool', queue', lost, found)
    ensures found.Got? <==> y.obj.end + 1 == x.obj.begin
    ensures found.Got? ==> found.d == AllocRanges.Join(y.obj, x.obj)
  {
    hide IsFindFreed, IsFreeObj, IsTake, OwnEntries;
    OwnFacts(region, x, y);
    var queue := [x, y];
    assert queue[0] == x && queue[1..] == [y];
    var mid, pool1, found1 := TooSmall([], queue, size, pool', queue', lost, found);
    FreeIntoEmpty(x, mid);
    TakeSmall([x], size, pool1, found1);
    DrainLast(region, x, y, size, pool', queue', lost, found);
  }

  lemma DrainLast(
    region: AllocRange, x: Entry<AllocRange>, y: Entry<AllocRange>, size: nat,
    pool': seq<Entry<AllocRange>>, queue': seq<Entry<AllocRange>>, lost: seq<Entry<AllocRange>>, found: Found<AllocRange>)
    requires OwnEntries(region, [x], y) && y.parent == 0 && size == x.obj.size + y.obj.size < SIZE_T
    requires IsFindFreed(RANGE_OPS, [x], [y], Request(size), pool', queue', lost, found)
    ensures found.Got? <==> y.obj.end + 1 == x.obj.begin
    ensures found.Got? ==> found.d == AllocRanges.Join(y.obj, x.obj)
  {
    hide IsFindFreed, IsFreeObj, IsTake, OwnEntries;
    OwnFacts(region, x, y);
    assert [y][1..] == [];
    var mid, pool1, found1 := TooSmall([x], [y], size, pool', queue', lost, found);
    SingleMergeIff(region, x, y, mid);
    if y.obj.end + 1 == x.obj.begin {
      TakeJoined(x.obj, y.obj, pool1, found1);
    } else {
      TakeApart(x, y, mid, pool1, found1);
      NothingQueued(pool1, size, pool', queue', lost, found);
    }
  }

  lemma TakeJoined(x: AllocRange, y: AllocRange, pool': seq<Entry<AllocRange>>, found: Found<AllocRange>)
    requires WellFormed(x) && WellFormed(y) && y.end + 1 == x.begin && x.size + y.size < SIZE_T
    requires IsTake(RANGE_OPS, [Entry(0, AllocRanges.Join(y, x))], Request(x.size + y.size), pool', found)
    ensures found.Got? && found.d == AllocRanges.Join(y, x)
  {
    TakeAll(AllocRanges.Join(y, x), pool', found);
  }

  lemma TakeApart(x: Entry<AllocRange>, y: Entry<AllocRange>, mid: seq<Entry<AllocRange>>, pool': seq<Entry<AllocRange>>, found: Found<AllocRange>)
    requires x.parent == y.parent == 0 && WellFormed(x.obj) && WellFormed(y.obj) && (mid == [x, y] || mid == [y, x])
    requires IsTake(RANGE_OPS, mid, Request(x.obj.size + y.obj.size), pool', found)
    ensures found == Missed
  {
    hide IsTake;
    TakeSmall(mid, x.obj.size + y.obj.size, pool', found);
  }

  lemma DrainParts(
    begin: nat, a: nat, b: nat, secondFirst: bool,
    pool': seq<Entry<AllocRange>>, queue': seq<Entry<AllocRange>>, lost: seq<Entry<AllocRange>>, found: Found<AllocRange>)
    requires 1 <= a && 1 <= b && begin + a + b <= SIZE_T && a + b < SIZE_T
    requires IsFindFreed(RANGE_OPS, [], Parts(begin, a, b, secondFirst), Request(a + b), pool', queue', lost, found)
    ensures found.Got? <==> secondFirst
    ensures secondFirst ==> found.d == RangeFrom(begin, a + b)
  {
    hide IsFindFreed, OwnEntries, AllocRanges.Join;
    var region, first, second := RangeFrom(begin, a + b), Entry(0, RangeFrom(begin, a)), Entry(0, RangeFrom(begin + a, b));
    PartsFit(begin, a, b);
    if secondFirst {
      DrainTwo(region, second, first, a + b, pool', queue', lost, found);
    } else {
      DrainTwo(region, first, second, a + b, pool', queue', lost, found);
    }
  }

  lemma NothingQueued(
    pool: seq<Entry<AllocRange>>, size: nat,
    pool': seq<Entry<AllocRange>>, queue': seq<Entry<AllocRange>>, lost: seq<Entry<AllocRange>>, found: Found<AllocRange>)
    requires IsFindFreed(RANGE_OPS, pool, [], Request(size), pool', queue', lost, found)
    ensures found == Missed
  {}

  lemma QueuedReserved(s: State<AllocRange>, num: nat, begin: nat, a: nat, b: nat, secondFirst: bool, e: Event<AllocRange>, s': State<AllocRange>)
    requires 1 <= a && 1 <= b && begin + a + b <= SIZE_T && a + b < SIZE_T
    requires At(s.(freed := []), num, [], None, None) && s.freed == Parts(begin, a, b, secondFirst)
    requires IsStep(RANGE_OPS, true, s, e, s') && e.Alloc? && e.req == Request(a + b)
    ensures e.reservation.Allocated? && (e.found.Got? <==> secondFirst)
    ensures secondFirst ==> e.found.d == RangeFrom(begin, a + b)
  {
    hide IsFindFreed, IsTake, NumWords, Parts, RangeFrom;
    var db' := if e.reservation.Allocated? then ReserveIn(s.externalIds, e.reservation.id) else s.externalIds;
    LeastId(s.externalIds, db', e.reservation, 0);
    var pool, req := s.pool, e.req;
    forall p: seq<Entry<AllocRange>>, f: Found<AllocRange> | IsTake(RANGE_OPS, pool, req, p, f) ensures f == Missed {
      TakeSmall(pool, a + b, p, f);
    }
    DrainParts(begin, a, b, secondFirst, s'.pool, s'.freed, e.lost, e.found);
  }

  /** Coalescing, too, takes the queue in the order in which it was filled: the parts are joined if and only if the second was freed first. */
  lemma CoalescedIff(begin: nat, a: nat, b: nat, secondFirst: bool, pool': seq<Entry<AllocRange>>)
    requires 1 <= a && 1 <= b && begin + a + b <= SIZE_T && a + b < SIZE_T
    requires IsCoalesce(RANGE_OPS, [], Parts(begin, a, b, secondFirst), pool')
    ensures if secondFirst then pool' == [Entry(0, RangeFrom(begin, a + b))]
            else multiset(pool') == multiset{Entry(0, RangeFrom(begin, a)), Entry(0, RangeFrom(begin + a, b))}
  {
    hide IsFreeObj, OwnEntries;
    var queue := Parts(begin, a, b, secondFirst);
    var x, y := queue[0], queue[1];
    PartsFit(begin, a, b);
    PartsMeet(begin, a, b);
    var mid :| IsFreeObj(RANGE_OPS, [], queue[0], mid) && IsCoalesce(RANGE_OPS, mid, queue[1..], pool');
    FreeIntoEmpty(x, mid);
    assert queue[1..] == [y];
    FreedIntoPool([x], y, pool');
    SingleMergeIff(RangeFrom(begin, a + b), x, y, pool');
  }

  /**
   A queued range that is large enough serves the request itself: the request is cut
   from its beginning, and only the remainder goes to the pool.
   */
  lemma QueuedRangeServes(
    pool: seq<Entry<AllocRange>>, queue: seq<Entry<AllocRange>>, req: Entry<AllocRange>,
    pool': seq<Entry<AllocRange>>, queue': seq<Entry<AllocRange>>, lost: seq<Entry<AllocRange>>, found: Found<AllocRange>)
    requires queue != [] && queue[0].parent == req.parent && WellFormed(queue[0].obj) && IsRequest(req.obj)
    requires req.obj.size <= queue[0].obj.size
    requires IsFindFreed(RANGE_OPS, pool, queue, req, pool', queue', lost, found)
    ensures found.Got? && found.d == RangeFrom(queue[0].obj.begin, req.obj.size)
    ensures queue' == queue[1..] && lost == []
    ensures req.obj.size == queue[0].obj.size ==> pool' == pool
    ensures req.obj.size < queue[0].obj.size ==>
              var rest := RangeFrom(queue[0].obj.begin + req.obj.size, queue[0].obj.size - req.obj.size);
              IsFreeObj(RANGE_OPS, pool, Entry(req.parent, rest), pool')
  {
    hide ReserveRange, IsFreeObj, IsTake;
    ReserveSplits(queue[0].obj, req.obj);
  }

  // ---------------------------------------------------------------------
  // Such a run exists
  // ---------------------------------------------------------------------

  lemma FreesIntoEmpty(obj: Entry<AllocRange>)
    ensures IsFreeObj(RANGE_OPS, [], obj, [obj])
  {
    assert InsertAt([], 0, obj) == [obj];
    assert IsUpperBound(RANGE_OPS, [], obj, 0);
    assert IsMergeAdjacent(RANGE_OPS, [], obj, [obj], 0, 0);
  }

  lemma FreesBefore(begin: nat, a: nat, b: nat)
    requires 1 <= a && 1 <= b && begin + a + b <= SIZE_T && a + b < SIZE_T
    ensures IsFreeObj(RANGE_OPS, [Entry(0, RangeFrom(begin + a, b))], Entry(0, RangeFrom(begin, a)), [Entry(0, RangeFrom(begin, a + b))])
  {
    var pool, obj, v := [Entry(0, RangeFrom(begin + a, b))], Entry(0, RangeFrom(begin, a)), Entry(0, RangeFrom(begin, a + b));
    assert RemoveAt(pool, 0) == [] && InsertAt([], 0, v) == [v];
    assert IsUpperBound(RANGE_OPS, [], v, 0);
    assert IsReplace(RANGE_OPS, pool, 0, v, [v]);
    assert IsMergeAdjacent(RANGE_OPS, pool, obj, [v], 0, 0);
  }

  lemma ReserveIs(begin: nat, total: nat, size: nat)
    requires 1 <= size <= total < SIZE_T && begin + total <= SIZE_T
    ensures ReserveRange(RangeFrom(begin, total), Request(size).obj) ==
            Some((RangeFrom(begin, size), AllocRange(false, total - size, (begin + size) % SIZE_T, begin + total - 1)))
  {
    assert (begin + size - 1) % SIZE_T == begin + size - 1;
    assert (total - size) % SIZE_T == total - size;
  }

  lemma TakesFromOne(begin: nat, total: nat, size: nat)
    requires 1 <= size <= total < SIZE_T && begin + total <= SIZE_T
    ensures var range, rest := RangeFrom(begin, total), AllocRange(false, total - size, (begin + size) % SIZE_T, begin + total - 1);
            IsSearch(RANGE_OPS, [Entry(0, range)], [], Request(size),
                     if size == total then [] else [Entry(0, rest)], [], [], Got(RangeFrom(begin, size), rest))
  {
    hide ReserveRange, IsFreeObj, IsFindFreed;
    var range, rest := RangeFrom(begin, total), AllocRange(false, total - size, (begin + size) % SIZE_T, begin + total - 1);
    var pool, pool' := [Entry(0, range)], if size == total then [] else [Entry(0, rest)];
    ReserveIs(begin, total, size);
    assert RemoveAt(pool, 0) == [];
    FreesIntoEmpty(Entry(0, rest));
    assert IsTakeAt(RANGE_OPS, pool, Request(size), pool', Got(RangeFrom(begin, size), rest), 0);
  }

  lemma CanRegister(num: nat, range: AllocRange) returns (e: Event<AllocRange>, s': State<AllocRange>)
    requires 2 <= num <= UINT - 32
    ensures e.Register? && e.obj == range && IsStep(RANGE_OPS, false, Initial(RANGE_OPS, num), e, s')
  {
    hide IsFreeObj, NumWords;
    var s := Initial(RANGE_OPS, num);
    e := Register(range, Allocated(0));
    s' := s.(capacity := s.capacity[0 := AddSize(s.capacity[0], range)], registered := s.registered[0 := range],
             refCount := s.refCount[0 := 0], pool := [Entry(0, range)], registeredIds := Db(num, {0}, num - 1));
    FreesIntoEmpty(Entry(0, range));
    HasWord(num, 0);
    assert s.registeredIds.active + {0} == {0};
  }

  lemma CanReserve(s: State<AllocRange>, num: nat, begin: nat, total: nat, x: Option<Entry<AllocRange>>, size: nat)
    returns (e: Event<AllocRange>, s': State<AllocRange>)
    requires 1 <= size <= total < SIZE_T && begin + total <= SIZE_T && At(s, num, [Entry(0, RangeFrom(begin, total))], x, None)
    ensures e.Alloc? && e.req == Request(size) && IsStep(RANGE_OPS, false, s, e, s')
  {
    hide IsSearch, NumWords, RangeFrom;
    var id, d := if x.None? then 0 else 1, RangeFrom(begin, size);
    var rest := AllocRange(false, total - size, (begin + size) % SIZE_T, begin + total - 1);
    e := Alloc(Request(size), Allocated(id), Got(d, rest), []);
    s' := s.(pool := if size == total then [] else [Entry(0, rest)], freed := [], live := s.live[id := Some(Entry(0, d))],
             capacity := s.capacity[0 := SubSize(s.capacity[0], d)], load := s.load[0 := AddSize(s.load[0], d)],
             refCount := s.refCount[0 := s.refCount[0] + 1], externalIds := ReserveIn(s.externalIds, id));
    TakesFromOne(begin, total, size);
    HasWord(num, id);
    NextId(num, x);
  }

  lemma NextId(num: nat, x: Option<Entry<AllocRange>>)
    requires 2 <= num
    ensures var db, id := Ids(num, x, None), if x.None? then 0 else 1;
            id !in db.active && forall k: nat :: k < id ==> k in db.active
  {}

  lemma CanFree(s: State<AllocRange>, num: nat, x: Option<Entry<AllocRange>>, y: Option<Entry<AllocRange>>, id: nat, pool': seq<Entry<AllocRange>>)
    returns (s': State<AllocRange>)
    requires At(s, num, s.pool, x, y) && id < 2 && (if id == 0 then x.Some? else y.Some?)
    requires IsFreeObj(RANGE_OPS, s.pool, if id == 0 then x.value else y.value, pool')
    ensures IsStep(RANGE_OPS, false, s, Free(id), s') && s'.pool == pool'
  {
    hide IsFreeObj, IsCoalesce, Taken;
    assert id in s.externalIds.active by { HeldIds(num, x, y); }
    var obj := s.live[id].value;
    var p := obj.parent;
    s' := s.(pool := pool', freed := [], live := s.live[id := None],
             capacity := s.capacity[p := AddSize(s.capacity[p], obj.obj)], load := s.load[p := SubSize(s.load[p], obj.obj)],
             refCount := s.refCount[p := s.refCount[p] - 1], externalIds := ReleaseIn(s.externalIds, id));
    assert s.freed + [obj] == [obj];
    CoalescesOne(s.pool, obj, pool');
  }

  lemma HeldIds(num: nat, x: Option<Entry<AllocRange>>, y: Option<Entry<AllocRange>>)
    requires 2 <= num
    ensures x.Some? ==> 0 in Ids(num, x, y).active
    ensures y.Some? ==> 1 in Ids(num, x, y).active
  {}

  lemma CoalescesOne(pool: seq<Entry<AllocRange>>, obj: Entry<AllocRange>, pool': seq<Entry<AllocRange>>)
    requires IsFreeObj(RANGE_OPS, pool, obj, pool')
    ensures IsCoalesce(RANGE_OPS, pool, [obj], pool')
  {
    hide IsFreeObj;
    var queue := [obj];
    assert queue[0] == obj && queue[1..] == [];
    assert IsCoalesce(RANGE_OPS, pool', queue[1..], pool');
  }

  lemma ReservesBoth(num: nat, begin: nat, a: nat, b: nat)
    returns (states: seq<State<AllocRange>>, events: seq<Event<AllocRange>>)
    requires 2 <= num <= UINT - 32 && 1 <= a && 1 <= b && begin + a + b <= SIZE_T && a + b < SIZE_T
    ensures |states| == 4 && |events| == 3 && states[0] == Initial(RANGE_OPS, num)
    ensures forall i :: 0 <= i < 3 ==> IsStep(RANGE_OPS, false, states[i], events[i], states[i + 1])
    ensures events[0].Register? && events[0].obj == RangeFrom(begin, a + b)
    ensures events[1].Alloc? && events[1].req == Request(a) && events[2].Alloc? && events[2].req == Request(b)
    ensures At(states[3], num, [], Some(Entry(0, RangeFrom(begin, a))), Some(Entry(0, RangeFrom(begin + a, b))))
  {
    hide IsStep, At, Initial;
    var whole, first := RangeFrom(begin, a + b), RangeFrom(begin, a);
    var e0, s1 := CanRegister(num, whole);
    FirstRegistered(false, num, whole, e0.registration, s1);
    var e1, s2 := CanReserve(s1, num, begin, a + b, None, a);
    Reserved(false, s1, num, whole, None, e1, s2);
    var e2, s3 := CanReserve(s2, num, begin + a, b, Some(Entry(0, first)), b);
    Reserved(false, s2, num, RangeFrom(begin + a, b), Some(Entry(0, first)), e2, s3);
    states, events := [Initial(RANGE_OPS, num), s1, s2, s3], [e0, e1, e2];
  }

  lemma FreesBoth(s: State<AllocRange>, num: nat, begin: nat, a: nat, b: nat) returns (s1: State<AllocRange>, s2: State<AllocRange>)
    requires 1 <= a && 1 <= b && begin + a + b <= SIZE_T && a + b < SIZE_T
    requires At(s, num, [], Some(Entry(0, RangeFrom(begin, a))), Some(Entry(0, RangeFrom(begin + a, b))))
    ensures IsStep(RANGE_OPS, false, s, Free(1), s1) && IsStep(RANGE_OPS, false, s1, Free(0), s2)
    ensures At(s2, num, [Entry(0, RangeFrom(begin, a + b))], None, None)
  {
    var first, second := Entry(0, RangeFrom(begin, a)), Entry(0, RangeFrom(begin + a, b));
    AtFacts(s, num, [], Some(first), Some(second));
    FreesIntoEmpty(second);
    FreesBefore(begin, a, b);
    hide IsStep, At, IsFreeObj, RangeFrom;
    s1 := CanFree(s, num, Some(first), Some(second), 1, [second]);
    Returned(s, num, Some(first), Some(second), 1, s1);
    s2 := CanFree(s1, num, Some(first), None, 0, [Entry(0, RangeFrom(begin, a + b))]);
    Returned(s1, num, Some(first), None, 0, s2);
  }

  /** For all sizes there is a run that gets the resource back: reserve both parts, free the second and then the first, and ask for all of it. */
  lemma RejoinedRun(num: nat, begin: nat, a: nat, b: nat) returns (states: seq<State<AllocRange>>, events: seq<Event<AllocRange>>)
    requires 2 <= num <= UINT - 32 && 1 <= a && 1 <= b && begin + a + b <= SIZE_T && a + b < SIZE_T
    ensures IsRun(RANGE_OPS, false, num, states, events) && SplitAndFree(events, begin, a, b, true)
    ensures events[5].reservation.Allocated? && events[5].found.Got? && events[5].found.d == RangeFrom(begin, a + b)
  {
    hide IsStep, At, RangeFrom, Initial;
    states, events := ReservesBoth(num, begin, a, b);
    var s4, s5 := FreesBoth(states[3], num, begin, a, b);
    var e5, s6 := CanReserve(s5, num, begin, a + b, None, a + b);
    states, events := states + [s4, s5, s6], events + [Free(1), Free(0), e5];
    RejoinedIff(false, num, states, events, begin, a, b, true);
  }

  /** For instance: 0..19 in two halves. */
  lemma HalvesRejoin() returns (states: seq<State<AllocRange>>, events: seq<Event<AllocRange>>)
    ensures IsRun(RANGE_OPS, false, 2, states, events) && |events| == 6
    ensures events[0].Register? && events[0].obj == AllocRange(false, 20, 0, 19)
    ensures events[1].Alloc? && events[1].req == Request(10) && events[1].found.Got? && events[1].found.d == AllocRange(false, 10, 0, 9)
    ensures events[2].Alloc? && events[2].req == Request(10) && events[2].found.Got? && events[2].found.d == AllocRange(false, 10, 10, 19)
    ensures events[3] == Free(1) && events[4] == Free(0)
    ensures events[5].Alloc? && events[5].req == Request(20)
    ensures events[5].found.Got? && events[5].found.d == AllocRange(false, 20, 0, 19)
  {
    hide IsStep;
    states, events := RejoinedRun(2, 0, 10, 10);
    BothReserved(false, 2, states, events, 0, 10, 10, true);
  }
}
