/**
 Address ranges as allocator elements, common/inc/vmaccel_types_allocrange.hpp.
 Sizes and addresses are `size_t`: arithmetic is modulo 2^64.
 */
module AllocRanges {
  import opened Options
  import opened Pool
  import opened Totals
  import opened Allocator

  const SIZE_T: nat := 0x1_0000_0000_0000_0000

  datatype AllocRange = AllocRange(cmpRange: bool, size: nat, begin: nat, end: nat)

  predicate RangeLess(a: AllocRange, b: AllocRange) {
    if a.cmpRange || b.cmpRange then a.begin < b.begin || a.end < b.end else a.size < b.size
  }

  predicate RangeLessEq(a: AllocRange, b: AllocRange) {
    if a.cmpRange || b.cmpRange then a.begin <= b.begin && a.end <= b.end else a.size <= b.size
  }

  function AddSize(a: AllocRange, b: AllocRange): AllocRange {
    a.(size := (a.size + b.size) % SIZE_T)
  }

  function SubSize(a: AllocRange, b: AllocRange): AllocRange {
    a.(size := (a.size - b.size) % SIZE_T)
  }

  predicate IsEmptyRange(a: AllocRange) {
    a.size == 0
  }

  /** The reservation is cut from the beginning of a. */
  function ReserveRange(a: AllocRange, req: AllocRange): Option<(AllocRange, AllocRange)> {
    if RangeLess(a, req) then None
    else
      var d := a.(size := req.size, end := (a.begin + req.size - 1) % SIZE_T);
      var r := a.(size := (a.size - d.size) % SIZE_T, begin := (d.end + 1) % SIZE_T);
      if RangeLess(r, a) then Some((d, r)) else None
  }

  function KeyRange(r: AllocRange): AllocRange {
    r.(cmpRange := true)
  }

  predicate Precedes(r: AllocRange, range: AllocRange) {
    range.begin == (r.end + 1) % SIZE_T
  }

  function Prepend(range: AllocRange, r: AllocRange): AllocRange {
    range.(begin := r.begin, size := (range.size + (r.end - r.begin + 1)) % SIZE_T)
  }

  predicate Follows(r: AllocRange, range: AllocRange) {
    (range.end + 1) % SIZE_T == r.begin
  }

  /** The code sets the new end to the *beginning* of the appended range. */
  function Append(range: AllocRange, r: AllocRange): AllocRange {
    range.(end := r.begin, size := (range.size + (r.end - r.begin + 1)) % SIZE_T)
  }

  const RANGE_OPS: Ops<AllocRange> :=
    Ops(AllocRange(false, 0, 0, 0), RangeLess, RangeLessEq, AddSize, AddSize, SubSize, IsEmptyRange, ReserveRange,
        Adjacent(KeyRange, Precedes, Prepend, Follows, Append))

  /** A range in the sense of the type: inclusive bounds, a size that agrees with them. */
  predicate WellFormed(r: AllocRange) {
    !r.cmpRange && r.begin <= r.end < SIZE_T && r.size == r.end - r.begin + 1 < SIZE_T
  }

  predicate Within(a: AllocRange, b: AllocRange) {
    b.begin <= a.begin && a.end <= b.end
  }

  predicate Disjoint(a: AllocRange, b: AllocRange) {
    a.end < b.begin || b.end < a.begin
  }

  /** Disjoint and not adjacent, modulo 2^64. */
  predicate Apart(a: AllocRange, b: AllocRange) {
    Disjoint(a, b) && (a.end + 1) % SIZE_T != b.begin && (b.end + 1) % SIZE_T != a.begin
  }

  function Join(a: AllocRange, b: AllocRange): AllocRange {
    AllocRange(false, a.size + b.size, a.begin, b.end)
  }

  /** The measure of one address: 1 for a range that covers it. */
  function PointAt(x: nat): AllocRange -> int {
    (r: AllocRange) => if r.begin <= x <= r.end then 1 else 0
  }

  function SizeOf(): AllocRange -> int {
    (r: AllocRange) => r.size
  }

  /** A measure under which a range is the sum of two ranges it is cut into. */
  ghost predicate Splits(m: AllocRange -> int) {
    forall a, b :: WellFormed(a) && WellFormed(b) && a.end + 1 == b.begin && b.end - a.begin + 1 < SIZE_T ==>
                     m(Join(a, b)) == m(a) + m(b)
  }

  lemma PointSplits(x: nat)
    ensures Splits(PointAt(x))
  {}

  // ---------------------------------------------------------------------
  // Cutting and joining, whichever entry a lookup returns
  // ---------------------------------------------------------------------

  ghost predicate AllWellFormed(es: seq<Entry<AllocRange>>) {
    forall i :: 0 <= i < |es| ==> WellFormed(es[i].obj)
  }

  /** The registered ranges: one well-formed range per resource, none touching another. */
  ghost predicate RegionsApart(regs: seq<AllocRange>, active: set<nat>) {
    && (forall p :: p in active ==> p < |regs| && WellFormed(regs[p]))
    && (forall p, q :: p in active && q in active && p != q ==> Apart(regs[p], regs[q]))
  }

  /** No address is covered twice, nor outside its resource, by the entries of es. */
  ghost predicate Covered(regs: seq<AllocRange>, active: set<nat>, es: seq<Entry<AllocRange>>) {
    && RegionsApart(regs, active) && AllWellFormed(es) && ParentsIn(es, active)
    && forall p, x: nat :: p in active ==> Total(PointAt(x), es, p) <= PointAt(x)(regs[p])
  }

  lemma CoveredWithin(regs: seq<AllocRange>, active: set<nat>, es: seq<Entry<AllocRange>>, i: nat)
    requires Covered(regs, active, es) && i < |es|
    ensures Within(es[i].obj, regs[es[i].parent])
  {
    var p, r := es[i].parent, es[i].obj;
    TotalAtLeast(PointAt(r.begin), es, p);
    TotalAtLeast(PointAt(r.end), es, p);
    assert Total(PointAt(r.begin), es, p) <= PointAt(r.begin)(regs[p]);
    assert Total(PointAt(r.end), es, p) <= PointAt(r.end)(regs[p]);
  }

  lemma CoveredDisjoint(regs: seq<AllocRange>, active: set<nat>, es: seq<Entry<AllocRange>>, i: nat, j: nat)
    requires Covered(regs, active, es) && i < j < |es| && es[i].parent == es[j].parent
    ensures Disjoint(es[i].obj, es[j].obj)
  {
    var p, a, b := es[i].parent, es[i].obj, es[j].obj;
    var x := if a.begin < b.begin then b.begin else a.begin;
    TotalAtLeastTwo(PointAt(x), es, i, j, p);
    assert Total(PointAt(x), es, p) <= PointAt(x)(regs[p]);
  }

  lemma CoveredAppend(regs: seq<AllocRange>, active: set<nat>, pool: seq<Entry<AllocRange>>, obj: Entry<AllocRange>)
    requires Covered(regs, active, pool + [obj])
    ensures RegionsApart(regs, active) && AllWellFormed(pool) && ParentsIn(pool, active)
    ensures forall i :: 0 <= i < |pool| ==>
              WellFormed(pool[i].obj) && pool[i].parent in active && Within(pool[i].obj, regs[pool[i].parent])
    ensures forall i :: 0 <= i < |pool| && pool[i].parent == obj.parent ==> Disjoint(pool[i].obj, obj.obj)
    ensures WellFormed(obj.obj) && obj.parent in active && Within(obj.obj, regs[obj.parent])
  {
    var es := pool + [obj];
    assert es[|pool|] == obj;
    CoveredWithin(regs, active, es, |pool|);
    forall i | 0 <= i < |pool|
      ensures WellFormed(pool[i].obj) && pool[i].parent in active && Within(pool[i].obj, regs[pool[i].parent])
      ensures pool[i].parent == obj.parent ==> Disjoint(pool[i].obj, obj.obj)
    {
      assert es[i] == pool[i];
      CoveredWithin(regs, active, es, i);
      if pool[i].parent == obj.parent { CoveredDisjoint(regs, active, es, i, |pool|); }
    }
  }

  /**
   A freed range is merged, if at all, with a range of its own resource that
   begins where it ends.  In particular the branches that append it to a range,
   whose new end would be wrong, are never taken.
   */
  lemma MergeOnlyPrepends(regs: seq<AllocRange>, active: set<nat>, obj: Entry<AllocRange>, e: Entry<AllocRange>)
    requires RegionsApart(regs, active) && obj.parent in active && e.parent in active
    requires WellFormed(obj.obj) && Within(obj.obj, regs[obj.parent])
    requires WellFormed(e.obj) && Within(e.obj, regs[e.parent])
    requires e.parent == obj.parent ==> Disjoint(e.obj, obj.obj)
    requires Precedes(obj.obj, e.obj) || Follows(obj.obj, e.obj)
    requires var key := Entry(obj.parent, KeyRange(obj.obj));
             !Cmp(RANGE_OPS, e, key) || Cmp(RANGE_OPS, key, e)
    ensures e.parent == obj.parent && Precedes(obj.obj, e.obj)
    ensures obj.obj.end + 1 == e.obj.begin
    ensures Prepend(e.obj, obj.obj) == Join(obj.obj, e.obj) && WellFormed(Join(obj.obj, e.obj))
  {
    var r, o := e.obj, obj.obj;
    NextAddress(o.end);
    NextAddress(r.end);
    assert e.parent != obj.parent ==> Apart(regs[obj.parent], regs[e.parent]);
    if e.parent != obj.parent {
      NextAddress(regs[e.parent].end);
      NextAddress(regs[obj.parent].end);
      assert false;
    }
  }

  lemma NextAddress(x: nat)
    requires x < SIZE_T
    ensures (x + 1) % SIZE_T == if x == SIZE_T - 1 then 0 else x + 1
  {}

  /** FreeObj adds exactly the freed range to the pool, under every measure that splits. */
  lemma FreeRange(
    regs: seq<AllocRange>, active: set<nat>, pool: seq<Entry<AllocRange>>, obj: Entry<AllocRange>, pool': seq<Entry<AllocRange>>)
    requires Covered(regs, active, pool + [obj]) && IsFreeObj(RANGE_OPS, pool, obj, pool')
    ensures AllWellFormed(pool') && ParentsIn(pool', active)
    ensures forall m, p :: Splits(m) ==> Total(m, pool', p) == Total(m, pool, p) + Share(m, obj, p)
  {
    hide IsFreeObj, Covered, Cmp;
    CoveredAppend(regs, active, pool, obj);
    var i, v := FreeObjCases(RANGE_OPS, pool, obj, pool');
    if i < |pool| {
      assert RANGE_OPS.policy.key(obj.obj) == KeyRange(obj.obj);
      MergeOnlyPrepends(regs, active, obj, pool[i]);
      ReplaceWellFormed(pool, i, v, pool', active);
      JoinedTotal(pool, obj, i, v, pool');
    } else {
      InsertWellFormed(pool, obj, pool', active);
      InsertedTotal(pool, obj, pool');
    }
  }

  lemma InsertedTotal(pool: seq<Entry<AllocRange>>, obj: Entry<AllocRange>, pool': seq<Entry<AllocRange>>)
    requires IsInsert(RANGE_OPS, pool, obj, pool')
    ensures forall m, p :: Total(m, pool', p) == Total(m, pool, p) + Share(m, obj, p)
  {
    hide IsInsert, Total;
    forall m, p ensures Total(m, pool', p) == Total(m, pool, p) + Share(m, obj, p) {
      IsInsertTotal(RANGE_OPS, m, pool, obj, pool', p);
    }
  }

  lemma JoinedTotal(pool: seq<Entry<AllocRange>>, obj: Entry<AllocRange>, i: nat, v: Entry<AllocRange>, pool': seq<Entry<AllocRange>>)
    requires IsReplace(RANGE_OPS, pool, i, v, pool') && v == Entry(obj.parent, Join(obj.obj, pool[i].obj))
    requires WellFormed(obj.obj) && WellFormed(pool[i].obj) && WellFormed(v.obj)
    requires obj.parent == pool[i].parent && obj.obj.end + 1 == pool[i].obj.begin
    ensures forall m, p :: Splits(m) ==> Total(m, pool', p) == Total(m, pool, p) + Share(m, obj, p)
  {
    hide IsReplace, Total;
    forall m, p | Splits(m) ensures Total(m, pool', p) == Total(m, pool, p) + Share(m, obj, p) {
      IsReplaceTotal(RANGE_OPS, m, pool, i, v, pool', p);
    }
  }

  lemma InsertWellFormed(pool: seq<Entry<AllocRange>>, v: Entry<AllocRange>, pool': seq<Entry<AllocRange>>, active: set<nat>)
    requires AllWellFormed(pool) && ParentsIn(pool, active) && WellFormed(v.obj) && v.parent in active
    requires IsInsert(RANGE_OPS, pool, v, pool')
    ensures AllWellFormed(pool') && ParentsIn(pool', active)
  {
    var i: nat :| IsUpperBound(RANGE_OPS, pool, v, i) && pool' == InsertAt(pool, i, v);
  }

  lemma ReplaceWellFormed(pool: seq<Entry<AllocRange>>, i: nat, v: Entry<AllocRange>, pool': seq<Entry<AllocRange>>, active: set<nat>)
    requires AllWellFormed(pool) && ParentsIn(pool, active) && WellFormed(v.obj) && v.parent in active
    requires IsReplace(RANGE_OPS, pool, i, v, pool')
    ensures AllWellFormed(pool') && ParentsIn(pool', active)
  {
    InsertWellFormed(RemoveAt(pool, i), v, pool', active);
  }

  lemma CoveredLess(regs: seq<AllocRange>, active: set<nat>, es: seq<Entry<AllocRange>>, es': seq<Entry<AllocRange>>)
    requires Covered(regs, active, es) && AllWellFormed(es') && ParentsIn(es', active)
    requires forall p, x: nat :: p in active ==> Total(PointAt(x), es', p) <= Total(PointAt(x), es, p)
    ensures Covered(regs, active, es')
  {}

  lemma PointTotalNonNegative(es: seq<Entry<AllocRange>>, x: nat, p: nat)
    ensures Total(PointAt(x), es, p) >= 0
  {
    TotalAtLeast(PointAt(x), es, p);
  }

  lemma CoveredParts(regs: seq<AllocRange>, active: set<nat>, a: seq<Entry<AllocRange>>, b: seq<Entry<AllocRange>>)
    requires Covered(regs, active, a + b)
    ensures Covered(regs, active, a) && Covered(regs, active, b)
    ensures AllWellFormed(a) && ParentsIn(a, active) && AllWellFormed(b) && ParentsIn(b, active)
  {
    assert forall i :: 0 <= i < |a| ==> (a + b)[i] == a[i];
    assert forall i :: 0 <= i < |b| ==> (a + b)[|a| + i] == b[i];
    forall p, x: nat | p in active
      ensures Total(PointAt(x), a, p) <= Total(PointAt(x), a + b, p)
      ensures Total(PointAt(x), b, p) <= Total(PointAt(x), a + b, p)
    {
      TotalConcat(PointAt(x), a, b, p);
      PointTotalNonNegative(a, x, p);
      PointTotalNonNegative(b, x, p);
    }
    CoveredLess(regs, active, a + b, a);
    CoveredLess(regs, active, a + b, b);
  }

  /** The same entries, up to cutting and joining: the totals of every splitting measure agree. */
  ghost predicate SameTotals(es: seq<Entry<AllocRange>>, es': seq<Entry<AllocRange>>) {
    forall m, p :: Splits(m) ==> Total(m, es', p) == Total(m, es, p)
  }

  lemma CoveredSame(regs: seq<AllocRange>, active: set<nat>, es: seq<Entry<AllocRange>>, es': seq<Entry<AllocRange>>)
    requires Covered(regs, active, es) && AllWellFormed(es') && ParentsIn(es', active) && SameTotals(es, es')
    ensures Covered(regs, active, es')
  {
    forall p, x: nat | p in active ensures Total(PointAt(x), es', p) <= Total(PointAt(x), es, p) {
      PointSplits(x);
    }
    CoveredLess(regs, active, es, es');
  }

  lemma SameTotalsConcat(a: seq<Entry<AllocRange>>, a': seq<Entry<AllocRange>>, b: seq<Entry<AllocRange>>, b': seq<Entry<AllocRange>>)
    requires SameTotals(a, a') && SameTotals(b, b')
    ensures SameTotals(a + b, a' + b')
  {
    forall m, p | Splits(m) ensures Total(m, a' + b', p) == Total(m, a + b, p) {
      TotalConcat(m, a, b, p);
      TotalConcat(m, a', b', p);
    }
  }

  lemma SameTotalsSwap(a: seq<Entry<AllocRange>>, b: seq<Entry<AllocRange>>, c: seq<Entry<AllocRange>>)
    ensures SameTotals(a + b + c, a + c + b)
  {
    forall m, p | Splits(m) ensures Total(m, a + c + b, p) == Total(m, a + b + c, p) {
      TotalConcat(m, a + b, c, p);
      TotalConcat(m, a, b, p);
      TotalConcat(m, a + c, b, p);
      TotalConcat(m, a, c, p);
    }
  }

  lemma FreeRangeSame(
    regs: seq<AllocRange>, active: set<nat>, pool: seq<Entry<AllocRange>>, obj: Entry<AllocRange>, pool': seq<Entry<AllocRange>>)
    requires Covered(regs, active, pool + [obj]) && IsFreeObj(RANGE_OPS, pool, obj, pool')
    ensures AllWellFormed(pool') && ParentsIn(pool', active) && SameTotals(pool + [obj], pool')
  {
    hide IsFreeObj, Covered;
    FreeRange(regs, active, pool, obj, pool');
    forall m, p | Splits(m) ensures Total(m, pool', p) == Total(m, pool + [obj], p) {
      TotalConcat(m, pool, [obj], p);
      TotalSingle(m, obj, p);
    }
  }

  lemma {:induction false} CoalesceRanges(
    regs: seq<AllocRange>, active: set<nat>, pool: seq<Entry<AllocRange>>, queue: seq<Entry<AllocRange>>, pool': seq<Entry<AllocRange>>)
    requires Covered(regs, active, pool + queue) && IsCoalesce(RANGE_OPS, pool, queue, pool')
    ensures AllWellFormed(pool') && ParentsIn(pool', active) && SameTotals(pool + queue, pool')
    decreases |queue|
  {
    hide IsFreeObj, Covered, Splits;
    if queue == [] {
      assert pool + queue == pool;
      CoveredParts(regs, active, pool, queue);
    } else {
      var mid :| IsFreeObj(RANGE_OPS, pool, queue[0], mid) && IsCoalesce(RANGE_OPS, mid, queue[1..], pool');
      assert pool + queue == pool + [queue[0]] + queue[1..];
      CoveredParts(regs, active, pool + [queue[0]], queue[1..]);
      FreeRangeSame(regs, active, pool, queue[0], mid);
      SameTotalsConcat(pool + [queue[0]], mid, queue[1..], queue[1..]);
      CoveredSame(regs, active, pool + queue, mid + queue[1..]);
      CoalesceRanges(regs, active, mid, queue[1..], pool');
    }
  }

  // ---------------------------------------------------------------------
  // Reserving a range
  // ---------------------------------------------------------------------

  /** A request: at least one address, compared by size. */
  predicate IsRequest(req: AllocRange) {
    !req.cmpRange && 1 <= req.size < SIZE_T
  }

  /** Reserve cuts a well-formed range in two, at the requested size. */
  lemma ReserveSplits(a: AllocRange, req: AllocRange)
    requires WellFormed(a) && IsRequest(req)
    ensures a.size < req.size <==> ReserveRange(a, req).None?
    ensures req.size <= a.size ==>
              var (d, r) := ReserveRange(a, req).value;
              && WellFormed(d) && d.size == req.size && d.begin == a.begin
              && (IsEmptyRange(r) <==> req.size == a.size)
              && (IsEmptyRange(r) ==> d == a)
              && (!IsEmptyRange(r) ==> WellFormed(r) && d.end + 1 == r.begin && Join(d, r) == a)
  {
    if req.size <= a.size {
      assert (a.begin + req.size - 1) % SIZE_T == a.begin + req.size - 1;
      assert (a.size - req.size) % SIZE_T == a.size - req.size;
      NextAddress(a.begin + req.size - 1);
    }
  }

  /** What a reservation leaves: its remainder, or nothing. */
  function Remainder(p: nat, r: AllocRange): seq<Entry<AllocRange>> {
    if IsEmptyRange(r) then [] else [Entry(p, r)]
  }

  lemma CutTotals(a: Entry<AllocRange>, req: AllocRange, d: AllocRange, r: AllocRange)
    requires WellFormed(a.obj) && IsRequest(req) && ReserveRange(a.obj, req) == Some((d, r))
    ensures SameTotals([a], Remainder(a.parent, r) + [Entry(a.parent, d)])
    ensures AllWellFormed(Remainder(a.parent, r) + [Entry(a.parent, d)])
  {
    ReserveSplits(a.obj, req);
    var rest, e := Remainder(a.parent, r), Entry(a.parent, d);
    forall m, p | Splits(m) ensures Total(m, rest + [e], p) == Total(m, [a], p) {
      TotalConcat(m, rest, [e], p);
      TotalSingle(m, a, p);
      TotalSingle(m, e, p);
      if rest != [] {
        TotalSingle(m, rest[0], p);
        assert m(Join(d, r)) == m(d) + m(r);
      }
    }
  }

  function Taken(p: nat, found: Found<AllocRange>): seq<Entry<AllocRange>> {
    if found.Got? then [Entry(p, found.d)] else []
  }

  /** What a search may return for a request. */
  ghost predicate Serves(active: set<nat>, req: Entry<AllocRange>, found: Found<AllocRange>) {
    && !found.Refused?
    && (found.Got? ==> req.parent in active && WellFormed(found.d) && found.d.size == req.obj.size)
  }

  lemma SameTotalsTrans(a: seq<Entry<AllocRange>>, b: seq<Entry<AllocRange>>, c: seq<Entry<AllocRange>>)
    requires SameTotals(a, b) && SameTotals(b, c)
    ensures SameTotals(a, c)
  {}

  lemma RemovedTotals(pool: seq<Entry<AllocRange>>, i: nat)
    requires i < |pool|
    ensures SameTotals(pool, RemoveAt(pool, i) + [pool[i]])
  {
    forall m, p | Splits(m) ensures Total(m, RemoveAt(pool, i) + [pool[i]], p) == Total(m, pool, p) {
      TotalConcat(m, RemoveAt(pool, i), [pool[i]], p);
      TotalSingle(m, pool[i], p);
      TotalRemove(m, pool, i, p);
    }
  }

  /** Reserving from a range a that is set apart from `base`, with the remainder put back. */
  lemma CutFrom(regs: seq<AllocRange>, active: set<nat>, base: seq<Entry<AllocRange>>, a: Entry<AllocRange>, req: AllocRange,
                d: AllocRange, r: AllocRange, pool': seq<Entry<AllocRange>>)
    requires Covered(regs, active, base + [a]) && IsRequest(req) && ReserveRange(a.obj, req) == Some((d, r))
    requires if IsEmptyRange(r) then pool' == base else IsFreeObj(RANGE_OPS, base, Entry(a.parent, r), pool')
    ensures AllWellFormed(pool') && ParentsIn(pool', active) && WellFormed(d) && d.size == req.size && a.parent in active
    ensures SameTotals(base + [a], pool' + [Entry(a.parent, d)])
  {
    hide IsFreeObj, Covered, Splits;
    CoveredParts(regs, active, base, [a]);
    assert WellFormed([a][0].obj) && [a][0].parent in active;
    var rest, e := Remainder(a.parent, r), Entry(a.parent, d);
    CutTotals(a, req, d, r);
    ReserveSplits(a.obj, req);
    SameTotalsConcat(base, base, [a], rest + [e]);
    assert base + (rest + [e]) == base + rest + [e];
    CoveredSame(regs, active, base + [a], base + rest + [e]);
    CoveredParts(regs, active, base + rest, [e]);
    if IsEmptyRange(r) {
      assert base + rest == base;
    } else {
      FreeRangeSame(regs, active, base, Entry(a.parent, r), pool');
      SameTotalsConcat(base + rest, pool', [e], [e]);
      SameTotalsTrans(base + [a], base + rest + [e], pool' + [e]);
    }
  }

  lemma TakeRange(regs: seq<AllocRange>, active: set<nat>, pool: seq<Entry<AllocRange>>, req: Entry<AllocRange>,
                  pool': seq<Entry<AllocRange>>, found: Found<AllocRange>)
    requires Covered(regs, active, pool) && IsRequest(req.obj) && IsTake(RANGE_OPS, pool, req, pool', found)
    ensures AllWellFormed(pool') && ParentsIn(pool', active) && Serves(active, req, found)
    ensures SameTotals(pool, pool' + Taken(req.parent, found))
  {
    hide IsFreeObj, Splits, Total;
    var i: nat :| IsTakeAt(RANGE_OPS, pool, req, pool', found, i);
    if i == |pool| {
      assert pool' + Taken(req.parent, found) == pool;
    } else {
      var a := pool[i];
      assert a.parent == req.parent && !RangeLess(a.obj, req.obj);
      ReserveSplits(a.obj, req.obj);
      var (d, r) := ReserveRange(a.obj, req.obj).value;
      RemovedTotals(pool, i);
      var base := RemoveAt(pool, i);
      CoveredSame(regs, active, pool, base + [a]);
      CutFrom(regs, active, base, a, req.obj, d, r, pool');
      SameTotalsTrans(pool, base + [a], pool' + [Entry(a.parent, d)]);
    }
  }

  lemma {:induction false} FindFreedRange(
    regs: seq<AllocRange>, active: set<nat>, pool: seq<Entry<AllocRange>>, queue: seq<Entry<AllocRange>>, req: Entry<AllocRange>,
    pool': seq<Entry<AllocRange>>, queue': seq<Entry<AllocRange>>, lost: seq<Entry<AllocRange>>, found: Found<AllocRange>)
    requires Covered(regs, active, pool + queue) && IsRequest(req.obj)
    requires IsFindFreed(RANGE_OPS, pool, queue, req, pool', queue', lost, found)
    ensures AllWellFormed(pool') && ParentsIn(pool', active) && AllWellFormed(queue') && ParentsIn(queue', active)
    ensures Serves(active, req, found)
    ensures SameTotals(pool + queue, pool' + queue' + lost + Taken(req.parent, found))
    ensures AllWellFormed(lost) && ParentsIn(lost, active)
    ensures forall i :: 0 <= i < |lost| ==> lost[i].parent != req.parent
    decreases |queue|
  {
    hide IsFreeObj, Splits, Covered, Total, IsTake;
    CoveredParts(regs, active, pool, queue);
    if queue == [] {
      assert pool' + queue' + lost + Taken(req.parent, found) == pool + queue;
    } else {
      var a := queue[0];
      assert pool + queue == pool + [a] + queue[1..];
      if a.parent != req.parent {
        FindFreedSkip(regs, active, pool, queue, req, pool', queue', lost, found);
      } else if RangeLessEq(req.obj, a.obj) {
        FindFreedCut(regs, active, pool, queue, req, pool', queue', lost, found);
      } else {
        var mid, pool1, found1 :|
          && IsFreeObj(RANGE_OPS, pool, a, mid)
          && IsTake(RANGE_OPS, mid, req, pool1, found1)
          && if found1.Got? then pool' == pool1 && queue' == queue[1..] && lost == [] && found == found1
             else IsFindFreed(RANGE_OPS, pool1, queue[1..], req, pool', queue', lost, found);
        FindFreedMerge(regs, active, pool, queue, req, mid, pool1, found1);
        if found1.Got? {
          assert pool' + queue' + lost + Taken(req.parent, found) == pool1 + queue[1..] + Taken(req.parent, found1);
        } else {
          assert pool1 + queue[1..] + Taken(req.parent, found1) == pool1 + queue[1..];
          CoveredSame(regs, active, pool + queue, pool1 + queue[1..]);
          FindFreedRange(regs, active, pool1, queue[1..], req, pool', queue', lost, found);
          SameTotalsTrans(pool + queue, pool1 + queue[1..], pool' + queue' + lost + Taken(req.parent, found));
        }
      }
    }
  }

  /** FindFreed drops a queued range of another resource. */
  lemma {:induction false} FindFreedSkip(
    regs: seq<AllocRange>, active: set<nat>, pool: seq<Entry<AllocRange>>, queue: seq<Entry<AllocRange>>, req: Entry<AllocRange>,
    pool': seq<Entry<AllocRange>>, queue': seq<Entry<AllocRange>>, lost: seq<Entry<AllocRange>>, found: Found<AllocRange>)
    requires Covered(regs, active, pool + queue) && IsRequest(req.obj) && queue != [] && queue[0].parent != req.parent
    requires lost != [] && lost[0] == queue[0]
    requires IsFindFreed(RANGE_OPS, pool, queue[1..], req, pool', queue', lost[1..], found)
    ensures AllWellFormed(pool') && ParentsIn(pool', active) && AllWellFormed(queue') && ParentsIn(queue', active)
    ensures Serves(active, req, found)
    ensures SameTotals(pool + queue, pool' + queue' + lost + Taken(req.parent, found))
    ensures AllWellFormed(lost) && ParentsIn(lost, active)
    ensures forall i :: 0 <= i < |lost| ==> lost[i].parent != req.parent
    decreases |queue|, 0
  {
    hide IsFreeObj, Splits, Covered, Total, IsTake, IsFindFreed;
    var a, rest, out := queue[0], queue[1..], Taken(req.parent, found);
    assert pool + queue == pool + [a] + rest;
    SameTotalsSwap(pool, [a], rest);
    CoveredParts(regs, active, pool, queue);
    assert forall i :: 0 <= i < |rest| ==> rest[i] == queue[i + 1];
    CoveredSame(regs, active, pool + queue, pool + rest + [a]);
    CoveredParts(regs, active, pool + rest, [a]);
    FindFreedRange(regs, active, pool, rest, req, pool', queue', lost[1..], found);
    SameTotalsConcat(pool + rest, pool' + queue' + lost[1..] + out, [a], [a]);
    SameTotalsTrans(pool + queue, pool + rest + [a], pool' + queue' + lost[1..] + out + [a]);
    assert pool' + queue' + lost[1..] + out + [a] == pool' + queue' + (lost[1..] + out) + [a];
    SameTotalsSwap(pool' + queue', lost[1..] + out, [a]);
    assert pool' + queue' + [a] + (lost[1..] + out) == pool' + queue' + lost + out;
    SameTotalsTrans(pool + queue, pool' + queue' + (lost[1..] + out) + [a], pool' + queue' + lost + out);
    forall i | 0 <= i < |lost| ensures lost[i].parent != req.parent {
      if i > 0 { assert lost[i] == lost[1..][i - 1]; }
    }
  }

  /** FindFreed cuts the request from a queued range. */
  lemma FindFreedCut(
    regs: seq<AllocRange>, active: set<nat>, pool: seq<Entry<AllocRange>>, queue: seq<Entry<AllocRange>>, req: Entry<AllocRange>,
    pool': seq<Entry<AllocRange>>, queue': seq<Entry<AllocRange>>, lost: seq<Entry<AllocRange>>, found: Found<AllocRange>)
    requires Covered(regs, active, pool + queue) && IsRequest(req.obj)
    requires queue != [] && queue[0].parent == req.parent && RangeLessEq(req.obj, queue[0].obj)
    requires IsFindFreed(RANGE_OPS, pool, queue, req, pool', queue', lost, found)
    ensures AllWellFormed(pool') && ParentsIn(pool', active) && AllWellFormed(queue') && ParentsIn(queue', active)
    ensures Serves(active, req, found) && lost == []
    ensures SameTotals(pool + queue, pool' + queue' + lost + Taken(req.parent, found))
  {
    hide IsFreeObj, Splits, Covered, Total, IsTake;
    var a, rest := queue[0], queue[1..];
    CoveredParts(regs, active, pool, queue);
    assert forall i :: 0 <= i < |rest| ==> rest[i] == queue[i + 1];
    ReserveSplits(a.obj, req.obj);
    var (d, r) := ReserveRange(a.obj, req.obj).value;
    assert pool + queue == pool + [a] + rest;
    CoveredParts(regs, active, pool + [a], rest);
    CutFrom(regs, active, pool, a, req.obj, d, r, pool');
    SameTotalsConcat(pool + [a], pool' + [Entry(a.parent, d)], rest, rest);
    SameTotalsSwap(pool', [Entry(a.parent, d)], rest);
    SameTotalsTrans(pool + queue, pool' + [Entry(a.parent, d)] + rest, pool' + rest + [Entry(a.parent, d)]);
    assert pool' + queue' + lost + Taken(req.parent, found) == pool' + rest + [Entry(a.parent, d)];
  }

  /** FindFreed merges a queued range into the pool and tries the pool again. */
  lemma FindFreedMerge(
    regs: seq<AllocRange>, active: set<nat>, pool: seq<Entry<AllocRange>>, queue: seq<Entry<AllocRange>>, req: Entry<AllocRange>,
    mid: seq<Entry<AllocRange>>, pool1: seq<Entry<AllocRange>>, found1: Found<AllocRange>)
    requires Covered(regs, active, pool + queue) && IsRequest(req.obj) && queue != []
    requires IsFreeObj(RANGE_OPS, pool, queue[0], mid) && IsTake(RANGE_OPS, mid, req, pool1, found1)
    ensures AllWellFormed(pool1 + queue[1..]) && ParentsIn(pool1 + queue[1..], active)
    ensures AllWellFormed(pool1) && ParentsIn(pool1, active) && AllWellFormed(queue[1..]) && ParentsIn(queue[1..], active)
    ensures Serves(active, req, found1)
    ensures SameTotals(pool + queue, pool1 + queue[1..] + Taken(req.parent, found1))
  {
    hide IsFreeObj, Splits, Covered, Total, IsTake;
    var a, rest, out := queue[0], queue[1..], Taken(req.parent, found1);
    CoveredParts(regs, active, pool, queue);
    assert forall i :: 0 <= i < |rest| ==> rest[i] == queue[i + 1];
    assert pool + queue == pool + [a] + rest;
    CoveredParts(regs, active, pool + [a], rest);
    FreeRangeSame(regs, active, pool, a, mid);
    CoveredSame(regs, active, pool + [a], mid);
    TakeRange(regs, active, mid, req, pool1, found1);
    SameTotalsTrans(pool + [a], mid, pool1 + out);
    SameTotalsConcat(pool + [a], pool1 + out, rest, rest);
    SameTotalsSwap(pool1, out, rest);
    SameTotalsTrans(pool + queue, pool1 + out + rest, pool1 + rest + out);
  }

  lemma SearchRange(
    regs: seq<AllocRange>, active: set<nat>, pool: seq<Entry<AllocRange>>, queue: seq<Entry<AllocRange>>, req: Entry<AllocRange>,
    pool': seq<Entry<AllocRange>>, queue': seq<Entry<AllocRange>>, lost: seq<Entry<AllocRange>>, found: Found<AllocRange>)
    requires Covered(regs, active, pool + queue) && IsRequest(req.obj)
    requires IsSearch(RANGE_OPS, pool, queue, req, pool', queue', lost, found)
    ensures AllWellFormed(pool') && ParentsIn(pool', active) && AllWellFormed(queue') && ParentsIn(queue', active)
    ensures Serves(active, req, found)
    ensures SameTotals(pool + queue, pool' + queue' + lost + Taken(req.parent, found))
    ensures AllWellFormed(lost) && ParentsIn(lost, active)
    ensures forall i :: 0 <= i < |lost| ==> lost[i].parent != req.parent
  {
    hide IsFreeObj, Splits, Covered, Total, IsTake, IsFindFreed;
    if IsTake(RANGE_OPS, pool, req, pool', found) && !found.Missed? && queue' == queue && lost == [] {
      var out := Taken(req.parent, found);
      CoveredParts(regs, active, pool, queue);
      TakeRange(regs, active, pool, req, pool', found);
      SameTotalsConcat(pool, pool' + out, queue, queue);
      SameTotalsSwap(pool', out, queue);
      SameTotalsTrans(pool + queue, pool' + out + queue, pool' + queue + out);
      assert pool' + queue' + lost + out == pool' + queue + out;
    } else {
      FindFreedRange(regs, active, pool, queue, req, pool', queue', lost, found);
    }
  }
}
