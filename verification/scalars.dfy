/**
 Elements that are amounts: Int and VMAccelDesc.  The pool holds one amount per
 resource.  `dims` are the dimensions in which amounts are compared.
 */
module Scalars {
  import opened Options
  import opened Pool
  import opened Totals
  import opened Allocator

  /** An amount whose compared dimensions are machine integers below `bound`. */
  ghost predicate Proper<T>(dims: seq<T -> int>, bound: int, a: T) {
    forall k :: 0 <= k < |dims| ==> 0 <= dims[k](a) < bound
  }

  /** A request for something, in a compared dimension. */
  ghost predicate Positive<T>(dims: seq<T -> int>, a: T) {
    exists k :: 0 <= k < |dims| && dims[k](a) > 0
  }

  ghost predicate AtMost<T>(dims: seq<T -> int>, a: T, b: T) {
    forall k :: 0 <= k < |dims| ==> dims[k](a) <= dims[k](b)
  }

  /** What the two element types have in common. */
  ghost predicate Laws<T(!new)>(ops: Ops<T>, dims: seq<T -> int>, bound: int) {
    && ops.policy.PerParent?
    && (forall a, b :: ops.less(a, b) <==> !AtMost(dims, b, a))
    && (forall a, b :: ops.lessEq(a, b) <==> AtMost(dims, a, b))
    && (forall a, b, k :: 0 <= k < |dims| && Proper(dims, bound, a) && Proper(dims, bound, b) && dims[k](a) + dims[k](b) < bound ==>
                            dims[k](ops.plus(a, b)) == dims[k](a) + dims[k](b))
    && (forall a, req :: Divides(ops, dims, bound, a, req))
  }

  /** Reserve takes exactly the request from an amount that covers it, and leaves the difference. */
  ghost predicate Divides<T>(ops: Ops<T>, dims: seq<T -> int>, bound: int, a: T, req: T) {
    && (!AtMost(dims, req, a) ==> ops.reserve(a, req) == None)
    && (AtMost(dims, req, a) && Proper(dims, bound, a) && Proper(dims, bound, req) && Positive(dims, req) ==>
          && ops.reserve(a, req).Some?
          && var (d, r) := ops.reserve(a, req).value;
             SameAmount(dims, d, req) && forall k :: 0 <= k < |dims| ==> dims[k](r) == dims[k](a) - dims[k](req))
  }

  ghost predicate SameAmount<T>(dims: seq<T -> int>, a: T, b: T) {
    forall k :: 0 <= k < |dims| ==> dims[k](a) == dims[k](b)
  }

  ghost predicate SameSums<T>(dims: seq<T -> int>, es: seq<Entry<T>>, es': seq<Entry<T>>) {
    forall k, p: nat :: 0 <= k < |dims| ==> Total(dims[k], es', p) == Total(dims[k], es, p)
  }

  ghost predicate AllProper<T>(dims: seq<T -> int>, bound: int, es: seq<Entry<T>>) {
    forall i :: 0 <= i < |es| ==> Proper(dims, bound, es[i].obj)
  }

  /** The entries of every resource add up to at most what is registered. */
  ghost predicate Fits<T>(dims: seq<T -> int>, bound: int, regs: seq<T>, active: set<nat>, es: seq<Entry<T>>) {
    && AllProper(dims, bound, es) && ParentsIn(es, active)
    && (forall p :: p in active ==> p < |regs| && Proper(dims, bound, regs[p]))
    && (forall p, k :: p in active && 0 <= k < |dims| ==> Total(dims[k], es, p) <= dims[k](regs[p]))
  }

  ghost predicate OnePerParent<T>(pool: seq<Entry<T>>) {
    forall i, j :: 0 <= i < j < |pool| ==> pool[i].parent != pool[j].parent
  }

  // ---------------------------------------------------------------------
  // Sums
  // ---------------------------------------------------------------------

  lemma SameSumsTrans<T>(dims: seq<T -> int>, a: seq<Entry<T>>, b: seq<Entry<T>>, c: seq<Entry<T>>)
    requires SameSums(dims, a, b) && SameSums(dims, b, c)
    ensures SameSums(dims, a, c)
  {}

  lemma SameSumsConcat<T>(dims: seq<T -> int>, a: seq<Entry<T>>, a': seq<Entry<T>>, b: seq<Entry<T>>, b': seq<Entry<T>>)
    requires SameSums(dims, a, a') && SameSums(dims, b, b')
    ensures SameSums(dims, a + b, a' + b')
  {
    forall k, p: nat | 0 <= k < |dims| ensures Total(dims[k], a' + b', p) == Total(dims[k], a + b, p) {
      TotalConcat(dims[k], a, b, p);
      TotalConcat(dims[k], a', b', p);
    }
  }

  lemma SameSumsSwap<T>(dims: seq<T -> int>, a: seq<Entry<T>>, b: seq<Entry<T>>, c: seq<Entry<T>>)
    ensures SameSums(dims, a + b + c, a + c + b)
  {
    forall k, p: nat | 0 <= k < |dims| ensures Total(dims[k], a + c + b, p) == Total(dims[k], a + b + c, p) {
      TotalConcat(dims[k], a + b, c, p);
      TotalConcat(dims[k], a, b, p);
      TotalConcat(dims[k], a + c, b, p);
      TotalConcat(dims[k], a, c, p);
    }
  }

  lemma ProperTotal<T>(dims: seq<T -> int>, bound: int, es: seq<Entry<T>>, k: nat, p: nat)
    requires AllProper(dims, bound, es) && k < |dims|
    ensures Total(dims[k], es, p) >= 0
    ensures forall i :: 0 <= i < |es| ==> Share(dims[k], es[i], p) <= Total(dims[k], es, p)
  {
    TotalAtLeast(dims[k], es, p);
  }

  lemma FitsParts<T>(dims: seq<T -> int>, bound: int, regs: seq<T>, active: set<nat>, a: seq<Entry<T>>, b: seq<Entry<T>>)
    requires Fits(dims, bound, regs, active, a + b)
    ensures Fits(dims, bound, regs, active, a) && Fits(dims, bound, regs, active, b)
    ensures AllProper(dims, bound, a) && ParentsIn(a, active) && AllProper(dims, bound, b) && ParentsIn(b, active)
  {
    assert forall i :: 0 <= i < |a| ==> (a + b)[i] == a[i];
    assert forall i :: 0 <= i < |b| ==> (a + b)[|a| + i] == b[i];
    forall p, k | p in active && 0 <= k < |dims|
      ensures Total(dims[k], a, p) <= dims[k](regs[p]) && Total(dims[k], b, p) <= dims[k](regs[p])
    {
      TotalConcat(dims[k], a, b, p);
      ProperTotal(dims, bound, a, k, p);
      ProperTotal(dims, bound, b, k, p);
      assert Total(dims[k], a + b, p) <= dims[k](regs[p]);
    }
  }

  lemma FitsSame<T>(dims: seq<T -> int>, bound: int, regs: seq<T>, active: set<nat>, es: seq<Entry<T>>, es': seq<Entry<T>>)
    requires Fits(dims, bound, regs, active, es) && AllProper(dims, bound, es') && ParentsIn(es', active) && SameSums(dims, es, es')
    ensures Fits(dims, bound, regs, active, es')
  {}

  // ---------------------------------------------------------------------
  // Returning and reserving amounts
  // ---------------------------------------------------------------------

  lemma InsertProper<T>(ops: Ops<T>, dims: seq<T -> int>, bound: int, pool: seq<Entry<T>>, v: Entry<T>, pool': seq<Entry<T>>)
    requires AllProper(dims, bound, pool) && Proper(dims, bound, v.obj) && IsInsert(ops, pool, v, pool')
    ensures AllProper(dims, bound, pool')
    ensures OnePerParent(pool) && (forall i :: 0 <= i < |pool| ==> pool[i].parent != v.parent) ==> OnePerParent(pool')
  {
    var i: nat :| IsUpperBound(ops, pool, v, i) && pool' == InsertAt(pool, i, v);
    hide IsInsert, IsUpperBound;
    InsertedAt(pool, v, i);
    hide InsertAt;
    forall j | 0 <= j < |pool'| ensures Proper(dims, bound, pool'[j].obj) {}
  }

  lemma InsertedAt<T>(pool: seq<Entry<T>>, v: Entry<T>, i: nat)
    requires i <= |pool|
    ensures |InsertAt(pool, i, v)| == |pool| + 1
    ensures forall j :: 0 <= j <= |pool| ==> InsertAt(pool, i, v)[j] == if j < i then pool[j] else if j == i then v else pool[j - 1]
  {}

  /** FreeObj adds exactly the freed amount, and keeps one entry per resource. */
  lemma FreeAmount<T(!new)>(ops: Ops<T>, dims: seq<T -> int>, bound: int, regs: seq<T>, active: set<nat>,
                            pool: seq<Entry<T>>, obj: Entry<T>, pool': seq<Entry<T>>)
    requires Laws(ops, dims, bound) && Fits(dims, bound, regs, active, pool + [obj]) && IsFreeObj(ops, pool, obj, pool')
    ensures AllProper(dims, bound, pool') && ParentsIn(pool', active)
    ensures SameSums(dims, pool + [obj], pool')
    ensures OnePerParent(pool) ==> OnePerParent(pool')
  {
    hide IsFreeObj, Laws, Fits;
    FitsParts(dims, bound, regs, active, pool, [obj]);
    assert Proper(dims, bound, [obj][0].obj) && [obj][0].parent in active;
    LawsPolicy(ops, dims, bound);
    FreeObjParents(ops, pool, obj, pool', active);
    var i, v := FreeObjCases(ops, pool, obj, pool');
    if i < |pool| {
      MergedAmount(ops, dims, bound, regs, active, pool, obj, i, v);
      InsertProper(ops, dims, bound, RemoveAt(pool, i), v, pool');
    } else {
      InsertProper(ops, dims, bound, pool, obj, pool');
    }
    forall k, p: nat | 0 <= k < |dims| ensures Total(dims[k], pool', p) == Total(dims[k], pool + [obj], p) {
      TotalConcat(dims[k], pool, [obj], p);
      TotalSingle(dims[k], obj, p);
      if i < |pool| {
        IsReplaceTotal(ops, dims[k], pool, i, v, pool', p);
      } else {
        IsInsertTotal(ops, dims[k], pool, obj, pool', p);
      }
    }
  }

  lemma LawsPolicy<T(!new)>(ops: Ops<T>, dims: seq<T -> int>, bound: int)
    requires Laws(ops, dims, bound)
    ensures ops.policy.PerParent?
  {}

  lemma MergedAmount<T(!new)>(ops: Ops<T>, dims: seq<T -> int>, bound: int, regs: seq<T>, active: set<nat>,
                              pool: seq<Entry<T>>, obj: Entry<T>, i: nat, v: Entry<T>)
    requires Laws(ops, dims, bound) && Fits(dims, bound, regs, active, pool + [obj])
    requires i < |pool| && pool[i].parent == obj.parent && v == Entry(obj.parent, ops.plus(pool[i].obj, obj.obj))
    ensures Proper(dims, bound, v.obj)
    ensures forall k :: 0 <= k < |dims| ==> dims[k](v.obj) == dims[k](pool[i].obj) + dims[k](obj.obj)
  {
    var es, p := pool + [obj], obj.parent;
    assert es[i] == pool[i] && es[|pool|] == obj;
    forall k | 0 <= k < |dims| ensures dims[k](v.obj) == dims[k](pool[i].obj) + dims[k](obj.obj) < bound {
      TotalAtLeastTwo(dims[k], es, i, |pool|, p);
      assert Total(dims[k], es, p) <= dims[k](regs[p]) < bound;
    }
  }

  lemma {:induction false} CoalesceAmounts<T(!new)>(
    ops: Ops<T>, dims: seq<T -> int>, bound: int, regs: seq<T>, active: set<nat>,
    pool: seq<Entry<T>>, queue: seq<Entry<T>>, pool': seq<Entry<T>>)
    requires Laws(ops, dims, bound) && Fits(dims, bound, regs, active, pool + queue) && IsCoalesce(ops, pool, queue, pool')
    ensures AllProper(dims, bound, pool') && ParentsIn(pool', active)
    ensures SameSums(dims, pool + queue, pool')
    ensures OnePerParent(pool) ==> OnePerParent(pool')
    decreases |queue|
  {
    hide IsFreeObj, Laws, Fits, Total;
    FitsParts(dims, bound, regs, active, pool, queue);
    if queue == [] {
      assert pool + queue == pool;
    } else {
      var mid :| IsFreeObj(ops, pool, queue[0], mid) && IsCoalesce(ops, mid, queue[1..], pool');
      assert pool + queue == pool + [queue[0]] + queue[1..];
      FitsParts(dims, bound, regs, active, pool + [queue[0]], queue[1..]);
      FreeAmount(ops, dims, bound, regs, active, pool, queue[0], mid);
      SameSumsConcat(dims, pool + [queue[0]], mid, queue[1..], queue[1..]);
      FitsSame(dims, bound, regs, active, pool + queue, mid + queue[1..]);
      CoalesceAmounts(ops, dims, bound, regs, active, mid, queue[1..], pool');
    }
  }

  function Taken<T>(p: nat, found: Found<T>): seq<Entry<T>> {
    if found.Got? then [Entry(p, found.d)] else []
  }

  /** A remainder that IsEmpty takes for nothing: it goes nowhere. */
  function Dropped<T>(ops: Ops<T>, p: nat, found: Found<T>): seq<Entry<T>> {
    if found.Got? && ops.isEmpty(found.rest) then [Entry(p, found.rest)] else []
  }

  function Remainder<T>(ops: Ops<T>, p: nat, r: T): seq<Entry<T>> {
    if ops.isEmpty(r) then [] else [Entry(p, r)]
  }

  ghost predicate IsRequest<T>(dims: seq<T -> int>, bound: int, req: T) {
    Proper(dims, bound, req) && Positive(dims, req)
  }

  lemma CutAmount<T(!new)>(ops: Ops<T>, dims: seq<T -> int>, bound: int, a: Entry<T>, req: T, d: T, r: T)
    requires Laws(ops, dims, bound) && Proper(dims, bound, a.obj) && IsRequest(dims, bound, req)
    requires AtMost(dims, req, a.obj) && ops.reserve(a.obj, req) == Some((d, r))
    ensures SameAmount(dims, d, req) && Proper(dims, bound, d) && Proper(dims, bound, r)
    ensures SameSums(dims, [a], [Entry(a.parent, r)] + [Entry(a.parent, d)])
  {
    assert Divides(ops, dims, bound, a.obj, req);
    forall k, p: nat | 0 <= k < |dims|
      ensures Total(dims[k], [Entry(a.parent, r)] + [Entry(a.parent, d)], p) == Total(dims[k], [a], p)
    {
      TotalConcat(dims[k], [Entry(a.parent, r)], [Entry(a.parent, d)], p);
      TotalSingle(dims[k], Entry(a.parent, r), p);
      TotalSingle(dims[k], Entry(a.parent, d), p);
      TotalSingle(dims[k], a, p);
    }
  }

  /** Reserving from an amount a that is set apart from `base`, with the remainder put back. */
  lemma CutFrom<T(!new)>(ops: Ops<T>, dims: seq<T -> int>, bound: int, regs: seq<T>, active: set<nat>,
                         base: seq<Entry<T>>, a: Entry<T>, req: T, d: T, r: T, pool': seq<Entry<T>>)
    requires Laws(ops, dims, bound) && Fits(dims, bound, regs, active, base + [a]) && IsRequest(dims, bound, req)
    requires AtMost(dims, req, a.obj) && ops.reserve(a.obj, req) == Some((d, r))
    requires if ops.isEmpty(r) then pool' == base else IsFreeObj(ops, base, Entry(a.parent, r), pool')
    ensures AllProper(dims, bound, pool') && ParentsIn(pool', active) && a.parent in active
    ensures SameAmount(dims, d, req) && Proper(dims, bound, d) && Proper(dims, bound, r)
    ensures SameSums(dims, base + [a], pool' + [Entry(a.parent, d)] + Dropped(ops, a.parent, Got(d, r)))
    ensures OnePerParent(base) ==> OnePerParent(pool')
  {
    hide IsFreeObj, Laws, Fits, Total, Proper, Positive, AtMost;
    FitsParts(dims, bound, regs, active, base, [a]);
    assert Proper(dims, bound, [a][0].obj) && [a][0].parent in active;
    CutAmount(ops, dims, bound, a, req, d, r);
    var rest, e, drop := [Entry(a.parent, r)], [Entry(a.parent, d)], Dropped(ops, a.parent, Got(d, r));
    SameSumsConcat(dims, base, base, [a], rest + e);
    assert base + (rest + e) == base + rest + e;
    FitsSame(dims, bound, regs, active, base + [a], base + rest + e);
    FitsParts(dims, bound, regs, active, base + rest, e);
    if ops.isEmpty(r) {
      SameSumsSwap(dims, base, rest, e);
      SameSumsTrans(dims, base + [a], base + rest + e, base + e + rest);
    } else {
      FreeAmount(ops, dims, bound, regs, active, base, rest[0], pool');
      SameSumsConcat(dims, base + rest, pool', e, e);
      SameSumsTrans(dims, base + [a], base + rest + e, pool' + e);
      assert pool' + e + drop == pool' + e;
    }
  }

  lemma RemovedSums<T>(dims: seq<T -> int>, pool: seq<Entry<T>>, i: nat)
    requires i < |pool|
    ensures SameSums(dims, pool, RemoveAt(pool, i) + [pool[i]])
  {
    forall k, p: nat | 0 <= k < |dims| ensures Total(dims[k], RemoveAt(pool, i) + [pool[i]], p) == Total(dims[k], pool, p) {
      TotalConcat(dims[k], RemoveAt(pool, i), [pool[i]], p);
      TotalSingle(dims[k], pool[i], p);
      TotalRemove(dims[k], pool, i, p);
    }
  }

  lemma LowerBoundCovers<T(!new)>(ops: Ops<T>, dims: seq<T -> int>, bound: int, pool: seq<Entry<T>>, req: Entry<T>, i: nat)
    requires Laws(ops, dims, bound) && IsLowerBound(ops, pool, req, i)
    ensures i < |pool| ==> pool[i].parent == req.parent && AtMost(dims, req.obj, pool[i].obj)
    ensures i > 0 ==> pool[i - 1].parent != req.parent || !AtMost(dims, req.obj, pool[i - 1].obj)
  {}

  lemma ReserveCovers<T(!new)>(ops: Ops<T>, dims: seq<T -> int>, bound: int, a: T, req: T)
    requires Laws(ops, dims, bound) && Proper(dims, bound, a) && IsRequest(dims, bound, req)
    ensures AtMost(dims, req, a) <==> ops.reserve(a, req).Some?
    ensures ops.lessEq(req, a) <==> AtMost(dims, req, a)
  {
    assert Divides(ops, dims, bound, a, req);
  }

  lemma TakeAmount<T(!new)>(ops: Ops<T>, dims: seq<T -> int>, bound: int, regs: seq<T>, active: set<nat>,
                            pool: seq<Entry<T>>, req: Entry<T>, pool': seq<Entry<T>>, found: Found<T>)
    requires Laws(ops, dims, bound) && Fits(dims, bound, regs, active, pool) && IsRequest(dims, bound, req.obj)
    requires IsTake(ops, pool, req, pool', found)
    ensures AllProper(dims, bound, pool') && ParentsIn(pool', active) && !found.Refused?
    ensures found.Got? ==> req.parent in active && SameAmount(dims, found.d, req.obj)
    ensures found.Got? ==> Proper(dims, bound, found.d) && Proper(dims, bound, found.rest)
    ensures SameSums(dims, pool, pool' + Taken(req.parent, found) + Dropped(ops, req.parent, found))
    ensures OnePerParent(pool) ==> OnePerParent(pool')
  {
    hide IsFreeObj, Laws, Fits, Total, IsRequest, IsLowerBound, Proper;
    var i: nat :| IsTakeAt(ops, pool, req, pool', found, i);
    assert pool + [] == pool;
    FitsParts(dims, bound, regs, active, pool, []);
    if i == |pool| {
      assert pool' + Taken(req.parent, found) + Dropped(ops, req.parent, found) == pool;
    } else {
      TakeIndex(ops, pool, req, i);
      LowerBoundCovers(ops, dims, bound, pool, req, i);
      var a, base := pool[i], RemoveAt(pool, i);
      ReserveCovers(ops, dims, bound, a.obj, req.obj);
      var (d, r) := ops.reserve(a.obj, req.obj).value;
      RemovedSums(dims, pool, i);
      FitsSame(dims, bound, regs, active, pool, base + [a]);
      CutFrom(ops, dims, bound, regs, active, base, a, req.obj, d, r, pool');
      SameSumsTrans(dims, pool, base + [a], pool' + [Entry(a.parent, d)] + Dropped(ops, a.parent, Got(d, r)));
    }
  }

  lemma TakeIndex<T>(ops: Ops<T>, pool: seq<Entry<T>>, req: Entry<T>, i: nat)
    requires IsLowerBound(ops, pool, req, i)
    ensures i <= |pool|
  {}
}
