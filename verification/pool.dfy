/**
 The free pool of common/inc/vmaccel_allocator.hpp: a `std::multiset` of objects
 tagged with the resource they came from, searched with a comparator that is not
 a strict weak order across resources.

 The pool is the in-order sequence of the tree.  Whatever the shape of the tree,
 a search ends between two neighbours, the last one it turned right at and the
 last one it turned left at; `IsLowerBound` and `IsUpperBound` say exactly that,
 so everything proved from them holds for every tree.
 */
module Pool {
  import opened Options

  datatype Entry<+T> = Entry(parent: nat, obj: T)

  /** How `FreeObj` returns an object: merged with the entry of its parent, or with a neighbouring range. */
  datatype Policy<!T> =
    | PerParent
    | Adjacent(key: T -> T, precedes: (T, T) -> bool, prepend: (T, T) -> T,
               follows: (T, T) -> bool, append: (T, T) -> T)

  /** The overloads that an element type brings to the allocator template. */
  datatype Ops<!T> = Ops(
    zero: T,
    less: (T, T) -> bool,
    lessEq: (T, T) -> bool,
    plus: (T, T) -> T,
    addTo: (T, T) -> T,
    subFrom: (T, T) -> T,
    isEmpty: T -> bool,
    reserve: (T, T) -> Option<(T, T)>,
    policy: Policy<T>)

  /** The comparator: entries of different parents are less than each other, both ways. */
  predicate Cmp<T>(ops: Ops<T>, a: Entry<T>, b: Entry<T>) {
    a.parent != b.parent || ops.less(a.obj, b.obj)
  }

  predicate IsLowerBound<T>(ops: Ops<T>, pool: seq<Entry<T>>, key: Entry<T>, i: nat) {
    && i <= |pool|
    && (i < |pool| ==> !Cmp(ops, pool[i], key))
    && (i > 0 ==> Cmp(ops, pool[i - 1], key))
  }

  predicate IsUpperBound<T>(ops: Ops<T>, pool: seq<Entry<T>>, key: Entry<T>, i: nat) {
    && i <= |pool|
    && (i < |pool| ==> Cmp(ops, key, pool[i]))
    && (i > 0 ==> !Cmp(ops, key, pool[i - 1]))
  }

  function RemoveAt<A>(s: seq<A>, i: nat): seq<A>
    requires i < |s|
  {
    s[..i] + s[i + 1..]
  }

  function InsertAt<A>(s: seq<A>, i: nat, v: A): seq<A>
    requires i <= |s|
  {
    s[..i] + [v] + s[i..]
  }

  /** `multiset::insert`: the new element goes where its upper-bound search ends. */
  ghost predicate IsInsert<T>(ops: Ops<T>, pool: seq<Entry<T>>, v: Entry<T>, pool': seq<Entry<T>>) {
    exists i: nat :: IsUpperBound(ops, pool, v, i) && pool' == InsertAt(pool, i, v)
  }

  /** The entry at i is replaced by v. */
  ghost predicate IsReplace<T>(ops: Ops<T>, pool: seq<Entry<T>>, i: nat, v: Entry<T>, pool': seq<Entry<T>>) {
    i < |pool| && IsInsert(ops, RemoveAt(pool, i), v, pool')
  }

  // ---------------------------------------------------------------------
  // FreeObj
  // ---------------------------------------------------------------------

  predicate IsFirstOf<T>(pool: seq<Entry<T>>, p: nat, i: nat) {
    && i <= |pool|
    && (forall j :: 0 <= j < i ==> pool[j].parent != p)
    && (i < |pool| ==> pool[i].parent == p)
  }

  /** FreeObj for Int and VMAccelDesc: one entry per parent, added to. */
  ghost predicate IsMergeByParent<T>(ops: Ops<T>, pool: seq<Entry<T>>, obj: Entry<T>, pool': seq<Entry<T>>, i: nat) {
    && IsFirstOf(pool, obj.parent, i)
    && if i == |pool| then IsInsert(ops, pool, obj, pool')
       else IsReplace(ops, pool, i, Entry(obj.parent, ops.plus(pool[i].obj, obj.obj)), pool')
  }

  /** What happens at one of the two lookups of FreeObj for AllocRange, when the entry found is a neighbour. */
  ghost predicate IsJoin<T>(ops: Ops<T>, pool: seq<Entry<T>>, obj: Entry<T>, i: nat, pool': seq<Entry<T>>)
    requires ops.policy.Adjacent?
  {
    && i < |pool|
    && if ops.policy.precedes(obj.obj, pool[i].obj) then
         IsReplace(ops, pool, i, Entry(obj.parent, ops.policy.prepend(pool[i].obj, obj.obj)), pool')
       else
         && ops.policy.follows(obj.obj, pool[i].obj)
         && IsReplace(ops, pool, i, Entry(obj.parent, ops.policy.append(pool[i].obj, obj.obj)), pool')
  }

  predicate Neighbour<T>(ops: Ops<T>, pool: seq<Entry<T>>, obj: Entry<T>, i: nat)
    requires ops.policy.Adjacent?
  {
    i < |pool| && (ops.policy.precedes(obj.obj, pool[i].obj) || ops.policy.follows(obj.obj, pool[i].obj))
  }

  /** FreeObj for AllocRange, with the results i and j of its two lookups. */
  ghost predicate IsMergeAdjacent<T>(ops: Ops<T>, pool: seq<Entry<T>>, obj: Entry<T>, pool': seq<Entry<T>>, i: nat, j: nat)
    requires ops.policy.Adjacent?
  {
    var key := Entry(obj.parent, ops.policy.key(obj.obj));
    && IsLowerBound(ops, pool, key, i)
    && IsUpperBound(ops, pool, key, j)
    && if Neighbour(ops, pool, obj, i) then IsJoin(ops, pool, obj, i, pool')
       else if Neighbour(ops, pool, obj, j) then IsJoin(ops, pool, obj, j, pool')
       else IsInsert(ops, pool, obj, pool')
  }

  ghost predicate IsFreeObj<T>(ops: Ops<T>, pool: seq<Entry<T>>, obj: Entry<T>, pool': seq<Entry<T>>) {
    if ops.policy.PerParent? then exists i: nat :: IsMergeByParent(ops, pool, obj, pool', i)
    else exists i: nat, j: nat :: IsMergeAdjacent(ops, pool, obj, pool', i, j)
  }

  /** An object goes back as an entry of its own, or replaces an entry i that it is merged with. */
  lemma FreeObjCases<T>(ops: Ops<T>, pool: seq<Entry<T>>, obj: Entry<T>, pool': seq<Entry<T>>) returns (i: nat, v: Entry<T>)
    requires IsFreeObj(ops, pool, obj, pool')
    ensures i <= |pool| && v.parent == obj.parent
    ensures i == |pool| ==> IsInsert(ops, pool, obj, pool')
    ensures i < |pool| ==> IsReplace(ops, pool, i, v, pool')
    ensures ops.policy.PerParent? ==>
              IsFirstOf(pool, obj.parent, i) && (i < |pool| ==> v.obj == ops.plus(pool[i].obj, obj.obj))
    ensures ops.policy.Adjacent? && i < |pool| ==>
              var key := Entry(obj.parent, ops.policy.key(obj.obj));
              && (!Cmp(ops, pool[i], key) || Cmp(ops, key, pool[i]))
              && Neighbour(ops, pool, obj, i)
              && v.obj == if ops.policy.precedes(obj.obj, pool[i].obj) then ops.policy.prepend(pool[i].obj, obj.obj)
                          else ops.policy.append(pool[i].obj, obj.obj)
  {
    v := obj;
    if ops.policy.PerParent? {
      i :| IsMergeByParent(ops, pool, obj, pool', i);
      if i < |pool| { v := Entry(obj.parent, ops.plus(pool[i].obj, obj.obj)); }
    } else {
      var l: nat, u: nat :| IsMergeAdjacent(ops, pool, obj, pool', l, u);
      i := if Neighbour(ops, pool, obj, l) then l else if Neighbour(ops, pool, obj, u) then u else |pool|;
      if i < |pool| {
        v := Entry(obj.parent, if ops.policy.precedes(obj.obj, pool[i].obj) then ops.policy.prepend(pool[i].obj, obj.obj)
                               else ops.policy.append(pool[i].obj, obj.obj));
      }
    }
  }

  // ---------------------------------------------------------------------
  // Reserving from the pool and from the queue of freed objects
  // ---------------------------------------------------------------------

  /** A search for a request: no candidate, a candidate that would not divide, or a reservation and its remainder. */
  datatype Found<+T> = Missed | Refused | Got(d: T, rest: T)

  ghost predicate IsTakeAt<T>(ops: Ops<T>, pool: seq<Entry<T>>, req: Entry<T>, pool': seq<Entry<T>>, found: Found<T>, i: nat) {
    && IsLowerBound(ops, pool, req, i)
    && if i == |pool| then found == Missed && pool' == pool
       else match ops.reserve(pool[i].obj, req.obj)
            case None => found == Refused && pool' == pool
            case Some((d, r)) =>
              && found == Got(d, r)
              && if ops.isEmpty(r) then pool' == RemoveAt(pool, i)
                 else IsFreeObj(ops, RemoveAt(pool, i), Entry(req.parent, r), pool')
  }

  /** `free.lower_bound(req)`, then Reserve, erase and FreeObj of the remainder. */
  ghost predicate IsTake<T>(ops: Ops<T>, pool: seq<Entry<T>>, req: Entry<T>, pool': seq<Entry<T>>, found: Found<T>) {
    exists i: nat :: IsTakeAt(ops, pool, req, pool', found, i)
  }

  /** CoalesceFreed: every queued object goes back to the pool, oldest first. */
  ghost predicate IsCoalesce<T(!new)>(ops: Ops<T>, pool: seq<Entry<T>>, queue: seq<Entry<T>>, pool': seq<Entry<T>>)
    decreases |queue|
  {
    if queue == [] then pool' == pool
    else exists mid :: IsFreeObj(ops, pool, queue[0], mid) && IsCoalesce(ops, mid, queue[1..], pool')
  }

  /**
   FindFreed: drains the queue until the request is met.  Objects of other
   parents are dropped; `lost` lists what leaves the queue and goes nowhere.
   */
  ghost predicate IsFindFreed<T(!new)>(ops: Ops<T>, pool: seq<Entry<T>>, queue: seq<Entry<T>>, req: Entry<T>,
                                 pool': seq<Entry<T>>, queue': seq<Entry<T>>, lost: seq<Entry<T>>, found: Found<T>)
    decreases |queue|
  {
    if queue == [] then
      pool' == pool && queue' == [] && lost == [] && found == Missed
    else
      var a := queue[0];
      if a.parent != req.parent then
        && lost != [] && lost[0] == a
        && IsFindFreed(ops, pool, queue[1..], req, pool', queue', lost[1..], found)
      else if ops.lessEq(req.obj, a.obj) then
        && queue' == queue[1..]
        && match ops.reserve(a.obj, req.obj)
           case None => found == Refused && pool' == pool && lost == [a]
           case Some((d, r)) =>
             && found == Got(d, r) && lost == []
             && if ops.isEmpty(r) then pool' == pool
                else IsFreeObj(ops, pool, Entry(req.parent, r), pool')
      else
        exists mid, pool1, found1 ::
          && IsFreeObj(ops, pool, a, mid)
          && IsTake(ops, mid, req, pool1, found1)
          && if found1.Got? then pool' == pool1 && queue' == queue[1..] && lost == [] && found == found1
             else IsFindFreed(ops, pool1, queue[1..], req, pool', queue', lost, found)
  }

  /** The search of Alloc: the pool, and the queue only when the pool has no candidate. */
  ghost predicate IsSearch<T(!new)>(ops: Ops<T>, pool: seq<Entry<T>>, queue: seq<Entry<T>>, req: Entry<T>,
                              pool': seq<Entry<T>>, queue': seq<Entry<T>>, lost: seq<Entry<T>>, found: Found<T>)
  {
    || (IsTake(ops, pool, req, pool', found) && !found.Missed? && queue' == queue && lost == [])
    || (IsTake(ops, pool, req, pool, Missed) && IsFindFreed(ops, pool, queue, req, pool', queue', lost, found))
  }

  // ---------------------------------------------------------------------
  // The code
  // ---------------------------------------------------------------------

  method LowerBound<T>(ops: Ops<T>, pool: seq<Entry<T>>, key: Entry<T>) returns (i: nat)
    ensures IsLowerBound(ops, pool, key, i)
  {
    i := 0;
    var hi := |pool|;
    while i < hi
      invariant i <= hi <= |pool|
      invariant hi < |pool| ==> !Cmp(ops, pool[hi], key)
      invariant i > 0 ==> Cmp(ops, pool[i - 1], key)
    {
      var mid := (i + hi) / 2;
      if Cmp(ops, pool[mid], key) { i := mid + 1; } else { hi := mid; }
    }
  }

  method UpperBound<T>(ops: Ops<T>, pool: seq<Entry<T>>, key: Entry<T>) returns (i: nat)
    ensures IsUpperBound(ops, pool, key, i)
  {
    i := 0;
    var hi := |pool|;
    while i < hi
      invariant i <= hi <= |pool|
      invariant hi < |pool| ==> Cmp(ops, key, pool[hi])
      invariant i > 0 ==> !Cmp(ops, key, pool[i - 1])
    {
      var mid := (i + hi) / 2;
      if Cmp(ops, key, pool[mid]) { hi := mid; } else { i := mid + 1; }
    }
  }

  method Insert<T>(ops: Ops<T>, pool: seq<Entry<T>>, v: Entry<T>) returns (pool': seq<Entry<T>>)
    ensures IsInsert(ops, pool, v, pool')
  {
    var i := UpperBound(ops, pool, v);
    pool' := InsertAt(pool, i, v);
  }

  method FreeObj<T>(ops: Ops<T>, pool: seq<Entry<T>>, obj: Entry<T>) returns (pool': seq<Entry<T>>)
    ensures IsFreeObj(ops, pool, obj, pool')
  {
    if ops.policy.PerParent? {
      var i := 0;
      while i < |pool| && pool[i].parent != obj.parent
        invariant i <= |pool|
        invariant forall j :: 0 <= j < i ==> pool[j].parent != obj.parent
      {
        i := i + 1;
      }
      if i == |pool| {
        pool' := Insert(ops, pool, obj);
      } else {
        pool' := Insert(ops, RemoveAt(pool, i), Entry(obj.parent, ops.plus(pool[i].obj, obj.obj)));
      }
      assert IsMergeByParent(ops, pool, obj, pool', i);
    } else {
      var key := Entry(obj.parent, ops.policy.key(obj.obj));
      var i := LowerBound(ops, pool, key);
      var j := UpperBound(ops, pool, key);
      if Neighbour(ops, pool, obj, i) {
        pool' := Join(ops, pool, obj, i);
      } else if Neighbour(ops, pool, obj, j) {
        pool' := Join(ops, pool, obj, j);
      } else {
        pool' := Insert(ops, pool, obj);
      }
      assert IsMergeAdjacent(ops, pool, obj, pool', i, j);
    }
  }

  method Join<T>(ops: Ops<T>, pool: seq<Entry<T>>, obj: Entry<T>, i: nat) returns (pool': seq<Entry<T>>)
    requires ops.policy.Adjacent? && Neighbour(ops, pool, obj, i)
    ensures IsJoin(ops, pool, obj, i, pool')
  {
    if ops.policy.precedes(obj.obj, pool[i].obj) {
      pool' := Insert(ops, RemoveAt(pool, i), Entry(obj.parent, ops.policy.prepend(pool[i].obj, obj.obj)));
    } else {
      pool' := Insert(ops, RemoveAt(pool, i), Entry(obj.parent, ops.policy.append(pool[i].obj, obj.obj)));
    }
  }

  method Take<T>(ops: Ops<T>, pool: seq<Entry<T>>, req: Entry<T>) returns (pool': seq<Entry<T>>, found: Found<T>)
    ensures IsTake(ops, pool, req, pool', found)
  {
    var i := LowerBound(ops, pool, req);
    if i == |pool| {
      pool', found := pool, Missed;
    } else {
      match ops.reserve(pool[i].obj, req.obj)
      case None => pool', found := pool, Refused;
      case Some((d, r)) =>
        found := Got(d, r);
        pool' := RemoveAt(pool, i);
        if !ops.isEmpty(r) {
          pool' := FreeObj(ops, pool', Entry(req.parent, r));
        }
    }
    assert IsTakeAt(ops, pool, req, pool', found, i);
  }

  method Coalesce<T(!new)>(ops: Ops<T>, pool: seq<Entry<T>>, queue: seq<Entry<T>>) returns (pool': seq<Entry<T>>)
    ensures IsCoalesce(ops, pool, queue, pool')
  {
    pool' := pool;
    var freed := queue;
    while freed != []
      invariant forall last :: IsCoalesce(ops, pool', freed, last) ==> IsCoalesce(ops, pool, queue, last)
      decreases |freed|
    {
      var before := pool';
      pool' := FreeObj(ops, pool', freed[0]);
      freed := freed[1..];
    }
  }

  method FindFreed<T(!new)>(ops: Ops<T>, pool: seq<Entry<T>>, queue: seq<Entry<T>>, req: Entry<T>)
    returns (pool': seq<Entry<T>>, queue': seq<Entry<T>>, found: Found<T>, ghost lost: seq<Entry<T>>)
    ensures IsFindFreed(ops, pool, queue, req, pool', queue', lost, found)
  {
    pool', queue', found, lost := pool, queue, Missed, [];
    assert forall l: seq<Entry<T>> :: lost + l == l;
    while !found.Got? && queue' != []
      invariant !found.Got?
      invariant forall p, q, l, f :: IsFindFreed(ops, pool', queue', req, p, q, l, f) ==>
                                       IsFindFreed(ops, pool, queue, req, p, q, lost + l, f)
      decreases |queue'|
    {
      var a := queue'[0];
      var pool0, queue0 := pool', queue';
      ghost var lost0 := lost;
      queue' := queue'[1..];
      if a.parent != req.parent {
        lost := lost + [a];
        forall p, q, l, f | IsFindFreed(ops, pool', queue', req, p, q, l, f)
          ensures IsFindFreed(ops, pool, queue, req, p, q, lost + l, f)
        {
          assert ([a] + l)[1..] == l;
          assert IsFindFreed(ops, pool0, queue0, req, p, q, [a] + l, f);
          assert lost + l == lost0 + ([a] + l);
        }
      } else if ops.lessEq(req.obj, a.obj) {
        match ops.reserve(a.obj, req.obj) {
          case None =>
            found := Refused;
            assert IsFindFreed(ops, pool0, queue0, req, pool', queue', [a], found);
            lost := lost + [a];
          case Some((d, r)) =>
            found := Got(d, r);
            if !ops.isEmpty(r) {
              pool' := FreeObj(ops, pool', Entry(req.parent, r));
            }
            assert IsFindFreed(ops, pool0, queue0, req, pool', queue', [], found);
            assert lost + [] == lost;
        }
        return;
      } else {
        var mid := FreeObj(ops, pool', a);
        var found1;
        pool', found1 := Take(ops, mid, req);
        if found1.Got? {
          found := found1;
          assert IsFindFreed(ops, pool0, queue0, req, pool', queue', [], found);
          assert lost + [] == lost;
          return;
        }
        forall p, q, l, f | IsFindFreed(ops, pool', queue', req, p, q, l, f)
          ensures IsFindFreed(ops, pool, queue, req, p, q, lost + l, f)
        {
          assert IsFindFreed(ops, pool0, queue0, req, p, q, l, f);
        }
      }
    }
    assert IsFindFreed(ops, pool', queue', req, pool', [], [], Missed);
    assert lost + [] == lost;
  }
}
