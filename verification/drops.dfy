/**
 FindFreed drops a queued entry of another resource than the requested one.  When
 it comes to that is decided by the pool and the queue as the call finds them.
 */
module Drops {
  import opened Pool

  // ---------------------------------------------------------------------
  // The guards
  // ---------------------------------------------------------------------

  /** A lookup of the request can end behind the pool: nothing is there, or the last entry fails the comparator's test. */
  predicate MayMiss<T>(ops: Ops<T>, pool: seq<Entry<T>>, req: Entry<T>) {
    pool == [] || Cmp(ops, pool[|pool| - 1], req)
  }

  /** Draining the queue comes to entry f of another resource before it comes to an entry that is large enough. */
  predicate Reaches<T>(ops: Ops<T>, queue: seq<Entry<T>>, req: Entry<T>, f: nat) {
    && f < |queue| && queue[f].parent != req.parent
    && forall j :: 0 <= j < f ==> queue[j].parent == req.parent && !ops.lessEq(req.obj, queue[j].obj)
  }

  /** No entry of another resource stands before one that is large enough. */
  predicate Guarded<T>(ops: Ops<T>, queue: seq<Entry<T>>, req: Entry<T>) {
    forall f :: 0 <= f < |queue| ==> !Reaches(ops, queue, req, f)
  }

  /** What a caller can see to: the lookup cannot miss, or the queue is guarded. */
  predicate Safe<T>(ops: Ops<T>, pool: seq<Entry<T>>, queue: seq<Entry<T>>, req: Entry<T>) {
    !MayMiss(ops, pool, req) || Guarded(ops, queue, req)
  }

  /** Some search, with some result of its lookups, drops an entry. */
  ghost predicate MayDrop<T(!new)>(ops: Ops<T>, pool: seq<Entry<T>>, queue: seq<Entry<T>>, req: Entry<T>) {
    exists pool', queue', lost, found :: IsSearch(ops, pool, queue, req, pool', queue', lost, found) && lost != []
  }

  /** Reserve divides what `<=` says is large enough. */
  ghost predicate Divisible<T>(ops: Ops<T>, queue: seq<Entry<T>>, req: Entry<T>) {
    forall i :: 0 <= i < |queue| && queue[i].parent == req.parent && ops.lessEq(req.obj, queue[i].obj) ==>
                  ops.reserve(queue[i].obj, req.obj).Some?
  }

  lemma MissIff<T>(ops: Ops<T>, pool: seq<Entry<T>>, req: Entry<T>)
    ensures IsTake(ops, pool, req, pool, Missed) <==> MayMiss(ops, pool, req)
  {
    if MayMiss(ops, pool, req) { assert IsTakeAt(ops, pool, req, pool, Missed, |pool|); }
  }

  lemma GuardedTail<T>(ops: Ops<T>, queue: seq<Entry<T>>, req: Entry<T>)
    requires queue != [] && queue[0].parent == req.parent && !ops.lessEq(req.obj, queue[0].obj)
    ensures Guarded(ops, queue, req) <==> Guarded(ops, queue[1..], req)
  {
    forall f | 0 <= f < |queue| - 1 ensures Reaches(ops, queue, req, f + 1) <==> Reaches(ops, queue[1..], req, f) {
      assert forall j :: 0 <= j < f ==> queue[1..][j] == queue[j + 1];
      assert forall j :: 0 < j <= f ==> queue[j] == queue[1..][j - 1];
    }
    assert !Reaches(ops, queue, req, 0);
    if Guarded(ops, queue[1..], req) {
      forall f | 0 <= f < |queue| ensures !Reaches(ops, queue, req, f) {
        if f > 0 { assert !Reaches(ops, queue[1..], req, f - 1); }
      }
    } else {
      var f :| 0 <= f < |queue| - 1 && Reaches(ops, queue[1..], req, f);
      assert Reaches(ops, queue, req, f + 1);
    }
  }

  // ---------------------------------------------------------------------
  // Every search
  // ---------------------------------------------------------------------

  /** The queue loses its front. */
  lemma {:induction false} DrainedSuffix<T(!new)>(
    ops: Ops<T>, pool: seq<Entry<T>>, queue: seq<Entry<T>>, req: Entry<T>,
    pool': seq<Entry<T>>, queue': seq<Entry<T>>, lost: seq<Entry<T>>, found: Found<T>)
    requires IsFindFreed(ops, pool, queue, req, pool', queue', lost, found)
    ensures |queue'| <= |queue| && queue' == queue[|queue| - |queue'|..]
    decreases |queue|
  {
    hide IsFreeObj, IsTake;
    if queue != [] {
      var a, rest := queue[0], queue[1..];
      if a.parent != req.parent {
        DrainedSuffix(ops, pool, rest, req, pool', queue', lost[1..], found);
      } else if !ops.lessEq(req.obj, a.obj) {
        var mid, pool1, found1 :|
          && IsFreeObj(ops, pool, a, mid)
          && IsTake(ops, mid, req, pool1, found1)
          && if found1.Got? then pool' == pool1 && queue' == rest && lost == [] && found == found1
             else IsFindFreed(ops, pool1, rest, req, pool', queue', lost, found);
        if !found1.Got? { DrainedSuffix(ops, pool1, rest, req, pool', queue', lost, found); }
      }
    }
  }

  /** What is dropped are the entries of other resources in the part of the queue that was drained. */
  lemma {:induction false} DroppedEntries<T(!new)>(
    ops: Ops<T>, pool: seq<Entry<T>>, queue: seq<Entry<T>>, req: Entry<T>,
    pool': seq<Entry<T>>, queue': seq<Entry<T>>, lost: seq<Entry<T>>, found: Found<T>)
    requires IsFindFreed(ops, pool, queue, req, pool', queue', lost, found) && Divisible(ops, queue, req)
    ensures |queue'| <= |queue|
    ensures forall i :: 0 <= i < |queue| - |queue'| && queue[i].parent != req.parent ==> queue[i] in lost
    ensures forall x :: x in lost ==> x.parent != req.parent && x in queue[..|queue| - |queue'|]
    decreases |queue|
  {
    hide IsFreeObj, IsTake;
    if queue != [] {
      var a, rest := queue[0], queue[1..];
      if a.parent != req.parent {
        DroppedEntries(ops, pool, rest, req, pool', queue', lost[1..], found);
        TailEntries(queue, |queue| - |queue'|);
        assert lost == [a] + lost[1..];
      } else if !ops.lessEq(req.obj, a.obj) {
        var mid, pool1, found1 :|
          && IsFreeObj(ops, pool, a, mid)
          && IsTake(ops, mid, req, pool1, found1)
          && if found1.Got? then pool' == pool1 && queue' == rest && lost == [] && found == found1
             else IsFindFreed(ops, pool1, rest, req, pool', queue', lost, found);
        if !found1.Got? {
          DroppedEntries(ops, pool1, rest, req, pool', queue', lost, found);
          TailEntries(queue, |queue| - |queue'|);
        }
      }
    }
  }

  lemma TailEntries<T>(queue: seq<Entry<T>>, n: nat)
    requires 0 < n <= |queue|
    ensures queue[..n] == [queue[0]] + queue[1..][..n - 1]
    ensures forall i :: 0 < i < n ==> queue[i] == queue[1..][i - 1]
  {}

  /** A search drops something if and only if an entry of another resource was in the part of the queue that it drained. */
  lemma SearchDropsIff<T(!new)>(
    ops: Ops<T>, pool: seq<Entry<T>>, queue: seq<Entry<T>>, req: Entry<T>,
    pool': seq<Entry<T>>, queue': seq<Entry<T>>, lost: seq<Entry<T>>, found: Found<T>)
    requires IsSearch(ops, pool, queue, req, pool', queue', lost, found) && Divisible(ops, queue, req)
    ensures |queue'| <= |queue| && queue' == queue[|queue| - |queue'|..]
    ensures lost == [] <==> forall i :: 0 <= i < |queue| - |queue'| ==> queue[i].parent == req.parent
  {
    hide IsTake, IsFindFreed, Divisible;
    if !(IsTake(ops, pool, req, pool', found) && !found.Missed? && queue' == queue && lost == []) {
      DrainedSuffix(ops, pool, queue, req, pool', queue', lost, found);
      DroppedEntries(ops, pool, queue, req, pool', queue', lost, found);
      if lost != [] {
        assert lost[0] in lost;
        var i :| 0 <= i < |queue| - |queue'| && queue[..|queue| - |queue'|][i] == lost[0];
        assert queue[i].parent != req.parent;
      }
    }
  }

  lemma {:induction false} GuardedKeeps<T(!new)>(
    ops: Ops<T>, pool: seq<Entry<T>>, queue: seq<Entry<T>>, req: Entry<T>,
    pool': seq<Entry<T>>, queue': seq<Entry<T>>, lost: seq<Entry<T>>, found: Found<T>)
    requires IsFindFreed(ops, pool, queue, req, pool', queue', lost, found) && Divisible(ops, queue, req)
    requires Guarded(ops, queue, req)
    ensures lost == []
    decreases |queue|
  {
    hide IsFreeObj, IsTake, Guarded;
    if queue != [] {
      var a, rest := queue[0], queue[1..];
      assert a.parent == req.parent by { GuardedFront(ops, queue, req); }
      if !ops.lessEq(req.obj, a.obj) {
        var mid, pool1, found1 :|
          && IsFreeObj(ops, pool, a, mid)
          && IsTake(ops, mid, req, pool1, found1)
          && if found1.Got? then pool' == pool1 && queue' == rest && lost == [] && found == found1
             else IsFindFreed(ops, pool1, rest, req, pool', queue', lost, found);
        GuardedTail(ops, queue, req);
        if !found1.Got? { GuardedKeeps(ops, pool1, rest, req, pool', queue', lost, found); }
      }
    }
  }

  lemma GuardedFront<T>(ops: Ops<T>, queue: seq<Entry<T>>, req: Entry<T>)
    requires Guarded(ops, queue, req) && queue != []
    ensures queue[0].parent == req.parent
  {
    assert !Reaches(ops, queue, req, 0);
  }

  /** A safe search drops nothing, whatever its lookups return. */
  lemma SafeKeeps<T(!new)>(
    ops: Ops<T>, pool: seq<Entry<T>>, queue: seq<Entry<T>>, req: Entry<T>,
    pool': seq<Entry<T>>, queue': seq<Entry<T>>, lost: seq<Entry<T>>, found: Found<T>)
    requires IsSearch(ops, pool, queue, req, pool', queue', lost, found) && Divisible(ops, queue, req)
    requires Safe(ops, pool, queue, req)
    ensures lost == []
  {
    hide IsTake, IsFindFreed, Guarded;
    if !(IsTake(ops, pool, req, pool', found) && !found.Missed? && queue' == queue && lost == []) {
      MissIff(ops, pool, req);
      GuardedKeeps(ops, pool, queue, req, pool', queue', lost, found);
    }
  }

  /** A queue of the requested resource only is guarded. */
  lemma OwnQueueGuarded<T>(ops: Ops<T>, queue: seq<Entry<T>>, req: Entry<T>)
    requires forall i :: 0 <= i < |queue| ==> queue[i].parent == req.parent
    ensures Guarded(ops, queue, req)
  {}

  // ---------------------------------------------------------------------
  // Searches exist
  // ---------------------------------------------------------------------

  lemma LowerBoundExists<T>(ops: Ops<T>, pool: seq<Entry<T>>, key: Entry<T>) returns (i: nat)
    ensures IsLowerBound(ops, pool, key, i)
  {
    i := 0;
    while i < |pool| && Cmp(ops, pool[i], key)
      invariant i <= |pool|
      invariant i > 0 ==> Cmp(ops, pool[i - 1], key)
    {
      i := i + 1;
    }
  }

  lemma UpperBoundExists<T>(ops: Ops<T>, pool: seq<Entry<T>>, key: Entry<T>) returns (i: nat)
    ensures IsUpperBound(ops, pool, key, i)
  {
    i := 0;
    while i < |pool| && !Cmp(ops, key, pool[i])
      invariant i <= |pool|
      invariant i > 0 ==> !Cmp(ops, key, pool[i - 1])
    {
      i := i + 1;
    }
  }

  lemma InsertExists<T>(ops: Ops<T>, pool: seq<Entry<T>>, v: Entry<T>) returns (pool': seq<Entry<T>>)
    ensures IsInsert(ops, pool, v, pool')
  {
    var i := UpperBoundExists(ops, pool, v);
    pool' := InsertAt(pool, i, v);
  }

  lemma FirstExists<T>(pool: seq<Entry<T>>, p: nat) returns (i: nat)
    ensures IsFirstOf(pool, p, i)
  {
    i := 0;
    while i < |pool| && pool[i].parent != p
      invariant i <= |pool| && forall j :: 0 <= j < i ==> pool[j].parent != p
    {
      i := i + 1;
    }
  }

  lemma FreeObjExists<T>(ops: Ops<T>, pool: seq<Entry<T>>, obj: Entry<T>) returns (pool': seq<Entry<T>>)
    ensures IsFreeObj(ops, pool, obj, pool')
  {
    hide IsInsert;
    if ops.policy.PerParent? {
      var i := FirstExists(pool, obj.parent);
      if i == |pool| {
        pool' := InsertExists(ops, pool, obj);
      } else {
        pool' := InsertExists(ops, RemoveAt(pool, i), Entry(obj.parent, ops.plus(pool[i].obj, obj.obj)));
      }
      assert IsMergeByParent(ops, pool, obj, pool', i);
    } else {
      var key := Entry(obj.parent, ops.policy.key(obj.obj));
      var i := LowerBoundExists(ops, pool, key);
      var j := UpperBoundExists(ops, pool, key);
      if Neighbour(ops, pool, obj, i) {
        pool' := JoinExists(ops, pool, obj, i);
      } else if Neighbour(ops, pool, obj, j) {
        pool' := JoinExists(ops, pool, obj, j);
      } else {
        pool' := InsertExists(ops, pool, obj);
      }
      assert IsMergeAdjacent(ops, pool, obj, pool', i, j);
    }
  }

  lemma JoinExists<T>(ops: Ops<T>, pool: seq<Entry<T>>, obj: Entry<T>, i: nat) returns (pool': seq<Entry<T>>)
    requires ops.policy.Adjacent? && Neighbour(ops, pool, obj, i)
    ensures IsJoin(ops, pool, obj, i, pool')
  {
    hide IsInsert;
    var v := if ops.policy.precedes(obj.obj, pool[i].obj) then ops.policy.prepend(pool[i].obj, obj.obj)
             else ops.policy.append(pool[i].obj, obj.obj);
    pool' := InsertExists(ops, RemoveAt(pool, i), Entry(obj.parent, v));
  }

  lemma TakeExists<T>(ops: Ops<T>, pool: seq<Entry<T>>, req: Entry<T>) returns (pool': seq<Entry<T>>, found: Found<T>)
    ensures IsTake(ops, pool, req, pool', found)
  {
    hide IsFreeObj;
    var i := LowerBoundExists(ops, pool, req);
    pool', found := pool, Missed;
    if i < |pool| {
      match ops.reserve(pool[i].obj, req.obj)
      case None => found := Refused;
      case Some((d, r)) =>
        found := Got(d, r);
        if ops.isEmpty(r) {
          pool' := RemoveAt(pool, i);
        } else {
          pool' := FreeObjExists(ops, RemoveAt(pool, i), Entry(req.parent, r));
        }
    }
    assert IsTakeAt(ops, pool, req, pool', found, i);
  }

  lemma {:induction false} FindFreedExists<T(!new)>(ops: Ops<T>, pool: seq<Entry<T>>, queue: seq<Entry<T>>, req: Entry<T>)
    returns (pool': seq<Entry<T>>, queue': seq<Entry<T>>, lost: seq<Entry<T>>, found: Found<T>)
    ensures IsFindFreed(ops, pool, queue, req, pool', queue', lost, found)
    decreases |queue|
  {
    hide IsFreeObj, IsTake;
    if queue == [] {
      pool', queue', lost, found := pool, [], [], Missed;
    } else {
      var a := queue[0];
      if a.parent != req.parent {
        pool', queue', lost, found := FindFreedExists(ops, pool, queue[1..], req);
        assert ([a] + lost)[1..] == lost;
        lost := [a] + lost;
      } else if ops.lessEq(req.obj, a.obj) {
        queue', lost := queue[1..], [];
        match ops.reserve(a.obj, req.obj)
        case None => pool', lost, found := pool, [a], Refused;
        case Some((d, r)) =>
          pool', found := pool, Got(d, r);
          if !ops.isEmpty(r) { pool' := FreeObjExists(ops, pool, Entry(req.parent, r)); }
      } else {
        var mid := FreeObjExists(ops, pool, a);
        var pool1, found1 := TakeExists(ops, mid, req);
        if found1.Got? {
          pool', queue', lost, found := pool1, queue[1..], [], found1;
        } else {
          pool', queue', lost, found := FindFreedExists(ops, pool1, queue[1..], req);
        }
      }
    }
  }

  // ---------------------------------------------------------------------
  // Drops exist
  // ---------------------------------------------------------------------

  /** A queue with another resource in front: the search may drop it if and only if the lookup may miss. */
  lemma FrontDropIff<T(!new)>(ops: Ops<T>, pool: seq<Entry<T>>, queue: seq<Entry<T>>, req: Entry<T>)
    requires queue != [] && queue[0].parent != req.parent
    ensures MayDrop(ops, pool, queue, req) <==> MayMiss(ops, pool, req)
  {
    hide IsTake;
    MissIff(ops, pool, req);
    if MayMiss(ops, pool, req) {
      var pool', queue', lost, found := FindFreedExists(ops, pool, queue, req);
      assert IsSearch(ops, pool, queue, req, pool', queue', lost, found);
    }
  }

  /** A merge with a queued entry leaves an entry of another resource at the end of the pool where it is. */
  lemma LastStays<T>(ops: Ops<T>, pool: seq<Entry<T>>, obj: Entry<T>, pool': seq<Entry<T>>)
    requires IsFreeObj(ops, pool, obj, pool') && pool != [] && pool[|pool| - 1].parent != obj.parent
    requires ops.policy.Adjacent? ==> !Neighbour(ops, pool, obj, |pool| - 1)
    ensures pool' != [] && pool'[|pool'| - 1] == pool[|pool| - 1]
  {
    hide IsFreeObj, IsInsert;
    var i, v := FreeObjCases(ops, pool, obj, pool');
    if i == |pool| {
      InsertBeforeLast(ops, pool, obj, pool');
    } else {
      InsertBeforeLast(ops, RemoveAt(pool, i), v, pool');
    }
  }

  lemma InsertBeforeLast<T>(ops: Ops<T>, pool: seq<Entry<T>>, v: Entry<T>, pool': seq<Entry<T>>)
    requires IsInsert(ops, pool, v, pool') && pool != [] && pool[|pool| - 1].parent != v.parent
    ensures pool' != [] && pool'[|pool'| - 1] == pool[|pool| - 1]
  {
    var i: nat :| IsUpperBound(ops, pool, v, i) && pool' == InsertAt(pool, i, v);
    assert i < |pool|;
  }
}
