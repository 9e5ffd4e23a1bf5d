/**
 What the identifier database promises over every run of its calls.
 */
module IdentifierRuns {
  import opened Words
  import opened IdentifierDb

  function Fresh(size: nat): Db {
    Db(size, {}, size)
  }

  ghost predicate IsDbRun(dbs: seq<Db>, ops: seq<Op>, replies: seq<Reply>) {
    && |dbs| == |ops| + 1 == |replies| + 1
    && forall i :: 0 <= i < |ops| ==> IsDbStep(dbs[i], ops[i], replies[i], dbs[i + 1])
  }

  /** The bitmap is a set below `size`, and the counter is its complement's size. */
  ghost predicate Counted(db: Db) {
    && db.size <= UINT - 32
    && db.active <= Span(0, db.size)
    && db.free == db.size - |db.active|
  }

  lemma {:induction false} SpanSize(n: nat)
    ensures |Span(0, n)| == n
  {
    if n == 0 {
      assert Span(0, 0) == {};
    } else {
      SpanSize(n - 1);
      assert Span(0, n) == Span(0, n - 1) + {n - 1};
    }
  }

  lemma SubsetSize(a: set<nat>, b: set<nat>)
    requires a <= b
    ensures |a| <= |b|
    ensures |a| == |b| ==> a == b
  {
    assert b == a + (b - a);
  }

  /** The word array covers every identifier below `size` exactly when `size + 31` does not wrap. */
  lemma WordsCoverSize(size: nat)
    requires size < UINT
    ensures size <= 32 * NumWords(size) <==> size <= UINT - 32
  {}

  /** A new database of positive size serves its first request if and only if `size + 31` does not wrap. */
  lemma FirstAllocCorruptedIff(size: nat, db': Db, r: AllocOutcome)
    requires 0 < size < UINT
    requires IsAlloc(Fresh(size), db', r)
    ensures r.Corrupted? <==> size > UINT - 32
    ensures !r.Corrupted? ==> r == Allocated(0)
  {
    WordsCoverSize(size);
    assert 0 !in Fresh(size).active;
  }

  lemma FullIff(db: Db)
    requires Counted(db)
    ensures db.free == 0 <==> db.active == Span(0, db.size)
    ensures db.free == 0 <==> forall k: nat :: k < db.size ==> k in db.active
  {
    SpanSize(db.size);
    SubsetSize(db.active, Span(0, db.size));
    if forall k: nat :: k < db.size ==> k in db.active {
      assert db.active == Span(0, db.size);
    }
  }

  lemma CountedAlloc(db: Db, db': Db, r: AllocOutcome)
    requires Counted(db) && IsAlloc(db, db', r)
    ensures Counted(db') && !r.Corrupted?
    ensures r.Allocated? ==> r.id < db.size && r.id !in db.active && forall k: nat :: k < r.id ==> k in db.active
    ensures r.Exhausted? <==> db.active == Span(0, db.size)
  {
    WordsCoverSize(db.size);
    FullIff(db);
    assert r.Exhausted? <==> db.active == Span(0, db.size);
    if r.Allocated? {
      assert exists k: nat :: k < db.size && k !in db.active;
    }
  }

  lemma CountedStep(db: Db, op: Op, reply: Reply, db': Db)
    requires Counted(db) && IsDbStep(db, op, reply, db') && !op.AcquireOp?
    ensures Counted(db') && db'.size == db.size
  {
    match op
    case AllocOp => CountedAlloc(db, db', reply.outcome);
    case ReleaseOp(id) =>
      SpanSize(db.size);
      SubsetSize(db.active, Span(0, db.size));
  }

  /**
   Every run of AllocId and ReleaseId is a run of a set: the counter is exact, an
   allocation returns the least identifier not in the set and fails exactly when
   the set is full, and the corrupted-database assertion is never reached.
   */
  lemma {:induction false} AllocReleaseRun(size: nat, dbs: seq<Db>, ops: seq<Op>, replies: seq<Reply>, n: nat)
    requires size <= UINT - 32
    requires IsDbRun(dbs, ops, replies) && dbs[0] == Fresh(size)
    requires forall i :: 0 <= i < |ops| ==> !ops[i].AcquireOp?
    requires n < |dbs|
    ensures Counted(dbs[n]) && dbs[n].size == size
    ensures n < |ops| && ops[n].AllocOp? ==>
              IsDbStep(dbs[n], ops[n], replies[n], dbs[n + 1]) &&
              match replies[n].outcome
              case Corrupted => false
              case Exhausted => dbs[n].active == Span(0, size)
              case Allocated(id) => id < size && id !in dbs[n].active && forall k: nat :: k < id ==> k in dbs[n].active
  {
    if n > 0 {
      AllocReleaseRun(size, dbs, ops, replies, n - 1);
      CountedStep(dbs[n - 1], ops[n - 1], replies[n - 1], dbs[n]);
    }
    if n < |ops| && ops[n].AllocOp? {
      CountedAlloc(dbs[n], dbs[n + 1], replies[n].outcome);
    }
  }

  /** How many of the first n calls entered an identifier through AcquireId. */
  ghost function Acquired(replies: seq<Reply>, n: nat): nat
    requires n <= |replies|
  {
    if n == 0 then 0
    else Acquired(replies, n - 1) + Gain(replies[n - 1])
  }

  function Gain(reply: Reply): nat {
    if reply.AcquireReply? && reply.ok then 1 else 0
  }

  lemma DriftStep(db: Db, op: Op, reply: Reply, db': Db) returns (wrapped: bool)
    requires IsDbStep(db, op, reply, db') && db.free < UINT
    ensures db'.free < UINT && db'.size == db.size
    ensures db'.free + |db'.active| + (if wrapped then UINT else 0) == db.free + |db.active| + Gain(reply)
  {
    wrapped := op.ReleaseOp? && op.id < db.size && db.free == UINT - 1;
    if op.ReleaseOp? && op.id < db.size {
      assert db'.free == if wrapped then 0 else db.free + 1;
      assert |db.active - {op.id}| == |db.active| - 1;
    }
  }

  /**
   AcquireId does not count: over every run of the three calls the counter is off
   by exactly the number of identifiers that AcquireId entered, less the times it
   wrapped.
   */
  lemma {:induction false} DriftRun(size: nat, dbs: seq<Db>, ops: seq<Op>, replies: seq<Reply>, n: nat)
    returns (wraps: nat)
    requires IsDbRun(dbs, ops, replies) && dbs[0] == Fresh(size) && size < UINT
    requires n < |dbs|
    ensures dbs[n].free < UINT && dbs[n].size == size
    ensures dbs[n].free + |dbs[n].active| + UINT * wraps == size + Acquired(replies, n)
  {
    wraps := 0;
    if n > 0 {
      wraps := DriftRun(size, dbs, ops, replies, n - 1);
      var wrapped := DriftStep(dbs[n - 1], ops[n - 1], replies[n - 1], dbs[n]);
      wraps := if wrapped then wraps + 1 else wraps;
    }
  }

  lemma AddMultiple(a: int, k: int)
    ensures (a + UINT * k) % UINT == a % UINT
  {}

  /** What `IdentifierDB_Count` returns is the number of active identifiers if and only if AcquireId was not used, modulo 2^32. */
  lemma CountExactIff(size: nat, dbs: seq<Db>, ops: seq<Op>, replies: seq<Reply>, n: nat, count: nat)
    requires IsDbRun(dbs, ops, replies) && dbs[0] == Fresh(size) && size < UINT
    requires n < |dbs| && |dbs[n].active| < UINT && Counts(dbs[n], count)
    ensures count == |dbs[n].active| <==> Acquired(replies, n) % UINT == 0
  {
    hide IsDbStep, Acquired, Counts;
    var wraps := DriftRun(size, dbs, ops, replies, n);
    CountIs(dbs[n], count);
    CountResidue(size, dbs[n].free, |dbs[n].active|, Acquired(replies, n), wraps);
  }

  lemma CountIs(db: Db, count: nat)
    requires Counts(db, count) && db.free < UINT
    ensures count == (db.size - db.free) % UINT
  {}

  lemma CountResidue(size: nat, free: nat, active: nat, acquired: nat, wraps: nat)
    requires free + active + UINT * wraps == size + acquired && active < UINT
    ensures (size - free) % UINT == active <==> acquired % UINT == 0
  {
    AddMultiple(active - acquired, wraps);
    SameResidue(active, acquired);
  }

  /** One AcquireId on a database of two: an identifier is active, and Count says that none is. */
  lemma AcquiredIsNotCounted()
    ensures var db := Db(2, {0}, 2);
            && IsDbStep(Fresh(2), AcquireOp(0), AcquireReply(true), db)
            && Counts(db, 0) && |db.active| == 1
  {}

  lemma SameResidue(a: nat, b: nat)
    requires a < UINT
    ensures (a - b) % UINT == a <==> b % UINT == 0
  {
    var q, r := b / UINT, b % UINT;
    assert b == UINT * q + r;
    AddMultiple(a - r, -q);
    assert a - b == a - r + UINT * -q;
  }
}
