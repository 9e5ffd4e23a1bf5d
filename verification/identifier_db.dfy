/**
 The identifier database of common/src/vmaccel_utils.c: a word-packed set of
 identifiers with a counter of free ones.  `IdentifierDB` is the code; `Db` is
 what it stands for, a finite set and a number.
 */
module IdentifierDb {
  import opened Words

  /** `unsigned int` arithmetic is modulo 2^32. */
  const UINT: nat := 0x1_0000_0000

  /** `(size + 31) / 32` in unsigned arithmetic. */
  function NumWords(size: nat): nat {
    ((size + 31) % UINT) / 32
  }

  datatype Db = Db(size: nat, active: set<nat>, free: nat)

  datatype AllocOutcome = Allocated(id: nat) | Exhausted | Corrupted

  datatype Op = AllocOp | ReleaseOp(id: nat) | AcquireOp(id: nat)

  datatype Reply = AllocReply(outcome: AllocOutcome) | AcquireReply(ok: bool) | ReleaseReply

  // ---------------------------------------------------------------------
  // The set that a sequence of words stands for
  // ---------------------------------------------------------------------

  ghost predicate ActiveBit(words: seq<bv32>, id: nat) {
    id / 32 < |words| && id % 32 in Bits(words[id / 32])
  }

  ghost function ActiveIn(words: seq<bv32>): set<nat> {
    set id: nat | id < 32 * |words| && ActiveBit(words, id)
  }

  lemma ActiveInHas(words: seq<bv32>, id: nat)
    ensures id in ActiveIn(words) <==> ActiveBit(words, id)
  {}

  /** Adding bits to one word adds the identifiers they stand for, and no other. */
  lemma AddBits(words: seq<bv32>, i: nat, w: bv32, ids: set<nat>)
    requires i < |words|
    requires forall id :: id in ids ==> id / 32 == i
    requires forall k :: 0 <= k < 32 ==> (k in Bits(w) <==> k in Bits(words[i]) || 32 * i + k in ids)
    ensures ActiveIn(words[i := w]) == ActiveIn(words) + ids
  {
    forall id: nat ensures id in ActiveIn(words[i := w]) <==> id in ActiveIn(words) + ids {
      ActiveInHas(words, id);
      ActiveInHas(words[i := w], id);
      assert id == 32 * (id / 32) + id % 32;
    }
  }

  /** Removing bits from one word removes the identifiers they stand for, and no other. */
  lemma RemoveBits(words: seq<bv32>, i: nat, w: bv32, ids: set<nat>)
    requires i < |words|
    requires forall id :: id in ids ==> id / 32 == i
    requires forall k :: 0 <= k < 32 ==> (k in Bits(w) <==> k in Bits(words[i]) && 32 * i + k !in ids)
    ensures ActiveIn(words[i := w]) == ActiveIn(words) - ids
  {
    forall id: nat ensures id in ActiveIn(words[i := w]) <==> id in ActiveIn(words) - ids {
      ActiveInHas(words, id);
      ActiveInHas(words[i := w], id);
      assert id == 32 * (id / 32) + id % 32;
    }
  }

  /** `bits[id / 32] & (1 << (id % 32))` tests membership. */
  lemma TestBit(words: seq<bv32>, id: nat)
    requires id / 32 < |words|
    ensures Bits(words[id / 32]) * {id % 32} != {} <==> id in ActiveIn(words)
  {
    ActiveInHas(words, id);
    if id % 32 in Bits(words[id / 32]) {
      assert id % 32 in Bits(words[id / 32]) * {id % 32};
    }
  }

  // ---------------------------------------------------------------------
  // The range calls
  // ---------------------------------------------------------------------

  /** The identifiers one loop iteration touches: word i, `numBits` positions from s. */
  ghost function Block(i: nat, numBits: nat, s: nat): set<nat> {
    if numBits == 32 then Span(32 * i, 32 * i + 32)
    else Span(32 * i + s % 32, 32 * i + s % 32 + numBits) * Span(32 * i, 32 * i + 32)
  }

  /** The bits that the mask of one iteration has in common with word i are the touched identifiers that are active. */
  lemma TestBlock(words: seq<bv32>, i: nat, mask: bv32, ids: set<nat>)
    requires i < |words|
    requires forall id :: id in ids ==> id / 32 == i
    requires forall k: nat :: k in Bits(mask) <==> k < 32 && 32 * i + k in ids
    ensures Bits(words[i]) * Bits(mask) != {} <==> ActiveIn(words) * ids != {}
  {
    if k: nat :| k in Bits(words[i]) * Bits(mask) {
      ActiveInHas(words, 32 * i + k);
      assert 32 * i + k in ActiveIn(words) * ids;
    }
    if id: nat :| id in ActiveIn(words) * ids {
      ActiveInHas(words, id);
      assert id == 32 * i + id % 32;
      assert id % 32 in Bits(words[i]) * Bits(mask);
    }
  }

  /** The positions of the mask of one iteration. */
  ghost function MaskSpan(numBits: nat, s: nat): set<nat> {
    if numBits == 32 then Span(0, 32) else Span(s % 32, s % 32 + numBits) * Span(0, 32)
  }

  lemma BlockOfMask(i: nat, numBits: nat, s: nat)
    ensures forall id :: id in Block(i, numBits, s) ==> id / 32 == i
    ensures forall k: nat :: k in MaskSpan(numBits, s) <==> k < 32 && 32 * i + k in Block(i, numBits, s)
  {}

  /**
   The identifiers that a range call from `start` to `end` touches.  A range of
   32 or more identifiers masks the whole of its first word; a reversed range
   inside one word masks that word, unless it is empty.
   */
  ghost function Touched(start: nat, end: nat): set<nat> {
    if start <= end then
      Span(if end - start >= 31 then start - start % 32 else start, end + 1)
    else if start / 32 == end / 32 && start != end + 1 then
      Span(start - start % 32, start - start % 32 + 32)
    else
      {}
  }

  /** A range call touches exactly the range it names if and only if the range is short or starts a word. */
  lemma TouchedExactly(start: nat, end: nat)
    requires start <= end
    ensures Touched(start, end) == Span(start, end + 1) <==> start % 32 == 0 || end - start + 1 < 32
  {
    if start % 32 != 0 && end - start >= 31 {
      assert start - 1 in Touched(start, end);
      assert start - 1 !in Span(start, end + 1);
    }
  }

  /** Releasing a range removes exactly that range if and only if it is short, starts a word, or its first word has nothing below it to lose. */
  lemma ReleaseRangeExactly(active: set<nat>, start: nat, end: nat)
    requires start <= end
    ensures active - Touched(start, end) == active - Span(start, end + 1)
       <==> start % 32 == 0 || end - start + 1 < 32 || active * Span(start - start % 32, start) == {}
  {
    TouchedExactly(start, end);
    if start % 32 != 0 && end - start >= 31 {
      assert Touched(start, end) == Span(start - start % 32, start) + Span(start, end + 1);
      if active * Span(start - start % 32, start) != {} {
        var id :| id in active * Span(start - start % 32, start);
        assert id in active - Span(start, end + 1);
        assert id !in active - Touched(start, end);
      } else {
        forall id | id in active - Span(start, end + 1) ensures id !in Touched(start, end) {
          assert id !in active * Span(start - start % 32, start);
        }
      }
    }
  }

  /** The identifiers touched by the iterations before word i. */
  ghost function TouchedBelow(start: nat, end: nat, i: nat): set<nat> {
    Touched(start, end) * Span(0, 32 * i)
  }

  /** The position the loop variable `start` has on reaching word i. */
  function Cursor(start: nat, i: nat): nat {
    if i <= start / 32 then start else 32 * i
  }

  /** `start += 32 - (start % 32)` in unsigned arithmetic. */
  function NextWord(s: nat): nat {
    (s + 32 - s % 32) % UINT
  }

  lemma CursorMoves(start: nat, end: nat, i: nat)
    requires end < UINT && start / 32 <= i < end / 32
    ensures NextWord(Cursor(start, i)) == Cursor(start, i + 1)
  {
    var s := Cursor(start, i);
    assert s + 32 - s % 32 == 32 * (i + 1);
  }

  /** `MIN(32, end - start + 1)` in unsigned arithmetic. */
  function NumBits(s: nat, end: nat): nat {
    var n := (end - s + 1) % UINT;
    if n < 32 then n else 32
  }

  lemma NumBitsValue(s: nat, end: nat)
    requires s < UINT - 1 && end < UINT - 1 && s / 32 <= end / 32
    ensures s <= end ==> NumBits(s, end) == if end - s >= 31 then 32 else end - s + 1
    ensures s > end ==> NumBits(s, end) == if s == end + 1 then 0 else 32
  {
    if s > end + 1 { assert (end - s + 1) % UINT == end - s + 1 + UINT; }
  }

  lemma BlockStep(start: nat, end: nat, i: nat)
    requires start < UINT - 1 && end < UINT - 1 && start / 32 <= i <= end / 32
    ensures TouchedBelow(start, end, i + 1)
         == TouchedBelow(start, end, i) + Block(i, NumBits(Cursor(start, i), end), Cursor(start, i))
  {
    var s := Cursor(start, i);
    var n := NumBits(s, end);
    NumBitsValue(s, end);
    forall id: nat
      ensures id in TouchedBelow(start, end, i + 1) <==> id in TouchedBelow(start, end, i) + Block(i, n, s)
    {
      assert 32 * (s / 32) + s % 32 == s;
    }
  }

  lemma TouchedEnds(start: nat, end: nat)
    ensures TouchedBelow(start, end, start / 32) == {}
    ensures start / 32 <= end / 32 ==> TouchedBelow(start, end, end / 32 + 1) == Touched(start, end)
    ensures start / 32 > end / 32 ==> Touched(start, end) == {}
  {}

  /** A refused acquisition keeps the words before the one that conflicts. */
  ghost predicate PartlyAcquired(before: set<nat>, after: set<nat>, start: nat, end: nat, i: nat) {
    && after == before + TouchedBelow(start, end, i)
    && before * TouchedBelow(start, end, i) == {}
    && before * (TouchedBelow(start, end, i + 1) - TouchedBelow(start, end, i)) != {}
  }

  // ---------------------------------------------------------------------
  // One call, as a relation between databases
  // ---------------------------------------------------------------------

  ghost predicate IsAlloc(db: Db, db': Db, r: AllocOutcome) {
    match r
    case Exhausted => db.free == 0 && db' == db
    case Corrupted =>
      && db.free != 0
      && (forall k: nat :: k < 32 * NumWords(db.size) ==> k in db.active)
      && db' == db
    case Allocated(id) =>
      && db.free != 0
      && id < 32 * NumWords(db.size)
      && id !in db.active
      && (forall k: nat :: k < id ==> k in db.active)
      && db' == db.(active := db.active + {id}, free := db.free - 1)
  }

  /** n and the counter together make up the size, as unsigned integers. */
  predicate Counts(db: Db, n: nat) {
    n < UINT && (n + db.free) % UINT == db.size
  }

  ghost predicate IsDbStep(db: Db, op: Op, reply: Reply, db': Db) {
    match op
    case AllocOp => reply.AllocReply? && IsAlloc(db, db', reply.outcome)
    case ReleaseOp(id) =>
      && reply.ReleaseReply?
      && (id < db.size ==> id in db.active)
      && db' == if id < db.size then db.(active := db.active - {id}, free := (db.free + 1) % UINT) else db
    case AcquireOp(id) =>
      && reply.AcquireReply?
      && reply.ok == (id < db.size && id !in db.active)
      && db' == if reply.ok then db.(active := db.active + {id}) else db
  }

  // ---------------------------------------------------------------------
  // The code
  // ---------------------------------------------------------------------

  class IdentifierDB {
    const size: nat
    const bits: array<bv32>
    var free: nat
    ghost var active: set<nat>  // the identifiers whose bits are set

    ghost predicate Valid()
      reads this, bits
    {
      size < UINT && bits.Length == NumWords(size) && free < UINT && active == ActiveIn(bits[..])
    }

    ghost function View(): Db
      reads this
    {
      Db(size, active, free)
    }

    constructor (size: nat)
      requires size < UINT
      ensures Valid() && fresh(bits)
      ensures View() == Db(size, {}, size)
    {
      this.size := size;
      bits := new bv32[NumWords(size)](_ => 0);
      free := size;
      active := {};
      new;
      forall id: nat ensures id !in ActiveIn(bits[..]) {
        if id / 32 < bits.Length { ZeroBits(bits[id / 32]); }
      }
    }

    /** A database may be indexed below its size unless `size + 31` wrapped. */
    ghost predicate Roomy()
      reads this
    {
      size <= 32 * bits.Length
    }

    method ActiveId(id: nat) returns (isActive: bool)
      requires Valid() && Roomy()
      ensures isActive <==> id < size && id in active
    {
      if id >= size {
        return false;
      }
      var one := One(id % 32);
      TestBit(bits[..], id);
      isActive := Overlaps(bits[id / 32], one);
    }

    method AcquireId(id: nat) returns (ok: bool)
      requires Valid() && Roomy()
      modifies `active, bits
      ensures Valid() && Roomy()
      ensures IsDbStep(old(View()), AcquireOp(id), AcquireReply(ok), View())
    {
      if id >= size {
        return false;
      }
      var isActive := ActiveId(id);
      if isActive {
        return false;
      }
      SetBit(id / 32, id % 32);
      return true;
    }

    /** `bits[i] = w` */
    method SetWord(i: nat, w: bv32)
      requires Valid() && i < bits.Length
      modifies `active, bits
      ensures Valid()
      ensures bits[..] == old(bits[..])[i := w]
    {
      bits[i] := w;
      active := ActiveIn(bits[..]);
    }

    /** `bits[i] |= (1 << k)` */
    method SetBit(i: nat, k: nat)
      requires Valid() && i < bits.Length && k < 32
      modifies `active, bits
      ensures Valid()
      ensures active == old(active) + {32 * i + k}
    {
      var one := One(k);
      var w := Or(bits[i], one);
      AddBits(bits[..], i, w, {32 * i + k});
      SetWord(i, w);
    }

    method ReleaseId(id: nat)
      requires Valid() && Roomy()
      requires id < size ==> id in active
      modifies `free, `active, bits
      ensures Valid() && Roomy()
      ensures IsDbStep(old(View()), ReleaseOp(id), ReleaseReply, View())
    {
      if id >= size {
        return;
      }
      var isActive := ActiveId(id);
      if isActive {
        var one := One(id % 32);
        var w := AndNot(bits[id / 32], one);
        RemoveBits(bits[..], id / 32, w, {id});
        SetWord(id / 32, w);
        free := (free + 1) % UINT;
      }
    }

    method AllocId() returns (r: AllocOutcome)
      requires Valid()
      modifies `free, `active, bits
      ensures Valid()
      ensures IsDbStep(old(View()), AllocOp, AllocReply(r), View())
    {
      if free == 0 {
        return Exhausted;
      }
      var i := 0;
      while i < bits.Length
        invariant 0 <= i <= bits.Length
        invariant forall j :: 0 <= j < i ==> Bits(bits[j]) == Span(0, 32)
        invariant unchanged(this) && unchanged(bits)
      {
        var ret := FindFirstZero(bits[i]);
        if ret != -1 {
          var id := 32 * i + ret;
          AllBelowFull(bits[..], i);
          BelowInWord(bits[..], i, ret);
          free := free - 1;
          SetBit(i, ret);
          return Allocated(id);
        }
        i := i + 1;
      }
      AllBelowFull(bits[..], bits.Length);
      return Corrupted;
    }

    /** One iteration of the range release: `bits[i] &= ~mask`. */
    method ClearBlock(i: nat, numBits: nat, s: nat)
      requires Valid() && i < bits.Length && numBits <= 32
      modifies `active, bits
      ensures Valid()
      ensures active == old(active) - Block(i, numBits, s)
    {
      var mask := Mask(numBits, s % 32);
      var w := AndNot(bits[i], mask);
      BlockOfMask(i, numBits, s);
      RemoveBits(bits[..], i, w, Block(i, numBits, s));
      SetWord(i, w);
    }

    /** One iteration of the range acquisition: `bits[i] |= mask` unless they meet. */
    method SetBlock(i: nat, numBits: nat, s: nat) returns (taken: bool)
      requires Valid() && i < bits.Length && numBits <= 32
      modifies `active, bits
      ensures Valid()
      ensures taken <==> old(active) * Block(i, numBits, s) != {}
      ensures active == if taken then old(active) else old(active) + Block(i, numBits, s)
    {
      var mask := Mask(numBits, s % 32);
      BlockOfMask(i, numBits, s);
      TestBlock(bits[..], i, mask, Block(i, numBits, s));
      taken := Overlaps(bits[i], mask);
      if !taken {
        var w := Or(bits[i], mask);
        AddBits(bits[..], i, w, Block(i, numBits, s));
        SetWord(i, w);
      }
    }

    method ReleaseIdRange(start: nat, end: nat) returns (ok: bool)
      requires Valid() && Roomy()
      modifies `active, bits
      ensures Valid() && Roomy() && free == old(free)
      ensures ok <==> start < size && end < size
      ensures active == if ok then old(active) - Touched(start, end) else old(active)
    {
      if start >= size || end >= size {
        return false;
      }
      var s, i := start, start / 32;
      TouchedEnds(start, end);
      while i <= end / 32
        invariant Valid() && start / 32 <= i
        invariant i <= end / 32 + 1 || i == start / 32
        invariant i <= end / 32 ==> s == Cursor(start, i)
        invariant active == old(active) - TouchedBelow(start, end, i)
      {
        BlockStep(start, end, i);
        ClearBlock(i, NumBits(s, end), s);
        if i < end / 32 { CursorMoves(start, end, i); }
        s := NextWord(s);
        i := i + 1;
      }
      return true;
    }

    method AcquireIdRange(start: nat, end: nat) returns (ok: bool)
      requires Valid() && Roomy()
      modifies `active, bits
      ensures Valid() && Roomy() && free == old(free)
      ensures ok <==> start < size && end < size && old(active) * Touched(start, end) == {}
      ensures ok ==> active == old(active) + Touched(start, end)
      ensures !(start < size && end < size) ==> active == old(active)
      ensures !ok && start < size && end < size ==>
                exists i: nat :: PartlyAcquired(old(active), active, start, end, i)
    {
      if start >= size || end >= size {
        return false;
      }
      var s, i := start, start / 32;
      TouchedEnds(start, end);
      while i <= end / 32
        invariant Valid() && start / 32 <= i
        invariant i <= end / 32 + 1 || i == start / 32
        invariant i <= end / 32 ==> s == Cursor(start, i)
        invariant active == old(active) + TouchedBelow(start, end, i)
        invariant old(active) * TouchedBelow(start, end, i) == {}
      {
        ghost var block := Block(i, NumBits(s, end), s);
        BlockStep(start, end, i);
        BlockIsNew(start, end, i, NumBits(s, end), s);
        var taken := SetBlock(i, NumBits(s, end), s);
        if taken {
          RefusedAt(old(active), active, start, end, i, block);
          return false;
        }
        if i < end / 32 { CursorMoves(start, end, i); }
        s := NextWord(s);
        i := i + 1;
      }
      return true;
    }

    /** The number of active identifiers, as far as the counter is right. */
    method Count() returns (n: nat)
      requires Valid()
      ensures Counts(View(), n)
      ensures free + |active| == size ==> n == |active|
    {
      return (size - free) % UINT;
    }
  }

  lemma RefusedAt(before: set<nat>, now: set<nat>, start: nat, end: nat, i: nat, block: set<nat>)
    requires now == before + TouchedBelow(start, end, i)
    requires before * TouchedBelow(start, end, i) == {}
    requires TouchedBelow(start, end, i + 1) == TouchedBelow(start, end, i) + block
    requires block * TouchedBelow(start, end, i) == {}
    requires now * block != {}
    ensures PartlyAcquired(before, now, start, end, i)
    ensures before * Touched(start, end) != {}
  {
    var id :| id in now * block;
    assert id !in block * TouchedBelow(start, end, i);
    assert id in before * (TouchedBelow(start, end, i + 1) - TouchedBelow(start, end, i));
    assert id in before * Touched(start, end);
  }

  lemma BlockIsNew(start: nat, end: nat, i: nat, numBits: nat, s: nat)
    ensures Block(i, numBits, s) * TouchedBelow(start, end, i) == {}
  {}

  lemma AllBelowFull(words: seq<bv32>, n: nat)
    requires n <= |words| && forall j :: 0 <= j < n ==> Bits(words[j]) == Span(0, 32)
    ensures forall k: nat :: k < 32 * n ==> k in ActiveIn(words)
  {
    forall k: nat | k < 32 * n ensures k in ActiveIn(words) {
      assert Bits(words[k / 32]) == Span(0, 32);
      assert k % 32 in Span(0, 32);
      ActiveInHas(words, k);
    }
  }

  lemma BelowInWord(words: seq<bv32>, i: nat, z: nat)
    requires i < |words| && z < 32
    requires z !in Bits(words[i]) && forall k: nat :: k < z ==> k in Bits(words[i])
    ensures 32 * i + z !in ActiveIn(words)
    ensures forall k: nat :: 32 * i <= k < 32 * i + z ==> k in ActiveIn(words)
  {
    forall k: nat | 32 * i <= k < 32 * i + z ensures k in ActiveIn(words) {
      assert k - 32 * i in Bits(words[i]);
      ActiveInHas(words, k);
    }
    ActiveInHas(words, 32 * i + z);
  }
}
