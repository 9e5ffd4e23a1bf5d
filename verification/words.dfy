/**
 The 32-bit words of an identifier database, and the bit operations that
 common/src/vmaccel_utils.c performs on them.  `Bits` reads a word as a set of
 bit positions; every operation is related to that set.
 */
module Words {
  const FULL: bv32 := 0xffff_ffff

  /** A bit position as a shift amount. */
  function Pos(k: nat): (b: bv6)
    requires k < 64
  {
    if k == 0 then 0 else Pos(k - 1) + 1
  }

  lemma {:induction false} PosValue(k: nat)
    requires k < 64
    ensures Pos(k) as nat == k
  {
    if k > 0 { PosValue(k - 1); }
  }

  lemma PosOrder(i: nat, j: nat)
    requires i < 64 && j < 64
    ensures Pos(i) < Pos(j) <==> i < j
    ensures Pos(i) == Pos(j) <==> i == j
  {
    PosValue(i);
    PosValue(j);
  }

  lemma {:induction false} PosSum(i: nat, d: nat)
    requires i + d < 64
    ensures Pos(i) + Pos(d) == Pos(i + d)
  {
    if d > 0 { PosSum(i, d - 1); }
  }

  lemma PosSmall(k: nat)
    requires k < 32
    ensures Pos(k) < 32
  {
    PosValue(k);
  }

  /** Every shift amount is the position of its value. */
  lemma PosInverse(b: bv6)
    ensures Pos(b as nat) == b
  {
    PosValue(b as nat);
  }

  predicate BitAt(w: bv32, k: bv6)
    requires k < 32
  {
    (w >> k) & 1 == 1
  }

  predicate Bit(w: bv32, k: nat)
    requires k < 32
  {
    PosSmall(k);
    BitAt(w, Pos(k))
  }

  /** The positions below n at which w has a 1. */
  ghost function BitsBelow(w: bv32, n: nat): set<nat>
    requires n <= 32
  {
    if n == 0 then {} else BitsBelow(w, n - 1) + if Bit(w, n - 1) then {n - 1} else {}
  }

  /** A word as a set of positions. */
  ghost function Bits(w: bv32): set<nat> {
    BitsBelow(w, 32)
  }

  lemma {:induction false} BitsBelowHas(w: bv32, n: nat, k: nat)
    requires n <= 32
    ensures k in BitsBelow(w, n) <==> k < n && Bit(w, k)
  {
    if n > 0 { BitsBelowHas(w, n - 1, k); }
  }

  lemma BitsHas(w: bv32)
    ensures forall k: nat :: k in Bits(w) <==> k < 32 && Bit(w, k)
  {
    forall k: nat ensures k in Bits(w) <==> k < 32 && Bit(w, k) { BitsBelowHas(w, 32, k); }
  }

  /** The positions of a word from `lo` up to, but not including, `hi`. */
  ghost function Span(lo: nat, hi: nat): set<nat> {
    set k: nat {:trigger k in Span(lo, hi)} | lo <= k < hi
  }

  lemma LowMaskAt(n: bv6, j: bv6)
    requires n < 32 && j < 32
    ensures BitAt((1 << n) - 1, j) <==> j < n
  {}

  lemma ShiftUpAt(w: bv32, r: bv32, s: bv6, d: bv6, j: bv6)
    requires s < 32 && d < 32 && j < 32 && j == s + d && r == w << s
    ensures BitAt(r, j) <==> BitAt(w, d)
  {}

  lemma ShiftInAt(w: bv32, r: bv32, s: bv6, j: bv6)
    requires j < s < 32 && r == w << s
    ensures !BitAt(r, j)
  {}

  lemma OrAt(x: bv32, y: bv32, j: bv6)
    requires j < 32
    ensures BitAt(x | y, j) <==> BitAt(x, j) || BitAt(y, j)
  {}

  lemma AndAt(x: bv32, y: bv32, j: bv6)
    requires j < 32
    ensures BitAt(x & y, j) <==> BitAt(x, j) && BitAt(y, j)
  {}

  lemma AndNotAt(x: bv32, y: bv32, j: bv6)
    requires j < 32
    ensures BitAt(x & !y, j) <==> BitAt(x, j) && !BitAt(y, j)
  {}

  lemma OneAt(i: bv6, j: bv6)
    requires i < 32 && j < 32
    ensures BitAt(1 << i, j) <==> i == j
  {}

  lemma FullAt(w: bv32, j: bv6)
    requires j < 32
    ensures w == FULL ==> BitAt(w, j)
    ensures w == 0 ==> !BitAt(w, j)
  {}

  lemma LowOnesAt(w: bv32, n: bv6, j: bv6)
    requires j < n < 32 && w | (FULL << n) == FULL
    ensures BitAt(w, j)
  {}

  /** A word is zero exactly when it has no bit. */
  lemma ZeroBits(w: bv32)
    ensures w == 0 <==> Bits(w) == {}
  {
    BitsHas(w);
    if w == 0 {
      forall k: nat | k < 32 ensures !Bit(w, k) { PosSmall(k); FullAt(w, Pos(k)); }
    } else {
      var k := SomeBit(w);
      PosInverse(k);
      assert Bit(w, k as nat);
    }
  }

  /** A non-zero word has a bit, found by bisection. */
  lemma SomeBit(w: bv32) returns (k: bv6)
    requires w != 0
    ensures k < 32 && BitAt(w, k)
  {
    var x := w;
    k := 0;
    if x & 0xffff == 0 { x := x >> 16; k := 16; }
    if x & 0xff == 0 { x := x >> 8; k := k + 8; }
    if x & 0xf == 0 { x := x >> 4; k := k + 4; }
    if x & 0x3 == 0 { x := x >> 2; k := k + 2; }
    if x & 0x1 == 0 { x := x >> 1; k := k + 1; }
  }

  // ---------------------------------------------------------------------
  // The word operations of the databases, as operations on sets
  // ---------------------------------------------------------------------

  /** `w |= m` */
  method Or(w: bv32, m: bv32) returns (r: bv32)
    ensures Bits(r) == Bits(w) + Bits(m)
  {
    r := w | m;
    BitsHas(w);
    BitsHas(m);
    BitsHas(r);
    forall k: nat | k < 32 ensures Bit(r, k) <==> Bit(w, k) || Bit(m, k) {
      PosSmall(k);
      OrAt(w, m, Pos(k));
    }
  }

  /** `w &= ~m` */
  method AndNot(w: bv32, m: bv32) returns (r: bv32)
    ensures Bits(r) == Bits(w) - Bits(m)
  {
    r := w & !m;
    BitsHas(w);
    BitsHas(m);
    BitsHas(r);
    forall k: nat | k < 32 ensures Bit(r, k) <==> Bit(w, k) && !Bit(m, k) {
      PosSmall(k);
      AndNotAt(w, m, Pos(k));
    }
  }

  /** `(w & m) != 0` */
  method Overlaps(w: bv32, m: bv32) returns (r: bool)
    ensures r <==> Bits(w) * Bits(m) != {}
  {
    r := w & m != 0;
    ZeroBits(w & m);
    BitsHas(w);
    BitsHas(m);
    BitsHas(w & m);
    forall k: nat | k < 32 ensures Bit(w & m, k) <==> Bit(w, k) && Bit(m, k) {
      PosSmall(k);
      AndAt(w, m, Pos(k));
    }
    assert Bits(w & m) == Bits(w) * Bits(m);
  }

  /** `1 << k` */
  method One(i: nat) returns (r: bv32)
    requires i < 32
    ensures Bits(r) == {i}
  {
    PosSmall(i);
    r := 1 << Pos(i);
    BitsHas(r);
    forall k: nat | k < 32 ensures Bit(r, k) <==> k == i {
      PosSmall(k);
      PosOrder(i, k);
      OneAt(Pos(i), Pos(k));
    }
  }

  lemma FullBits()
    ensures Bits(FULL) == Span(0, 32)
  {
    BitsHas(FULL);
    forall k: nat | k < 32 ensures Bit(FULL, k) { PosSmall(k); FullAt(FULL, Pos(k)); }
  }

  /** `(1 << n) - 1` */
  method LowMask(n: nat) returns (r: bv32)
    requires n < 32
    ensures Bits(r) == Span(0, n)
  {
    PosSmall(n);
    r := (1 << Pos(n)) - 1;
    BitsHas(r);
    forall k: nat | k < 32 ensures Bit(r, k) <==> k < n {
      PosSmall(k);
      PosOrder(k, n);
      LowMaskAt(Pos(n), Pos(k));
    }
  }

  /** `w << s`; positions shifted out of the word are lost. */
  method ShiftLeft(w: bv32, s: nat) returns (r: bv32)
    requires s < 32
    ensures forall k: nat :: k in Bits(r) <==> s <= k < 32 && k - s in Bits(w)
  {
    PosSmall(s);
    var at := Pos(s);
    r := w << at;
    ShiftedBits(w, r, s, at);
  }

  lemma ShiftedBits(w: bv32, r: bv32, s: nat, at: bv6)
    requires s < 32 && at < 32 && at == Pos(s) && r == w << at
    ensures forall k: nat :: k in Bits(r) <==> s <= k < 32 && k - s in Bits(w)
  {
    forall k: nat ensures k in Bits(r) <==> s <= k < 32 && k - s in Bits(w) {
      BitsBelowHas(r, 32, k);
      if k < 32 {
        PosSmall(k);
        if s <= k {
          PosSmall(k - s);
          PosSum(s, k - s);
          BitsBelowHas(w, 32, k - s);
          ShiftedUp(w, r, s, at, k, Pos(k - s), Pos(k));
        } else {
          PosOrder(k, s);
          ShiftInAt(w, r, at, Pos(k));
        }
      }
    }
  }

  lemma ShiftedUp(w: bv32, r: bv32, s: nat, at: bv6, k: nat, d: bv6, j: bv6)
    requires s <= k < 32 && at == Pos(s) && d == Pos(k - s) && j == Pos(k)
    requires at < 32 && d < 32 && j < 32 && j == at + d && r == w << at
    ensures Bit(r, k) <==> Bit(w, k - s)
  {
    ShiftUpAt(w, r, at, d, j);
  }

  /** `numBits == 32 ? 0xffffffff : ((1 << numBits) - 1) << s` */
  method Mask(numBits: nat, s: nat) returns (r: bv32)
    requires numBits <= 32 && s < 32
    ensures Bits(r) == if numBits == 32 then Span(0, 32) else Span(s, s + numBits) * Span(0, 32)
  {
    if numBits == 32 {
      FullBits();
      return FULL;
    }
    var low := LowMask(numBits);
    r := ShiftLeft(low, s);
  }

  /** The least 0 of a word, or -1 for a full word. */
  method FindFirstZero(bitMask: bv32) returns (idx: int)
    ensures -1 <= idx < 32
    ensures idx == -1 ==> Bits(bitMask) == Span(0, 32)
    ensures idx != -1 ==> idx !in Bits(bitMask) && forall k: nat :: k < idx ==> k in Bits(bitMask)
  {
    var mask := bitMask;
    var at: bv6 := 0;  // idx as a shift amount
    idx := 0;
    if mask == 0xffff_ffff {
      FullBits();
      return -1;
    }
    if mask & 0xffff == 0xffff {
      mask := mask >> 16;
      idx, at := idx + 16, at + 16;
    }
    if mask & 0xff == 0xff {
      mask := mask >> 8;
      idx, at := idx + 8, at + 8;
    }
    if mask & 0xf == 0xf {
      mask := mask >> 4;
      idx, at := idx + 4, at + 4;
    }
    if mask & 0x1 == 0 {
    } else if mask & 0x2 == 0 {
      idx, at := idx + 1, at + 1;
    } else if mask & 0x4 == 0 {
      idx, at := idx + 2, at + 2;
    } else {
      assert mask & 0x8 == 0;
      idx, at := idx + 3, at + 3;
    }
    assert at as int == idx;
    FirstZeroAt(bitMask, at, idx);
    BitsHas(bitMask);
  }

  /** Reads a first zero found on shift amounts as a first zero on positions. */
  lemma FirstZeroAt(w: bv32, at: bv6, idx: nat)
    requires at < 32 && at as nat == idx
    requires !BitAt(w, at) && w | (FULL << at) == FULL
    ensures idx < 32 && !Bit(w, idx)
    ensures forall k: nat :: k < idx ==> Bit(w, k)
  {
    PosInverse(at);
    forall k: nat | k < idx ensures Bit(w, k) {
      PosSmall(k);
      PosOrder(k, idx);
      LowOnesAt(w, at, Pos(k));
    }
  }
}
