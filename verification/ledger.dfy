/**
 The allocator's books: `capacity`, `load` and `refCount` per resource, for every
 element type whose += and -= update their left operand in machine arithmetic.
 */
module Ledger {
  import opened Options
  import opened IdentifierDb
  import opened IdentifierRuns
  import opened Pool
  import opened Totals
  import opened Allocator

  const UINT64: nat := 0x1_0000_0000_0000_0000

  /** The books are kept in m modulo M: += and -= are addition and subtraction of a machine integer. */
  ghost predicate Books<T(!new)>(ops: Ops<T>, m: T -> int, M: nat) {
    && (M == UINT || M == UINT64)
    && m(ops.zero) == 0
    && (forall a, b :: m(ops.addTo(a, b)) == (m(a) + m(b)) % M)
    && (forall a, b :: m(ops.subFrom(a, b)) == (m(a) - m(b)) % M)
  }

  lemma AddMultiple64(a: int, k: int)
    ensures (a + UINT64 * k) % UINT64 == a % UINT64
  {}

  lemma ModAdd(x: int, y: int, M: nat)
    requires M == UINT || M == UINT64
    ensures (x % M + y) % M == (x + y) % M
  {
    if M == UINT {
      var q, r := x / UINT, x % UINT;
      assert x == UINT * q + r;
      AddMultiple(r + y, q);
    } else {
      var q, r := x / UINT64, x % UINT64;
      assert x == UINT64 * q + r;
      AddMultiple64(r + y, q);
    }
  }

  /** The load of every resource is the sum of its reservations. */
  ghost predicate LoadKept<T>(m: T -> int, M: nat, s: State<T>)
    requires s.Shaped() && M > 0
  {
    forall p: nat :: p < |s.load| ==> m(s.load[p]) == LiveTotal(m, s.live, p) % M
  }

  lemma LoadStep<T(!new)>(ops: Ops<T>, m: T -> int, M: nat, deferFree: bool, s: State<T>, e: Event<T>, s': State<T>)
    requires Books(ops, m, M) && Kept(s) && Kept(s') && LoadKept(m, M, s) && IsStep(ops, deferFree, s, e, s')
    ensures LoadKept(m, M, s')
  {
    hide IsFreeObj, IsCoalesce, IsSearch, Counted, LiveTotal;
    match e
    case Register(obj, r) =>
    case Unregister(id, status) =>
    case Alloc(req, r, found, lost) =>
      if r.Allocated? && found.Got? {
        forall p: nat | p < |s'.load| ensures m(s'.load[p]) == LiveTotal(m, s'.live, p) % M {
          LiveTotalUpdate(m, s.live, r.id, s'.live[r.id], p);
          ModAdd(LiveTotal(m, s.live, p), m(found.d), M);
        }
      }
    case Free(id) =>
      forall p: nat | p < |s'.load| ensures m(s'.load[p]) == LiveTotal(m, s'.live, p) % M {
        LiveTotalUpdate(m, s.live, id, None, p);
        ModAdd(LiveTotal(m, s.live, p), -m(s.live[id].value.obj), M);
      }
  }

  /** What the first n calls registered under identifier p, over all its lives. */
  ghost function EverRegistered<T>(m: T -> int, events: seq<Event<T>>, n: nat, p: nat): int
    requires n <= |events|
  {
    if n == 0 then 0
    else
      var e := events[n - 1];
      EverRegistered(m, events, n - 1, p) + if e.Register? && e.registration == Allocated(p) then m(e.obj) else 0
  }

  lemma BooksStep<T(!new)>(ops: Ops<T>, m: T -> int, M: nat, deferFree: bool, s: State<T>, e: Event<T>, s': State<T>, p: nat)
    requires Books(ops, m, M) && Kept(s) && IsStep(ops, deferFree, s, e, s') && p < |s.load| == |s'.load| == |s'.capacity|
    ensures (m(s'.capacity[p]) + m(s'.load[p])) % M
         == (m(s.capacity[p]) + m(s.load[p]) + if e.Register? && e.registration == Allocated(p) then m(e.obj) else 0) % M
  {
    hide IsFreeObj, IsCoalesce, IsSearch, Counted, LiveTotal;
    var c, l := m(s.capacity[p]), m(s.load[p]);
    match e
    case Register(obj, r) =>
      ModAdd(c + m(obj), l, M);
    case Unregister(id, status) =>
    case Alloc(req, r, found, lost) =>
      if r.Allocated? && found.Got? && req.parent == p { TransferMod(c, l, -m(found.d), M); }
    case Free(id) =>
      if s.live[id].value.parent == p { TransferMod(c, l, m(s.live[id].value.obj), M); }
  }

  /** Moving d from one account to the other leaves their sum alone. */
  lemma TransferMod(c: int, l: int, d: int, M: nat)
    requires M == UINT || M == UINT64
    ensures ((c + d) % M + (l - d) % M) % M == (c + l) % M
  {
    ModAdd(c + d, (l - d) % M, M);
    ModAdd(l - d, c + d, M);
  }

  /**
   In every run: a resource's load is the sum of its reservations, its capacity
   and load together are all that was ever registered under its identifier
   (unregistering does not reset them), and the reference count of a registered
   resource is the number of its reservations.
   */
  lemma {:induction false} RunKeepsBooks<T(!new)>(
    ops: Ops<T>, m: T -> int, M: nat, deferFree: bool, num: nat, states: seq<State<T>>, events: seq<Event<T>>, n: nat, p: nat)
    requires Books(ops, m, M) && num <= UINT - 32 && IsRun(ops, deferFree, num, states, events) && n < |states| && p < num
    ensures Kept(states[n]) && |states[n].load| == num && LoadKept(m, M, states[n])
    ensures m(states[n].load[p]) == LiveTotal(m, states[n].live, p) % M
    ensures (m(states[n].capacity[p]) + m(states[n].load[p])) % M == EverRegistered(m, events, n, p) % M
    ensures p in states[n].registeredIds.active ==> states[n].refCount[p] == LiveTotal(One(), states[n].live, p)
  {
    hide IsFreeObj, IsCoalesce, IsSearch, Counted, IsStep;
    RunKeeps(ops, deferFree, num, states, events, n);
    if n == 0 {
      forall q: nat | q < num ensures LiveTotal(m, states[0].live, q) == 0 {
        LiveTotalNone(m, states[0].live, q);
      }
    } else {
      RunKeepsBooks(ops, m, M, deferFree, num, states, events, n - 1, p);
      var s, e, s' := states[n - 1], events[n - 1], states[n];
      StepLength(ops, deferFree, s, e, s');
      LoadStep(ops, m, M, deferFree, s, e, s');
      BooksStep(ops, m, M, deferFree, s, e, s', p);
      var gained := if e.Register? && e.registration == Allocated(p) then m(e.obj) else 0;
      ModAdd(m(s.capacity[p]) + m(s.load[p]), gained, M);
      ModAdd(EverRegistered(m, events, n - 1, p), gained, M);
    }
  }

  lemma StepLength<T(!new)>(ops: Ops<T>, deferFree: bool, s: State<T>, e: Event<T>, s': State<T>)
    requires IsStep(ops, deferFree, s, e, s')
    ensures |s'.load| == |s.load| && |s'.capacity| == |s.capacity|
  {}

  /**
   Unregister succeeds exactly when the resource has no reservation; then no
   entry of it is left, and what was free of the others stays.
   */
  lemma UnregisterIff<T(!new)>(ops: Ops<T>, s: State<T>, p: nat, status: Status, s': State<T>)
    requires Kept(s) && IsUnregister(ops, s, p, status, s')
    ensures status == SUCCESS <==> forall id :: 0 <= id < |s.live| && s.live[id].Some? ==> s.live[id].value.parent != p
    ensures status != SUCCESS ==> status == FAIL && s' == s
    ensures status == SUCCESS ==> forall i :: 0 <= i < |s'.pool| ==> s'.pool[i].parent != p
    ensures status == SUCCESS && s.freed == [] ==>
              forall q, m :: q != p ==> Total(m, s'.pool, q) == Total(m, s.pool, q)
  {
    LiveCountZero(s.live, p);
    if status == SUCCESS {
      var mid :| IsCoalesce(ops, s.pool, s.freed, mid) && s'.pool == Without(mid, p);
      CoalesceParents(ops, s.pool, s.freed, mid, s.registeredIds.active);
      WithoutParents(mid, p, s.registeredIds.active);
      if s.freed == [] {
        forall q, m | q != p ensures Total(m, s'.pool, q) == Total(m, s.pool, q) { WithoutTotal(m, mid, p, q); }
      }
    }
  }
}
