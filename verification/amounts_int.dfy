/**
 Plain integers as allocator elements, common/inc/vmaccel_types_int.hpp.
 */
module IntAmounts {
  import opened Options
  import opened IdentifierDb
  import opened Pool
  import opened Totals
  import opened Allocator
  import opened AllocatorPieces
  import opened Closure
  import opened Ledger
  import opened Scalars
  import opened ScalarRuns
  import opened Drops
  import opened AmountDrops

  /** The values of a C `int` are below 2^31. */
  const INT_BOUND: int := 0x8000_0000

  datatype Int = Int(x: int)

  predicate IntLess(a: Int, b: Int) { a.x < b.x }

  predicate IntLessEq(a: Int, b: Int) { a.x <= b.x }

  function IntPlus(a: Int, b: Int): Int { Int(a.x + b.x) }

  /** `operator+=` and `operator-=` take their left side by value, so the object on the left is not changed. */
  function IntUnchanged(a: Int, b: Int): Int { a }

  predicate IntIsEmpty(a: Int) { a.x == 0 }

  function IntReserve(a: Int, req: Int): Option<(Int, Int)> {
    if a.x < req.x then None else Some((req, Int(a.x - req.x)))
  }

  const INT_OPS: Ops<Int> :=
    Ops(Int(0), IntLess, IntLessEq, IntPlus, IntUnchanged, IntUnchanged, IntIsEmpty, IntReserve, PerParent)

  function IntX(): Int -> int {
    (a: Int) => a.x
  }

  function IntDims(): seq<Int -> int> {
    [IntX()]
  }

  function Anything(): (Int, Int) -> bool {
    (_, _) => true
  }

  function AnyInt(): Int -> bool {
    _ => true
  }

  function NonNegative(): Int -> bool {
    (a: Int) => 0 <= a.x < INT_BOUND
  }

  lemma IntLaws()
    ensures Laws(INT_OPS, IntDims(), INT_BOUND)
  {
    forall a, b ensures AtMost(IntDims(), a, b) <==> a.x <= b.x { IntAtMost(a, b); }
    forall a, req ensures Divides(INT_OPS, IntDims(), INT_BOUND, a, req) {
      assert IntDims()[0](a) == a.x && IntDims()[0](req) == req.x;
    }
  }

  lemma IntAtMost(a: Int, b: Int)
    ensures AtMost(IntDims(), a, b) <==> a.x <= b.x
  {
    assert IntDims()[0](a) == a.x && IntDims()[0](b) == b.x;
  }

  lemma IntHereditary()
    ensures Hereditary(INT_OPS, Anything(), NonNegative(), AnyInt()) && Uniform(INT_OPS, Anything())
  {}

  /** A remainder that IsEmpty takes for nothing is nothing. */
  lemma IntLossless(e: Event<Int>)
    ensures Lossless(INT_OPS, IntDims(), e)
  {}

  /** A queued amount of resource 1 that a request to resource 0 makes away with. */
  lemma QueuedAmountIsDropped()
    ensures IsSearch(INT_OPS, [], [Entry(1, Int(5))], Entry(0, Int(3)), [], [], [Entry(1, Int(5))], Missed)
  {
    var a, req := Entry(1, Int(5)), Entry(0, Int(3));
    MissIff(INT_OPS, [], req);
    assert [a][1..] == [];
    assert IsFindFreed(INT_OPS, [], [], req, [], [], [], Missed);
    assert IsFindFreed(INT_OPS, [], [a], req, [], [], [a], Missed);
  }

  /** Free, queued and reserved amounts of every resource add up to what was registered. */
  ghost predicate AddsUp(s: State<Int>)
    requires s.Shaped()
  {
    forall p :: p in s.registeredIds.active ==>
      Total(IntX(), s.pool, p) + Total(IntX(), s.freed, p) + LiveTotal(IntX(), s.live, p) == s.registered[p].x
  }

  /** In every run, eager or deferred, with any number of resources, whose requests are made when they are safe, amounts add up. */
  lemma IntSafeRunConserves(deferFree: bool, num: nat, states: seq<State<Int>>, events: seq<Event<Int>>, n: nat)
    requires LegalRun(INT_OPS, IntDims(), INT_BOUND, deferFree, num, states, events) && n < |states|
    requires deferFree ==> SafeCalls(INT_OPS, states, events, n)
    ensures AmountsKept(IntDims(), INT_BOUND, states[n]) && AddsUp(states[n])
  {
    hide Laws, SafeCalls, IsStep, Legal, Fits;
    IntLaws();
    forall i | 0 <= i < n ensures Lossless(INT_OPS, IntDims(), events[i]) { IntLossless(events[i]); }
    if !deferFree { EagerSafe(INT_OPS, num, states, events, n); }
    SafeRunConserves(INT_OPS, IntDims(), INT_BOUND, deferFree, num, states, events, n);
    var s := states[n];
    forall p | p in s.registeredIds.active
      ensures Total(IntX(), s.pool, p) + Total(IntX(), s.freed, p) + LiveTotal(IntX(), s.live, p) == s.registered[p].x
    {
      PiecesTotal(IntX(), s, p);
      assert IntDims()[0] == IntX();
      assert Total(IntDims()[0], Pieces(s), p) == IntDims()[0](s.registered[p]);
    }
  }

  /** In every eager run, with any number of resources, pool and reservations of a resource add up to what was registered. */
  lemma IntRunConserves(num: nat, states: seq<State<Int>>, events: seq<Event<Int>>, n: nat)
    requires LegalRun(INT_OPS, IntDims(), INT_BOUND, false, num, states, events) && n < |states|
    ensures AmountsKept(IntDims(), INT_BOUND, states[n])
    ensures forall p :: p in states[n].registeredIds.active ==>
              Total(IntX(), states[n].pool, p) + LiveTotal(IntX(), states[n].live, p) == states[n].registered[p].x
  {
    hide LegalRun, SafeCalls, Fits;
    IntSafeRunConserves(false, num, states, events, n);
    NothingQueued(num, states, events, n);
  }

  lemma NothingQueued(num: nat, states: seq<State<Int>>, events: seq<Event<Int>>, n: nat)
    requires LegalRun(INT_OPS, IntDims(), INT_BOUND, false, num, states, events) && n < |states|
    ensures states[n].freed == []
  {
    EagerQueue(INT_OPS, num, states, events, n);
  }

  /** In every deferred run whose requests name the one registered resource, amounts add up. */
  lemma IntOneResourceConserves(num: nat, states: seq<State<Int>>, events: seq<Event<Int>>, n: nat)
    requires LegalRun(INT_OPS, IntDims(), INT_BOUND, true, num, states, events) && n < |states|
    requires forall i :: 0 <= i < n && events[i].Alloc? ==> states[i].registeredIds.active == {events[i].req.parent}
    ensures AmountsKept(IntDims(), INT_BOUND, states[n]) && AddsUp(states[n])
  {
    hide IsStep, Legal, Safe, Kept, AddsUp;
    forall i | 0 <= i < n && events[i].Alloc? ensures Safe(INT_OPS, states[i].pool, states[i].freed, events[i].req) {
      RunKeeps(INT_OPS, true, num, states, events, i);
      OneResourceSafe(INT_OPS, IntDims(), INT_BOUND, states[i], events[i].req);
    }
    IntSafeRunConserves(true, num, states, events, n);
  }

  /**
   In every run, eager or deferred, whose earlier requests were safe: a request that
   names the one registered resource is served if and only if an external identifier
   is free and the request and the reservations together are at most the registered
   amount; a failed request changes nothing but the place of queued amounts.
   */
  lemma IntAllocExact(deferFree: bool, num: nat, states: seq<State<Int>>, events: seq<Event<Int>>, n: nat)
    requires LegalRun(INT_OPS, IntDims(), INT_BOUND, deferFree, num, states, events)
    requires n < |events| && events[n].Alloc? && states[n].registeredIds.active == {events[n].req.parent}
    requires deferFree ==> SafeCalls(INT_OPS, states, events, n)
    ensures events[n].req.parent < |states[n].registered|
    ensures var s, e, p := states[n], events[n], events[n].req.parent;
            e.reservation.Allocated? && e.found.Got? <==>
            && (exists id: nat :: id < |s.live| && id !in s.externalIds.active)
            && e.req.obj.x + LiveTotal(IntX(), s.live, p) <= s.registered[p].x
    ensures var s, e, s' := states[n], events[n], states[n + 1];
            !(e.reservation.Allocated? && e.found.Got?) ==>
              s' == s.(pool := s'.pool, freed := s'.freed) && SameSums(IntDims(), Pieces(s), Pieces(s')) && (s.freed == [] ==> s' == s)
  {
    hide Laws, SafeCalls, IsStep, Legal, Fits, SameSums;
    IntLaws();
    forall i | 0 <= i < n ensures Lossless(INT_OPS, IntDims(), events[i]) { IntLossless(events[i]); }
    RunAllocExact(INT_OPS, IntDims(), INT_BOUND, deferFree, num, states, events, n);
    IntFitsIff(states[n], events[n].req);
  }

  lemma IntFitsIff(s: State<Int>, req: Entry<Int>)
    requires s.Shaped() && req.parent < |s.registered|
    ensures FitsUnallocated(IntDims(), s, req.parent, req.obj) <==>
            req.obj.x + LiveTotal(IntX(), s.live, req.parent) <= s.registered[req.parent].x
  {
    assert IntDims()[0] == IntX() && |IntDims()| == 1;
    if req.obj.x + LiveTotal(IntX(), s.live, req.parent) <= s.registered[req.parent].x {
      assert forall k :: 0 <= k < |IntDims()| ==> IntDims()[k] == IntX();
    } else {
      assert !(IntDims()[0](req.obj) + LiveTotal(IntDims()[0], s.live, req.parent) <= IntDims()[0](s.registered[req.parent]));
    }
  }

  /**
   For integers, deferring frees is invisible without further condition: same
   calls on the one registered resource, same replies.
   */
  lemma IntDeferredIsInvisible(num: nat, eager: seq<State<Int>>, calls: seq<Event<Int>>,
                               deferred: seq<State<Int>>, calls': seq<Event<Int>>, n: nat)
    requires LegalRun(INT_OPS, IntDims(), INT_BOUND, false, num, eager, calls)
    requires LegalRun(INT_OPS, IntDims(), INT_BOUND, true, num, deferred, calls')
    requires |calls| == |calls'| && forall i :: 0 <= i < |calls| ==> SameCall(calls[i], calls'[i])
    requires forall i :: 0 <= i < |calls| && calls[i].Alloc? ==> eager[i].registeredIds.active == {calls[i].req.parent}
    requires n < |calls|
    ensures SameReply(calls[n], calls'[n])
  {
    hide Laws, Hereditary, Uniform, Lossless;
    IntLaws();
    IntHereditary();
    forall i | 0 <= i < |calls| ensures Lossless(INT_OPS, IntDims(), calls[i]) && Lossless(INT_OPS, IntDims(), calls'[i]) {
      IntLossless(calls[i]);
      IntLossless(calls'[i]);
    }
    IntFit(calls, false, num, eager);
    IntFit(calls', true, num, deferred);
    assert forall x :: AnyInt()(x);
    DeferredIsInvisible(INT_OPS, IntDims(), INT_BOUND, Anything(), NonNegative(), AnyInt(), num, eager, calls, deferred, calls', n);
  }

  lemma IntFit(events: seq<Event<Int>>, deferFree: bool, num: nat, states: seq<State<Int>>)
    requires LegalRun(INT_OPS, IntDims(), INT_BOUND, deferFree, num, states, events)
    ensures forall i :: 0 <= i < |events| && events[i].Register? ==> NonNegative()(events[i].obj)
  {
    forall i | 0 <= i < |events| && events[i].Register? ensures NonNegative()(events[i].obj) {
      assert Legal(IntDims(), INT_BOUND, events[i]);
      assert IntDims()[0](events[i].obj) == events[i].obj.x;
    }
  }

  /** The books of an integer allocator never move. */
  lemma {:induction false} IntBooksStay(deferFree: bool, num: nat, states: seq<State<Int>>, events: seq<Event<Int>>, n: nat)
    requires IsRun(INT_OPS, deferFree, num, states, events) && n < |states|
    ensures states[n].capacity == states[0].capacity && states[n].load == states[0].load
  {
    if n > 0 {
      IntBooksStay(deferFree, num, states, events, n - 1);
      var s, e, s' := states[n - 1], events[n - 1], states[n];
      assert IsStep(INT_OPS, deferFree, s, e, s');
      assert s'.capacity == s.capacity && s'.load == s.load;
    }
  }

  /**
   So the books are right only by chance: the load of a resource is the sum of its
   reservations if and only if that is zero, and capacity and load are what was ever
   registered if and only if that is zero.
   */
  lemma IntBooksRightIff(deferFree: bool, num: nat, states: seq<State<Int>>, events: seq<Event<Int>>, n: nat, p: nat)
    requires IsRun(INT_OPS, deferFree, num, states, events) && n < |states| && p < num
    ensures |states[n].load| == |states[n].capacity| == num
    ensures states[n].load[p].x == LiveTotal(IntX(), states[n].live, p) <==> LiveTotal(IntX(), states[n].live, p) == 0
    ensures states[n].capacity[p].x + states[n].load[p].x == EverRegistered(IntX(), events, n, p) <==> EverRegistered(IntX(), events, n, p) == 0
  {
    IntBooksStay(deferFree, num, states, events, n);
  }

  /** A concrete registration that the capacity does not show. */
  lemma RegistrationIsNotBooked()
    ensures var s := Initial(INT_OPS, 1);
            exists s' :: IsStep(INT_OPS, false, s, Event.Register(Int(5), Allocated(0)), s') && s'.capacity == [Int(0)]
  {
    var s, v := Initial(INT_OPS, 1), Entry(0, Int(5));
    var s' := s.(registered := [Int(5)], pool := [v], registeredIds := Db(1, {0}, 0));
    assert s.capacity == [Int(0)] && s.capacity[0 := IntUnchanged(s.capacity[0], Int(5))] == [Int(0)];
    assert s.registered[0 := Int(5)] == [Int(5)] && s.refCount[0 := 0] == s.refCount;
    assert InsertAt([], 0, v) == [v] && IsUpperBound(INT_OPS, [], v, 0);
    assert IsInsert(INT_OPS, [], v, [v]) && IsMergeByParent(INT_OPS, [], v, [v], 0);
    assert {} + {0} == {0};
    assert IsAlloc(s.registeredIds, s'.registeredIds, Allocated(0));
    assert IsStep(INT_OPS, false, s, Event.Register(Int(5), Allocated(0)), s');
  }
}
