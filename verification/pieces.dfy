/**
 What an allocator's objects are divided into: the entries of the free pool, of
 the queue of freed objects and of the table of reservations.
 */
module AllocatorPieces {
  import opened Options
  import opened Pool
  import opened Totals
  import opened Allocator

  /** The reservations of a table, in order. */
  function Flat<T>(live: seq<Option<Entry<T>>>): seq<Entry<T>> {
    if live == [] then []
    else
      var rest, last := Flat(live[..|live| - 1]), live[|live| - 1];
      if last.Some? then rest + [last.value] else rest
  }

  lemma {:induction false} FlatTotal<T>(m: T -> int, live: seq<Option<Entry<T>>>, p: nat)
    ensures Total(m, Flat(live), p) == LiveTotal(m, live, p)
  {
    if live != [] {
      FlatTotal(m, live[..|live| - 1], p);
      var last := live[|live| - 1];
      if last.Some? {
        TotalConcat(m, Flat(live[..|live| - 1]), [last.value], p);
        TotalSingle(m, last.value, p);
      }
    }
  }

  /** An entry of the flat list is a reservation, and the other way round. */
  lemma {:induction false} FlatHas<T>(live: seq<Option<Entry<T>>>)
    ensures forall i :: 0 <= i < |Flat(live)| ==> Some(Flat(live)[i]) in live
    ensures forall id :: 0 <= id < |live| && live[id].Some? ==> live[id].value in Flat(live)
  {
    if live != [] {
      FlatHas(live[..|live| - 1]);
      assert live == live[..|live| - 1] + [live[|live| - 1]];
    }
  }

  /** All pieces of all resources: free, queued and reserved. */
  function Pieces<T>(s: State<T>): seq<Entry<T>> {
    s.pool + s.freed + Flat(s.live)
  }

  lemma PiecesTotal<T>(m: T -> int, s: State<T>, p: nat)
    ensures Total(m, Pieces(s), p) == Total(m, s.pool, p) + Total(m, s.freed, p) + LiveTotal(m, s.live, p)
  {
    TotalConcat(m, s.pool + s.freed, Flat(s.live), p);
    TotalConcat(m, s.pool, s.freed, p);
    FlatTotal(m, s.live, p);
  }

  lemma FlatParents<T>(s: State<T>)
    requires Kept(s)
    ensures ParentsIn(Flat(s.live), s.registeredIds.active)
  {
    FlatHas(s.live);
    forall i | 0 <= i < |Flat(s.live)| ensures Flat(s.live)[i].parent in s.registeredIds.active {
      assert Some(Flat(s.live)[i]) in s.live;
    }
  }

  lemma PiecesParents<T>(s: State<T>)
    requires Kept(s)
    ensures ParentsIn(Pieces(s), s.registeredIds.active)
  {
    FlatParents(s);
  }

  lemma InitialPieces<T>(ops: Ops<T>, num: nat)
    ensures Pieces(Initial(ops, num)) == []
  {
    NothingLive<T>(num);
  }

  lemma {:induction false} NothingLive<T>(num: nat)
    ensures Flat<T>(seq(num, _ => None)) == []
  {
    var live: seq<Option<Entry<T>>> := seq(num, _ => None);
    if num > 0 {
      NothingLive<T>(num - 1);
      assert live[..num - 1] == seq(num - 1, _ => None);
    }
  }

  /** An eager build never queues anything across calls, so it never drops anything. */
  lemma {:induction false} EagerQueue<T(!new)>(ops: Ops<T>, num: nat, states: seq<State<T>>, events: seq<Event<T>>, n: nat)
    requires IsRun(ops, false, num, states, events) && n < |states|
    ensures states[n].freed == []
    ensures n < |events| && events[n].Alloc? ==> events[n].lost == []
  {
    if n > 0 {
      EagerQueue(ops, num, states, events, n - 1);
      assert IsStep(ops, false, states[n - 1], events[n - 1], states[n]);
    }
    if n < |events| { assert IsStep(ops, false, states[n], events[n], states[n + 1]); }
  }
}
