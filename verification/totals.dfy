/**
 Sums over pools, queues and tables of reservations.  A measure gives every
 object an integer; `Total` adds it up over the entries of one parent.
 */
module Totals {
  import opened Options
  import opened Pool

  /** The share of one entry in a total for parent p. */
  function Share<T>(m: T -> int, e: Entry<T>, p: nat): int {
    if e.parent == p then m(e.obj) else 0
  }

  function Total<T>(m: T -> int, es: seq<Entry<T>>, p: nat): int {
    if es == [] then 0 else Total(m, es[..|es| - 1], p) + Share(m, es[|es| - 1], p)
  }

  function LiveShare<T>(m: T -> int, e: Option<Entry<T>>, p: nat): int {
    if e.Some? then Share(m, e.value, p) else 0
  }

  function LiveTotal<T>(m: T -> int, live: seq<Option<Entry<T>>>, p: nat): int {
    if live == [] then 0 else LiveTotal(m, live[..|live| - 1], p) + LiveShare(m, live[|live| - 1], p)
  }

  /** The measure that counts. */
  function One<T>(): T -> int {
    _ => 1
  }

  lemma {:induction false} TotalConcat<T>(m: T -> int, a: seq<Entry<T>>, b: seq<Entry<T>>, p: nat)
    ensures Total(m, a + b, p) == Total(m, a, p) + Total(m, b, p)
  {
    if b == [] {
      assert a + b == a;
    } else {
      TotalConcat(m, a, b[..|b| - 1], p);
      assert (a + b)[..|a + b| - 1] == a + b[..|b| - 1];
    }
  }

  lemma TotalSingle<T>(m: T -> int, e: Entry<T>, p: nat)
    ensures Total(m, [e], p) == Share(m, e, p)
  {
    assert [e][..0] == [];
    assert Total(m, [e][..0], p) == 0;
  }

  lemma TotalInsert<T>(m: T -> int, es: seq<Entry<T>>, i: nat, v: Entry<T>, p: nat)
    requires i <= |es|
    ensures Total(m, InsertAt(es, i, v), p) == Total(m, es, p) + Share(m, v, p)
  {
    TotalConcat(m, es[..i], es[i..], p);
    assert es[..i] + es[i..] == es;
    TotalConcat(m, es[..i] + [v], es[i..], p);
    TotalConcat(m, es[..i], [v], p);
    TotalSingle(m, v, p);
  }

  lemma TotalRemove<T>(m: T -> int, es: seq<Entry<T>>, i: nat, p: nat)
    requires i < |es|
    ensures Total(m, RemoveAt(es, i), p) == Total(m, es, p) - Share(m, es[i], p)
  {
    TotalInsert(m, RemoveAt(es, i), i, es[i], p);
    assert InsertAt(RemoveAt(es, i), i, es[i]) == es;
  }

  lemma IsInsertTotal<T>(ops: Ops<T>, m: T -> int, pool: seq<Entry<T>>, v: Entry<T>, pool': seq<Entry<T>>, p: nat)
    requires IsInsert(ops, pool, v, pool')
    ensures Total(m, pool', p) == Total(m, pool, p) + Share(m, v, p)
  {
    var i: nat :| IsUpperBound(ops, pool, v, i) && pool' == InsertAt(pool, i, v);
    TotalInsert(m, pool, i, v, p);
  }

  lemma IsReplaceTotal<T>(ops: Ops<T>, m: T -> int, pool: seq<Entry<T>>, i: nat, v: Entry<T>, pool': seq<Entry<T>>, p: nat)
    requires IsReplace(ops, pool, i, v, pool')
    ensures Total(m, pool', p) == Total(m, pool, p) - Share(m, pool[i], p) + Share(m, v, p)
  {
    IsInsertTotal(ops, m, RemoveAt(pool, i), v, pool', p);
    TotalRemove(m, pool, i, p);
  }

  lemma {:induction false} LiveTotalUpdate<T>(m: T -> int, live: seq<Option<Entry<T>>>, i: nat, v: Option<Entry<T>>, p: nat)
    requires i < |live|
    ensures LiveTotal(m, live[i := v], p) == LiveTotal(m, live, p) - LiveShare(m, live[i], p) + LiveShare(m, v, p)
  {
    var n := |live| - 1;
    if i < n {
      LiveTotalUpdate(m, live[..n], i, v, p);
      assert live[i := v][..n] == live[..n][i := v];
    } else {
      assert live[i := v][..n] == live[..n];
    }
  }

  lemma {:induction false} LiveTotalNone<T>(m: T -> int, live: seq<Option<Entry<T>>>, p: nat)
    requires forall i :: 0 <= i < |live| && live[i].Some? ==> live[i].value.parent != p
    ensures LiveTotal(m, live, p) == 0
  {
    if live != [] { LiveTotalNone(m, live[..|live| - 1], p); }
  }

  lemma {:induction false} TotalNone<T>(m: T -> int, es: seq<Entry<T>>, p: nat)
    requires forall i :: 0 <= i < |es| ==> es[i].parent != p
    ensures Total(m, es, p) == 0
  {
    if es != [] { TotalNone(m, es[..|es| - 1], p); }
  }

  /** With a measure that is never negative, a total is at least any one of its shares. */
  lemma {:induction false} TotalAtLeast<T>(m: T -> int, es: seq<Entry<T>>, p: nat)
    requires forall i :: 0 <= i < |es| && es[i].parent == p ==> m(es[i].obj) >= 0
    ensures Total(m, es, p) >= 0
    ensures forall i :: 0 <= i < |es| ==> Total(m, es, p) >= Share(m, es[i], p)
  {
    if es != [] {
      var n := |es| - 1;
      TotalAtLeast(m, es[..n], p);
      forall i | 0 <= i < |es| ensures Total(m, es, p) >= Share(m, es[i], p) {
        if i < n { assert es[i] == es[..n][i]; }
      }
    }
  }

  lemma {:induction false} LiveTotalAtLeast<T>(m: T -> int, live: seq<Option<Entry<T>>>, p: nat)
    requires forall i :: 0 <= i < |live| && live[i].Some? && live[i].value.parent == p ==> m(live[i].value.obj) >= 0
    ensures LiveTotal(m, live, p) >= 0
    ensures forall i :: 0 <= i < |live| ==> LiveTotal(m, live, p) >= LiveShare(m, live[i], p)
  {
    if live != [] {
      var n := |live| - 1;
      LiveTotalAtLeast(m, live[..n], p);
      forall i | 0 <= i < |live| ensures LiveTotal(m, live, p) >= LiveShare(m, live[i], p) {
        if i < n { assert live[i] == live[..n][i]; }
      }
    }
  }

  /** Two entries of p, at different places, both fit in the total. */
  lemma TotalAtLeastTwo<T>(m: T -> int, es: seq<Entry<T>>, i: nat, j: nat, p: nat)
    requires i < j < |es|
    requires forall k :: 0 <= k < |es| && es[k].parent == p ==> m(es[k].obj) >= 0
    ensures Total(m, es, p) >= Share(m, es[i], p) + Share(m, es[j], p)
  {
    TotalRemove(m, es, j, p);
    TotalAtLeast(m, RemoveAt(es, j), p);
    assert RemoveAt(es, j)[i] == es[i];
  }

  /** The number of reservations of p is zero exactly when there is none. */
  lemma LiveCountZero<T>(live: seq<Option<Entry<T>>>, p: nat)
    ensures LiveTotal(One(), live, p) >= 0
    ensures LiveTotal(One(), live, p) == 0 <==> forall i :: 0 <= i < |live| && live[i].Some? ==> live[i].value.parent != p
  {
    LiveTotalAtLeast(One(), live, p);
    if forall i :: 0 <= i < |live| && live[i].Some? ==> live[i].value.parent != p {
      LiveTotalNone(One(), live, p);
    }
  }
}
