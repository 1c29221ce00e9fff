/**
 Counters and hash inputs gathered over a table, range by range.  A tally adds its
 counters and appends its bytes, so the walk over the workers' ranges sums to the tally
 of the whole table.
 */
module Tallies {
  import opened Bytes
  import opened Framing
  import opened Phases

  /** What a walk gathers; a `Counter` of command names is a multiset. */
  datatype Tally = Tally(
    live: nat,
    logical: nat,
    operations: nat,
    transactions: nat,
    checks: nat,
    mix: multiset<bytes>,
    checkMix: multiset<bytes>,
    state: bytes,
    mutation: bytes,
    verification: bytes)

  const ZERO: Tally := Tally(0, 0, 0, 0, 0, multiset{}, multiset{}, [], [], [])

  function Add(a: Tally, b: Tally): Tally {
    Tally(a.live + b.live, a.logical + b.logical, a.operations + b.operations, a.transactions + b.transactions,
          a.checks + b.checks, a.mix + b.mix, a.checkMix + b.checkMix,
          a.state + b.state, a.mutation + b.mutation, a.verification + b.verification)
  }

  lemma AddAssociates(a: Tally, b: Tally, c: Tally)
    ensures Add(Add(a, b), c) == Add(a, Add(b, c))
  {
    assert a.state + b.state + c.state == a.state + (b.state + c.state);
    assert a.mutation + b.mutation + c.mutation == a.mutation + (b.mutation + c.mutation);
    assert a.verification + b.verification + c.verification == a.verification + (b.verification + c.verification);
  }

  lemma AddZero(a: Tally)
    ensures Add(a, ZERO) == a && Add(ZERO, a) == a
  {
    assert a.state + [] == a.state && a.mutation + [] == a.mutation && a.verification + [] == a.verification;
    assert [] + a.state == a.state && [] + a.mutation == a.mutation && [] + a.verification == a.verification;
  }

  lemma TalliesAdd()
    ensures Monoid(Add, ZERO)
  {
    forall a, b, c
      ensures Add(Add(a, b), c) == Add(a, Add(b, c))
    {
      AddAssociates(a, b, c);
    }
    forall a
      ensures Add(a, ZERO) == a && Add(ZERO, a) == a
    {
      AddZero(a);
    }
  }

  // ----- Sums in any monoid -----

  ghost predicate Monoid<T(!new)>(add: (T, T) -> T, zero: T) {
    && (forall a, b, c :: add(add(a, b), c) == add(a, add(b, c)))
    && (forall a :: add(a, zero) == a && add(zero, a) == a)
  }

  function Sum<T>(add: (T, T) -> T, zero: T, items: seq<T>): T {
    if items == [] then zero else add(Sum(add, zero, items[..|items| - 1]), items[|items| - 1])
  }

  lemma SumAppend<T>(add: (T, T) -> T, zero: T, items: seq<T>, t: T)
    ensures Sum(add, zero, items + [t]) == add(Sum(add, zero, items), t)
  {
    assert (items + [t])[..|items|] == items;
  }

  /** The sum of a split walk is the sum of its parts. */
  lemma {:induction false} SumConcat<T(!new)>(add: (T, T) -> T, zero: T, a: seq<T>, b: seq<T>)
    requires Monoid(add, zero)
    ensures Sum(add, zero, a + b) == add(Sum(add, zero, a), Sum(add, zero, b))
    decreases |b|
  {
    if b == [] {
      assert a + b == a;
    } else {
      var n := |b| - 1;
      SumConcat(add, zero, a, b[..n]);
      assert a + b == (a + b[..n]) + [b[n]];
      SumAppend(add, zero, a + b[..n], b[n]);
    }
  }

  /** A worker's part of a table. */
  function Part<T>(table: seq<T>, worker: nat): seq<T>
    requires worker < WORKERS
  {
    RangesTile(|table|, worker);
    table[RangeStart(|table|, worker)..RangeStart(|table|, worker + 1)]
  }

  function Parts16<T>(table: seq<T>): (r: seq<seq<T>>)
    ensures |r| == WORKERS
    ensures forall w | 0 <= w < WORKERS :: r[w] == Part(table, w)
  {
    seq(WORKERS, w requires 0 <= w < WORKERS => Part(table, w))
  }

  lemma PartsAll<T>(ok: T -> bool, table: seq<T>)
    requires All(ok, table)
    ensures forall w | 0 <= w < WORKERS :: All(ok, Parts16(table)[w])
  {
    forall w | 0 <= w < WORKERS
      ensures All(ok, Parts16(table)[w])
    {
      RangesTile(|table|, w);
    }
  }

  /** The first `n` parts, joined. */
  function Join<T>(parts: seq<seq<T>>, n: nat): seq<T>
    requires n <= |parts|
  {
    if n == 0 then [] else Join(parts, n - 1) + parts[n - 1]
  }

  lemma {:induction false} JoinParts<T>(table: seq<T>, n: nat)
    requires n <= WORKERS
    ensures RangeStart(|table|, n) <= |table| && Join(Parts16(table), n) == table[..RangeStart(|table|, n)]
    decreases n
  {
    hide RangeStart;
    if n == 0 {
      RangesTile(|table|, 0);
    } else {
      RangesTile(|table|, n - 1);
      JoinParts(table, n - 1);
      var lo, hi := RangeStart(|table|, n - 1), RangeStart(|table|, n);
      assert table[..hi] == table[..lo] + table[lo..hi];
    }
  }

  /** The sixteen parts determine the table. */
  lemma PartsDetermine<T>(a: seq<T>, b: seq<T>)
    requires Parts16(a) == Parts16(b)
    ensures a == b
  {
    JoinParts(a, WORKERS);
    JoinParts(b, WORKERS);
    RangesTile(|a|, 0);
    RangesTile(|b|, 0);
    assert a[..|a|] == a && b[..|b|] == b;
  }

  /** One more item of a worker's range. */
  lemma RangeSumStep<T>(add: (T, T) -> T, zero: T, items: seq<T>, lo: nat, i: nat)
    requires lo <= i < |items|
    ensures Sum(add, zero, items[lo..i + 1]) == add(Sum(add, zero, items[lo..i]), items[i])
  {
    assert items[lo..i + 1] == items[lo..i] + [items[i]];
    SumAppend(add, zero, items[lo..i], items[i]);
  }

  lemma SumOfNothing<T>(add: (T, T) -> T, zero: T)
    ensures Sum(add, zero, []) == zero
  {
  }

  /** The sum of every part. */
  function Sums<T>(add: (T, T) -> T, zero: T, parts: seq<seq<T>>): (r: seq<T>)
    ensures |r| == |parts|
    ensures forall w | 0 <= w < |parts| :: r[w] == Sum(add, zero, parts[w])
  {
    seq(|parts|, w requires 0 <= w < |parts| => Sum(add, zero, parts[w]))
  }

  lemma {:induction false} SumsJoin<T(!new)>(add: (T, T) -> T, zero: T, parts: seq<seq<T>>, n: nat)
    requires Monoid(add, zero) && n <= |parts|
    ensures Sum(add, zero, Sums(add, zero, parts)[..n]) == Sum(add, zero, Join(parts, n))
    decreases n
  {
    hide Monoid;
    if n > 0 {
      SumsJoin(add, zero, parts, n - 1);
      var sums := Sums(add, zero, parts);
      assert sums[..n] == sums[..n - 1] + [sums[n - 1]];
      SumAppend(add, zero, sums[..n - 1], sums[n - 1]);
      SumConcat(add, zero, Join(parts, n - 1), parts[n - 1]);
    }
  }

  /** The sums of the sixteen workers' parts add up to the sum of the table. */
  lemma PartsSum<T(!new)>(add: (T, T) -> T, zero: T, items: seq<T>)
    requires Monoid(add, zero)
    ensures Sum(add, zero, Sums(add, zero, Parts16(items))) == Sum(add, zero, items)
  {
    hide Monoid, Sum;
    var sums := Sums(add, zero, Parts16(items));
    SumsJoin(add, zero, Parts16(items), WORKERS);
    JoinParts(items, WORKERS);
    RangesTile(|items|, 0);
    assert items[..|items|] == items;
    assert sums[..WORKERS] == sums;
  }

  // ----- Feeding a list of items -----

  function Images<T>(f: T -> bytes, items: seq<T>): (r: seq<bytes>)
    ensures |r| == |items|
    ensures forall i | 0 <= i < |items| :: r[i] == f(items[i])
  {
    seq(|items|, i requires 0 <= i < |items| => f(items[i]))
  }

  /** The loop over an index's commands: frame each, count each by name. */
  method Feed<T>(frame: T -> bytes, name: T -> bytes, items: seq<T>) returns (fed: bytes, mix: multiset<bytes>)
    ensures fed == Stream(frame, items)
    ensures mix == multiset(Images(name, items))
  {
    fed, mix := [], multiset{};
    for i := 0 to |items|
      invariant fed == Stream(frame, items[..i])
      invariant mix == multiset(Images(name, items[..i]))
    {
      assert items[..i + 1] == items[..i] + [items[i]];
      StreamAppend(frame, items[..i], items[i]);
      assert Images(name, items[..i + 1]) == Images(name, items[..i]) + [name(items[i])];
      fed := fed + frame(items[i]);
      mix := mix + multiset{name(items[i])};
    }
    assert items[..|items|] == items;
  }
}
