/**
 The Rust workload generator: key construction and key selection.  Floating point is
 modelled over the reals, and random draws are arguments.
 */
module Workload {
  import opened Words
  import opened Bytes
  import opened Counting
  import opened Scenarios

  // ----- Keys -----

  datatype KeyPattern = Point | Session

  function SessionCount(keyCount: nat): (n: nat)
    ensures 1 <= n <= 4096
  {
    if keyCount < 1 then 1 else if keyCount > 4096 then 4096 else keyCount
  }

  function SessionKey(id: nat, chunk: nat): bytes {
    Ascii("s:bench-session-") + Hex(id, 4) + Ascii(":c:") + Hex(chunk, 16)
  }

  /** Consecutive indices go round the sessions. */
  function SpreadKey(sessions: nat, index: nat): bytes
    requires sessions >= 1
  {
    QuotientBound(index, sessions);
    SessionKey(index % sessions, index / sessions)
  }

  /** `build_key`. */
  function BuildKey(pattern: KeyPattern, keyCount: nat, index: Word): bytes {
    match pattern
    case Point => PointKey(index)
    case Session => SpreadKey(SessionCount(keyCount), index)
  }

  lemma Pieces(a: bytes, b: bytes, c: bytes, d: bytes, b': bytes, d': bytes)
    requires |b| == |b'| && a + b + c + d == a + b' + c + d'
    ensures b == b' && d == d'
  {
    var x, y := a + b + c + d, a + b' + c + d';
    var m, n := |a|, |a| + |b|;
    assert x[m..n] == b && x[n + |c|..] == d;
    assert y[m..n] == b' && y[n + |c|..] == d';
  }

  lemma SessionKeyInjective(a: nat, b: nat, c: nat, d: nat)
    requires a < 4096 && c < 4096 && b < WORD && d < WORD
    requires SessionKey(a, b) == SessionKey(c, d)
    ensures a == c && b == d
  {
    Pieces(Ascii("s:bench-session-"), Hex(a, 4), Ascii(":c:"), Hex(b, 16), Hex(c, 4), Hex(d, 16));
    HexFieldsInjective(a, b, c, d);
  }

  lemma HexFieldsInjective(a: nat, b: nat, c: nat, d: nat)
    requires a < 4096 && c < 4096 && b < WORD && d < WORD
    requires Hex(a, 4) == Hex(c, 4) && Hex(b, 16) == Hex(d, 16)
    ensures a == c && b == d
  {
    PowWord();
    HexInjective(a, c, 4);
    HexInjective(b, d, 16);
  }

  lemma Recompose(i: nat, j: nat, n: nat)
    requires n >= 1 && i / n == j / n && i % n == j % n
    ensures i == j
  {
    assert i == n * (i / n) + i % n;
    assert j == n * (j / n) + j % n;
  }

  lemma QuotientBound(i: nat, n: nat)
    requires n >= 1
    ensures 0 <= i / n <= i && i % n < n
  {
    var q := i / n;
    assert i == n * q + i % n;
    assert q >= 0;
    assert n * q >= q;
  }

  /** No two indices build the same key, in either pattern. */
  lemma BuiltKeysDistinct(pattern: KeyPattern, keyCount: nat, i: Word, j: Word)
    requires i != j
    ensures BuildKey(pattern, keyCount, i) != BuildKey(pattern, keyCount, j)
  {
    match pattern
    case Point =>
      PointKeysDistinct(i, j);
    case Session =>
      SessionKeysDistinct(SessionCount(keyCount), i, j);
  }

  lemma SessionKeysDistinct(n: nat, i: Word, j: Word)
    requires i != j && 1 <= n <= 4096
    ensures SpreadKey(n, i) != SpreadKey(n, j)
  {
    hide SessionKey;
    QuotientBound(i, n);
    QuotientBound(j, n);
    if SpreadKey(n, i) == SpreadKey(n, j) {
      SessionKeyInjective(i % n, i / n, j % n, j / n);
      Recompose(i, j, n);
    }
  }

  /** Two keys belong to one session exactly when their indices agree modulo the number of sessions. */
  lemma SameSessionIff(keyCount: nat, i: Word, j: Word)
    ensures var sessions := if keyCount == 0 then 1 else if keyCount <= 4096 then keyCount else 4096;
            var a, b := BuildKey(Session, keyCount, i), BuildKey(Session, keyCount, j);
            |a| == |b| == 39 && (a[..20] == b[..20] <==> i % sessions == j % sessions)
  {
    var n := SessionCount(keyCount);
    QuotientBound(i, n);
    QuotientBound(j, n);
    SessionPrefix(i % n, i / n, j % n, j / n);
  }

  lemma SessionPrefix(a: nat, b: nat, c: nat, d: nat)
    requires a < 4096 && c < 4096
    ensures |SessionKey(a, b)| == 39
    ensures SessionKey(a, b)[..20] == SessionKey(c, d)[..20] <==> a == c
  {
    hide Hex;
    var head := Ascii("s:bench-session-");
    assert SessionKey(a, b)[..20] == head + Hex(a, 4) && SessionKey(c, d)[..20] == head + Hex(c, 4);
    assert (head + Hex(a, 4))[16..] == Hex(a, 4) && (head + Hex(c, 4))[16..] == Hex(c, 4);
    if Hex(a, 4) == Hex(c, 4) {
      PowWord();
      HexInjective(a, c, 4);
    }
  }

  // ----- Hot-set selection -----

  datatype Selector =
    | Uniform(keyCount: nat)
    | HotSet(keyCount: nat, hotKeys: nat, hotPct: nat)

  datatype Span = Span(lo: nat, hi: nat)

  /** The distributions that draw from a range. */
  datatype Distribution = Even | Hot(hotKeys: nat, hotPct: nat)

  /** `KeySelector::new`, short of the Zipf table. */
  function NewSelector(keyCount: nat, d: Distribution): Selector
    requires keyCount > 0
  {
    match d
    case Even => Uniform(keyCount)
    case Hot(hotKeys, hotPct) => HotSet(keyCount, if hotKeys < keyCount then hotKeys else keyCount, hotPct)
  }

  /** The range the next index is drawn from, given the percentage draw. */
  function NextSpan(sel: Selector, draw: nat): Span {
    match sel
    case Uniform(n) => Span(0, n)
    case HotSet(n, hot, pct) => if hot >= n || draw < pct then Span(0, hot) else Span(hot, n)
  }

  /** Drawing from the span cannot panic and stays below the key count. */
  predicate Drawable(span: Span, keyCount: nat) {
    span.lo < span.hi <= keyCount
  }

  /** Some draw can give the index. */
  ghost predicate Reaches(sel: Selector, index: nat) {
    exists draw: nat :: draw < 100 && NextSpan(sel, draw).lo <= index < NextSpan(sel, draw).hi
  }

  /** Every draw is safe exactly when the selection is even or the hot set is non-empty or never chosen. */
  lemma SelectionSafeIff(keyCount: nat, d: Distribution)
    requires keyCount > 0
    ensures (forall draw: nat | draw < 100 :: Drawable(NextSpan(NewSelector(keyCount, d), draw), keyCount))
       <==> d.Even? || d.hotKeys >= 1 || d.hotPct == 0
  {
    if d.Hot? && d.hotKeys == 0 && d.hotPct > 0 {
      assert !Drawable(NextSpan(NewSelector(keyCount, d), 0), keyCount);
    }
  }

  /**
   An even selection reaches every index.  A hot one reaches every index exactly when all
   keys are hot, or the percentage leaves room for the rest and for the hot keys, if any.
   */
  lemma SelectionReaches(keyCount: nat, d: Distribution)
    requires keyCount > 0
    ensures (forall index: nat | index < keyCount :: Reaches(NewSelector(keyCount, d), index))
       <==> d.Even? || d.hotKeys >= keyCount || (d.hotPct < 100 && (d.hotPct > 0 || d.hotKeys == 0))
  {
    var sel := NewSelector(keyCount, d);
    forall index: nat | index < keyCount
      ensures Reaches(sel, index) <==> d.Even? || d.hotKeys >= keyCount
                                       || (if index < d.hotKeys then d.hotPct > 0 else d.hotPct < 100)
    {
      ReachesWhen(keyCount, d, index);
    }
    if d.Hot? && d.hotKeys < keyCount {
      assert Reaches(sel, keyCount - 1) <==> d.hotPct < 100;
      assert d.hotKeys > 0 ==> (Reaches(sel, 0) <==> d.hotPct > 0);
    }
  }

  lemma ReachesWhen(keyCount: nat, d: Distribution, index: nat)
    requires index < keyCount
    ensures Reaches(NewSelector(keyCount, d), index)
       <==> d.Even? || d.hotKeys >= keyCount || (if index < d.hotKeys then d.hotPct > 0 else d.hotPct < 100)
  {
    var sel := NewSelector(keyCount, d);
    assert NextSpan(sel, 0).lo <= index < NextSpan(sel, 0).hi ==> Reaches(sel, index);
    assert NextSpan(sel, 99).lo <= index < NextSpan(sel, 99).hi ==> Reaches(sel, index);
  }

  /** Every draw chooses the hot keys or the rest, the hot keys exactly below the percentage. */
  lemma HotWhen(keyCount: nat, hotKeys: nat, hotPct: nat, draw: nat)
    requires hotKeys < keyCount
    ensures var span := NextSpan(NewSelector(keyCount, Hot(hotKeys, hotPct)), draw);
            span == if draw < hotPct then Span(0, hotKeys) else Span(hotKeys, keyCount)
  {
  }

  ghost function HotDraws(keyCount: nat, hotKeys: nat, hotPct: nat, draws: nat): set<int>
    requires keyCount > 0
  {
    set draw | draw in Range(0, draws) && NextSpan(NewSelector(keyCount, Hot(hotKeys, hotPct)), draw) == Span(0, hotKeys)
  }

  /** As many of the hundred percentage draws choose the hot keys as the percentage says. */
  lemma HotShare(keyCount: nat, hotKeys: nat, hotPct: nat, draws: nat)
    requires hotKeys < keyCount
    ensures |HotDraws(keyCount, hotKeys, hotPct, draws)| == if hotPct < draws then hotPct else draws
  {
    hide NextSpan, NewSelector;
    forall draw: nat | draw < draws
      ensures draw in HotDraws(keyCount, hotKeys, hotPct, draws) <==> draw < hotPct
    {
      HotWhen(keyCount, hotKeys, hotPct, draw);
    }
    assert HotDraws(keyCount, hotKeys, hotPct, draws) == Range(0, if hotPct < draws then hotPct else draws);
  }

  // ----- Zipf selection -----

  function PrefixSum(weights: seq<real>, k: nat): real
    requires k <= |weights|
  {
    if k == 0 then 0.0 else PrefixSum(weights, k - 1) + weights[k - 1]
  }

  ghost predicate Positive(weights: seq<real>) {
    forall i | 0 <= i < |weights| :: weights[i] > 0.0
  }

  /** The share of the first `k` weights in the total. */
  function Share(weights: seq<real>, k: nat): real
    requires k <= |weights| && PrefixSum(weights, |weights|) > 0.0
  {
    PrefixSum(weights, k) / PrefixSum(weights, |weights|)
  }

  /** A table of cumulative shares of `weights`. */
  ghost predicate IsCdf(cdf: seq<real>, weights: seq<real>) {
    && |cdf| == |weights|
    && (cdf != [] ==> PrefixSum(weights, |weights|) > 0.0)
    && forall k | 0 <= k < |cdf| :: cdf[k] == Share(weights, k + 1)
  }

  lemma {:induction false} PrefixSumGrows(weights: seq<real>, j: nat, k: nat)
    requires Positive(weights) && j < k <= |weights|
    ensures PrefixSum(weights, j) < PrefixSum(weights, k)
    decreases k
  {
    if j < k - 1 {
      PrefixSumGrows(weights, j, k - 1);
    }
  }

  /** `build_zipf_cdf`: accumulate, rescale in place, then pin the last cutoff to one. */
  method BuildCdf(weights: seq<real>) returns (cdf: seq<real>)
    requires Positive(weights)
    ensures IsCdf(cdf, weights)
    ensures weights != [] ==> cdf[|cdf| - 1] == 1.0
  {
    cdf := [];
    var total := 0.0;
    for rank := 0 to |weights|
      invariant total == PrefixSum(weights, rank) && |cdf| == rank
      invariant forall k | 0 <= k < rank :: cdf[k] == PrefixSum(weights, k + 1)
    {
      total := total + weights[rank];
      cdf := cdf + [total];
    }
    if weights != [] {
      PrefixSumGrows(weights, 0, |weights|);
    }
    for i := 0 to |cdf|
      invariant |cdf| == |weights|
      invariant forall k | 0 <= k < i :: cdf[k] == PrefixSum(weights, k + 1) / total
      invariant forall k | i <= k < |cdf| :: cdf[k] == PrefixSum(weights, k + 1)
    {
      cdf := cdf[i := cdf[i] / total];
    }
    if cdf != [] {
      assert total / total == 1.0;
      cdf := cdf[|cdf| - 1 := 1.0];
    }
  }

  lemma ShareGrows(weights: seq<real>, j: nat, k: nat)
    requires Positive(weights) && j < k <= |weights| && PrefixSum(weights, |weights|) > 0.0
    ensures Share(weights, j) < Share(weights, k)
  {
    PrefixSumGrows(weights, j, k);
    Quotients(PrefixSum(weights, j), PrefixSum(weights, k), PrefixSum(weights, |weights|));
  }

  lemma ShareStep(weights: seq<real>, k: nat)
    requires k < |weights| && PrefixSum(weights, |weights|) > 0.0
    ensures Share(weights, k + 1) - Share(weights, k) == weights[k] / PrefixSum(weights, |weights|)
    ensures Share(weights, 0) == 0.0 && Share(weights, |weights|) == 1.0
  {
    var total := PrefixSum(weights, |weights|);
    Quotients(PrefixSum(weights, k), PrefixSum(weights, k + 1), total);
    assert total / total == 1.0;
    assert Share(weights, |weights|) == total / total;
  }

  lemma Quotients(a: real, b: real, t: real)
    requires t > 0.0
    ensures b / t - a / t == (b - a) / t
    ensures a < b ==> a / t < b / t
  {
    var x, y, z := b / t, a / t, (b - a) / t;
    assert x * t == b && y * t == a && z * t == b - a;
    assert (x - y - z) * t == 0.0;
    if a < b {
      PositiveFactor(z, t);
    }
  }

  lemma PositiveFactor(z: real, t: real)
    requires t > 0.0 && z * t > 0.0
    ensures z > 0.0
  {
  }

  ghost predicate Increasing(cdf: seq<real>) {
    forall j, k | 0 <= j < k < |cdf| :: cdf[j] < cdf[k]
  }

  lemma CdfIncreases(cdf: seq<real>, weights: seq<real>)
    requires IsCdf(cdf, weights) && Positive(weights)
    ensures Increasing(cdf)
  {
    forall j, k | 0 <= j < k < |cdf|
      ensures cdf[j] < cdf[k]
    {
      ShareGrows(weights, j + 1, k + 1);
    }
  }

  /** `cdf.partition_point(|c| c < sample)`. */
  function PartitionPoint(cdf: seq<real>, sample: real): (p: nat)
    ensures p <= |cdf|
    ensures forall k | 0 <= k < p :: cdf[k] < sample
    ensures p < |cdf| ==> cdf[p] >= sample
  {
    if cdf == [] || cdf[0] >= sample then 0 else 1 + PartitionPoint(cdf[1..], sample)
  }

  /** `next_key_index` for a Zipf selector. */
  function NextZipf(cdf: seq<real>, sample: real): nat {
    var p := PartitionPoint(cdf, sample);
    var last := if |cdf| == 0 then 0 else |cdf| - 1;
    if p < last then p else last
  }

  /** The sample lies above the cutoff before `k` and not above the cutoff of `k`. */
  predicate Between(cdf: seq<real>, sample: real, k: nat)
    requires k < |cdf|
  {
    (k == 0 || cdf[k - 1] < sample) && sample <= cdf[k]
  }

  lemma PicksBetween(cdf: seq<real>, sample: real, k: nat)
    requires Increasing(cdf) && k < |cdf| && cdf[|cdf| - 1] == 1.0 && sample <= 1.0
    ensures NextZipf(cdf, sample) < |cdf|
    ensures NextZipf(cdf, sample) == k <==> Between(cdf, sample, k)
  {
    var p := PartitionPoint(cdf, sample);
    assert p <= |cdf| - 1;
  }

  /**
   For every positive weight sequence the table increases to one, a sample picks `k`
   exactly when it lies between the cutoffs around `k`, and that interval has length
   `weight / total`.
   */
  lemma ZipfPicks(cdf: seq<real>, weights: seq<real>, sample: real, k: nat)
    requires IsCdf(cdf, weights) && Positive(weights) && k < |cdf|
    requires 0.0 <= sample <= 1.0
    ensures Increasing(cdf) && cdf[|cdf| - 1] == 1.0
    ensures NextZipf(cdf, sample) < |cdf|
    ensures NextZipf(cdf, sample) == k <==> Between(cdf, sample, k)
    ensures PrefixSum(weights, |weights|) > 0.0
    ensures cdf[k] - (if k == 0 then 0.0 else cdf[k - 1]) == weights[k] / PrefixSum(weights, |weights|)
  {
    CdfIncreases(cdf, weights);
    ShareStep(weights, k);
    assert cdf[|cdf| - 1] == Share(weights, |weights|);
    PicksBetween(cdf, sample, k);
  }
}
