/**
 The bounded rejection sampler behind the steady workload.  Its loop tries
 `threshold + 1` candidate words; the final `raise` is dead because the candidates are
 pairwise distinct and only `threshold` words are rejected.
 */
module Sampler {
  import opened Words
  import opened Counting
  import opened Wrappers

  const HWM_SEED: Word := 0xC0FFEE

  /** `(-cardinality & mask) % cardinality`. */
  function Threshold(cardinality: nat): (t: Word)
    requires cardinality > 0
    ensures t < cardinality
  {
    var negated: Word := (0 - cardinality) % WORD;
    negated % cardinality
  }

  function Start(worker: nat, sequence: nat): nat {
    Xor(Xor(HWM_SEED, worker * 0x1_0000_0000), sequence)
  }

  /** The worker and the sequence number occupy different bits of the start word. */
  lemma StartIsPacked(worker: nat, sequence: nat)
    requires sequence < 0x1_0000_0000
    ensures Start(worker, sequence) == Xor(HWM_SEED, worker * 0x1_0000_0000 + sequence)
  {
    PowWord();
    XorAssociates(HWM_SEED, worker * 0x1_0000_0000, sequence);
    XorDisjoint(worker, sequence, 32);
  }

  /** No two requests share a start word: the worker and the sequence number can be read off it. */
  lemma StartInjective(w: nat, q: nat, v: nat, p: nat)
    requires q < 0x1_0000_0000 && p < 0x1_0000_0000 && Start(w, q) == Start(v, p)
    ensures w == v && q == p
  {
    StartIsPacked(w, q);
    StartIsPacked(v, p);
    XorCancels(HWM_SEED, w * 0x1_0000_0000 + q);
    XorCancels(HWM_SEED, v * 0x1_0000_0000 + p);
    DivUnique(w * 0x1_0000_0000 + q, 0x1_0000_0000, w, q);
    DivUnique(v * 0x1_0000_0000 + p, 0x1_0000_0000, v, p);
  }

  /** The word tried on the given retry. */
  function Candidate(start: nat, retry: nat): Word {
    Mix(Weyl(start, retry))
  }

  predicate Accepts(cardinality: nat, word: Word)
    requires cardinality > 0
  {
    word >= Threshold(cardinality)
  }

  ghost predicate FirstAccepted(start: nat, cardinality: nat, retry: nat)
    requires cardinality > 0
  {
    && Accepts(cardinality, Candidate(start, retry))
    && forall j: nat | j < retry :: !Accepts(cardinality, Candidate(start, j))
  }

  lemma CandidatesDistinct(start: nat, j: Word, k: Word)
    requires Candidate(start, j) == Candidate(start, k)
    ensures j == k
  {
    MixInjective(Weyl(start, j), Weyl(start, k));
    WeylDistinct(start, j, k);
  }

  lemma StartIsWord(worker: nat, sequence: nat)
    requires worker < 0x1_0000_0000 && sequence < 0x1_0000_0000
    ensures Start(worker, sequence) < WORD
  {
    StartIsPacked(worker, sequence);
    XorWord(HWM_SEED, worker * 0x1_0000_0000 + sequence);
  }

  /** Any two different requests, of one worker or of two, try different words on every retry they share. */
  lemma RequestsDiffer(w: nat, q: nat, v: nat, p: nat, retry: nat)
    requires w < 0x1_0000_0000 && v < 0x1_0000_0000 && q < 0x1_0000_0000 && p < 0x1_0000_0000
    requires Candidate(Start(w, q), retry) == Candidate(Start(v, p), retry)
    ensures w == v && q == p
  {
    hide Mix, Start;
    StartIsWord(w, q);
    StartIsWord(v, p);
    MixInjective(Weyl(Start(w, q), retry), Weyl(Start(v, p), retry));
    WeylOffset(Start(w, q), Start(v, p), retry);
    StartInjective(w, q, v, p);
  }

  /** Two starting points stay apart. */
  lemma WeylOffset(s: Word, t: Word, k: nat)
    requires Weyl(s, k) == Weyl(t, k)
    ensures s == t
  {
    var a, b := s + k * GAMMA, t + k * GAMMA;
    var m := a / WORD - b / WORD;
    assert s - t == m * WORD;
    SameRemainder(s, t, WORD, m);
    DivUnique(s, WORD, 0, s);
    DivUnique(t, WORD, 0, t);
  }

  /** Pigeonhole: one of `threshold + 1` candidates is accepted, whatever the cardinality. */
  lemma SomeCandidateAccepted(start: nat, cardinality: nat)
    requires cardinality > 0
    ensures exists retry: nat :: retry <= Threshold(cardinality) && Accepts(cardinality, Candidate(start, retry))
  {
    var t: nat := Threshold(cardinality);
    var f: int -> nat := (k: int) => if k < 0 then 0 else Candidate(start, k);
    forall j, k | j in Range(0, t + 1) && k in Range(0, t + 1) && f(j) == f(k)
      ensures j == k
    {
      CandidatesDistinct(start, j, k);
    }
    Pigeonhole(t, f);
    var k: nat :| k <= t && f(k) >= t;
    assert Accepts(cardinality, Candidate(start, k));
  }

  /** The rank drawn for a worker's request: the residue of the first accepted candidate. */
  ghost function Rank(worker: nat, sequence: nat, cardinality: nat): (r: nat)
    requires cardinality > 0
    ensures r < cardinality
    ensures exists k: nat :: k <= Threshold(cardinality) && FirstAccepted(Start(worker, sequence), cardinality, k)
                             && r == Candidate(Start(worker, sequence), k) % cardinality
  {
    var k := FirstRetry(Start(worker, sequence), cardinality, 0);
    Candidate(Start(worker, sequence), k) % cardinality
  }

  ghost function FirstRetry(start: nat, cardinality: nat, from: nat): (k: nat)
    requires cardinality > 0 && from <= Threshold(cardinality)
    requires forall j: nat | j < from :: !Accepts(cardinality, Candidate(start, j))
    ensures from <= k <= Threshold(cardinality) && FirstAccepted(start, cardinality, k)
    decreases Threshold(cardinality) - from
  {
    SomeCandidateAccepted(start, cardinality);
    if Accepts(cardinality, Candidate(start, from)) then from else FirstRetry(start, cardinality, from + 1)
  }

  datatype RankError = EmptyDomain | BoundViolated

  /** `hwm_uniform_rank`: the loop of retries with both of its error exits. */
  method UniformRank(worker: nat, sequence: nat, cardinality: int) returns (r: Result<nat, RankError>)
    ensures cardinality <= 0 ==> r == Failure(EmptyDomain)
    ensures cardinality > 0 ==> r == Success(Rank(worker, sequence, cardinality))
  {
    if cardinality <= 0 {
      return Failure(EmptyDomain);
    }
    var threshold := Threshold(cardinality);
    var start := Start(worker, sequence);
    for retry := 0 to threshold + 1
      invariant forall j: nat | j < retry :: !Accepts(cardinality, Candidate(start, j))
    {
      var word := Candidate(start, retry);
      if word >= threshold {
        FirstAcceptedUnique(start, cardinality, retry, FirstRetry(start, cardinality, 0));
        return Success(word % cardinality);
      }
    }
    SomeCandidateAccepted(start, cardinality);
    assert false;
    return Failure(BoundViolated);
  }

  lemma FirstAcceptedUnique(start: nat, cardinality: nat, j: nat, k: nat)
    requires cardinality > 0
    requires FirstAccepted(start, cardinality, j) && FirstAccepted(start, cardinality, k)
    ensures j == k
  {
  }

  // ----- Uniformity -----

  function WordCount(): nat {
    WORD
  }

  ghost function Residues(lo: int, hi: int, cardinality: nat, rank: nat): set<int>
    requires cardinality > 0
  {
    set w | w in Range(lo, hi) && w % cardinality == rank
  }

  /** The accepted words whose residue is `rank`. */
  ghost function AcceptedFor(cardinality: nat, rank: nat): set<int>
    requires cardinality > 0
  {
    Residues(Threshold(cardinality), WordCount(), cardinality, rank)
  }

  ghost predicate Uniform(cardinality: nat)
    requires cardinality > 0
  {
    forall r: nat, r': nat | r < cardinality && r' < cardinality ::
      |AcceptedFor(cardinality, r)| == |AcceptedFor(cardinality, r')|
  }

  lemma {:induction false} ResidueCount(lo: int, hi: int, cardinality: nat, blocks: nat, rank: nat)
    requires rank < cardinality && hi == lo + blocks * cardinality
    ensures |Residues(lo, hi, cardinality, rank)| == blocks
    decreases blocks
  {
    if blocks == 0 {
      assert Residues(lo, hi, cardinality, rank) == {};
    } else {
      var mid := hi - cardinality;
      assert mid == lo + (blocks - 1) * cardinality;
      assert mid >= lo;
      ResidueCount(lo, mid, cardinality, blocks - 1, rank);
      var hit := mid + (rank - mid) % cardinality;
      OneResiduePerBlock(mid, cardinality, rank);
      assert Residues(lo, hi, cardinality, rank) == Residues(lo, mid, cardinality, rank) + {hit};
    }
  }

  lemma OneResiduePerBlock(lo: int, cardinality: nat, rank: nat)
    requires rank < cardinality
    ensures forall w | lo <= w < lo + cardinality :: w % cardinality == rank <==> w == lo + (rank - lo) % cardinality
  {
    forall w | lo <= w < lo + cardinality
      ensures w % cardinality == rank <==> w == lo + (rank - lo) % cardinality
    {
      var q, d := w / cardinality, w - lo;
      var q', e := (rank - lo) / cardinality, (rank - lo) % cardinality;
      if w % cardinality == rank {
        DivUnique(rank - lo, cardinality, -q, d);
      }
      if d == e {
        assert w == rank - q' * cardinality;
        DivUnique(w, cardinality, -q', rank);
      }
    }
  }

  /**
   Every residue is hit by the same number of accepted words exactly when the
   cardinality fits the word size; that number is then `2^64 / cardinality`.
   */
  lemma UniformIffWordSized(cardinality: nat)
    requires cardinality > 0
    ensures Uniform(cardinality) <==> cardinality <= WORD
    ensures cardinality <= WORD ==>
              forall r: nat | r < cardinality :: |AcceptedFor(cardinality, r)| == WORD / cardinality
  {
    if cardinality <= WORD {
      forall r: nat | r < cardinality
        ensures |AcceptedFor(cardinality, r)| == WORD / cardinality
      {
        AcceptedCount(cardinality, r);
      }
    } else {
      OversizedIsBiased(cardinality);
    }
  }

  lemma AcceptedCount(cardinality: nat, rank: nat)
    requires rank < cardinality <= WORD
    ensures |AcceptedFor(cardinality, rank)| == WORD / cardinality
  {
    ThresholdIsRemainder(cardinality);
    ResidueCount(Threshold(cardinality), WordCount(), cardinality, WORD / cardinality, rank);
  }

  lemma OversizedIsBiased(cardinality: nat)
    requires cardinality > WORD
    ensures |AcceptedFor(cardinality, WORD - 1)| > 0 && |AcceptedFor(cardinality, WORD)| == 0
  {
    DivUnique(WORD - 1, cardinality, 0, WORD - 1);
    assert WORD - 1 in AcceptedFor(cardinality, WORD - 1);
    forall w | w in AcceptedFor(cardinality, WORD)
      ensures false
    {
      DivUnique(w, cardinality, 0, w);
    }
  }

  lemma ThresholdIsRemainder(cardinality: nat)
    requires 0 < cardinality <= WORD
    ensures Threshold(cardinality) == WORD % cardinality
  {
    if cardinality < WORD {
      DivUnique(0 - cardinality, WORD, -1, WORD - cardinality);
      var q, r := WORD / cardinality, WORD % cardinality;
      assert WORD - cardinality == (q - 1) * cardinality + r;
      DivUnique(WORD - cardinality, cardinality, q - 1, r);
    }
  }

  function MixOrSelf(w: int): int {
    if 0 <= w < WORD then Mix(w) else w
  }

  function UnMixOrSelf(w: int): int {
    if 0 <= w < WORD then UnMix(w) else w
  }

  lemma MixPermutes()
    ensures InversesBelow(WordCount(), MixOrSelf, UnMixOrSelf)
  {
    forall w | 0 <= w < WordCount()
      ensures 0 <= MixOrSelf(w) < WORD && 0 <= UnMixOrSelf(w) < WORD
      ensures UnMixOrSelf(MixOrSelf(w)) == w && MixOrSelf(UnMixOrSelf(w)) == w
    {
      MixBijective(w);
    }
  }

  /**
   The start words whose very first candidate is accepted with a given residue are
   equally many for every residue: the mixer loses nothing.
   */
  lemma FirstTryUniform(cardinality: nat, rank: nat)
    requires rank < cardinality <= WORD
    ensures |Preimage(WordCount(), MixOrSelf, AcceptedFor(cardinality, rank))| == WORD / cardinality
  {
    MixPermutes();
    AcceptedAreWords(cardinality, rank);
    PreimageSize(WordCount(), MixOrSelf, UnMixOrSelf, AcceptedFor(cardinality, rank));
    AcceptedCount(cardinality, rank);
  }

  lemma AcceptedAreWords(cardinality: nat, rank: nat)
    requires cardinality > 0
    ensures forall w | w in AcceptedFor(cardinality, rank) :: 0 <= w < WordCount()
  {
  }
}
