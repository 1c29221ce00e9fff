/**
 Value payloads.  One generator, SplitMix64, is written three times in the source
 (scenario controller, density script, Rust workload); each is proved to produce the
 same byte stream.  The high-water-mark payload packs eight mixed words per key.
 */
module Payloads {
  import opened Words
  import opened Bytes
  import opened Sampler

  const SEED: Word := 0x4544_454e_2266_0001
  const GENERATION_STEP: nat := 0x1000_0000
  const HWM_WORD_STEP: Word := 0xd134_2543_de82_ef95
  const HWM_WORD_STEP_INVERSE: Word := 0x572b_5ee7_7a54_e3bd

  datatype Pattern = Repeating | Compressible | HighEntropy

  // ----- The SplitMix64 byte stream -----

  /** The `k`-th word drawn from a generator seeded with `seed`. */
  function EntropyWord(seed: nat, k: nat): Word {
    Mix(Weyl(seed, k + 1))
  }

  function EntropyByte(seed: nat, j: nat): byte {
    LittleEndian(EntropyWord(seed, j / 8), 8)[j % 8]
  }

  function Entropy(seed: nat, size: nat): (r: bytes)
    ensures |r| == size
    ensures forall j | 0 <= j < size :: r[j] == EntropyByte(seed, j)
  {
    seq(size, j requires 0 <= j => EntropyByte(seed, j))
  }

  lemma EntropyAppend(seed: nat, k: nat)
    ensures Entropy(seed, 8 * k + 8) == Entropy(seed, 8 * k) + LittleEndian(EntropyWord(seed, k), 8)
  {
    hide EntropyByte, EntropyWord, LittleEndian, Entropy;
    ChunkBytes(seed, k);
  }

  lemma WeylStep(seed: nat, k: nat)
    ensures (Weyl(seed, k) + GAMMA) % WORD == Weyl(seed, k + 1)
  {
    var q := (seed + k * GAMMA) / WORD;
    SameRemainder(seed + (k + 1) * GAMMA, Weyl(seed, k) + GAMMA, WORD, q);
  }

  lemma WeylStart(seed: Word)
    ensures Weyl(seed, 0) == seed
  {
    DivUnique(seed, WORD, 0, seed);
  }

  /** The loop shared by `payload` and `payload_bytes`: append whole words, then truncate. */
  method AppendAndTruncate(seed: Word, size: nat) returns (out: bytes)
    ensures out == Entropy(seed, size)
  {
    hide Mix, Weyl, LittleEndian;
    out := [];
    var state := seed;
    ghost var k: nat := 0;
    WeylStart(seed);
    while |out| < size
      invariant |out| == 8 * k && state == Weyl(seed, k) && out == Entropy(seed, 8 * k)
      decreases size - |out|
    {
      WeylStep(seed, k);
      EntropyAppend(seed, k);
      state := (state + GAMMA) % WORD;
      out := out + LittleEndian(Mix(state), 8);
      k := k + 1;
    }
    out := out[..size];
  }

  /** Seed of a generation: `SEED + generation * 268435456 & mask`. */
  function GenerationSeed(generation: nat): Word {
    (SEED + generation * GENERATION_STEP) % WORD
  }

  function Payload(size: nat, pattern: Pattern, generation: nat): (r: bytes)
    ensures |r| == size
  {
    match pattern
    case Compressible => Repeat(120 + generation % 26, size)
    case _ => Entropy(GenerationSeed(generation), size)
  }

  /** `payload` of the scenario controller. */
  method ScenarioPayload(size: nat, pattern: Pattern, generation: nat) returns (out: bytes)
    ensures out == Payload(size, pattern, generation)
  {
    if pattern == Compressible {
      return Repeat(120 + generation % 26, size);
    }
    out := AppendAndTruncate(GenerationSeed(generation), size);
  }

  /** What a fixed-seed workload stores under every key. */
  function WorkloadValue(size: nat, pattern: Pattern): bytes {
    match pattern
    case Repeating => seq(size, i requires 0 <= i => i % 256)
    case Compressible => Repeat(120, size)
    case HighEntropy => Entropy(SEED, size)
  }

  /** `payload_bytes` of the density script. */
  method DensityPayload(size: nat, pattern: Pattern) returns (out: bytes)
    ensures out == WorkloadValue(size, pattern)
  {
    match pattern
    case Repeating =>
      return seq(size, i requires 0 <= i => i % 256);
    case Compressible =>
      return Repeat(120, size);
    case HighEntropy =>
      out := AppendAndTruncate(SEED, size);
  }

  /** `Workload::with_value_pattern`: the value buffer is filled in place, chunk by chunk. */
  method FillValue(value: array<byte>, pattern: Pattern)
    modifies value
    ensures value[..] == WorkloadValue(value.Length, pattern)
  {
    match pattern
    case Repeating =>
      for index := 0 to value.Length
        invariant forall j | 0 <= j < index :: value[j] == j % 256
      {
        value[index] := index % 256;
      }
    case Compressible =>
      forall i | 0 <= i < value.Length {
        value[i] := 120;
      }
    case HighEntropy =>
      FillHighEntropy(value);
  }

  method FillHighEntropy(value: array<byte>)
    modifies value
    ensures value[..] == Entropy(SEED, value.Length)
  {
    var state := SEED;
    var chunk: nat := 0;
    assert state == Weyl(SEED, chunk);
    while 8 * chunk < value.Length
      invariant state == Weyl(SEED, chunk)
      invariant forall j | 0 <= j < 8 * chunk && j < value.Length :: value[j] == EntropyByte(SEED, j)
      decreases value.Length - 8 * chunk
    {
      WeylStep(SEED, chunk);
      state := (state + GAMMA) % WORD;
      var word := LittleEndian(Mix(state), 8);
      CopyChunk(value, chunk, word);
      ChunkBytes(SEED, chunk);
      chunk := chunk + 1;
    }
  }

  lemma ChunkBytes(seed: nat, chunk: nat)
    ensures forall j | 8 * chunk <= j < 8 * chunk + 8 ::
              EntropyByte(seed, j) == LittleEndian(EntropyWord(seed, chunk), 8)[j - 8 * chunk]
  {
    forall j | 8 * chunk <= j < 8 * chunk + 8
      ensures EntropyByte(seed, j) == LittleEndian(EntropyWord(seed, chunk), 8)[j - 8 * chunk]
    {
      assert j / 8 == chunk && j % 8 == j - 8 * chunk;
    }
  }

  /** `chunk.copy_from_slice(&word[..chunk.len()])` for the given chunk of eight. */
  method CopyChunk(value: array<byte>, chunk: nat, word: bytes)
    requires 8 * chunk < value.Length && |word| == 8
    modifies value
    ensures forall j | 8 * chunk <= j < 8 * chunk + 8 && j < value.Length :: value[j] == word[j - 8 * chunk]
    ensures forall j | 0 <= j < 8 * chunk :: value[j] == old(value[j])
  {
    var end := if 8 * chunk + 8 <= value.Length then 8 * chunk + 8 else value.Length;
    forall j | 8 * chunk <= j < end {
      value[j] := word[j - 8 * chunk];
    }
  }

  /** A shorter payload is a prefix of a longer one of the same pattern and generation. */
  /** The scenario controller's first generation is the value of the saturation workload. */
  lemma GenerationZero(size: nat, pattern: Pattern)
    requires pattern != Repeating
    ensures Payload(size, pattern, 0) == WorkloadValue(size, pattern)
  {
    DivUnique(SEED, WORD, 0, SEED);
  }

  lemma PayloadPrefix(short: nat, long: nat, pattern: Pattern, generation: nat)
    requires short <= long
    ensures Payload(short, pattern, generation) == Payload(long, pattern, generation)[..short]
  {
  }

  lemma EntropySlice(seed: nat, size: nat, k: nat)
    requires 8 * k + 8 <= size
    ensures Entropy(seed, size)[8 * k..8 * k + 8] == LittleEndian(EntropyWord(seed, k), 8)
  {
    hide EntropyByte, EntropyWord, LittleEndian, Entropy;
    ChunkBytes(seed, k);
  }

  /** No two aligned words of a payload repeat within the period of the generator. */
  lemma EntropyWordsDistinct(seed: nat, size: nat, j: nat, k: nat)
    requires j < k && 8 * k + 8 <= size && k < WORD
    ensures Entropy(seed, size)[8 * j..8 * j + 8] != Entropy(seed, size)[8 * k..8 * k + 8]
  {
    EntropySlice(seed, size, j);
    EntropySlice(seed, size, k);
    if LittleEndian(EntropyWord(seed, j), 8) == LittleEndian(EntropyWord(seed, k), 8) {
      WordBytesInjective(EntropyWord(seed, j), EntropyWord(seed, k));
      EntropyWordInjective(seed, j, k);
    }
  }

  lemma EntropyWordInjective(seed: nat, j: Word, k: Word)
    requires EntropyWord(seed, j) == EntropyWord(seed, k)
    ensures j == k
  {
    hide Mix;
    MixInjective(Weyl(seed, j + 1), Weyl(seed, k + 1));
    assert Weyl(seed, j + 1) == Weyl(seed + GAMMA, j);
    assert Weyl(seed, k + 1) == Weyl(seed + GAMMA, k);
    WeylDistinct(seed + GAMMA, j, k);
  }

  /**
   When two generations share a payload: in the compressible pattern exactly when they
   agree modulo 26, in the others exactly when they agree modulo 2^36, once there is a
   byte or a whole word to tell; shorter ones when the first words agree as far as they go.
   */
  lemma GenerationsDiffer(size: nat, pattern: Pattern, g: nat, h: nat)
    ensures pattern == Compressible && size > 0 ==>
              (Payload(size, pattern, g) == Payload(size, pattern, h) <==> g % 26 == h % 26)
    ensures pattern != Compressible && size >= 8 ==>
              (Payload(size, pattern, g) == Payload(size, pattern, h)
               <==> g % 0x10_0000_0000 == h % 0x10_0000_0000)
    ensures pattern != Compressible && size < 8 ==>
              (Payload(size, pattern, g) == Payload(size, pattern, h)
               <==> EntropyWord(GenerationSeed(g), 0) % Pow2(8 * size) == EntropyWord(GenerationSeed(h), 0) % Pow2(8 * size))
    ensures size == 0 ==> Payload(size, pattern, g) == Payload(size, pattern, h)
  {
    if pattern == Compressible {
      assert size > 0 ==> Payload(size, pattern, g)[0] == 120 + g % 26;
      assert size > 0 ==> Payload(size, pattern, h)[0] == 120 + h % 26;
    } else if size >= 8 {
      LongGenerations(size, GenerationSeed(g), GenerationSeed(h));
      SeedsAgree(g, h);
    } else {
      ShortGenerations(size, GenerationSeed(g), GenerationSeed(h));
    }
  }

  lemma LongGenerations(size: nat, s: Word, t: Word)
    requires size >= 8
    ensures Entropy(s, size) == Entropy(t, size) <==> s == t
  {
    hide Mix, Weyl, LittleEndian, Entropy;
    EntropySlice(s, size, 0);
    EntropySlice(t, size, 0);
    if Entropy(s, size) == Entropy(t, size) {
      WordBytesInjective(EntropyWord(s, 0), EntropyWord(t, 0));
      MixInjective(Weyl(s, 1), Weyl(t, 1));
      WeylOffset(s, t, 1);
    }
  }

  lemma ShortGenerations(size: nat, s: Word, t: Word)
    requires size < 8
    ensures Entropy(s, size) == Entropy(t, size)
       <==> EntropyWord(s, 0) % Pow2(8 * size) == EntropyWord(t, 0) % Pow2(8 * size)
  {
    hide EntropyWord, LittleEndian, Entropy;
    ShortEntropy(s, size);
    ShortEntropy(t, size);
    LowBytesAgree(EntropyWord(s, 0), EntropyWord(t, 0), size);
  }

  lemma ShortEntropy(seed: nat, size: nat)
    requires size < 8
    ensures Entropy(seed, size) == LittleEndian(EntropyWord(seed, 0), size)
  {
    hide EntropyByte, EntropyWord, LittleEndian, Entropy;
    ChunkBytes(seed, 0);
    LowBytes(EntropyWord(seed, 0), 8, size);
  }

  lemma SeedsAgree(g: nat, h: nat)
    ensures GenerationSeed(g) == GenerationSeed(h) <==> g % 0x10_0000_0000 == h % 0x10_0000_0000
  {
    var x, y := SEED + g * GENERATION_STEP, SEED + h * GENERATION_STEP;
    if GenerationSeed(g) == GenerationSeed(h) {
      var t := x / WORD - y / WORD;
      assert x - y == t * WORD;
      SameRemainder(g, h, 0x10_0000_0000, t);
    }
    if g % 0x10_0000_0000 == h % 0x10_0000_0000 {
      var t := g / 0x10_0000_0000 - h / 0x10_0000_0000;
      assert g - h == t * 0x10_0000_0000;
      SameRemainder(x, y, WORD, t);
    }
  }

  // ----- High-water-mark payloads -----

  /** Bitwise or. */
  function Or(a: nat, b: nat): nat
    decreases a + b
  {
    if a == 0 && b == 0 then 0 else 2 * Or(a / 2, b / 2) + (if a % 2 + b % 2 > 0 then 1 else 0)
  }

  lemma {:induction false} OrDisjoint(a: nat, b: nat, k: nat)
    requires b < Pow2(k)
    ensures Or(a * Pow2(k), b) == a * Pow2(k) + b
    decreases k
  {
    if k == 0 {
      assert a * Pow2(0) == a;
      OrZero(a);
    } else {
      var p := Pow2(k - 1);
      assert a * Pow2(k) == 2 * (a * p);
      OrDisjoint(a, b / 2, k - 1);
    }
  }

  lemma {:induction false} OrZero(a: nat)
    ensures Or(a, 0) == a
    decreases a
  {
    if a > 0 {
      OrZero(a / 2);
    }
  }

  /** `(index << 17 | index >> 47) & mask`. */
  function Rotated(index: Word): Word {
    Or(index * 0x2_0000, Shr(index, 47)) % WORD
  }

  lemma RotationPowers()
    ensures Pow2(17) == 0x2_0000 && Pow2(47) == 0x8000_0000_0000
  {
    PowWord();
    PowAdd(1, 16);
    assert Pow2(1) == 2;
    PowByte();
    PowAdd(8, 7);
    assert 2 * Pow2(7) == Pow2(8);
    PowAdd(15, 32);
  }

  lemma RotatedIsRotation(index: Word)
    ensures Rotated(index) == (index % 0x8000_0000_0000) * 0x2_0000 + index / 0x8000_0000_0000
  {
    RotationPowers();
    ShrDivides(index, 47);
    var high, low := index / 0x8000_0000_0000, index % 0x8000_0000_0000;
    OrDisjoint(index, high, 17);
    DivUnique(index * 0x2_0000 + high, WORD, high, low * 0x2_0000 + high);
  }

  lemma RotatedInjective(i: Word, j: Word)
    requires Rotated(i) == Rotated(j)
    ensures i == j
  {
    RotatedIsRotation(i);
    RotatedIsRotation(j);
    HalvesAgree(i % 0x8000_0000_0000, i / 0x8000_0000_0000, j % 0x8000_0000_0000, j / 0x8000_0000_0000);
  }

  lemma HalvesAgree(a: nat, b: nat, c: nat, d: nat)
    requires b < 0x2_0000 && d < 0x2_0000 && a * 0x2_0000 + b == c * 0x2_0000 + d
    ensures a == c && b == d
  {
  }

  /** The input of the mixer for word `k` of a payload. */
  function HwmInput(index: Word, generation: nat, k: nat): Word {
    XorWord(HWM_SEED, index);
    XorWord(HWM_SEED, Rotated(index));
    XorWord(Xor(HWM_SEED, Rotated(index)), Mul(generation, GAMMA));
    XorWord(Xor(Xor(HWM_SEED, Rotated(index)), Mul(generation, GAMMA)), Mul(k, HWM_WORD_STEP));
    if k == 0 then Xor(HWM_SEED, index)
    else Xor(Xor(Xor(HWM_SEED, Rotated(index)), Mul(generation, GAMMA)), Mul(k, HWM_WORD_STEP))
  }

  function HwmWord(index: Word, generation: nat, k: nat): Word {
    Mix(HwmInput(index, generation, k))
  }

  function HwmWords(index: Word, generation: nat, n: nat): (r: seq<Word>)
    ensures |r| == n
  {
    Tabulate(k => HwmWord(index, generation, k), n)
  }

  function HwmPayload(index: Word, generation: nat): (r: bytes)
    ensures |r| == 64
  {
    Pack(HwmWords(index, generation, 8))
  }

  /** `hwm_payload`. */
  method BuildHwmPayload(index: Word, generation: nat) returns (out: bytes)
    ensures out == HwmPayload(index, generation)
  {
    ghost var words: nat -> Word := k => HwmWord(index, generation, k);
    PackTabulate(words, 0);
    out := LittleEndian(HwmWord(index, generation, 0), 8);
    for word := 1 to 8
      invariant out == Pack(Tabulate(words, word))
    {
      PackTabulate(words, word);
      out := out + LittleEndian(HwmWord(index, generation, word), 8);
    }
  }

  /** Word `k` of a payload. */
  function HwmSlice(index: Word, generation: nat, k: nat): bytes
    requires k < 8
  {
    HwmPayload(index, generation)[8 * k..8 * k + 8]
  }

  /** The words lie in order, least significant byte first. */
  lemma HwmLayout(i: Word, g: nat, k: nat)
    requires k < 8
    ensures FromLittleEndian(HwmSlice(i, g, k)) == HwmWord(i, g, k)
  {
    hide Mix, HwmInput, LittleEndian;
    PackSlice(HwmWords(i, g, 8), k);
    PowWord();
    LittleEndianInverse(HwmWord(i, g, k), 8);
  }

  /** Equal words come from equal inputs of the mixer. */
  lemma SlicesEqualInputs(i: Word, g: Word, k: nat, j: Word, h: Word, m: nat)
    requires k < 8 && m < 8 && HwmSlice(i, g, k) == HwmSlice(j, h, m)
    ensures HwmInput(i, g, k) == HwmInput(j, h, m)
  {
    hide Mix, HwmInput, LittleEndian;
    PackSlice(HwmWords(i, g, 8), k);
    PackSlice(HwmWords(j, h, 8), m);
    WordBytesInjective(HwmWord(i, g, k), HwmWord(j, h, m));
    MixInjective(HwmInput(i, g, k), HwmInput(j, h, m));
  }

  lemma XorRightInjective(a: nat, b: nat, c: nat)
    requires Xor(a, c) == Xor(b, c)
    ensures a == b
  {
    XorCancels(a, c);
    XorCancels(b, c);
  }

  lemma XorLeftInjective(a: nat, b: nat, c: nat)
    requires Xor(c, a) == Xor(c, b)
    ensures a == b
  {
    XorCancels(c, a);
    XorCancels(c, b);
  }

  /** Different keys differ in the first word, whatever their generations. */
  lemma HwmIndexInPrefix(i: Word, g: Word, j: Word, h: Word)
    requires i != j
    ensures HwmSlice(i, g, 0) != HwmSlice(j, h, 0)
  {
    if HwmSlice(i, g, 0) == HwmSlice(j, h, 0) {
      SlicesEqualInputs(i, g, 0, j, h, 0);
      XorLeftInjective(i, j, HWM_SEED);
    }
  }

  /** The same key at two generations differs in each of the other seven words. */
  lemma HwmGenerationInTail(i: Word, g: Word, h: Word, k: nat)
    requires g != h && 1 <= k < 8
    ensures HwmSlice(i, g, k) != HwmSlice(i, h, k)
  {
    if HwmSlice(i, g, k) == HwmSlice(i, h, k) {
      SlicesEqualInputs(i, g, k, i, h, k);
      var base := Xor(HWM_SEED, Rotated(i));
      XorRightInjective(Xor(base, Mul(g, GAMMA)), Xor(base, Mul(h, GAMMA)), Mul(k, HWM_WORD_STEP));
      XorLeftInjective(Mul(g, GAMMA), Mul(h, GAMMA), base);
      MulInverse(g, GAMMA, GAMMA_INVERSE, 10771413168148108919);
      MulInverse(h, GAMMA, GAMMA_INVERSE, 10771413168148108919);
    }
  }

  /** The seven words after the first are pairwise different in every payload. */
  lemma HwmTailDistinct(i: Word, g: Word, j: nat, k: nat)
    requires 1 <= j < k < 8
    ensures HwmSlice(i, g, j) != HwmSlice(i, g, k)
  {
    hide HwmSlice;
    if HwmSlice(i, g, j) == HwmSlice(i, g, k) {
      SlicesEqualInputs(i, g, j, i, g, k);
      var base := Xor(Xor(HWM_SEED, Rotated(i)), Mul(g, GAMMA));
      XorLeftInjective(Mul(j, HWM_WORD_STEP), Mul(k, HWM_WORD_STEP), base);
      MulInverse(j, HWM_WORD_STEP, HWM_WORD_STEP_INVERSE, 5133023831744160854);
      MulInverse(k, HWM_WORD_STEP, HWM_WORD_STEP_INVERSE, 5133023831744160854);
    }
  }

  /** Two keys of one generation share none of their eight words. */
  lemma HwmIndexInEveryWord(i: Word, j: Word, g: Word, k: nat)
    requires i != j && k < 8
    ensures HwmSlice(i, g, k) != HwmSlice(j, g, k)
  {
    if k == 0 {
      HwmIndexInPrefix(i, g, j, g);
    } else if HwmSlice(i, g, k) == HwmSlice(j, g, k) {
      SlicesEqualInputs(i, g, k, j, g, k);
      var a, b := Xor(HWM_SEED, Rotated(i)), Xor(HWM_SEED, Rotated(j));
      XorRightInjective(Xor(a, Mul(g, GAMMA)), Xor(b, Mul(g, GAMMA)), Mul(k, HWM_WORD_STEP));
      XorRightInjective(a, b, Mul(g, GAMMA));
      XorLeftInjective(Rotated(i), Rotated(j), HWM_SEED);
      RotatedInjective(i, j);
    }
  }

  /** A payload identifies its key and generation. */
  lemma HwmPayloadInjective(i: Word, g: Word, j: Word, h: Word)
    requires HwmPayload(i, g) == HwmPayload(j, h)
    ensures i == j && g == h
  {
    if i != j {
      HwmIndexInPrefix(i, g, j, h);
    } else if g != h {
      HwmGenerationInTail(i, g, h, 1);
    }
  }
}
