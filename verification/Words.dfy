/**
 Unsigned 64-bit words as the controller's Python computes them: unbounded natural
 numbers, with `& mask` written as `% WORD`.  The module proves that the SplitMix
 finaliser is a bijection on words by giving its inverse.
 */
module Words {

  const WORD: nat := 0x1_0000_0000_0000_0000

  type Word = w: nat | w < 0x1_0000_0000_0000_0000

  // The odd constants of the generator and their inverses modulo 2^64.
  const GAMMA: Word := 0x9e37_79b9_7f4a_7c15
  const GAMMA_INVERSE: Word := 0xf1de_83e1_9937_733d
  const MIX_A: Word := 0xbf58_476d_1ce4_e5b9
  const MIX_A_INVERSE: Word := 0x96de_1b17_3f11_9089
  const MIX_B: Word := 0x94d0_49bb_1331_11eb
  const MIX_B_INVERSE: Word := 0x3196_42b2_d24d_8ec3

  function Pow2(k: nat): (p: nat)
    ensures p > 0
  {
    if k == 0 then 1 else 2 * Pow2(k - 1)
  }

  lemma {:induction false} PowAdd(j: nat, k: nat)
    ensures Pow2(j + k) == Pow2(j) * Pow2(k)
    decreases j
  {
    if j > 0 {
      PowAdd(j - 1, k);
    }
  }

  lemma PowByteStep(k: nat)
    ensures Pow2(k + 8) == 0x100 * Pow2(k)
  {
    assert Pow2(k + 2) == 4 * Pow2(k);
    assert Pow2(k + 4) == 4 * Pow2(k + 2);
    assert Pow2(k + 6) == 4 * Pow2(k + 4);
    assert Pow2(k + 8) == 4 * Pow2(k + 6);
  }

  lemma PowByte()
    ensures Pow2(8) == 0x100
  {
    PowByteStep(0);
  }

  lemma PowWord()
    ensures Pow2(64) == WORD && Pow2(32) == 0x1_0000_0000 && Pow2(16) == 0x1_0000
  {
    PowByteStep(0);
    PowByteStep(8);
    PowByteStep(16);
    PowByteStep(24);
    PowByteStep(32);
    PowByteStep(40);
    PowByteStep(48);
    PowByteStep(56);
  }

  function Xor(a: nat, b: nat): nat
    decreases a + b
  {
    if a == 0 && b == 0 then 0 else 2 * Xor(a / 2, b / 2) + XorBit(a % 2, b % 2)
  }

  function XorBit(p: nat, q: nat): (r: nat)
    ensures r < 2
  {
    if p == q then 0 else 1
  }

  function Shr(a: nat, k: nat): nat
    decreases k
  {
    if k == 0 then a else Shr(a / 2, k - 1)
  }

  /** Wrapping multiplication, `x * c & mask`. */
  function Mul(x: nat, c: nat): Word {
    (x * c) % WORD
  }

  // ----- Xor is a group of exponent two, and shifts are homomorphisms -----

  lemma XorHalf(a: nat, b: nat)
    ensures Xor(a, b) / 2 == Xor(a / 2, b / 2)
  {
    if a + b > 0 {
      assert Xor(a, b) == 2 * Xor(a / 2, b / 2) + XorBit(a % 2, b % 2);
    }
  }

  lemma XorDouble(a: nat, p: nat, b: nat, q: nat)
    requires p < 2 && q < 2
    ensures Xor(2 * a + p, 2 * b + q) == 2 * Xor(a, b) + XorBit(p, q)
  {
    var x, y := 2 * a + p, 2 * b + q;
    assert x / 2 == a && x % 2 == p && y / 2 == b && y % 2 == q;
  }

  lemma {:induction false} XorAssociates(a: nat, b: nat, c: nat)
    ensures Xor(Xor(a, b), c) == Xor(a, Xor(b, c))
    decreases a + b + c
  {
    if a + b + c > 0 {
      XorAssociates(a / 2, b / 2, c / 2);
      XorAssociatesStep(a / 2, a % 2, b / 2, b % 2, c / 2, c % 2);
    }
  }

  lemma XorAssociatesStep(a: nat, p: nat, b: nat, q: nat, c: nat, r: nat)
    requires p < 2 && q < 2 && r < 2
    requires Xor(Xor(a, b), c) == Xor(a, Xor(b, c))
    ensures Xor(Xor(2 * a + p, 2 * b + q), 2 * c + r) == Xor(2 * a + p, Xor(2 * b + q, 2 * c + r))
  {
    XorDouble(a, p, b, q);
    XorDouble(b, q, c, r);
    XorDouble(Xor(a, b), XorBit(p, q), c, r);
    XorDouble(a, p, Xor(b, c), XorBit(q, r));
  }

  lemma {:induction false} XorZero(a: nat)
    ensures Xor(a, 0) == a && Xor(0, a) == a
    decreases a
  {
    if a > 0 {
      XorZero(a / 2);
    }
  }

  lemma {:induction false} XorSelf(a: nat)
    ensures Xor(a, a) == 0
  {
    if a > 0 {
      XorSelf(a / 2);
    }
  }

  /** Xor with a fixed word undoes itself. */
  lemma XorCancels(a: nat, b: nat)
    ensures Xor(Xor(a, b), b) == a && Xor(a, Xor(a, b)) == b
  {
    XorAssociates(a, b, b);
    XorAssociates(a, a, b);
    XorSelf(a);
    XorSelf(b);
    XorZero(a);
    XorZero(b);
  }

  lemma {:induction false} XorBound(a: nat, b: nat, k: nat)
    requires a < Pow2(k) && b < Pow2(k)
    ensures Xor(a, b) < Pow2(k)
    decreases k
  {
    if k > 0 {
      XorHalf(a, b);
      XorBound(a / 2, b / 2, k - 1);
    }
  }

  /** Numbers without a bit in common: exclusive or is addition. */
  lemma {:induction false} XorDisjoint(a: nat, b: nat, k: nat)
    requires b < Pow2(k)
    ensures Xor(a * Pow2(k), b) == a * Pow2(k) + b
    decreases k
  {
    if k == 0 {
      assert a * Pow2(0) == a;
      XorZero(a);
    } else {
      var p := Pow2(k - 1);
      assert a * Pow2(k) == 2 * (a * p);
      XorDisjoint(a, b / 2, k - 1);
      XorDouble(a * p, 0, b / 2, b % 2);
    }
  }

  lemma XorWord(a: Word, b: Word)
    ensures Xor(a, b) < WORD
  {
    PowWord();
    XorBound(a, b, 64);
  }

  lemma {:induction false} ShrXor(a: nat, b: nat, k: nat)
    ensures Shr(Xor(a, b), k) == Xor(Shr(a, k), Shr(b, k))
    decreases k
  {
    if k > 0 {
      XorHalf(a, b);
      ShrXor(a / 2, b / 2, k - 1);
    }
  }

  lemma {:induction false} ShrShr(a: nat, j: nat, k: nat)
    ensures Shr(Shr(a, j), k) == Shr(a, j + k)
    decreases j
  {
    if j > 0 {
      ShrShr(a / 2, j - 1, k);
    }
  }

  lemma {:induction false} ShrBound(a: nat, k: nat, n: nat)
    requires a < Pow2(n)
    ensures Shr(a, k) < Pow2(n)
    ensures k >= n ==> Shr(a, k) == 0
    decreases k
  {
    if k > 0 {
      if n == 0 {
        ShrBound(a / 2, k - 1, 0);
      } else {
        ShrBound(a / 2, k - 1, n - 1);
      }
    }
  }

  /** `Shr` is division by a power of two. */
  lemma {:induction false} ShrDivides(a: nat, k: nat)
    ensures Shr(a, k) == a / Pow2(k)
    decreases k
  {
    if k == 0 {
      DivUnique(a, 1, a, 0);
    } else {
      ShrDivides(a / 2, k - 1);
      HalfThenDivide(a, Pow2(k - 1));
    }
  }

  lemma HalfThenDivide(a: nat, p: nat)
    requires p > 0
    ensures a / 2 / p == a / (2 * p)
  {
    var q, r := a / 2 / p, a / 2 % p;
    var m := q * p;
    assert a / 2 == m + r;
    assert q * (2 * p) == 2 * m;
    DivUnique(a, 2 * p, q, 2 * r + a % 2);
  }

  /** Numbers that differ by a multiple of `m` have the same remainder. */
  lemma SameRemainder(a: int, b: int, m: int, t: int)
    requires m > 0 && a == b + t * m
    ensures a % m == b % m
  {
    var q := b / m;
    assert (q + t) * m == q * m + t * m;
    DivUnique(a, m, q + t, b % m);
  }

  lemma DivUnique(a: int, d: int, q: int, r: int)
    requires d > 0 && 0 <= r < d && a == q * d + r
    ensures a / d == q && a % d == r
  {
    var q', r' := a / d, a % d;
    assert a == q' * d + r';
    assert (q - q') * d == r' - r;
    if q > q' {
      MultipleAtLeast(q - q', d);
    } else if q < q' {
      MultipleAtLeast(q' - q, d);
    }
  }

  lemma MultipleAtLeast(k: int, d: int)
    requires k >= 1 && d > 0
    ensures k * d >= d
  {
  }

  // ----- The two reversible rounds -----

  function XorShift(w: nat, k: nat): nat {
    Xor(w, Shr(w, k))
  }

  /** Inverse of `XorShift(_, k)` on words, for every shift with `3 * k >= 64`. */
  function XorUnshift(w: nat, k: nat): nat {
    Xor(Xor(w, Shr(w, k)), Shr(w, 2 * k))
  }

  lemma XorShiftInverse(w: Word, k: nat)
    requires 3 * k >= 64
    ensures XorShift(w, k) < WORD && XorUnshift(w, k) < WORD
    ensures XorUnshift(XorShift(w, k), k) == w
    ensures XorShift(XorUnshift(w, k), k) == w
  {
    PowWord();
    var a, b, c := w, Shr(w, k), Shr(w, 2 * k);
    ShrBound(w, k, 64);
    ShrBound(w, 2 * k, 64);
    XorBound(a, b, 64);
    XorBound(Xor(a, b), c, 64);
    ShiftedThrice(w, k);
    // (a^b) ^ (b^c) ^ c == a
    ShrXor(a, b, k);
    ShrXor(a, b, 2 * k);
    XorZero(c);
    Telescopes(a, b, c);
    // (a^b^c) ^ (b^c) == a
    ShrXor(Xor(a, b), c, k);
    XorZero(Xor(b, c));
    XorAssociates(a, b, c);
    XorCancels(a, Xor(b, c));
  }

  lemma ShiftedThrice(w: Word, k: nat)
    requires 3 * k >= 64
    ensures Shr(Shr(w, k), k) == Shr(w, 2 * k)
    ensures Shr(Shr(w, k), 2 * k) == 0 && Shr(Shr(w, 2 * k), k) == 0
  {
    PowWord();
    ShrBound(w, 3 * k, 64);
    ShrShr(w, k, k);
    ShrShr(w, k, 2 * k);
    ShrShr(w, 2 * k, k);
  }

  lemma Telescopes(a: nat, b: nat, c: nat)
    ensures Xor(Xor(Xor(a, b), Xor(b, c)), c) == a
  {
    XorAssociates(Xor(a, b), Xor(b, c), c);
    XorCancels(b, c);
    XorCancels(a, b);
  }

  /** Multiplication by an odd constant is undone by its inverse. */
  lemma MulInverse(x: Word, c: nat, d: nat, k: nat)
    requires c * d == 1 + WORD * k
    ensures Mul(Mul(x, c), d) == x
  {
    var q := (x * c) / WORD;
    calc {
      Mul(x, c) * d;
      (x * c - q * WORD) * d;
      x * (c * d) - q * WORD * d;
      x + (k * x - q * d) * WORD;
    }
    DivUnique(Mul(x, c) * d, WORD, k * x - q * d, x);
  }

  // ----- The finaliser -----

  /** `hwm_mix`, and the three mixing lines of every high-entropy generator. */
  function Mix(w: Word): Word {
    var a := Mul(XorShift(w, 30), MIX_A);
    var b := Mul(XorShift(a, 27), MIX_B);
    XorShiftInverse(b, 31);
    XorShift(b, 31)
  }

  function UnMix(w: Word): Word {
    XorShiftInverse(w, 31);
    var b := Mul(XorUnshift(w, 31), MIX_B_INVERSE);
    XorShiftInverse(b, 27);
    var a := Mul(XorUnshift(b, 27), MIX_A_INVERSE);
    XorShiftInverse(a, 30);
    XorUnshift(a, 30)
  }

  lemma MixBijective(w: Word)
    ensures UnMix(Mix(w)) == w
    ensures Mix(UnMix(w)) == w
  {
    MixUndone(w);
    UnMixUndone(w);
  }

  lemma MixUndone(w: Word)
    ensures UnMix(Mix(w)) == w
  {
    XorShiftInverse(w, 30);
    var a := Mul(XorShift(w, 30), MIX_A);
    MulInverse(XorShift(w, 30), MIX_A, MIX_A_INVERSE, 8125545580553827436);
    XorShiftInverse(a, 27);
    var b := Mul(XorShift(a, 27), MIX_B);
    MulInverse(XorShift(a, 27), MIX_B, MIX_B_INVERSE, 2077064247507883091);
    XorShiftInverse(b, 31);
  }

  lemma UnMixUndone(w: Word)
    ensures Mix(UnMix(w)) == w
  {
    XorShiftInverse(w, 31);
    var b := Mul(XorUnshift(w, 31), MIX_B_INVERSE);
    MulInverse(XorUnshift(w, 31), MIX_B_INVERSE, MIX_B, 2077064247507883091);
    XorShiftInverse(b, 27);
    var a := Mul(XorUnshift(b, 27), MIX_A_INVERSE);
    MulInverse(XorUnshift(b, 27), MIX_A_INVERSE, MIX_A, 8125545580553827436);
    XorShiftInverse(a, 30);
  }

  lemma MixInjective(v: Word, w: Word)
    requires Mix(v) == Mix(w)
    ensures v == w
  {
    MixBijective(v);
    MixBijective(w);
  }

  // ----- The Weyl sequence under the generators -----

  /** The state after `k` additions of the odd constant to `start`. */
  function Weyl(start: nat, k: nat): Word {
    (start + k * GAMMA) % WORD
  }

  /** The Weyl sequence repeats no state within its period of 2^64. */
  lemma WeylDistinct(start: nat, j: Word, k: Word)
    requires Weyl(start, j) == Weyl(start, k)
    ensures j == k
  {
    var qj, qk := (start + j * GAMMA) / WORD, (start + k * GAMMA) / WORD;
    assert (j - k) * GAMMA == (qj - qk) * WORD;
    var m := 10771413168148108919;
    assert GAMMA * GAMMA_INVERSE == 1 + WORD * m;
    calc {
      (j - k) * (1 + WORD * m);
      (j - k) * GAMMA * GAMMA_INVERSE;
      (qj - qk) * WORD * GAMMA_INVERSE;
    }
    assert j - k == WORD * ((qj - qk) * GAMMA_INVERSE - (j - k) * m);
  }
}
