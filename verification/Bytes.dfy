/** Byte strings, fixed-width integers in both byte orders, and hexadecimal text. */
module Bytes {
  import opened Words

  type byte = b: nat | b < 256

  type bytes = seq<byte>

  /** The bytes of an ASCII literal. */
  function Ascii(s: string): (b: bytes)
    requires forall i | 0 <= i < |s| :: s[i] < 128 as char
    ensures |b| == |s|
    ensures forall i | 0 <= i < |s| :: b[i] == s[i] as int
  {
    seq(|s|, i requires 0 <= i < |s| => s[i] as int)
  }

  function Repeat(b: byte, n: nat): (r: bytes)
    ensures |r| == n
    ensures forall i | 0 <= i < n :: r[i] == b
  {
    seq(n, _ => b)
  }

  /** `w.to_bytes(n, 'little')`, dropping what does not fit. */
  function LittleEndian(w: nat, n: nat): (r: bytes)
    ensures |r| == n
    decreases n
  {
    if n == 0 then [] else [w % 256] + LittleEndian(w / 256, n - 1)
  }

  function FromLittleEndian(s: bytes): nat {
    if s == [] then 0 else s[0] + 256 * FromLittleEndian(s[1..])
  }

  /** `w.to_bytes(n, 'big')`, dropping what does not fit. */
  function BigEndian(w: nat, n: nat): (r: bytes)
    ensures |r| == n
    decreases n
  {
    if n == 0 then [] else BigEndian(w / 256, n - 1) + [w % 256]
  }

  function FromBigEndian(s: bytes): nat {
    if s == [] then 0 else 256 * FromBigEndian(s[..|s| - 1]) + s[|s| - 1]
  }

  lemma {:induction false} LittleEndianInverse(w: nat, n: nat)
    requires w < Pow2(8 * n)
    ensures FromLittleEndian(LittleEndian(w, n)) == w
    decreases n
  {
    if n > 0 {
      PowAdd(8, 8 * (n - 1));
      PowByte();
      LittleEndianInverse(w / 256, n - 1);
      assert LittleEndian(w, n)[1..] == LittleEndian(w / 256, n - 1);
    }
  }

  lemma {:induction false} BigEndianInverse(w: nat, n: nat)
    requires w < Pow2(8 * n)
    ensures FromBigEndian(BigEndian(w, n)) == w
    decreases n
  {
    if n > 0 {
      PowAdd(8, 8 * (n - 1));
      PowByte();
      BigEndianInverse(w / 256, n - 1);
      assert BigEndian(w, n)[..n - 1] == BigEndian(w / 256, n - 1);
    }
  }

  /** Eight bytes determine a word, in either order. */
  /** The first bytes of a word are the bytes of its remainder. */
  lemma {:induction false} LowBytes(w: nat, n: nat, k: nat)
    requires k <= n
    ensures LittleEndian(w, n)[..k] == LittleEndian(w, k)
    decreases n
  {
    if k > 0 {
      LowBytes(w / 256, n - 1, k - 1);
      assert LittleEndian(w, n)[1..k] == LittleEndian(w / 256, n - 1)[..k - 1];
      assert LittleEndian(w, n)[..k] == [w % 256] + LittleEndian(w, n)[1..k];
    }
  }

  lemma {:induction false} LowBytesAgree(v: nat, w: nat, n: nat)
    ensures LittleEndian(v, n) == LittleEndian(w, n) <==> v % Pow2(8 * n) == w % Pow2(8 * n)
    decreases n
  {
    if n > 0 {
      var p := Pow2(8 * (n - 1));
      PowByteStep(8 * (n - 1));
      LowBytesAgree(v / 256, w / 256, n - 1);
      LowByteSplit(v, p);
      LowByteSplit(w, p);
      ConsEqual(v % 256, LittleEndian(v / 256, n - 1), w % 256, LittleEndian(w / 256, n - 1));
    }
  }

  lemma ConsEqual(a: byte, s: bytes, b: byte, t: bytes)
    ensures [a] + s == [b] + t <==> a == b && s == t
  {
    assert ([a] + s)[0] == a && ([b] + t)[0] == b;
    assert ([a] + s)[1..] == s && ([b] + t)[1..] == t;
  }

  lemma LowByteSplit(v: nat, p: nat)
    requires p > 0
    ensures v % (0x100 * p) == 256 * (v / 256 % p) + v % 256
  {
    var q, r := v / 256 / p, v / 256 % p;
    var m := q * p;
    assert v / 256 == m + r;
    assert q * (0x100 * p) == 256 * m;
    DivUnique(v, 0x100 * p, q, 256 * r + v % 256);
  }

  lemma WordBytesInjective(v: Word, w: Word)
    ensures LittleEndian(v, 8) == LittleEndian(w, 8) ==> v == w
    ensures BigEndian(v, 8) == BigEndian(w, 8) ==> v == w
  {
    PowWord();
    LittleEndianInverse(v, 8);
    LittleEndianInverse(w, 8);
    BigEndianInverse(v, 8);
    BigEndianInverse(w, 8);
  }

  /** Words one after another, least significant byte first. */
  function Pack(words: seq<Word>): (r: bytes)
    ensures |r| == 8 * |words|
  {
    if words == [] then [] else Pack(words[..|words| - 1]) + LittleEndian(words[|words| - 1], 8)
  }

  function Tabulate(f: nat -> Word, n: nat): (r: seq<Word>)
    ensures |r| == n
    ensures forall k | 0 <= k < n :: r[k] == f(k)
  {
    seq(n, k requires 0 <= k => f(k))
  }

  lemma PackTabulate(f: nat -> Word, n: nat)
    ensures Pack(Tabulate(f, n + 1)) == Pack(Tabulate(f, n)) + LittleEndian(f(n), 8)
  {
    assert Tabulate(f, n + 1) == Tabulate(f, n) + [f(n)];
    PackAppend(Tabulate(f, n), f(n));
  }

  lemma PackAppend(words: seq<Word>, w: Word)
    ensures Pack(words + [w]) == Pack(words) + LittleEndian(w, 8)
  {
    assert (words + [w])[..|words|] == words;
  }

  lemma {:induction false} PackSlice(words: seq<Word>, k: nat)
    requires k < |words|
    ensures Pack(words)[8 * k..8 * k + 8] == LittleEndian(words[k], 8)
    decreases |words|
  {
    hide LittleEndian;
    if k < |words| - 1 {
      var rest := words[..|words| - 1];
      PackSlice(rest, k);
      assert Pack(words)[8 * k..8 * k + 8] == Pack(rest)[8 * k..8 * k + 8];
    }
  }

  /** One lower-case hexadecimal digit. */
  function HexDigit(d: nat): (r: byte)
    requires d < 16
  {
    if d < 10 then 48 + d else 87 + d
  }

  /** `f'{w:0{n}x}'` for a number of at most `n` hexadecimal digits. */
  function Hex(w: nat, n: nat): (r: bytes)
    ensures |r| == n
    decreases n
  {
    if n == 0 then [] else Hex(w / 16, n - 1) + [HexDigit(w % 16)]
  }

  /** The number that lower-case hexadecimal digits stand for. */
  function FromHex(s: bytes): nat {
    if s == [] then 0
    else
      var d := s[|s| - 1];
      16 * FromHex(s[..|s| - 1])
      + (if '0' as int <= d <= '9' as int then d - '0' as int
         else if 'a' as int <= d <= 'f' as int then d - 'a' as int + 10
         else 0)
  }

  lemma {:induction false} HexReadsBack(w: nat, n: nat)
    requires w < Pow2(4 * n)
    ensures FromHex(Hex(w, n)) == w
    decreases n
  {
    if n > 0 {
      PowAdd(4, 4 * (n - 1));
      assert Pow2(4) == 16 by { assert Pow2(2) == 4; PowAdd(2, 2); }
      assert Hex(w, n)[..n - 1] == Hex(w / 16, n - 1);
      assert Hex(w, n)[n - 1] == HexDigit(w % 16);
      HexReadsBack(w / 16, n - 1);
    }
  }

  lemma HexInjective(v: nat, w: nat, n: nat)
    requires v < Pow2(4 * n) && w < Pow2(4 * n)
    requires Hex(v, n) == Hex(w, n)
    ensures v == w
  {
    HexReadsBack(v, n);
    HexReadsBack(w, n);
  }
}
