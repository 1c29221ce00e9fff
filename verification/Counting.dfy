/** Sizes of finite sets: ranges, subsets and injective images. */
module Counting {

  /** The integers from `lo` up to but not including `hi`. */
  ghost function Range(lo: int, hi: int): (r: set<int>)
    ensures forall i :: i in r <==> lo <= i < hi
    ensures |r| == if lo <= hi then hi - lo else 0
    decreases hi - lo
  {
    if lo >= hi then {} else Range(lo, hi - 1) + {hi - 1}
  }

  lemma {:induction false} SubsetSize<T>(s: set<T>, t: set<T>)
    requires s <= t
    ensures |s| <= |t|
    ensures |s| == |t| ==> s == t
    decreases |t|
  {
    if t == {} {
      assert s == {};
    } else {
      var x :| x in t;
      var s', t' := s - {x}, t - {x};
      SubsetSize(s', t');
      assert t == t' + {x};
      if x in s {
        assert s == s' + {x};
      } else {
        assert s == s';
      }
    }
  }

  ghost predicate InjectiveOn<A(!new), B>(s: set<A>, f: A -> B) {
    forall x, y | x in s && y in s && f(x) == f(y) :: x == y
  }

  lemma {:induction false} ImageSize<A(!new), B>(s: set<A>, f: A -> B, t: set<B>)
    requires InjectiveOn(s, f)
    requires t == set x | x in s :: f(x)
    ensures |t| == |s|
    decreases |s|
  {
    if s != {} {
      var x :| x in s;
      var rest := s - {x};
      var image := set y | y in rest :: f(y);
      ImageSize(rest, f, image);
      assert t == image + {f(x)};
      assert f(x) !in image;
    }
  }

  /** Two sets in bijection have the same size. */
  lemma BijectionSize<A(!new), B(!new)>(s: set<A>, t: set<B>, f: A -> B, g: B -> A)
    requires forall x | x in s :: f(x) in t && g(f(x)) == x
    requires forall y | y in t :: g(y) in s && f(g(y)) == y
    ensures |s| == |t|
  {
    forall y | y in t
      ensures exists x :: x in s && f(x) == y
    {
      assert g(y) in s && f(g(y)) == y;
    }
    assert t == set x | x in s :: f(x);
    ImageSize(s, f, t);
  }

  /** Among `bound + 1` distinct naturals one is at least `bound`. */
  lemma Pigeonhole(bound: nat, f: int -> nat)
    requires InjectiveOn(Range(0, bound + 1), f)
    ensures exists k: nat :: k <= bound && f(k) >= bound
  {
    var tries := Range(0, bound + 1);
    var image := set k | k in tries :: f(k);
    ImageSize(tries, f, image);
    if forall k: nat | k <= bound :: f(k) < bound {
      assert forall y | y in image :: y in Range(0, bound);
      var room := Range(0, bound);
      var widen := (y: nat) => y as int;
      var image' := set y | y in image :: widen(y);
      ImageSize(image, widen, image');
      SubsetSize(image', room);
    }
  }

  /** `g` inverts `f` on both sides, on the integers below `n`. */
  ghost predicate InversesBelow(n: nat, f: int -> int, g: int -> int) {
    forall w: int | 0 <= w < n ::
      0 <= f(w) < n && 0 <= g(w) < n && g(f(w)) == w && f(g(w)) == w
  }

  ghost function Preimage(n: nat, f: int -> int, words: set<int>): set<int> {
    set w | w in Range(0, n) && f(w) in words
  }

  /** A permutation of `0..n` pulls every set back to one of the same size. */
  lemma PreimageSize(n: nat, f: int -> int, g: int -> int, words: set<int>)
    requires InversesBelow(n, f, g)
    requires forall w | w in words :: 0 <= w < n
    ensures |Preimage(n, f, words)| == |words|
  {
    var starts := Preimage(n, f, words);
    forall w | w in words
      ensures g(w) in starts && f(g(w)) == w
    {
      assert 0 <= g(w) < n;
    }
    BijectionSize(starts, words, f, g);
  }
}
