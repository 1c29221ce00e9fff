/** Which keys of the high-water-mark dataset outlive every delete phase. */
module Survivors {
  import opened Counting

  const HWM_KEYS: nat := 1_000_000
  const HWM_SURVIVORS: nat := 50_000

  /** `hwm_survivor`. */
  predicate Survivor(index: int) {
    Place(index) < HWM_SURVIVORS
  }

  function Place(index: int): nat {
    (index * 104_729 + 12_345) % HWM_KEYS
  }

  /** The one index of the window starting at `start` that `Place` sends to `place`. */
  function IndexAt(start: int, place: int): (i: int)
    ensures start <= i < start + HWM_KEYS
  {
    start + ((place - 12_345) * 995_369 - start) % HWM_KEYS
  }

  lemma PlaceInverse(start: int, place: int)
    requires 0 <= place < HWM_KEYS
    ensures Place(IndexAt(start, place)) == place
  {
    var x := (place - 12_345) * 995_369 - start;
    var q := x / HWM_KEYS;
    assert IndexAt(start, place) == (place - 12_345) * 995_369 - q * HWM_KEYS;
    assert IndexAt(start, place) * 104_729 + 12_345
        == place + HWM_KEYS * ((place - 12_345) * 104_244 - q * 104_729);
  }

  lemma IndexInverse(start: int, index: int)
    requires start <= index < start + HWM_KEYS
    ensures IndexAt(start, Place(index)) == index
  {
    var q := (index * 104_729 + 12_345) / HWM_KEYS;
    assert (Place(index) - 12_345) * 995_369 - start
        == (index - start) + HWM_KEYS * (index * 104_244 - q * 995_369);
  }

  /** The indices of a window that `Place` sends below `bound`. */
  ghost function PlacedBelow(start: int, bound: nat): set<int> {
    set i | i in Range(start, start + HWM_KEYS) && Place(i) < bound
  }

  /** `Place` permutes every window, so it hits each bound exactly often enough. */
  lemma PlacedBelowCount(start: int, bound: nat)
    requires bound <= HWM_KEYS
    ensures |PlacedBelow(start, bound)| == bound
  {
    var places := Range(0, bound);
    var f: int -> int := i => Place(i);
    var g: int -> int := p => IndexAt(start, p);
    forall i | i in PlacedBelow(start, bound)
      ensures f(i) in places && g(f(i)) == i
    {
      IndexInverse(start, i);
    }
    forall p | p in places
      ensures g(p) in PlacedBelow(start, bound) && f(g(p)) == p
    {
      PlaceInverse(start, p);
    }
    BijectionSize(PlacedBelow(start, bound), places, f, g);
  }

  /** Every window of `HWM_KEYS` consecutive indices holds exactly 50000 survivors. */
  lemma WindowHasSurvivors(start: int)
    ensures |set i | i in Range(start, start + HWM_KEYS) && Survivor(i)| == HWM_SURVIVORS
  {
    PlacedBelowCount(start, HWM_SURVIVORS);
    assert PlacedBelow(start, HWM_SURVIVORS) == set i | i in Range(start, start + HWM_KEYS) && Survivor(i);
  }
}
