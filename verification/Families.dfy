/**
 What each scenario family is for, told phase by phase: which keys a phase touches, what
 it makes of them, how many keys are left, and which commands it sends.  The closed form
 and the scripts are proved to follow this story; in particular a script is empty exactly
 when its key is to stay as it is.
 */
module Families {
  import opened Wrappers
  import opened Words
  import opened Bytes
  import opened Counting
  import opened Payloads
  import opened Survivors
  import opened Store
  import opened Phases
  import opened Scenarios
  import opened Refinement
  import opened Framing
  import opened Tallies
  import opened Oracle

  /** The phases a family goes through (`phases`), some of them for any number of rounds. */
  predicate HasPhase(s: Scenario, step: nat) {
    match s.family
    case Overwrite => true
    case Resize => true
    case Half => true
    case Hwm => true
    case Groups => step < 8
    case Metadata => step < 5
    case Types => step < 4
    case _ => step == 0
  }

  lemma PhaseHasStep(s: Scenario, step: nat)
    requires HasPhase(s, step)
    ensures HasStep(s, step)
  {
  }

  /** The keys that a phase after the load changes. */
  predicate Touched(family: Family, step: nat, index: nat) {
    match family
    case Overwrite => true
    case Resize => true
    case Half => index % 2 == 0
    case Groups => index % 4 != 3
    case Metadata => index % 10 == 0
    case Types => index % 10 == 0
    case Hwm => step % 3 != 2 && !Survivor(index)
    case _ => false
  }

  // ----- The story of a key -----

  function Plain(s: Scenario, length: nat, generation: nat): Slot {
    Some(Entry(Str(Payload(length, s.pattern, generation)), false))
  }

  /** The value length of a key at load. */
  function LoadLength(s: Scenario, index: Word): nat {
    match s.family
    case Mixed =>
      var d := index % 10;
      if d < 3 then 16 else if d < 6 then 64 else if d < 8 then 256 else if d == 8 then 1024 else 4096
    case Classes =>
      if index < 9 then index + 2
      else
        var class_ := 10 + (index - 9) % 151;
        if class_ > 137 then 256 else 2 * class_ - 18
    case Resize => 16
    case Groups => if index % 4 == 3 then s.valueLength else 16
    case _ => s.valueLength
  }

  /** The key length of a key. */
  function KeyLength(s: Scenario, index: nat): nat {
    match s.family
    case Access => 18
    case Hwm => 18
    case Mixed =>
      var q := index % 4;
      if q == 0 then 8 else if q == 1 then 18 else if q == 2 then 63 else 64
    case Classes =>
      if index < 9 then index
      else
        var class_ := 10 + (index - 9) % 151;
        if class_ > 137 then 2 * class_ - 256 else 18
    case _ => s.keyLength
  }

  lemma KeyLengths(s: Scenario, index: Word)
    requires s.keyLength >= 8
    ensures |Key(s, index)| == KeyLength(s, index)
  {
    PointKeyLayout(index);
  }

  function LoadSlot(s: Scenario, index: Word): Slot {
    if s.family.Hwm? then Some(Entry(Str(HwmPayload(index, 0)), false)) else Plain(s, LoadLength(s, index), 0)
  }

  /** What a phase after the load makes of a key that it touches. */
  function Touch(s: Scenario, step: nat, index: Word): Slot {
    match s.family
    case Overwrite => Plain(s, s.valueLength, step)
    case Resize =>
      Plain(s, if step % 4 == 1 then 64 else if step % 4 == 2 then 255 else if step % 4 == 3 then 257 else 16, step)
    case Half => if step % 2 == 1 then None else Plain(s, s.valueLength, step / 2)
    case Groups =>
      if step % 2 == 1 then None
      else if step == 2 then Plain(s, 64, 1)
      else if step == 4 then Plain(s, 255, 2)
      else Plain(s, 17, 3)
    case Metadata =>
      if step == 1 then Some(Entry(Str(Payload(s.valueLength, s.pattern, 0)), true))
      else if step == 2 then Plain(s, s.valueLength, 0)
      else if step == 3 then None
      else Plain(s, s.valueLength, 1)
    case Types =>
      var value := Payload(s.valueLength, s.pattern, 0);
      if step == 1 then
        Some(Entry(if index % 20 == 0 then Hash(map[FIELD := value]) else List([value]), false))
      else if step == 2 then None
      else Plain(s, s.valueLength, 1)
    case Hwm => if step % 3 == 1 then None else Some(Entry(Str(HwmPayload(index, step / 3)), false))
    case _ => None
  }

  /** A key from phase to phase: what is not touched stays. */
  function Story(s: Scenario, step: nat, index: Word): Slot {
    if step == 0 then LoadSlot(s, index)
    else if Touched(s.family, step, index) then Touch(s, step, index)
    else Story(s, step - 1, index)
  }

  lemma LoadHolds(s: Scenario, index: Word)
    requires s.keyLength >= 8
    ensures SlotAt(s, 0, index) == LoadSlot(s, index)
  {
    hide Payload, HwmPayload, FixedKey, PointKey, ClassKey, Survivor;
  }

  lemma TouchHolds(s: Scenario, step: nat, index: Word)
    requires s.keyLength >= 8 && HasPhase(s, step) && step > 0 && Touched(s.family, step, index)
    ensures SlotAt(s, step, index) == Touch(s, step, index)
  {
    hide Payload, HwmPayload, FixedKey, PointKey, ClassKey, Survivor;
  }

  lemma UntouchedStays(s: Scenario, step: nat, index: Word)
    requires s.keyLength >= 8 && HasPhase(s, step) && step > 0 && !Touched(s.family, step, index)
    ensures HasPhase(s, step - 1) && SlotAt(s, step, index) == SlotAt(s, step - 1, index)
  {
    hide Payload, HwmPayload, FixedKey, PointKey, ClassKey, Survivor;
  }

  /** The closed form follows the story. */
  lemma {:induction false} StoryHolds(s: Scenario, step: nat, index: Word)
    requires s.keyLength >= 8 && HasPhase(s, step)
    ensures HasStep(s, step) && SlotAt(s, step, index) == Story(s, step, index)
    decreases step
  {
    hide SlotAt, Touch, LoadSlot, Touched;
    PhaseHasStep(s, step);
    if step == 0 {
      LoadHolds(s, index);
    } else if Touched(s.family, step, index) {
      TouchHolds(s, step, index);
    } else {
      UntouchedStays(s, step, index);
      StoryHolds(s, step - 1, index);
    }
  }

  /** After any run of a family's phases, in any interleaving, every key is where the story has it. */
  lemma FamilyRun(s: Scenario, schedules: seq<seq<nat>>)
    requires Valid(s) && !s.saturation && RunSchedule(s, schedules) && schedules != []
    requires HasPhase(s, |schedules| - 1)
    ensures forall i: nat | i < s.keys ::
              Lookup(RunPhases(s, schedules), Key(s, i)) == Story(s, |schedules| - 1, i)
  {
    hide Story, StoreOf, RunAll, PlanOf, Key, SlotAt;
    var step := |schedules| - 1;
    RunRefines(s, schedules);
    AllKeysDistinct(s);
    forall i: nat | i < s.keys
      ensures Lookup(RunPhases(s, schedules), Key(s, i)) == Story(s, step, i)
    {
      StoryHolds(s, step, i);
      StoreLookup(Keys(s), Slots(s, step), Keys(s)[i]);
    }
  }

  // ----- Each phase changes exactly the keys it touches -----

  /** Values long enough to tell one overwrite from the next. */
  predicate Telling(s: Scenario) {
    s.family.Overwrite? ==> if s.pattern == Compressible then s.valueLength > 0 else s.valueLength >= 8
  }

  lemma NextGenerationDiffers(s: Scenario, step: nat)
    requires s.family.Overwrite? && Telling(s) && step > 0
    ensures Payload(s.valueLength, s.pattern, step) != Payload(s.valueLength, s.pattern, step - 1)
  {
    hide Payload;
    GenerationsDiffer(s.valueLength, s.pattern, step, step - 1);
    ConsecutiveDiffer(step - 1, 26);
    ConsecutiveDiffer(step - 1, 0x10_0000_0000);
  }

  lemma ConsecutiveDiffer(n: nat, m: nat)
    requires m > 1
    ensures n % m != (n + 1) % m
  {
    var q, r := n / m, n % m;
    if r + 1 < m {
      DivUnique(n + 1, m, q, r + 1);
    } else {
      assert (q + 1) * m == q * m + m;
      DivUnique(n + 1, m, q + 1, 0);
    }
  }

  /** A phase after the load changes a key if and only if it touches it. */
  lemma PhaseChanges(s: Scenario, step: nat, index: Word)
    requires s.keyLength >= 8 && HasPhase(s, step) && step > 0 && Telling(s)
    ensures HasPhase(s, step - 1) && HasStep(s, step)
    ensures SlotAt(s, step, index) != SlotAt(s, step - 1, index) <==> Touched(s.family, step, index)
  {
    hide SlotAt, Payload, HwmPayload, Survivor, SlotOf;
    if Touched(s.family, step, index) {
      TouchHolds(s, step, index);
      if step == 1 {
        LoadHolds(s, index);
      } else if Touched(s.family, step - 1, index) {
        TouchHolds(s, step - 1, index);
      } else {
        TouchedBefore(s, step, index);
      }
      TouchChanges(s, step, index);
    } else {
      UntouchedStays(s, step, index);
    }
  }

  /** Only an idle phase comes before a touch without one. */
  lemma TouchedBefore(s: Scenario, step: nat, index: Word)
    requires s.keyLength >= 8 && HasPhase(s, step) && step > 1
    requires Touched(s.family, step, index) && !Touched(s.family, step - 1, index)
    ensures s.family.Hwm? && step % 3 == 0 && SlotAt(s, step - 1, index) == None
  {
    hide HwmPayload, FixedKey;
  }

  /** What a touched key held before the phase, if that phase was the load or touched it too. */
  function Before(s: Scenario, step: nat, index: Word): Slot
    requires step > 0
  {
    if step == 1 then LoadSlot(s, index)
    else if s.family.Hwm? && step % 3 == 0 then None
    else Touch(s, step - 1, index)
  }

  lemma TouchChanges(s: Scenario, step: nat, index: Word)
    requires HasPhase(s, step) && step > 0 && Telling(s) && Touched(s.family, step, index)
    ensures Touch(s, step, index) != Before(s, step, index)
  {
    hide Payload, HwmPayload;
    if s.family.Overwrite? {
      NextGenerationDiffers(s, step);
    } else if s.family.Resize? {
      ResizeChanges(s, step, index);
    } else if s.family.Hwm? {
      assert Touch(s, step, index).None? <==> Before(s, step, index).Some?;
    } else {
      RestChanges(s, step, index);
    }
  }

  lemma ResizeChanges(s: Scenario, step: nat, index: Word)
    requires s.family.Resize? && step > 0
    ensures Touch(s, step, index) != Before(s, step, index)
  {
    hide Payload;
    var now, before := Touch(s, step, index).value.value.data, Before(s, step, index).value.value.data;
    assert |now| == [16, 64, 255, 257][step % 4];
    assert |before| == [257, 16, 64, 255][step % 4];
  }

  lemma RestChanges(s: Scenario, step: nat, index: Word)
    requires HasPhase(s, step) && step > 0 && Touched(s.family, step, index)
    requires s.family.Half? || s.family.Groups? || s.family.Metadata? || s.family.Types?
    ensures Touch(s, step, index) != Before(s, step, index)
  {
    hide Payload;
  }

  // ----- Scripts are minimal -----

  /** The commands for a key are none if and only if its slot is to stay. */
  lemma ScriptsMinimal(s: Scenario, step: nat, index: Word)
    requires s.keyLength >= 8 && HasPhase(s, step) && Telling(s) && !s.saturation
    ensures HasStep(s, step) && (Commands(s, step, index) == [] <==> SlotAt(s, step, index) == SlotBefore(s, step, index))
    ensures |Commands(s, step, index)| <= if s.family.Types? && step == 1 then 2 else 1
  {
    hide SlotAt;
    PhaseHasStep(s, step);
    CommandNames(s, step, index);
    if step == 0 {
      LoadHolds(s, index);
    } else {
      PhaseChanges(s, step, index);
    }
  }

  const SET: bytes := Ascii("SET")
  const DEL: bytes := Ascii("DEL")
  const PEXPIRE: bytes := Ascii("PEXPIRE")
  const PERSIST: bytes := Ascii("PERSIST")
  const HSET: bytes := Ascii("HSET")
  const RPUSH: bytes := Ascii("RPUSH")

  /** The names of the commands for a key. */
  function NamesFor(family: Family, step: nat, index: nat): seq<bytes> {
    if step == 0 then [SET]
    else if !Touched(family, step, index) then []
    else
      match family
      case Half => if step % 2 == 1 then [DEL] else [SET]
      case Groups => if step % 2 == 1 then [DEL] else [SET]
      case Metadata => [if step == 1 then PEXPIRE else if step == 2 then PERSIST else if step == 3 then DEL else SET]
      case Types =>
        if step == 1 then [DEL, if index % 20 == 0 then HSET else RPUSH] else if step == 2 then [DEL] else [SET]
      case Hwm => if step % 3 == 1 then [DEL] else [SET]
      case _ => [SET]
  }

  lemma CommandNames(s: Scenario, step: nat, index: Word)
    requires s.keyLength >= 8 && HasPhase(s, step) && !s.saturation
    ensures HasStep(s, step) && Images(Name, Commands(s, step, index)) == NamesFor(s.family, step, index)
  {
    hide Payload, HwmPayload, Key, NamesFor, MutationCommands, HwmCommands, RecordUnder, Images;
    PhaseHasStep(s, step);
    var r := RecordAt(s, step, index);
    RecordNamesKey(s, step, index, Key(s, index));
    if s.family.Hwm? {
      HwmNames(s, step, index, r, ValueOf(s, index, r));
    } else {
      MutationNames(s, step, index, r, ValueOf(s, index, r));
    }
  }

  lemma MutationNames(s: Scenario, step: nat, index: nat, r: Record, value: bytes)
    requires HasPhase(s, step) && HasStep(s, step) && !s.saturation && !s.family.Hwm?
    requires r == RecordUnder(s, step, index, r.key)
    ensures Images(Name, MutationCommands(s, step, index, r, value)) == NamesFor(s.family, step, index)
  {
  }

  lemma HwmNames(s: Scenario, step: nat, index: nat, r: Record, value: bytes)
    requires s.family.Hwm? && r == RecordUnder(s, step, index, r.key)
    ensures Images(Name, HwmCommands(step, index, r, value)) == NamesFor(s.family, step, index)
  {
    hide Survivor;
  }

  // ----- How many keys are left -----

  /** The keys below `n` that a phase after the load touches. */
  ghost function TouchedBelow(family: Family, step: nat, n: nat): nat {
    match family
    case Overwrite => n
    case Resize => n
    case Half => (n + 1) / 2
    case Groups => n - n / 4
    case Metadata => (n + 9) / 10
    case Types => (n + 9) / 10
    case Hwm => if step % 3 == 2 then 0 else n - CountSurvivors(n)
    case _ => 0
  }

  ghost function CountSurvivors(n: nat): (c: nat)
    ensures c <= n
  {
    SubsetSize(SurvivorsBelow(n), Range(0, n));
    |SurvivorsBelow(n)|
  }

  lemma CountSurvivorsStep(n: nat)
    ensures CountSurvivors(0) == 0
    ensures CountSurvivors(n + 1) == CountSurvivors(n) + (if Survivor(n) then 1 else 0)
  {
    hide Survivor;
    assert SurvivorsBelow(0) == {};
    if Survivor(n) {
      assert SurvivorsBelow(n + 1) == SurvivorsBelow(n) + {n};
    } else {
      assert SurvivorsBelow(n + 1) == SurvivorsBelow(n);
    }
  }

  lemma TouchedBelowStep(family: Family, step: nat, n: nat)
    ensures TouchedBelow(family, step, 0) == 0
    ensures TouchedBelow(family, step, n + 1)
         == TouchedBelow(family, step, n) + (if Touched(family, step, n) then 1 else 0)
  {
    hide Survivor, CountSurvivors;
    CountSurvivorsStep(n);
    CeilingStep(n, 2);
    CeilingStep(n, 10);
    FloorStep(n, 4);
  }

  lemma CeilingStep(n: nat, m: nat)
    requires m > 0
    ensures (n + m) / m == (n + m - 1) / m + (if n % m == 0 then 1 else 0)
  {
    var q, r := n / m, n % m;
    assert (q + 1) * m == q * m + m;
    DivUnique(n + m, m, q + 1, r);
    if r == 0 {
      DivUnique(n + m - 1, m, q, m - 1);
    } else {
      DivUnique(n + m - 1, m, q + 1, r - 1);
    }
  }

  lemma FloorStep(n: nat, m: nat)
    requires m > 0
    ensures (n + 1) / m == n / m + (if n % m == m - 1 then 1 else 0)
  {
    var q, r := n / m, n % m;
    if r == m - 1 {
      assert (q + 1) * m == q * m + m;
      DivUnique(n + 1, m, q + 1, 0);
    } else {
      DivUnique(n + 1, m, q, r + 1);
    }
  }

  /** The phases after which the touched keys are gone. */
  predicate Deletes(family: Family, step: nat) {
    match family
    case Half => step % 2 == 1
    case Groups => step % 2 == 1
    case Metadata => step == 3
    case Types => step == 2
    case Hwm => step % 3 == 1
    case _ => false
  }

  lemma {:induction false} LiveByStory(s: Scenario, step: nat, slots: seq<Slot>, n: nat)
    requires s.keyLength >= 8 && HasPhase(s, step) && !s.family.Hwm? && n <= |slots| <= WORD
    requires forall i | 0 <= i < |slots| :: slots[i] == Story(s, step, i)
    ensures Live(slots[..n]) == n - (if Deletes(s.family, step) then TouchedBelow(s.family, step, n) else 0)
    decreases n
  {
    hide Story, TouchedBelow, Deletes, Touched;
    TouchedBelowStep(s.family, step, if n == 0 then 0 else n - 1);
    if n > 0 {
      LiveByStory(s, step, slots, n - 1);
      assert slots[..n][..n - 1] == slots[..n - 1];
      StoryLives(s, step, n - 1);
    }
  }

  lemma {:induction false} StoryLives(s: Scenario, step: nat, index: Word)
    requires HasPhase(s, step) && !s.family.Hwm?
    ensures Story(s, step, index).None? <==> Deletes(s.family, step) && Touched(s.family, step, index)
    decreases step
  {
    if step > 0 && !Touched(s.family, step, index) {
      StoryLives(s, step - 1, index);
    }
  }

  /** DBSIZE after every phase: all keys, but for the touched ones after a phase that deletes. */
  lemma FamilySize(s: Scenario, step: nat)
    requires Valid(s) && HasPhase(s, step) && !s.family.Hwm?
    ensures HasStep(s, step) && DbSize(StoreAt(s, step))
         == s.keys - (if Deletes(s.family, step) then TouchedBelow(s.family, step, s.keys) else 0)
  {
    hide Story, StoreOf, Live, DbSize, TouchedBelow, Deletes, SlotAt;
    PhaseHasStep(s, step);
    var slots := Slots(s, step);
    forall i | 0 <= i < s.keys
      ensures slots[i] == Story(s, step, i)
    {
      StoryHolds(s, step, i);
    }
    AllKeysDistinct(s);
    StoreSize(Keys(s), slots);
    LiveByStory(s, step, slots, s.keys);
    assert slots[..s.keys] == slots;
  }

  // ----- How many commands a phase sends -----

  ghost function Times(name: bytes, count: nat): multiset<bytes> {
    multiset{}[name := count]
  }

  lemma TimesStep(name: bytes, count: nat)
    ensures Times(name, 0) == multiset{}
    ensures Times(name, count + 1) == Times(name, count) + multiset{name}
    ensures |Times(name, count)| == count
  {
  }

  /** The one command name of a phase that sends one command per touched key. */
  function PhaseName(family: Family, step: nat): bytes {
    match family
    case Half => if step % 2 == 1 then DEL else SET
    case Groups => if step % 2 == 1 then DEL else SET
    case Metadata => if step == 1 then PEXPIRE else if step == 2 then PERSIST else if step == 3 then DEL else SET
    case Types => if step == 2 then DEL else SET
    case Hwm => if step % 3 == 1 then DEL else SET
    case _ => SET
  }

  /** The commands a phase sends for the first `n` keys, counted by name. */
  ghost function PhaseMix(family: Family, step: nat, n: nat): multiset<bytes> {
    if step == 0 then Times(SET, n)
    else if family.Types? && step == 1 then
      Times(DEL, (n + 9) / 10) + (Times(HSET, (n + 19) / 20) + Times(RPUSH, (n + 9) / 20))
    else Times(PhaseName(family, step), TouchedBelow(family, step, n))
  }

  /** How many commands that is. */
  ghost function PhaseOperations(family: Family, step: nat, n: nat): nat {
    if step == 0 then n
    else if family.Types? && step == 1 then 2 * ((n + 9) / 10)
    else TouchedBelow(family, step, n)
  }

  /** One more command of a name, or none. */
  lemma MoreOfOne(x: bytes, count: nat, hit: bool)
    ensures Times(x, 0) == multiset{}
    ensures Times(x, if hit then count + 1 else count) == Times(x, count) + multiset(if hit then [x] else [])
  {
    TimesStep(x, count);
    assert multiset([x]) == multiset{x};
  }

  /** One more pair of commands: of the first name, and of the second or the third. */
  lemma MoreOfTwo(x: bytes, y: bytes, z: bytes, a: nat, b: nat, c: nat, second: bool)
    ensures Times(x, 0) + (Times(y, 0) + Times(z, 0)) == multiset{}
    ensures Times(x, a + 1) + (Times(y, if second then b + 1 else b) + Times(z, if second then c else c + 1))
         == (Times(x, a) + (Times(y, b) + Times(z, c))) + multiset([x, if second then y else z])
  {
    TimesStep(x, a);
    TimesStep(y, b);
    TimesStep(z, c);
    JoinPair(Times(x, a), Times(y, b), Times(z, c), x, if second then y else z, second);
  }

  lemma JoinPair(a: multiset<bytes>, b: multiset<bytes>, c: multiset<bytes>, x: bytes, y: bytes, second: bool)
    ensures (a + multiset{x}) + (if second then (b + multiset{y}) + c else b + (c + multiset{y}))
         == (a + (b + c)) + multiset([x, y])
  {
    assert [x, y] == [x] + [y];
    assert multiset([x, y]) == multiset{x} + multiset{y};
  }

  lemma NamesForOne(family: Family, step: nat, index: nat)
    requires !(family.Types? && step == 1)
    ensures step > 0 ==>
              NamesFor(family, step, index) == if Touched(family, step, index) then [PhaseName(family, step)] else []
  {
    hide Touched;
  }

  lemma PhaseMixStep(family: Family, step: nat, n: nat)
    ensures PhaseMix(family, step, 0) == multiset{} && PhaseOperations(family, step, 0) == 0
    ensures PhaseMix(family, step, n + 1) == PhaseMix(family, step, n) + multiset(NamesFor(family, step, n))
    ensures PhaseOperations(family, step, n + 1) == PhaseOperations(family, step, n) + |NamesFor(family, step, n)|
  {
    hide Touched, TouchedBelow, Times, PhaseName, NamesFor;
    TouchedBelowStep(family, step, n);
    if step == 0 {
      LoadNames(family, n);
      MoreOfOne(SET, n, true);
    } else if family.Types? && step == 1 {
      TypedMixStep(n);
    } else {
      NamesForOne(family, step, n);
      MoreOfOne(PhaseName(family, step), TouchedBelow(family, step, n), Touched(family, step, n));
    }
  }

  lemma LoadNames(family: Family, index: nat)
    ensures NamesFor(family, 0, index) == [SET]
  {
  }

  lemma TypedMixStep(n: nat)
    ensures PhaseMix(Types, 1, 0) == multiset{} && PhaseOperations(Types, 1, 0) == 0
    ensures PhaseMix(Types, 1, n + 1) == PhaseMix(Types, 1, n) + multiset(NamesFor(Types, 1, n))
    ensures PhaseOperations(Types, 1, n + 1) == PhaseOperations(Types, 1, n) + |NamesFor(Types, 1, n)|
  {
    hide Times, NamesFor;
    CeilingStep(n, 10);
    CeilingStep(n, 20);
    TwentiethStep(n);
    Tenths(n);
    TypedNames(n);
    TypedMixCase(n, (n + 9) / 10, (n + 19) / 20, (n + 9) / 20);
    MoreOfTwo(DEL, HSET, RPUSH, 0, 0, 0, true);
  }

  lemma TypedMixCase(n: nat, a: nat, b: nat, c: nat)
    requires n % 10 == 0 <==> n % 20 == 0 || n % 20 == 10
    ensures Times(DEL, if n % 10 == 0 then a + 1 else a)
            + (Times(HSET, if n % 20 == 0 then b + 1 else b) + Times(RPUSH, if n % 20 == 10 then c + 1 else c))
         == (Times(DEL, a) + (Times(HSET, b) + Times(RPUSH, c)))
            + multiset(if n % 10 == 0 then [DEL, if n % 20 == 0 then HSET else RPUSH] else [])
  {
    hide Times;
    if n % 10 == 0 {
      MoreOfTwo(DEL, HSET, RPUSH, a, b, c, n % 20 == 0);
    }
  }

  lemma Tenths(n: nat)
    ensures n % 10 == 0 <==> n % 20 == 0 || n % 20 == 10
  {
    var q, r := n / 20, n % 20;
    SameRemainder(n, r, 10, 2 * q);
  }

  lemma TypedNames(index: nat)
    ensures NamesFor(Types, 1, index)
         == if index % 10 == 0 then [DEL, if index % 20 == 0 then HSET else RPUSH] else []
  {
  }

  lemma TwentiethStep(n: nat)
    ensures (n + 10) / 20 == (n + 9) / 20 + (if n % 20 == 10 then 1 else 0)
  {
    FloorStep(n + 9, 20);
  }

  ghost predicate NamedFor(lists: seq<seq<Command>>, name: Command -> bytes, family: Family, step: nat) {
    forall i | 0 <= i < |lists| :: Images(name, lists[i]) == NamesFor(family, step, i)
  }

  lemma {:induction false} ScriptMix(lists: seq<seq<Command>>, name: Command -> bytes, family: Family, step: nat, n: nat)
    requires NamedFor(lists, name, family, step) && n <= |lists|
    ensures multiset(Images(name, Script(lists, 0, n))) == PhaseMix(family, step, n)
    ensures |Script(lists, 0, n)| == PhaseOperations(family, step, n)
    decreases n
  {
    hide PhaseMix, PhaseOperations, NamesFor;
    PhaseMixStep(family, step, if n == 0 then 0 else n - 1);
    if n > 0 {
      ScriptMix(lists, name, family, step, n - 1);
      var rest, last := Script(lists, 0, n - 1), lists[n - 1];
      assert Images(name, rest + last) == Images(name, rest) + Images(name, last);
    }
  }

  lemma {:induction false} TouchedLists(lists: seq<seq<Command>>, name: Command -> bytes, family: Family, step: nat, n: nat)
    requires NamedFor(lists, name, family, step) && n <= |lists| && step > 0
    ensures NonEmpty(lists[..n]) == TouchedBelow(family, step, n)
    decreases n
  {
    hide TouchedBelow, Touched;
    TouchedBelowStep(family, step, if n == 0 then 0 else n - 1);
    if n > 0 {
      TouchedLists(lists, name, family, step, n - 1);
      assert lists[..n][..n - 1] == lists[..n - 1];
      assert Images(name, lists[n - 1]) == NamesFor(family, step, n - 1);
    }
  }

  /** The predicted counters of a phase: so many commands of these names for so many records. */
  lemma PredictedCommands(h: Framing.Hash, s: Scenario, step: nat, w: Witness)
    requires Valid(s) && HasPhase(s, step) && HasStep(s, step) && !s.saturation && Predicts(h, s, step, w)
    ensures w.mix == PhaseMix(s.family, step, s.keys)
    ensures w.operations == PhaseOperations(s.family, step, s.keys)
    ensures step > 0 ==> w.transactions == TouchedBelow(s.family, step, s.keys)
  {
    hide PhaseMix, PhaseOperations, TouchedBelow, Commands, StoreAt, StateDigest, StoredBytes, Script, NonEmpty, CheckTable;
    var lists := Mutations(s, step);
    forall i | 0 <= i < |lists|
      ensures Images(Name, lists[i]) == NamesFor(s.family, step, i)
    {
      CommandNames(s, step, i);
    }
    ScriptMix(lists, Name, s.family, step, s.keys);
    if step > 0 {
      TouchedLists(lists, Name, s.family, step, s.keys);
      assert lists[..s.keys] == lists;
    }
  }

  /** The real dataset: a million SETs, then per cycle 950000 DELs, nothing, and 950000 SETs. */
  lemma DatasetCommands(h: Framing.Hash, s: Scenario, step: nat, w: Witness)
    requires Valid(s) && s.family.Hwm? && s.keys == HWM_KEYS && Predicts(h, s, step, w)
    ensures w.mix == if step == 0 then Times(SET, 1_000_000)
                     else if step % 3 == 1 then Times(DEL, 950_000)
                     else if step % 3 == 2 then multiset{}
                     else Times(SET, 950_000)
    ensures w.operations == if step == 0 then 1_000_000 else if step % 3 == 2 then 0 else 950_000
  {
    hide Predicts, Times, TouchedBelow;
    PredictedCommands(h, s, step, w);
    DatasetTouched(step);
    TimesStep(SET, 0);
  }

  lemma DatasetTouched(step: nat)
    ensures TouchedBelow(Hwm, step, HWM_KEYS) == if step % 3 == 2 then 0 else 950_000
  {
    hide CountSurvivors;
    SurvivorTotal(HWM_KEYS);
  }

  lemma SurvivorTotal(n: nat)
    requires n == HWM_KEYS
    ensures CountSurvivors(n) == HWM_SURVIVORS
  {
    hide Survivor;
    WindowHasSurvivors(0);
    assert SurvivorsBelow(n) == set i | i in Range(0, 0 + HWM_KEYS) && Survivor(i);
  }
}
