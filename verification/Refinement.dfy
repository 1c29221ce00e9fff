/**
 The refinement theorem.  Sixteen workers send their scripts phase by phase, in any
 interleaving within a phase; the store they leave is exactly the closed form, and every
 reply on the way is the one the native driver insists on.
 */
module Refinement {
  import opened Wrappers
  import opened Words
  import opened Bytes
  import opened Counting
  import opened Payloads
  import opened Survivors
  import opened Store
  import opened Interleaving
  import opened Phases
  import opened Scenarios

  // ----- Tables of a scenario -----

  function Keys(s: Scenario): (r: seq<bytes>)
    requires Valid(s)
    ensures |r| == s.keys
    ensures forall i | 0 <= i < s.keys :: r[i] == Key(s, i)
  {
    seq(s.keys, i requires 0 <= i < s.keys => Key(s, i))
  }

  function Slots(s: Scenario, step: nat): (r: seq<Slot>)
    requires Valid(s) && HasStep(s, step)
    ensures |r| == s.keys
    ensures forall i | 0 <= i < s.keys :: r[i] == SlotAt(s, step, i)
  {
    seq(s.keys, i requires 0 <= i < s.keys => SlotAt(s, step, i))
  }

  function SlotsBefore(s: Scenario, step: nat): (r: seq<Slot>)
    requires Valid(s) && HasStep(s, step)
    ensures |r| == s.keys
  {
    if step == 0 then seq(s.keys, _ => None) else Slots(s, step - 1)
  }

  function Mutations(s: Scenario, step: nat): (r: seq<seq<Command>>)
    requires Valid(s) && HasStep(s, step)
    ensures |r| == s.keys
    ensures forall i | 0 <= i < s.keys :: r[i] == Commands(s, step, i)
  {
    seq(s.keys, i requires 0 <= i < s.keys => Commands(s, step, i))
  }

  lemma AllKeysDistinct(s: Scenario)
    requires Valid(s)
    ensures Distinct(Keys(s))
  {
    forall i, j | 0 <= i < s.keys && 0 <= j < s.keys && i != j
      ensures Keys(s)[i] != Keys(s)[j]
    {
      KeysDistinct(s, i, j);
    }
  }

  lemma MutationsWellFormed(s: Scenario, step: nat)
    requires Valid(s) && HasStep(s, step)
    ensures WellFormed(Phase(Keys(s), Mutations(s, step)))
  {
    AllKeysDistinct(s);
    forall i | 0 <= i < s.keys
      ensures NamesOnly(Mutations(s, step)[i], Keys(s)[i])
    {
      CommandsNameOwnKey(s, step, i);
    }
  }

  lemma MutationsTake(s: Scenario, step: nat)
    requires Valid(s) && HasStep(s, step) && !s.saturation
    ensures RowsTake(SlotsBefore(s, step), Phase(Keys(s), Mutations(s, step)), Slots(s, step), Insisted)
  {
    forall i | 0 <= i < s.keys
      ensures Takes(SlotsBefore(s, step)[i], Mutations(s, step)[i], Slots(s, step)[i], Insisted)
    {
      StepRefines(s, step, i);
    }
  }

  /** The store the closed form describes after a step. */
  function StoreAt(s: Scenario, step: nat): Db
    requires Valid(s) && HasStep(s, step)
  {
    StoreOf(Keys(s), Slots(s, step))
  }

  // ----- One phase -----

  /** One phase, any interleaving: closed form to closed form, with every reply as insisted. */
  lemma PhaseRefines(s: Scenario, step: nat, schedule: seq<nat>)
    requires Valid(s) && HasStep(s, step) && !s.saturation
    requires Completes(WorkerScripts(Mutations(s, step)), schedule)
    ensures var db := if step == 0 then map[] else StoreAt(s, step - 1);
            var trace := Trace(WorkerScripts(Mutations(s, step)), schedule);
            && Run(db, trace) == StoreAt(s, step)
            && forall j | 0 <= j < |trace| :: Answers(db, trace)[j] == Insisted(trace[j])
  {
    MutationsWellFormed(s, step);
    MutationsTake(s, step);
    PhaseTakes(SlotsBefore(s, step), Phase(Keys(s), Mutations(s, step)), Slots(s, step), Insisted, schedule);
    if step == 0 {
      EmptyTable(Keys(s), SlotsBefore(s, step));
    }
  }

  // ----- Whole runs -----

  /** The commands of the first `n` phases. */
  function PlanOf(s: Scenario, n: nat): (r: seq<seq<seq<Command>>>)
    requires Valid(s) && forall p: nat | p < n :: HasStep(s, p)
    ensures |r| == n
    ensures forall p | 0 <= p < n :: r[p] == Mutations(s, p)
  {
    seq(n, p requires 0 <= p < n => Mutations(s, p))
  }

  function BoundarySlots(s: Scenario, n: nat): (r: seq<seq<Slot>>)
    requires Valid(s) && forall p: nat | p < n :: HasStep(s, p)
    ensures |r| == n + 1
    ensures r[0] == seq(s.keys, _ => None)
    ensures forall p | 1 <= p <= n :: r[p] == Slots(s, p - 1)
  {
    seq(n + 1, p requires 0 <= p <= n => if p == 0 then seq(s.keys, _ => None) else Slots(s, p - 1))
  }

  /** One complete interleaving per phase, from the load on. */
  ghost predicate RunSchedule(s: Scenario, schedules: seq<seq<nat>>)
    requires Valid(s)
  {
    && (forall p: nat | p < |schedules| :: HasStep(s, p))
    && Schedulable(PlanOf(s, |schedules|), schedules)
  }

  /** The store after running the scheduled phases on an empty store. */
  ghost function RunPhases(s: Scenario, schedules: seq<seq<nat>>): Db
    requires Valid(s) && RunSchedule(s, schedules)
  {
    RunAll(PlanOf(s, |schedules|), schedules)
  }

  lemma ScenarioStepsThrough(s: Scenario, n: nat)
    requires Valid(s) && !s.saturation && forall p: nat | p < n :: HasStep(s, p)
    ensures StepsThrough(Keys(s), PlanOf(s, n), BoundarySlots(s, n), Insisted)
  {
    var slots, plan := BoundarySlots(s, n), PlanOf(s, n);
    forall p | 0 <= p < n
      ensures WellFormed(Phase(Keys(s), plan[p]))
      ensures RowsTake(slots[p], Phase(Keys(s), plan[p]), slots[p + 1], Insisted)
    {
      MutationsWellFormed(s, p);
      MutationsTake(s, p);
      assert slots[p] == SlotsBefore(s, p);
    }
  }

  /** Every run of every scenario, whatever the interleavings, ends in the closed form. */
  lemma RunRefines(s: Scenario, schedules: seq<seq<nat>>)
    requires Valid(s) && !s.saturation && RunSchedule(s, schedules) && schedules != []
    ensures RunPhases(s, schedules) == StoreAt(s, |schedules| - 1)
  {
    var n := |schedules|;
    ScenarioStepsThrough(s, n);
    RunFollows(Keys(s), PlanOf(s, n), BoundarySlots(s, n), Insisted, schedules);
    assert BoundarySlots(s, n)[n] == Slots(s, n - 1);
  }

  // ----- The high-water-mark cycle, for any number of cycles -----

  /** What a key of the high-water-mark dataset must hold after a step. */
  function HwmSlot(step: nat, index: Word): Slot {
    if Survivor(index) then Some(Entry(Str(HwmPayload(index, 0)), false))
    else if step % 3 == 0 then Some(Entry(Str(HwmPayload(index, step / 3)), false))
    else None
  }

  lemma HwmRecord(s: Scenario, step: nat, index: Word)
    requires s.family.Hwm? && s.keyLength >= 8
    ensures var r := RecordAt(s, step, index);
            && !r.expires
            && (r.kind == if step % 3 != 0 && !Survivor(index) then Absent else StringKind)
            && (Survivor(index) ==> r.generation == 0)
            && (!Survivor(index) && step % 3 == 0 ==> r.generation == step / 3)
  {
  }

  lemma HwmSlotAt(s: Scenario, step: nat, index: Word)
    requires s.family.Hwm? && s.keyLength >= 8
    ensures SlotAt(s, step, index) == HwmSlot(step, index)
  {
    HwmRecord(s, step, index);
  }

  /**
   After any run of load, delete, idle and refill phases the survivors still hold
   generation 0, refill `c` has brought every other key back at generation `c`, and an
   idle phase leaves the store of the delete before it.
   */
  lemma HwmCycles(s: Scenario, schedules: seq<seq<nat>>)
    requires Valid(s) && s.family.Hwm? && RunSchedule(s, schedules) && schedules != []
    ensures var step := |schedules| - 1;
            && (forall i: nat | i < s.keys ::
                  Lookup(RunPhases(s, schedules), Key(s, i)) == HwmSlot(step, i))
            && (step % 3 == 2 ==>
                  && RunSchedule(s, schedules[..step])
                  && RunPhases(s, schedules) == RunPhases(s, schedules[..step]))
  {
    hide HwmSlot, StoreOf, RunAll, PlanOf, Key;
    var step := |schedules| - 1;
    RunRefines(s, schedules);
    AllKeysDistinct(s);
    SlotsAreHwm(s, step);
    forall i: nat | i < s.keys
      ensures Lookup(RunPhases(s, schedules), Key(s, i)) == HwmSlot(step, i)
    {
      StoreLookup(Keys(s), Slots(s, step), Keys(s)[i]);
    }
    if step % 3 == 2 {
      ShorterRun(s, schedules);
      RunRefines(s, schedules[..step]);
      SlotsAreHwm(s, step - 1);
      HwmSlotsIdle(s.keys, step);
    }
  }

  lemma ShorterRun(s: Scenario, schedules: seq<seq<nat>>)
    requires Valid(s) && RunSchedule(s, schedules) && schedules != []
    ensures RunSchedule(s, schedules[..|schedules| - 1])
  {
    var n := |schedules| - 1;
    var plan, shorter := PlanOf(s, n + 1), PlanOf(s, n);
    assert forall p | 0 <= p < n :: shorter[p] == plan[p];
  }

  function HwmSlots(keys: nat, step: nat): (r: seq<Slot>)
    requires keys <= WORD
    ensures |r| == keys
    ensures forall i | 0 <= i < keys :: r[i] == HwmSlot(step, i)
  {
    seq(keys, i requires 0 <= i < keys => HwmSlot(step, i))
  }

  lemma SlotsAreHwm(s: Scenario, step: nat)
    requires Valid(s) && s.family.Hwm?
    ensures Slots(s, step) == HwmSlots(s.keys, step)
  {
    var slots := Slots(s, step);
    forall i | 0 <= i < s.keys
      ensures slots[i] == HwmSlot(step, i)
    {
      HwmSlotAt(s, step, i);
    }
  }

  lemma HwmSlotIdle(step: nat, index: Word)
    requires step % 3 == 2
    ensures HwmSlot(step, index) == HwmSlot(step - 1, index)
  {
    assert (step - 1) % 3 == 1;
  }

  lemma HwmSlotsIdle(keys: nat, step: nat)
    requires keys <= WORD && step % 3 == 2
    ensures HwmSlots(keys, step) == HwmSlots(keys, step - 1)
  {
    var now, before := HwmSlots(keys, step), HwmSlots(keys, step - 1);
    forall i | 0 <= i < keys
      ensures now[i] == before[i]
    {
      HwmSlotIdle(step, i);
    }
  }

  // ----- How many keys are live -----

  ghost function LiveBelow(slots: seq<Slot>, n: nat): set<int>
    requires n <= |slots|
  {
    set i | i in Range(0, n) && slots[i].Some?
  }

  lemma {:induction false} LiveIsCount(slots: seq<Slot>, n: nat)
    requires n <= |slots|
    ensures Live(slots[..n]) == |LiveBelow(slots, n)|
    decreases n
  {
    if n > 0 {
      LiveIsCount(slots, n - 1);
      assert slots[..n][..n - 1] == slots[..n - 1];
      if slots[n - 1].Some? {
        assert LiveBelow(slots, n) == LiveBelow(slots, n - 1) + {n - 1};
      } else {
        assert LiveBelow(slots, n) == LiveBelow(slots, n - 1);
      }
    }
  }

  ghost function SurvivorsBelow(n: nat): set<int> {
    set i | i in Range(0, n) && Survivor(i)
  }

  /** The size of every high-water-mark store: all keys after a load or refill, else the survivors. */
  lemma HwmSize(s: Scenario, step: nat)
    requires Valid(s) && s.family.Hwm?
    ensures DbSize(StoreAt(s, step)) == if step % 3 == 0 then s.keys else |SurvivorsBelow(s.keys)|
  {
    hide StoreOf, Live, DbSize, Survivor;
    var slots := HwmSlots(s.keys, step);
    SlotsAreHwm(s, step);
    AllKeysDistinct(s);
    StoreSize(Keys(s), slots);
    LiveIsCount(slots, s.keys);
    assert slots[..s.keys] == slots;
    if step % 3 == 0 {
      assert LiveBelow(slots, s.keys) == Range(0, s.keys);
    } else {
      assert LiveBelow(slots, s.keys) == SurvivorsBelow(s.keys);
    }
  }

  /** The real dataset: a million live keys after a load or refill, fifty thousand otherwise. */
  lemma HwmDatasetSize(s: Scenario, step: nat)
    requires Valid(s) && s.family.Hwm? && s.keys == HWM_KEYS
    ensures DbSize(StoreAt(s, step)) == if step % 3 == 0 then HWM_KEYS else HWM_SURVIVORS
  {
    hide StoreAt, DbSize, Survivor;
    HwmSize(s, step);
    WindowHasSurvivors(0);
    assert SurvivorsBelow(HWM_KEYS) == set i | i in Range(0, 0 + HWM_KEYS) && Survivor(i);
  }
}
