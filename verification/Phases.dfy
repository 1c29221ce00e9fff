/**
 One phase of sixteen concurrent workers, for any table of keys and commands: if each
 key alone is taken from one slot to another, every interleaving takes the whole store.
 */
module Phases {
  import opened Wrappers
  import opened Bytes
  import opened Store
  import opened Interleaving

  const WORKERS: nat := 16

  // ----- Worker ranges -----

  /** First index of a worker's range. */
  function RangeStart(keys: nat, worker: nat): nat {
    keys * worker / WORKERS
  }

  /** The ranges tile the index space and their sizes differ by at most one. */
  lemma RangesTile(keys: nat, worker: nat)
    requires worker < WORKERS
    ensures RangeStart(keys, 0) == 0 && RangeStart(keys, WORKERS) == keys
    ensures keys / WORKERS <= RangeStart(keys, worker + 1) - RangeStart(keys, worker) <= keys / WORKERS + 1
    ensures RangeStart(keys, worker + 1) <= keys
    ensures WORKERS * RangeStart(keys, worker) <= keys * worker < WORKERS * RangeStart(keys, worker) + WORKERS
  {
    assert keys * (worker + 1) == keys * worker + keys;
    assert keys * (worker + 1) <= keys * WORKERS;
  }

  lemma RangeMonotone(keys: nat, v: nat, w: nat)
    requires v <= w
    ensures RangeStart(keys, v) <= RangeStart(keys, w)
  {
    assert keys * v <= keys * w;
  }

  /** Every index lies in the range of exactly one worker. */
  lemma OwnerOf(keys: nat, index: nat) returns (owner: nat)
    requires index < keys
    ensures owner < WORKERS && RangeStart(keys, owner) <= index < RangeStart(keys, owner + 1)
    ensures forall w: nat | w < WORKERS && RangeStart(keys, w) <= index < RangeStart(keys, w + 1) :: w == owner
  {
    RangesTile(keys, 0);
    owner := 0;
    while RangeStart(keys, owner + 1) <= index
      invariant owner < WORKERS && RangeStart(keys, owner) <= index
      decreases WORKERS - owner
    {
      RangesTile(keys, owner + 1);
      owner := owner + 1;
    }
    forall w: nat | w < WORKERS && RangeStart(keys, w) <= index < RangeStart(keys, w + 1)
      ensures w == owner
    {
      if w < owner {
        RangeMonotone(keys, w + 1, owner);
      } else if owner < w {
        RangeMonotone(keys, owner + 1, w);
      }
    }
  }

  // ----- Tables -----

  /** Per index, a key and the commands sent for it. */
  datatype Phase = Phase(keys: seq<bytes>, commands: seq<seq<Command>>)

  ghost predicate Distinct(keys: seq<bytes>) {
    forall i, j | 0 <= i < |keys| && 0 <= j < |keys| && keys[i] == keys[j] :: i == j
  }

  ghost predicate NamesOnly(cs: seq<Command>, key: bytes) {
    forall c | c in cs :: c.key == key
  }

  /** Keys are distinct and each row's commands name the row's key. */
  ghost predicate WellFormed(ph: Phase) {
    && |ph.keys| == |ph.commands|
    && Distinct(ph.keys)
    && forall i | 0 <= i < |ph.keys| :: NamesOnly(ph.commands[i], ph.keys[i])
  }

  /** The commands sent for the indices from `lo` to `hi`, in order. */
  function Script(commands: seq<seq<Command>>, lo: nat, hi: nat): seq<Command>
    requires lo <= hi <= |commands|
    decreases hi - lo
  {
    if lo == hi then [] else Script(commands, lo, hi - 1) + commands[hi - 1]
  }

  function WorkerScript(commands: seq<seq<Command>>, worker: nat): seq<Command>
    requires worker < WORKERS
  {
    RangesTile(|commands|, worker);
    Script(commands, RangeStart(|commands|, worker), RangeStart(|commands|, worker + 1))
  }

  function WorkerScripts(commands: seq<seq<Command>>): (r: Scripts)
    ensures |r| == WORKERS
    ensures forall w | 0 <= w < WORKERS :: r[w] == WorkerScript(commands, w)
  {
    seq(WORKERS, w requires 0 <= w < WORKERS => WorkerScript(commands, w))
  }

  lemma {:induction false} OnOwnKey(cs: seq<Command>, own: bytes, key: bytes)
    requires NamesOnly(cs, own)
    ensures OnKey(cs, key) == if key == own then cs else []
  {
    if cs != [] {
      assert cs[0] in cs;
      OnOwnKey(cs[1..], own, key);
    }
  }

  lemma NothingOnKey(key: bytes)
    ensures OnKey([], key) == []
  {
  }

  lemma {:induction false} ScriptOnKey(ph: Phase, lo: nat, hi: nat, index: nat)
    requires WellFormed(ph) && lo <= hi <= |ph.keys| && index < |ph.keys|
    ensures OnKey(Script(ph.commands, lo, hi), ph.keys[index])
         == if lo <= index < hi then ph.commands[index] else []
    decreases hi - lo
  {
    hide OnKey;
    NothingOnKey(ph.keys[index]);
    if lo < hi {
      ScriptOnKey(ph, lo, hi - 1, index);
      OnKeyConcat(Script(ph.commands, lo, hi - 1), ph.commands[hi - 1], ph.keys[index]);
      OnOwnKey(ph.commands[hi - 1], ph.keys[hi - 1], ph.keys[index]);
    }
  }

  lemma {:induction false} ScriptOffKey(ph: Phase, lo: nat, hi: nat, key: bytes)
    requires WellFormed(ph) && lo <= hi <= |ph.keys| && key !in ph.keys
    ensures OnKey(Script(ph.commands, lo, hi), key) == []
    decreases hi - lo
  {
    if lo < hi {
      ScriptOffKey(ph, lo, hi - 1, key);
      OnKeyConcat(Script(ph.commands, lo, hi - 1), ph.commands[hi - 1], key);
      OnOwnKey(ph.commands[hi - 1], ph.keys[hi - 1], key);
    }
  }

  /** Every interleaving sends each key its own commands, in order, and nothing else. */
  lemma TraceOnKey(ph: Phase, schedule: seq<nat>, index: nat)
    requires WellFormed(ph) && Completes(WorkerScripts(ph.commands), schedule) && index < |ph.keys|
    ensures OnKey(Trace(WorkerScripts(ph.commands), schedule), ph.keys[index]) == ph.commands[index]
  {
    var scripts := WorkerScripts(ph.commands);
    var n, key := |ph.keys|, ph.keys[index];
    var owner := OwnerOf(n, index);
    forall w | 0 <= w < |scripts|
      ensures OnKey(scripts[w], key) == if w == owner then ph.commands[index] else []
    {
      RangesTile(n, w);
      ScriptOnKey(ph, RangeStart(n, w), RangeStart(n, w + 1), index);
    }
    OwnerSendsAll(scripts, schedule, key, owner);
  }

  lemma TraceOffKey(ph: Phase, schedule: seq<nat>, key: bytes)
    requires WellFormed(ph) && Completes(WorkerScripts(ph.commands), schedule) && key !in ph.keys
    ensures OnKey(Trace(WorkerScripts(ph.commands), schedule), key) == []
  {
    var scripts := WorkerScripts(ph.commands);
    var n := |ph.keys|;
    forall w | 0 <= w < |scripts|
      ensures OnKey(scripts[w], key) == []
    {
      RangesTile(n, w);
      ScriptOffKey(ph, RangeStart(n, w), RangeStart(n, w + 1), key);
    }
    OwnerSendsAll(scripts, schedule, key, 0);
  }

  // ----- Stores given by tables -----

  /** The store that holds each row's slot under its key, and nothing else. */
  function StoreOf(keys: seq<bytes>, slots: seq<Slot>): Db
    requires |keys| == |slots|
  {
    if keys == [] then map[]
    else
      var n := |keys| - 1;
      Update(StoreOf(keys[..n], slots[..n]), keys[n], slots[n])
  }

  lemma LookupUpdate(db: Db, key: bytes, slot: Slot, other: bytes)
    ensures Lookup(Update(db, key, slot), other) == if other == key then slot else Lookup(db, other)
  {
  }

  lemma {:induction false} StoreLookup(keys: seq<bytes>, slots: seq<Slot>, key: bytes)
    requires |keys| == |slots| && Distinct(keys)
    ensures forall i | 0 <= i < |keys| && keys[i] == key :: Lookup(StoreOf(keys, slots), key) == slots[i]
    ensures key !in keys ==> Lookup(StoreOf(keys, slots), key) == None
    decreases |keys|
  {
    if keys != [] {
      var n := |keys| - 1;
      StoreLookup(keys[..n], slots[..n], key);
      LookupUpdate(StoreOf(keys[..n], slots[..n]), keys[n], slots[n], key);
      assert forall i | 0 <= i < n :: keys[..n][i] == keys[i];
      assert key !in keys ==> key !in keys[..n];
    }
  }

  function Live(slots: seq<Slot>): nat {
    if slots == [] then 0
    else Live(slots[..|slots| - 1]) + (if slots[|slots| - 1].Some? then 1 else 0)
  }

  /** The size of the store is the number of rows that hold something. */
  lemma {:induction false} StoreSize(keys: seq<bytes>, slots: seq<Slot>)
    requires |keys| == |slots| && Distinct(keys)
    ensures DbSize(StoreOf(keys, slots)) == Live(slots)
    decreases |keys|
  {
    hide Lookup, Update;
    if keys != [] {
      var n := |keys| - 1;
      StoreSize(keys[..n], slots[..n]);
      StoreLookup(keys[..n], slots[..n], keys[n]);
      assert keys[n] !in keys[..n];
      var db := StoreOf(keys[..n], slots[..n]);
      UpdateSize(db, keys[n], slots[n]);
    }
  }

  lemma UpdateSize(db: Db, key: bytes, slot: Slot)
    requires Lookup(db, key) == None
    ensures DbSize(Update(db, key, slot)) == DbSize(db) + (if slot.Some? then 1 else 0)
  {
    if slot.Some? {
      assert db[key := slot.value].Keys == db.Keys + {key};
    } else {
      assert db - {key} == db;
    }
  }

  // ----- The phase theorem -----

  /** `cs` takes one slot to another and every reply is the expected one. */
  ghost predicate Takes(before: Slot, cs: seq<Command>, after: Slot, expected: Command -> Reply) {
    RunSlot(before, cs) == after && AnswersAs(before, cs, expected)
  }

  ghost predicate RowsTake(before: seq<Slot>, ph: Phase, after: seq<Slot>, expected: Command -> Reply) {
    && |before| == |after| == |ph.commands|
    && forall i | 0 <= i < |before| :: Takes(before[i], ph.commands[i], after[i], expected)
  }

  lemma KeyTaken(before: seq<Slot>, ph: Phase, after: seq<Slot>, expected: Command -> Reply,
                 schedule: seq<nat>, key: bytes)
    requires WellFormed(ph) && RowsTake(before, ph, after, expected)
    requires Completes(WorkerScripts(ph.commands), schedule)
    ensures Takes(Lookup(StoreOf(ph.keys, before), key), OnKey(Trace(WorkerScripts(ph.commands), schedule), key),
                  Lookup(StoreOf(ph.keys, after), key), expected)
  {
    StoreLookup(ph.keys, before, key);
    StoreLookup(ph.keys, after, key);
    if key in ph.keys {
      var i :| 0 <= i < |ph.keys| && ph.keys[i] == key;
      TraceOnKey(ph, schedule, i);
    } else {
      TraceOffKey(ph, schedule, key);
    }
  }

  /** If every row is taken from one slot to the next, so is the store, in every interleaving. */
  lemma PhaseTakes(before: seq<Slot>, ph: Phase, after: seq<Slot>, expected: Command -> Reply, schedule: seq<nat>)
    requires WellFormed(ph) && RowsTake(before, ph, after, expected)
    requires Completes(WorkerScripts(ph.commands), schedule)
    ensures var trace := Trace(WorkerScripts(ph.commands), schedule);
            && Run(StoreOf(ph.keys, before), trace) == StoreOf(ph.keys, after)
            && forall j | 0 <= j < |trace| ::
                 Answers(StoreOf(ph.keys, before), trace)[j] == expected(trace[j])
  {
    var db, trace := StoreOf(ph.keys, before), Trace(WorkerScripts(ph.commands), schedule);
    forall key
      ensures Lookup(Run(db, trace), key) == Lookup(StoreOf(ph.keys, after), key)
      ensures AnswersAs(Lookup(db, key), OnKey(trace, key), expected)
    {
      KeyTaken(before, ph, after, expected, schedule, key);
      RunIsLocal(db, trace, key);
    }
    DbExtensional(Run(db, trace), StoreOf(ph.keys, after));
    AnswersAreLocal(db, trace, expected);
  }

  // ----- Runs of several phases -----

  /** One complete interleaving per phase. */
  ghost predicate Schedulable(plan: seq<seq<seq<Command>>>, schedules: seq<seq<nat>>) {
    && |plan| == |schedules|
    && forall p | 0 <= p < |plan| :: Completes(WorkerScripts(plan[p]), schedules[p])
  }

  /** The store after running all phases, each to its end, on an empty store. */
  ghost function RunAll(plan: seq<seq<seq<Command>>>, schedules: seq<seq<nat>>): Db
    requires Schedulable(plan, schedules)
    decreases |plan|
  {
    if plan == [] then map[]
    else
      var p := |plan| - 1;
      Run(RunAll(plan[..p], schedules[..p]), Trace(WorkerScripts(plan[p]), schedules[p]))
  }

  ghost predicate AllNone(slots: seq<Slot>) {
    forall i | 0 <= i < |slots| :: slots[i].None?
  }

  lemma {:induction false} EmptyTable(keys: seq<bytes>, slots: seq<Slot>)
    requires |keys| == |slots| && AllNone(slots)
    ensures StoreOf(keys, slots) == map[]
    decreases |keys|
  {
    if keys != [] {
      EmptyTable(keys[..|keys| - 1], slots[..|keys| - 1]);
    }
  }

  /** Tables of slots, one per phase boundary, that the phases of a plan step through. */
  ghost predicate StepsThrough(keys: seq<bytes>, plan: seq<seq<seq<Command>>>, slots: seq<seq<Slot>>,
                               expected: Command -> Reply) {
    && |slots| == |plan| + 1
    && |slots[0]| == |keys| && AllNone(slots[0])
    && forall p | 0 <= p < |plan| ::
         && WellFormed(Phase(keys, plan[p]))
         && RowsTake(slots[p], Phase(keys, plan[p]), slots[p + 1], expected)
  }

  /** Phase by phase, whatever the interleavings, the store follows the tables. */
  lemma {:induction false} RunFollows(keys: seq<bytes>, plan: seq<seq<seq<Command>>>, slots: seq<seq<Slot>>,
                                      expected: Command -> Reply, schedules: seq<seq<nat>>)
    requires StepsThrough(keys, plan, slots, expected) && Schedulable(plan, schedules)
    ensures |slots[|plan|]| == |keys| && RunAll(plan, schedules) == StoreOf(keys, slots[|plan|])
    decreases |plan|
  {
    if plan == [] {
      EmptyTable(keys, slots[0]);
    } else {
      var p := |plan| - 1;
      RunFollows(keys, plan[..p], slots[..p + 1], expected, schedules[..p]);
      PhaseTakes(slots[p], Phase(keys, plan[p]), slots[p + 1], expected, schedules[p]);
    }
  }
}
