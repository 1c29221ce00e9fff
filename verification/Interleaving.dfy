/**
 Concurrent workers.  A schedule names, step by step, the worker that sends its next
 command; every interleaving of the workers' scripts is the trace of some schedule.
 */
module Interleaving {
  import opened Bytes
  import opened Store

  type Scripts = seq<seq<Command>>

  /** Each step of the schedule finds the named worker with a command left. */
  ghost predicate Schedules(scripts: Scripts, schedule: seq<nat>)
    decreases |schedule|
  {
    schedule == [] ||
    var w := schedule[0];
    && w < |scripts| && scripts[w] != []
    && Schedules(scripts[w := scripts[w][1..]], schedule[1..])
  }

  /** The trace a schedule sends to the store. */
  ghost function Trace(scripts: Scripts, schedule: seq<nat>): (r: seq<Command>)
    requires Schedules(scripts, schedule)
    decreases |schedule|
  {
    if schedule == [] then []
    else
      var w := schedule[0];
      [scripts[w][0]] + Trace(scripts[w := scripts[w][1..]], schedule[1..])
  }

  /** What the schedule leaves unsent. */
  ghost function Remaining(scripts: Scripts, schedule: seq<nat>): (r: Scripts)
    requires Schedules(scripts, schedule)
    ensures |r| == |scripts|
    decreases |schedule|
  {
    if schedule == [] then scripts
    else
      var w := schedule[0];
      Remaining(scripts[w := scripts[w][1..]], schedule[1..])
  }

  /** The schedule sends every script to its end. */
  ghost predicate Completes(scripts: Scripts, schedule: seq<nat>) {
    && Schedules(scripts, schedule)
    && forall w | 0 <= w < |scripts| :: Remaining(scripts, schedule)[w] == []
  }

  function Unsent(scripts: Scripts): nat {
    if scripts == [] then 0 else |scripts[0]| + Unsent(scripts[1..])
  }

  lemma {:induction false} UnsentDrops(scripts: Scripts, w: nat)
    requires w < |scripts| && scripts[w] != []
    ensures Unsent(scripts[w := scripts[w][1..]]) == Unsent(scripts) - 1
    decreases w
  {
    var next := scripts[w := scripts[w][1..]];
    if w == 0 {
      assert next[1..] == scripts[1..];
    } else {
      UnsentDrops(scripts[1..], w - 1);
      assert next[1..] == scripts[1..][w - 1 := scripts[w][1..]];
    }
  }

  /** Whatever the scripts, some schedule sends them all. */
  lemma {:induction false} SomeScheduleCompletes(scripts: Scripts) returns (schedule: seq<nat>)
    ensures Completes(scripts, schedule)
    decreases Unsent(scripts)
  {
    if w: nat :| w < |scripts| && scripts[w] != [] {
      UnsentDrops(scripts, w);
      var rest := SomeScheduleCompletes(scripts[w := scripts[w][1..]]);
      schedule := [w] + rest;
      assert schedule[1..] == rest;
    } else {
      schedule := [];
    }
  }

  /** Only worker `owner` names `key`. */
  ghost predicate OwnedBy(scripts: Scripts, key: bytes, owner: nat) {
    forall w | 0 <= w < |scripts| && w != owner :: OnKey(scripts[w], key) == []
  }

  /** The commands on a key owned by one worker keep that worker's order in every interleaving. */
  lemma {:induction false} OwnerOrderKept(scripts: Scripts, schedule: seq<nat>, key: bytes, owner: nat)
    requires Schedules(scripts, schedule)
    requires owner < |scripts| && OwnedBy(scripts, key, owner)
    ensures OnKey(Trace(scripts, schedule), key) + OnKey(Remaining(scripts, schedule)[owner], key)
         == OnKey(scripts[owner], key)
    decreases |schedule|
  {
    if schedule != [] {
      var w := schedule[0];
      var c := scripts[w][0];
      var next := scripts[w := scripts[w][1..]];
      assert OnKey(scripts[w], key) == (if c.key == key then [c] else []) + OnKey(scripts[w][1..], key);
      OwnerOrderKept(next, schedule[1..], key, owner);
      var trace := Trace(scripts, schedule);
      assert trace[1..] == Trace(next, schedule[1..]);
      assert OnKey(trace, key) == (if c.key == key then [c] else []) + OnKey(trace[1..], key);
    }
  }

  /** A complete schedule sends each owned key exactly its owner's commands on it. */
  lemma OwnerSendsAll(scripts: Scripts, schedule: seq<nat>, key: bytes, owner: nat)
    requires Completes(scripts, schedule)
    requires owner < |scripts| && OwnedBy(scripts, key, owner)
    ensures OnKey(Trace(scripts, schedule), key) == OnKey(scripts[owner], key)
  {
    OwnerOrderKept(scripts, schedule, key, owner);
  }

  /** Every command sent comes from some script. */
  lemma {:induction false} TraceFromScripts(scripts: Scripts, schedule: seq<nat>, j: nat)
    requires Schedules(scripts, schedule)
    requires j < |Trace(scripts, schedule)|
    ensures exists w :: 0 <= w < |scripts| && Trace(scripts, schedule)[j] in scripts[w]
    decreases |schedule|
  {
    var w := schedule[0];
    if j == 0 {
      assert Trace(scripts, schedule)[0] in scripts[w];
    } else {
      var next := scripts[w := scripts[w][1..]];
      TraceFromScripts(next, schedule[1..], j - 1);
      var v :| 0 <= v < |next| && Trace(next, schedule[1..])[j - 1] in next[v];
      assert Trace(scripts, schedule)[j] in scripts[v];
    }
  }
}
