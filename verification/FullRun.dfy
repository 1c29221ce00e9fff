/**
 A whole high-water-mark run: in every phase the workers mutate, then steady traffic runs
 unless the phase is idle, then every key is read back; each of the three in any
 interleaving.
 */
module FullRun {
  import opened Bytes
  import opened Store
  import opened Interleaving
  import opened Phases
  import opened Scenarios
  import opened Refinement
  import opened Verification
  import opened Oracle
  import opened Steady

  /** How one phase was interleaved; the traffic of an idle phase is not looked at. */
  datatype Course = Course(mutation: seq<nat>, attempts: seq<nat>, traffic: seq<nat>, checks: seq<nat>)

  ghost predicate Courses(s: Scenario, step: nat, c: Course)
    requires Valid(s) && s.family.Hwm?
  {
    && Completes(WorkerScripts(Mutations(s, step)), c.mutation)
    && (step % 3 != 2 ==>
          && LiveIndices(step, s.keys) != [] && |c.attempts| == WORKERS
          && Schedules(SteadyScripts(s, step, c.attempts), c.traffic))
    && Schedules(WorkerScripts(CheckTable(s, step)), c.checks)
  }

  ghost function TrafficOf(s: Scenario, step: nat, c: Course): seq<Command>
    requires Valid(s) && s.family.Hwm? && Courses(s, step, c)
  {
    if step % 3 == 2 then [] else Trace(SteadyScripts(s, step, c.attempts), c.traffic)
  }

  /** Everything sent in a phase. */
  ghost function PhaseTrace(s: Scenario, step: nat, c: Course): seq<Command>
    requires Valid(s) && s.family.Hwm? && Courses(s, step, c)
  {
    Trace(WorkerScripts(Mutations(s, step)), c.mutation)
    + TrafficOf(s, step, c)
    + Trace(WorkerScripts(CheckTable(s, step)), c.checks)
  }

  /** Everything sent in the first phases. */
  ghost function RunTrace(s: Scenario, courses: seq<Course>): seq<Command>
    requires Valid(s) && s.family.Hwm?
    requires forall p | 0 <= p < |courses| :: Courses(s, p, courses[p])
  {
    if courses == [] then []
    else
      var n := |courses| - 1;
      RunTrace(s, courses[..n]) + PhaseTrace(s, n, courses[n])
  }

  lemma {:induction false} RunConcat(db: Db, a: seq<Command>, b: seq<Command>)
    ensures Run(db, a + b) == Run(Run(db, a), b)
    decreases |a|
  {
    if a == [] {
      assert a + b == b;
    } else {
      assert (a + b)[1..] == a[1..] + b;
      RunConcat(Execute(db, a[0]), a[1..], b);
    }
  }

  // ----- Reading back -----

  predicate IsRead(c: Command) {
    c.Get? || c.TypeOf? || c.PTtl? || c.HGetAll? || c.LRange?
  }

  /** Reads leave the store alone and are answered from it, in any order. */
  lemma {:induction false} ReadsRun(db: Db, trace: seq<Command>)
    requires forall c | c in trace :: IsRead(c)
    ensures Run(db, trace) == db
    ensures forall j | 0 <= j < |trace| :: Answers(db, trace)[j] == Answer(Lookup(db, trace[j].key), trace[j])
    decreases |trace|
  {
    if trace != [] {
      assert trace[0] in trace;
      assert Execute(db, trace[0]) == db;
      ReadsRun(db, trace[1..]);
    }
  }

  lemma {:induction false} ScriptReads(lists: seq<seq<Command>>, lo: nat, hi: nat)
    requires lo <= hi <= |lists|
    requires forall i, c | 0 <= i < |lists| && c in lists[i] :: IsRead(c)
    ensures forall c | c in Script(lists, lo, hi) :: IsRead(c)
    decreases hi - lo
  {
    if lo < hi {
      ScriptReads(lists, lo, hi - 1);
    }
  }

  lemma ChecksRead(family: Family, r: Record)
    ensures forall c | c in Checks(family, r) :: IsRead(c)
  {
  }

  lemma CheckTraceReads(s: Scenario, step: nat, schedule: seq<nat>)
    requires Valid(s) && HasStep(s, step) && Schedules(WorkerScripts(CheckTable(s, step)), schedule)
    ensures forall c | c in Trace(WorkerScripts(CheckTable(s, step)), schedule) :: IsRead(c)
  {
    hide RecordAt, Checks, Script, Schedules, Trace;
    var lists := CheckTable(s, step);
    forall i, c | 0 <= i < |lists| && c in lists[i]
      ensures IsRead(c)
    {
      ChecksRead(s.family, RecordAt(s, step, i));
    }
    var scripts := WorkerScripts(lists);
    forall c | c in Trace(scripts, schedule)
      ensures IsRead(c)
    {
      var j: nat :| j < |Trace(scripts, schedule)| && Trace(scripts, schedule)[j] == c;
      TraceFromScripts(scripts, schedule, j);
      var w :| 0 <= w < |scripts| && c in scripts[w];
      RangesTile(|lists|, w);
      ScriptReads(lists, RangeStart(|lists|, w), RangeStart(|lists|, w + 1));
    }
  }

  // ----- The run -----

  /** A phase takes the closed-form store of the step before to that of its own step. */
  lemma PhaseCourse(s: Scenario, step: nat, c: Course)
    requires Valid(s) && s.family.Hwm? && Courses(s, step, c)
    ensures Run(if step == 0 then map[] else StoreAt(s, step - 1), PhaseTrace(s, step, c)) == StoreAt(s, step)
  {
    hide Run, StoreAt, Trace, Schedules, Mutations, CheckTable, SteadyScripts, LiveIndices;
    var before, after := if step == 0 then map[] else StoreAt(s, step - 1), StoreAt(s, step);
    var mutation := Trace(WorkerScripts(Mutations(s, step)), c.mutation);
    var traffic := TrafficOf(s, step, c);
    var checks := Trace(WorkerScripts(CheckTable(s, step)), c.checks);
    PhaseRefines(s, step, c.mutation);
    if step % 3 != 2 {
      SteadyPreserves(s, step, c.attempts, c.traffic);
    } else {
      NothingRuns(after);
    }
    CheckTraceReads(s, step, c.checks);
    ReadsRun(after, checks);
    RunConcat(before, mutation + traffic, checks);
    RunConcat(before, mutation, traffic);
  }

  lemma NothingRuns(db: Db)
    ensures Run(db, []) == db
  {
  }

  /**
   The whole run, from the empty store: mutations, steady traffic and reads of any number
   of phases, interleaved in any way, end in the closed-form store of the last phase.
   */
  lemma {:induction false} WholeRun(s: Scenario, courses: seq<Course>)
    requires Valid(s) && s.family.Hwm? && courses != []
    requires forall p | 0 <= p < |courses| :: Courses(s, p, courses[p])
    ensures Run(map[], RunTrace(s, courses)) == StoreAt(s, |courses| - 1)
    decreases |courses|
  {
    hide Run, StoreAt, Courses, PhaseTrace;
    var n := |courses| - 1;
    var earlier := RunTrace(s, courses[..n]);
    RunConcat(map[], earlier, PhaseTrace(s, n, courses[n]));
    if n == 0 {
      NothingRuns(map[]);
    } else {
      WholeRun(s, courses[..n]);
    }
    PhaseCourse(s, n, courses[n]);
  }

  /** The replies on the way are those the driver insists on, in all three parts of a phase. */
  lemma PhaseReplies(s: Scenario, step: nat, c: Course)
    requires Valid(s) && s.family.Hwm? && Courses(s, step, c)
    ensures var before, after := if step == 0 then map[] else StoreAt(s, step - 1), StoreAt(s, step);
            var mutation := Trace(WorkerScripts(Mutations(s, step)), c.mutation);
            var traffic, checks := TrafficOf(s, step, c), Trace(WorkerScripts(CheckTable(s, step)), c.checks);
            && (forall j | 0 <= j < |mutation| :: Answers(before, mutation)[j] == Insisted(mutation[j]))
            && (forall j | 0 <= j < |traffic| :: Answers(after, traffic)[j] == SteadyAnswer(after, traffic[j]))
            && (forall j | 0 <= j < |checks| ::
                  Answers(after, checks)[j] == Answer(Lookup(after, checks[j].key), checks[j]))
  {
    hide Run, StoreAt, Trace, Schedules, Completes, Mutations, CheckTable, SteadyScripts, LiveIndices, Answers, Answer;
    PhaseRefines(s, step, c.mutation);
    if step % 3 != 2 {
      SteadyPreserves(s, step, c.attempts, c.traffic);
    }
    CheckTraceReads(s, step, c.checks);
    ReadsRun(StoreAt(s, step), Trace(WorkerScripts(CheckTable(s, step)), c.checks));
  }
}
