/**
 The oracle's prediction for a phase.  `expected_phase` walks the workers' ranges,
 feeding three hashes per worker and a set of counters; here every counter and digest is
 tied to the closed-form store and to the scripts that the refinement theorem runs.
 */
module Oracle {
  import opened Wrappers
  import opened Words
  import opened Bytes
  import opened Payloads
  import opened Survivors
  import opened Store
  import opened Phases
  import opened Scenarios
  import opened Refinement
  import opened Verification
  import opened Framing
  import opened Tallies

  // ----- One index -----

  function KindCode(kind: Kind): byte {
    match kind
    case Absent => 0
    case StringKind => 1
    case HashKind => 2
    case ListKind => 3
  }

  /** The four frames hashed for a record. */
  function RowOf(r: Record, value: bytes): Row {
    Row(r.key, KindCode(r.kind), if r.expires then 1 else 0, if r.kind.Absent? then [] else value)
  }

  function LogicalBytes(family: Family, r: Record): nat {
    if r.kind.Absent? then 0
    else if family.Hwm? then 82
    else |r.key| + r.valueLength + (if r.kind.HashKind? then 1 else 0)
  }

  function TallyOf(family: Family, r: Record, value: bytes, commands: seq<Command>): Tally {
    var checks := Checks(family, r);
    Tally(if r.kind.Absent? then 0 else 1, LogicalBytes(family, r),
          |commands|, if commands == [] then 0 else 1, |checks|,
          multiset(Images(Name, commands)), multiset(Images(Name, checks)),
          RowFrame(RowOf(r, value)), CommandStream(commands), CommandStream(checks))
  }

  function TallyAt(s: Scenario, step: nat, index: Word): Tally
    requires s.keyLength >= 8 && HasStep(s, step)
  {
    var r := RecordAt(s, step, index);
    TallyOf(s.family, r, ValueOf(s, index, r), Commands(s, step, index))
  }

  /** The body of the walk at one index. */
  method TallyIndex(family: Family, r: Record, value: bytes, commands: seq<Command>) returns (t: Tally)
    ensures t == TallyOf(family, r, value, commands)
  {
    var checks := Checks(family, r);
    var mutation, mix := Feed(WireFrame, Name, commands);
    var verification, checkMix := Feed(WireFrame, Name, checks);
    t := Tally(if r.kind.Absent? then 0 else 1, LogicalBytes(family, r),
               |commands|, if commands == [] then 0 else 1, |checks|, mix, checkMix,
               RowFrame(RowOf(r, value)), mutation, verification);
  }

  // ----- Tables -----

  function TallyTable(s: Scenario, step: nat): (r: seq<Tally>)
    requires Valid(s) && HasStep(s, step)
    ensures |r| == s.keys
    ensures forall i | 0 <= i < s.keys :: r[i] == TallyAt(s, step, i)
  {
    seq(s.keys, i requires 0 <= i < s.keys => TallyAt(s, step, i))
  }

  function RowAt(s: Scenario, step: nat, index: Word): Row
    requires s.keyLength >= 8 && HasStep(s, step)
  {
    var r := RecordAt(s, step, index);
    RowOf(r, ValueOf(s, index, r))
  }

  function RowTable(s: Scenario, step: nat): (r: seq<Row>)
    requires Valid(s) && HasStep(s, step)
    ensures |r| == s.keys
    ensures forall i | 0 <= i < s.keys :: r[i] == RowAt(s, step, i)
  {
    seq(s.keys, i requires 0 <= i < s.keys => RowAt(s, step, i))
  }

  function CheckTable(s: Scenario, step: nat): (r: seq<seq<Command>>)
    requires Valid(s) && HasStep(s, step)
    ensures |r| == s.keys
    ensures forall i | 0 <= i < s.keys :: r[i] == Checks(s.family, RecordAt(s, step, i))
  {
    seq(s.keys, i requires 0 <= i < s.keys => Checks(s.family, RecordAt(s, step, i)))
  }

  /** Bytes a slot stores, key included; a hash counts its one field name. */
  function SlotBytes(key: bytes, slot: Slot): nat {
    if slot.None? then 0
    else
      match slot.value.value
      case Str(data) => |key| + |data|
      case Hash(fields) => |key| + (if FIELD in fields then |FIELD| + |fields[FIELD]| else 0)
      case List(items) => |key| + (if items == [] then 0 else |items[0]|)
  }

  function StoredBytes(keys: seq<bytes>, slots: seq<Slot>): nat
    requires |keys| == |slots|
  {
    if keys == [] then 0
    else
      var n := |keys| - 1;
      StoredBytes(keys[..n], slots[..n]) + SlotBytes(keys[n], slots[n])
  }

  function NonEmpty(lists: seq<seq<Command>>): nat {
    if lists == [] then 0
    else NonEmpty(lists[..|lists| - 1]) + (if lists[|lists| - 1] == [] then 0 else 1)
  }

  // ----- What a sum of tallies says -----

  /** The tallies of a list of commands: counted, named and fed. */
  ghost predicate TalliesCommands(tallies: seq<Tally>, lists: seq<seq<Command>>,
                                  frame: Command -> bytes, name: Command -> bytes) {
    && |tallies| == |lists|
    && forall i | 0 <= i < |lists| ::
         && tallies[i].operations == |lists[i]|
         && tallies[i].mix == multiset(Images(name, lists[i]))
         && tallies[i].mutation == Stream(frame, lists[i])
  }

  lemma {:induction false} SumOfCommands(tallies: seq<Tally>, lists: seq<seq<Command>>,
                                         frame: Command -> bytes, name: Command -> bytes)
    requires TalliesCommands(tallies, lists, frame, name)
    ensures var t, script := Sum(Add, ZERO, tallies), Script(lists, 0, |lists|);
            && t.operations == |script|
            && t.mix == multiset(Images(name, script)) && t.mutation == Stream(frame, script)
    decreases |lists|
  {
    if lists != [] {
      var n := |lists| - 1;
      SumOfCommands(tallies[..n], lists[..n], frame, name);
      ScriptPrefix(lists, n);
      var before := Script(lists, 0, n);
      StreamConcat(frame, before, lists[n]);
      assert Images(name, before + lists[n]) == Images(name, before) + Images(name, lists[n]);
    }
  }

  lemma {:induction false} SumOfTransactions(tallies: seq<Tally>, lists: seq<seq<Command>>)
    requires |tallies| == |lists|
    requires forall i | 0 <= i < |lists| :: tallies[i].transactions == (if lists[i] == [] then 0 else 1)
    ensures Sum(Add, ZERO, tallies).transactions == NonEmpty(lists)
    decreases |lists|
  {
    if lists != [] {
      SumOfTransactions(tallies[..|lists| - 1], lists[..|lists| - 1]);
    }
  }

  lemma {:induction false} ScriptPrefix(lists: seq<seq<Command>>, n: nat)
    requires n <= |lists|
    ensures Script(lists[..n], 0, n) == Script(lists, 0, n)
    decreases n
  {
    if n > 0 {
      ScriptPrefix(lists, n - 1);
      ScriptPrefix(lists[..n], n - 1);
      assert lists[..n][..n - 1] == lists[..n - 1];
    }
  }

  ghost predicate TalliesChecks(tallies: seq<Tally>, lists: seq<seq<Command>>,
                                frame: Command -> bytes, name: Command -> bytes) {
    && |tallies| == |lists|
    && forall i | 0 <= i < |lists| ::
         && tallies[i].checks == |lists[i]|
         && tallies[i].checkMix == multiset(Images(name, lists[i]))
         && tallies[i].verification == Stream(frame, lists[i])
  }

  lemma {:induction false} SumOfChecks(tallies: seq<Tally>, lists: seq<seq<Command>>,
                                       frame: Command -> bytes, name: Command -> bytes)
    requires TalliesChecks(tallies, lists, frame, name)
    ensures var t, script := Sum(Add, ZERO, tallies), Script(lists, 0, |lists|);
            && t.checks == |script|
            && t.checkMix == multiset(Images(name, script)) && t.verification == Stream(frame, script)
    decreases |lists|
  {
    if lists != [] {
      var n := |lists| - 1;
      SumOfChecks(tallies[..n], lists[..n], frame, name);
      ScriptPrefix(lists, n);
      var before := Script(lists, 0, n);
      StreamConcat(frame, before, lists[n]);
      assert Images(name, before + lists[n]) == Images(name, before) + Images(name, lists[n]);
    }
  }

  ghost predicate TalliesRows(tallies: seq<Tally>, rows: seq<Row>, frame: Row -> bytes) {
    && |tallies| == |rows|
    && forall i | 0 <= i < |rows| :: tallies[i].state == frame(rows[i])
  }

  lemma {:induction false} SumOfRows(tallies: seq<Tally>, rows: seq<Row>, frame: Row -> bytes)
    requires TalliesRows(tallies, rows, frame)
    ensures Sum(Add, ZERO, tallies).state == Stream(frame, rows)
    decreases |rows|
  {
    if rows != [] {
      var n := |rows| - 1;
      SumOfRows(tallies[..n], rows[..n], frame);
      StreamAppend(frame, rows[..n], rows[n]);
      assert rows == rows[..n] + [rows[n]];
    }
  }

  ghost predicate TalliesSlots(tallies: seq<Tally>, keys: seq<bytes>, slots: seq<Slot>) {
    && |tallies| == |keys| == |slots|
    && forall i | 0 <= i < |keys| ::
         && tallies[i].live == (if slots[i].Some? then 1 else 0)
         && tallies[i].logical == SlotBytes(keys[i], slots[i])
  }

  lemma {:induction false} SumOfSlots(tallies: seq<Tally>, keys: seq<bytes>, slots: seq<Slot>)
    requires TalliesSlots(tallies, keys, slots)
    ensures Sum(Add, ZERO, tallies).live == Live(slots) <= |slots|
    ensures Sum(Add, ZERO, tallies).logical == StoredBytes(keys, slots)
    decreases |keys|
  {
    if keys != [] {
      var n := |keys| - 1;
      SumOfSlots(tallies[..n], keys[..n], slots[..n]);
    }
  }

  // ----- A scenario's tallies -----

  lemma TallyAtSlot(s: Scenario, step: nat, index: Word)
    requires s.keyLength >= 8 && HasStep(s, step)
    ensures TallyAt(s, step, index).live == (if SlotAt(s, step, index).Some? then 1 else 0)
    ensures TallyAt(s, step, index).logical == SlotBytes(Key(s, index), SlotAt(s, step, index))
  {
    var r := RecordAt(s, step, index);
    RecordKey(s, step, index);
    ValueLength(s, step, index);
    TallyOfSlot(s.family, r, ValueOf(s, index, r), Commands(s, step, index));
  }

  lemma ValueLength(s: Scenario, step: nat, index: Word)
    requires s.keyLength >= 8 && HasStep(s, step)
    ensures var r := RecordAt(s, step, index);
            && |ValueOf(s, index, r)| == r.valueLength
            && (s.family.Hwm? ==> |r.key| == 18 && r.valueLength == 64 && !r.kind.HashKind? && !r.kind.ListKind?)
  {
    hide HwmPayload, Payload, FixedKey, Survivor, ClassKey, PointKey;
    RecordsPlausible(s, step, index);
  }

  lemma TallyOfSlot(family: Family, r: Record, value: bytes, commands: seq<Command>)
    requires |value| == r.valueLength
    requires family.Hwm? ==> |r.key| == 18 && r.valueLength == 64 && !r.kind.HashKind? && !r.kind.ListKind?
    ensures TallyOf(family, r, value, commands).live == (if SlotOf(r, value).Some? then 1 else 0)
    ensures TallyOf(family, r, value, commands).logical == SlotBytes(r.key, SlotOf(r, value))
  {
  }

  lemma TableTallies(s: Scenario, step: nat)
    requires Valid(s) && HasStep(s, step)
    ensures TalliesCommands(TallyTable(s, step), Mutations(s, step), WireFrame, Name)
    ensures TalliesChecks(TallyTable(s, step), CheckTable(s, step), WireFrame, Name)
    ensures TalliesRows(TallyTable(s, step), RowTable(s, step), RowFrame)
  {
  }

  lemma TableTalliesSlots(s: Scenario, step: nat)
    requires Valid(s) && HasStep(s, step)
    ensures TalliesSlots(TallyTable(s, step), Keys(s), Slots(s, step))
  {
    var tallies, keys, slots := TallyTable(s, step), Keys(s), Slots(s, step);
    forall i | 0 <= i < s.keys
      ensures tallies[i].live == (if slots[i].Some? then 1 else 0)
      ensures tallies[i].logical == SlotBytes(keys[i], slots[i])
    {
      TallyAtSlot(s, step, i);
    }
  }

  lemma {:induction false} ScriptSlice(lists: seq<seq<Command>>, lo: nat, hi: nat)
    requires lo <= hi <= |lists|
    ensures Script(lists[lo..hi], 0, hi - lo) == Script(lists, lo, hi)
    decreases hi - lo
  {
    if lo < hi {
      ScriptSlice(lists, lo, hi - 1);
      ScriptPrefix(lists[lo..hi], hi - 1 - lo);
      assert lists[lo..hi][..hi - 1 - lo] == lists[lo..hi - 1];
    }
  }

  /** A worker's hash inputs are its part of the state and its two scripts. */
  lemma WorkerTally(s: Scenario, step: nat, worker: nat)
    requires Valid(s) && HasStep(s, step) && worker < WORKERS
    ensures var t := Sum(Add, ZERO, Part(TallyTable(s, step), worker));
            var script, checks := WorkerScript(Mutations(s, step), worker), WorkerScript(CheckTable(s, step), worker);
            && t.state == RowStream(Part(RowTable(s, step), worker))
            && t.mutation == CommandStream(script)
            && t.operations == |script| && t.mix == multiset(Images(Name, script))
            && t.transactions == NonEmpty(Part(Mutations(s, step), worker))
            && t.verification == CommandStream(checks)
            && t.checks == |checks| && t.checkMix == multiset(Images(Name, checks))
  {
    TableTallies(s, step);
    TableTransactions(s, step);
    RangesTile(s.keys, worker);
    var lo, hi := RangeStart(s.keys, worker), RangeStart(s.keys, worker + 1);
    SumOfTransactions(TallyTable(s, step)[lo..hi], Mutations(s, step)[lo..hi]);
    SliceTallies(TallyTable(s, step), Mutations(s, step), CheckTable(s, step), RowTable(s, step), WireFrame, Name,
                 RowFrame, lo, hi);
  }

  lemma SliceTallies(tallies: seq<Tally>, commands: seq<seq<Command>>, checks: seq<seq<Command>>, rows: seq<Row>,
                     frame: Command -> bytes, name: Command -> bytes, rowFrame: Row -> bytes, lo: nat, hi: nat)
    requires TalliesCommands(tallies, commands, frame, name)
    requires TalliesChecks(tallies, checks, frame, name)
    requires TalliesRows(tallies, rows, rowFrame)
    requires lo <= hi <= |tallies| == |commands| == |checks| == |rows|
    ensures var t := Sum(Add, ZERO, tallies[lo..hi]);
            && t.state == Stream(rowFrame, rows[lo..hi])
            && t.mutation == Stream(frame, Script(commands, lo, hi))
            && t.operations == |Script(commands, lo, hi)|
            && t.mix == multiset(Images(name, Script(commands, lo, hi)))
            && t.verification == Stream(frame, Script(checks, lo, hi))
            && t.checks == |Script(checks, lo, hi)|
            && t.checkMix == multiset(Images(name, Script(checks, lo, hi)))
  {
    hide TalliesRows, TalliesCommands, TalliesChecks, Add, Sum, Stream, Script;
    SlicesTally(tallies, commands, checks, rows, frame, name, rowFrame, lo, hi);
    SumOfRows(tallies[lo..hi], rows[lo..hi], rowFrame);
    SumOfCommands(tallies[lo..hi], commands[lo..hi], frame, name);
    SumOfChecks(tallies[lo..hi], checks[lo..hi], frame, name);
    ScriptSlice(commands, lo, hi);
    ScriptSlice(checks, lo, hi);
  }

  lemma SlicesTally(tallies: seq<Tally>, commands: seq<seq<Command>>, checks: seq<seq<Command>>, rows: seq<Row>,
                    frame: Command -> bytes, name: Command -> bytes, rowFrame: Row -> bytes, lo: nat, hi: nat)
    requires TalliesCommands(tallies, commands, frame, name)
    requires TalliesChecks(tallies, checks, frame, name)
    requires TalliesRows(tallies, rows, rowFrame)
    requires lo <= hi <= |tallies| == |commands| == |checks| == |rows|
    ensures TalliesCommands(tallies[lo..hi], commands[lo..hi], frame, name)
    ensures TalliesChecks(tallies[lo..hi], checks[lo..hi], frame, name)
    ensures TalliesRows(tallies[lo..hi], rows[lo..hi], rowFrame)
  {
  }

  // ----- The prediction -----

  datatype Witness = Witness(
    live: nat,
    absent: nat,
    logical: nat,
    state: bytes,
    mutation: bytes,
    verification: bytes,
    operations: nat,
    transactions: nat,
    checkOperations: nat,
    checkTransactions: nat,
    mix: multiset<bytes>,
    checkMix: multiset<bytes>)

  /** The digest that binds the state of a phase. */
  ghost function StateDigest(h: Framing.Hash, s: Scenario, step: nat): bytes
    requires Valid(s) && HasStep(s, step)
  {
    Digest(h, RowStreams(Parts16(RowTable(s, step))))
  }

  /** Every field of a witness, in terms of the store and the scripts of the phase. */
  ghost predicate Predicts(h: Framing.Hash, s: Scenario, step: nat, w: Witness)
    requires Valid(s) && HasStep(s, step)
  {
    var script := Script(Mutations(s, step), 0, s.keys);
    var checks := Script(CheckTable(s, step), 0, s.keys);
    && w.live == DbSize(StoreAt(s, step)) && w.live + w.absent == s.keys
    && w.logical == StoredBytes(Keys(s), Slots(s, step))
    && w.state == StateDigest(h, s, step)
    && w.mutation == (if s.saturation then h([]) else Digest(h, CommandStreams(WorkerScripts(Mutations(s, step)))))
    && w.verification == Digest(h, CommandStreams(WorkerScripts(CheckTable(s, step))))
    && w.operations == |script| && w.mix == multiset(Images(Name, script))
    && w.transactions == NonEmpty(Mutations(s, step))
    && w.checkOperations == |checks| && w.checkMix == multiset(Images(Name, checks))
    && w.checkTransactions == s.keys
  }

  /** Frame the workers' digests and digest the result. */
  method DigestWorkers(h: Framing.Hash, streams: seq<bytes>) returns (d: bytes)
    ensures d == Digest(h, streams)
  {
    var outer: bytes := [];
    var inner := InnerDigests(h, streams);
    for w := 0 to |streams|
      invariant outer == FrameAll(inner[..w])
    {
      assert inner[..w + 1] == inner[..w] + [inner[w]];
      StreamAppend(Frame, inner[..w], inner[w]);
      outer := outer + Frame(h(streams[w]));
    }
    assert inner[..|streams|] == inner;
    d := h(outer);
  }

  method TallyHere(s: Scenario, step: nat, index: Word) returns (t: Tally)
    requires s.keyLength >= 8 && HasStep(s, step)
    ensures t == TallyAt(s, step, index)
  {
    var r := RecordAt(s, step, index);
    t := TallyIndex(s.family, r, ValueOf(s, index, r), Commands(s, step, index));
  }

  /** The loop over one worker's range of indices. */
  method WalkRange(s: Scenario, step: nat, lo: nat, hi: nat, ghost table: seq<Tally>) returns (t: Tally)
    requires Valid(s) && HasStep(s, step) && table == TallyTable(s, step)
    requires lo <= hi <= s.keys
    ensures t == Sum(Add, ZERO, table[lo..hi])
  {
    hide Add, TallyAt, Sum;
    t := ZERO;
    SumOfNothing(Add, ZERO);
    assert table[lo..lo] == [];
    for i := lo to hi
      invariant t == Sum(Add, ZERO, table[lo..i])
    {
      var one := TallyHere(s, step, i);
      RangeSumStep(Add, ZERO, table, lo, i);
      t := Add(t, one);
    }
  }

  method WalkPart(s: Scenario, step: nat, worker: nat, ghost table: seq<Tally>) returns (t: Tally)
    requires Valid(s) && HasStep(s, step) && table == TallyTable(s, step) && worker < WORKERS
    ensures t == Sum(Add, ZERO, Part(table, worker))
  {
    hide Add, Sum, TallyTable;
    RangesTile(s.keys, worker);
    t := WalkRange(s, step, RangeStart(s.keys, worker), RangeStart(s.keys, worker + 1), table);
  }

  /** The loop over the sixteen workers. */
  method Walk(s: Scenario, step: nat, ghost table: seq<Tally>) returns (total: Tally, workers: seq<Tally>)
    requires Valid(s) && HasStep(s, step) && table == TallyTable(s, step)
    ensures workers == Sums(Add, ZERO, Parts16(table))
    ensures total == Sum(Add, ZERO, workers) == Sum(Add, ZERO, table)
  {
    hide Add, TallyTable, Part, Sum, Monoid;
    SumOfNothing(Add, ZERO);
    ghost var sums := Sums(Add, ZERO, Parts16(table));
    total, workers := ZERO, [];
    for worker := 0 to WORKERS
      invariant workers == sums[..worker]
      invariant total == Sum(Add, ZERO, workers)
    {
      var t := WalkPart(s, step, worker, table);
      SumAppend(Add, ZERO, workers, t);
      total := Add(total, t);
      workers := workers + [t];
    }
    TalliesAdd();
    PartsSum(Add, ZERO, table);
  }

  /**
   `expected_phase` and `hwm_expected_phase`.  Every field of the witness is the quantity
   it stands for, and the sixteen workers' shares add up to the totals.
   */
  method ExpectedPhase(s: Scenario, step: nat, h: Framing.Hash) returns (w: Witness, workers: seq<Tally>)
    requires Valid(s) && HasStep(s, step)
    ensures Predicts(h, s, step, w)
    ensures workers == Sums(Add, ZERO, Parts16(TallyTable(s, step)))
    ensures var t := Sum(Add, ZERO, workers);
            && w.live == t.live && w.logical == t.logical
            && w.operations == t.operations && w.transactions == t.transactions
            && w.checkOperations == t.checks && w.mix == t.mix && w.checkMix == t.checkMix
  {
    hide Add, Sum, TallyTable, StoreAt, Live, RowStreams, CommandStreams, Parts16, Script, StoredBytes, Digest, NonEmpty;
    var total;
    total, workers := Walk(s, step, TallyTable(s, step));
    var states := seq(WORKERS, v requires 0 <= v < WORKERS => workers[v].state);
    var mutations := seq(WORKERS, v requires 0 <= v < WORKERS => workers[v].mutation);
    var verifications := seq(WORKERS, v requires 0 <= v < WORKERS => workers[v].verification);
    WorkerStreams(s, step, workers);
    TotalTally(s, step);
    var state := DigestWorkers(h, states);
    var mutation := DigestWorkers(h, mutations);
    var verification := DigestWorkers(h, verifications);
    w := Witness(total.live, s.keys - total.live, total.logical, state,
                 if s.saturation then h([]) else mutation, verification,
                 total.operations, total.transactions, total.checks, s.keys, total.mix, total.checkMix);
  }

  /** One worker's entry in the prediction for a high-water-mark phase. */
  datatype WorkerShare = WorkerShare(
    worker: nat,
    start: nat,
    end: nat,
    wire: nat,
    records: nat,
    trace: bytes,
    state: bytes,
    mix: multiset<bytes>)

  function MutationShare(s: Scenario, step: nat, h: Framing.Hash, worker: nat): WorkerShare
    requires Valid(s) && HasStep(s, step) && worker < WORKERS
  {
    var script := WorkerScript(Mutations(s, step), worker);
    WorkerShare(worker, RangeStart(s.keys, worker), RangeStart(s.keys, worker + 1),
                |script|, NonEmpty(Part(Mutations(s, step), worker)),
                h(CommandStream(script)), h([]), multiset(Images(Name, script)))
  }

  function CheckShare(s: Scenario, step: nat, h: Framing.Hash, worker: nat): WorkerShare
    requires Valid(s) && HasStep(s, step) && worker < WORKERS
  {
    RangesTile(s.keys, worker);
    var script := WorkerScript(CheckTable(s, step), worker);
    var lo, hi := RangeStart(s.keys, worker), RangeStart(s.keys, worker + 1);
    WorkerShare(worker, lo, hi, |script|, hi - lo,
                h(CommandStream(script)), h(RowStream(Part(RowTable(s, step), worker))), multiset(Images(Name, script)))
  }

  /**
   `hwm_expected_phase` with its list of workers: every worker's trace digest, state
   digest, counts and command mix are those of its own range.
   */
  method HwmExpectedPhase(s: Scenario, step: nat, h: Framing.Hash)
    returns (w: Witness, mutation: seq<WorkerShare>, verification: seq<WorkerShare>)
    requires Valid(s) && s.family.Hwm?
    ensures Predicts(h, s, step, w)
    ensures |mutation| == |verification| == WORKERS
    ensures forall v | 0 <= v < WORKERS :: mutation[v] == MutationShare(s, step, h, v)
    ensures forall v | 0 <= v < WORKERS :: verification[v] == CheckShare(s, step, h, v)
  {
    hide Predicts, Sum, Add, TallyTable, MutationShare, CheckShare;
    var workers;
    w, workers := ExpectedPhase(s, step, h);
    mutation, verification := [], [];
    for v := 0 to WORKERS
      invariant |mutation| == |verification| == v
      invariant forall u | 0 <= u < v :: mutation[u] == MutationShare(s, step, h, u)
      invariant forall u | 0 <= u < v :: verification[u] == CheckShare(s, step, h, u)
    {
      var m, c := ShareOf(s, step, h, v, workers[v]);
      mutation := mutation + [m];
      verification := verification + [c];
    }
  }

  method ShareOf(s: Scenario, step: nat, h: Framing.Hash, worker: nat, t: Tally)
    returns (mutation: WorkerShare, verification: WorkerShare)
    requires Valid(s) && HasStep(s, step) && worker < WORKERS
    requires t == Sum(Add, ZERO, Part(TallyTable(s, step), worker))
    ensures mutation == MutationShare(s, step, h, worker)
    ensures verification == CheckShare(s, step, h, worker)
  {
    hide Sum, Add, TallyTable, WorkerScript, Script, NonEmpty, RowStream, CommandStream, Images, Part;
    WorkerTally(s, step, worker);
    RangesTile(s.keys, worker);
    var start, end := RangeStart(s.keys, worker), RangeStart(s.keys, worker + 1);
    mutation := WorkerShare(worker, start, end, t.operations, t.transactions, h(t.mutation), h([]), t.mix);
    verification := WorkerShare(worker, start, end, t.checks, end - start, h(t.verification), h(t.state), t.checkMix);
  }

  lemma WorkerStreams(s: Scenario, step: nat, workers: seq<Tally>)
    requires Valid(s) && HasStep(s, step) && |workers| == WORKERS
    requires forall v | 0 <= v < WORKERS :: workers[v] == Sum(Add, ZERO, Part(TallyTable(s, step), v))
    ensures seq(WORKERS, v requires 0 <= v < WORKERS => workers[v].state) == RowStreams(Parts16(RowTable(s, step)))
    ensures seq(WORKERS, v requires 0 <= v < WORKERS => workers[v].mutation)
         == CommandStreams(WorkerScripts(Mutations(s, step)))
    ensures seq(WORKERS, v requires 0 <= v < WORKERS => workers[v].verification)
         == CommandStreams(WorkerScripts(CheckTable(s, step)))
  {
    var rows, scripts, checks := RowStreams(Parts16(RowTable(s, step))),
        CommandStreams(WorkerScripts(Mutations(s, step))), CommandStreams(WorkerScripts(CheckTable(s, step)));
    forall v | 0 <= v < WORKERS
      ensures workers[v].state == rows[v] && workers[v].mutation == scripts[v] && workers[v].verification == checks[v]
    {
      WorkerTally(s, step, v);
    }
  }

  /** The totals of the walk, in terms of the store and the scripts. */
  lemma TotalTally(s: Scenario, step: nat)
    requires Valid(s) && HasStep(s, step)
    ensures var t := Sum(Add, ZERO, TallyTable(s, step));
            var script := Script(Mutations(s, step), 0, s.keys);
            var checks := Script(CheckTable(s, step), 0, s.keys);
            && t.live == DbSize(StoreAt(s, step)) <= s.keys
            && t.logical == StoredBytes(Keys(s), Slots(s, step))
            && t.operations == |script| && t.mix == multiset(Images(Name, script))
            && t.transactions == NonEmpty(Mutations(s, step))
            && t.checks == |checks| && t.checkMix == multiset(Images(Name, checks))
  {
    var tallies := TallyTable(s, step);
    TableTallies(s, step);
    TableTalliesSlots(s, step);
    TableTransactions(s, step);
    SumOfSlots(tallies, Keys(s), Slots(s, step));
    SumOfCommands(tallies, Mutations(s, step), WireFrame, Name);
    SumOfChecks(tallies, CheckTable(s, step), WireFrame, Name);
    SumOfTransactions(tallies, Mutations(s, step));
    AllKeysDistinct(s);
    StoreSize(Keys(s), Slots(s, step));
  }

  lemma TableTransactions(s: Scenario, step: nat)
    requires Valid(s) && HasStep(s, step)
    ensures var lists := Mutations(s, step);
            forall i | 0 <= i < |lists| :: TallyTable(s, step)[i].transactions == (if lists[i] == [] then 0 else 1)
  {
  }

  // ----- What the state digest decides -----

  function SlotOfRow(r: Row): Slot {
    if r.kind == 0 then None
    else if r.kind == 1 then Some(Entry(Str(r.value), r.expires != 0))
    else if r.kind == 2 then Some(Entry(Store.Hash(map[FIELD := r.value]), r.expires != 0))
    else Some(Entry(List([r.value]), r.expires != 0))
  }

  lemma RowKeepsSlot(r: Record, value: bytes)
    ensures SlotOfRow(RowOf(r, value)) == SlotOf(r, value) && RowOf(r, value).key == r.key
  {
  }

  lemma RowsHoldStore(s: Scenario, step: nat)
    requires Valid(s) && HasStep(s, step)
    ensures forall i | 0 <= i < s.keys ::
              Keys(s)[i] == RowTable(s, step)[i].key && Slots(s, step)[i] == SlotOfRow(RowTable(s, step)[i])
  {
    var keys, slots, rows := Keys(s), Slots(s, step), RowTable(s, step);
    forall i | 0 <= i < s.keys
      ensures keys[i] == rows[i].key && slots[i] == SlotOfRow(rows[i])
    {
      var r := RecordAt(s, step, i);
      RecordKey(s, step, i);
      RowKeepsSlot(r, ValueOf(s, i, r));
    }
  }

  lemma SameRowsSameStore(s: Scenario, p: nat, t: Scenario, q: nat)
    requires Valid(s) && HasStep(s, p) && Valid(t) && HasStep(t, q)
    requires RowTable(s, p) == RowTable(t, q)
    ensures StoreAt(s, p) == StoreAt(t, q)
  {
    RowsHoldStore(s, p);
    RowsHoldStore(t, q);
    assert Keys(s) == Keys(t);
    assert Slots(s, p) == Slots(t, q);
  }

  lemma TableDigestBinds(h: Framing.Hash, a: seq<Row>, b: seq<Row>) returns (x: bytes, y: bytes)
    requires IsHexDigest(h) && All(RowFits, a) && All(RowFits, b)
    requires Digest(h, RowStreams(Parts16(a))) == Digest(h, RowStreams(Parts16(b)))
    ensures a == b || Collision(h, x, y)
  {
    PartsAll(RowFits, a);
    PartsAll(RowFits, b);
    x, y := StateDigestBinds(h, Parts16(a), Parts16(b));
    if Parts16(a) == Parts16(b) {
      PartsDetermine(a, b);
    }
  }

  /** Equal state digests mean equal stores, or exhibit a hash collision. */
  lemma StateDigestDecides(h: Framing.Hash, s: Scenario, p: nat, t: Scenario, q: nat) returns (x: bytes, y: bytes)
    requires Valid(s) && HasStep(s, p) && Valid(t) && HasStep(t, q) && IsHexDigest(h)
    requires All(RowFits, RowTable(s, p)) && All(RowFits, RowTable(t, q))
    requires StateDigest(h, s, p) == StateDigest(h, t, q)
    ensures StoreAt(s, p) == StoreAt(t, q) || Collision(h, x, y)
  {
    x, y := TableDigestBinds(h, RowTable(s, p), RowTable(t, q));
    if RowTable(s, p) == RowTable(t, q) {
      SameRowsSameStore(s, p, t, q);
    }
  }

  // ----- High-water-mark phases -----

  lemma {:induction false} ThreeEach(lists: seq<seq<Command>>, n: nat)
    requires n <= |lists| && forall i | 0 <= i < |lists| :: |lists[i]| == 3
    ensures |Script(lists, 0, n)| == 3 * n
    decreases n
  {
    if n > 0 {
      ThreeEach(lists, n - 1);
    }
  }

  lemma ThreeChecks(family: Family, r: Record)
    requires family.Hwm?
    ensures |Checks(family, r)| == 3
  {
  }

  /** The closed form for the verification commands of a high-water-mark phase. */
  lemma HwmCheckCount(h: Framing.Hash, s: Scenario, step: nat, w: Witness)
    requires Valid(s) && s.family.Hwm? && Predicts(h, s, step, w)
    ensures w.checkOperations == s.keys * 3
  {
    hide RecordAt, Checks, Script, Mutations, StoreAt, StateDigest, StoredBytes;
    var lists := CheckTable(s, step);
    forall i | 0 <= i < |lists|
      ensures |lists[i]| == 3
    {
      ThreeChecks(s.family, RecordAt(s, step, i));
    }
    ThreeEach(lists, s.keys);
  }

  lemma IdleRecord(s: Scenario, step: nat, index: Word)
    requires s.family.Hwm? && s.keyLength >= 8 && step % 3 == 2
    ensures RecordAt(s, step, index) == RecordAt(s, step - 1, index)
  {
  }

  /** Going idle leaves the predicted state digest of the delete phase, under any hash. */
  lemma IdleDigest(h: Framing.Hash, s: Scenario, step: nat)
    requires Valid(s) && s.family.Hwm? && step % 3 == 2
    ensures StateDigest(h, s, step) == StateDigest(h, s, step - 1)
  {
    forall i | 0 <= i < s.keys
      ensures RowAt(s, step, i) == RowAt(s, step - 1, i)
    {
      IdleRecord(s, step, i);
    }
    assert RowTable(s, step) == RowTable(s, step - 1);
  }

  // ----- The grouped distribution -----

  /** Key and value length of every record at load. */
  function Shapes(s: Scenario): (r: seq<(nat, nat)>)
    requires Valid(s)
    ensures |r| == s.keys
    ensures forall i | 0 <= i < s.keys :: r[i] == (|Key(s, i)|, RecordAt(s, 0, i).valueLength)
  {
    seq(s.keys, i requires 0 <= i < s.keys => (|Key(s, i)|, RecordAt(s, 0, i).valueLength))
  }

  ghost predicate Lists<T(!new)>(order: seq<T>, items: seq<T>) {
    && (forall i, j | 0 <= i < |order| && 0 <= j < |order| && order[i] == order[j] :: i == j)
    && (forall x | x in items :: x in order)
  }

  /** Weighted sum over the groups, each with the number of items in it. */
  function GroupSum<T>(order: seq<T>, counts: multiset<T>, weight: T -> nat): nat {
    if order == [] then 0 else counts[order[0]] * weight(order[0]) + GroupSum(order[1..], counts, weight)
  }

  function ItemSum<T>(items: seq<T>, weight: T -> nat): nat {
    if items == [] then 0 else ItemSum(items[..|items| - 1], weight) + weight(items[|items| - 1])
  }

  lemma {:induction false} GroupSumAdd<T(!new)>(order: seq<T>, counts: multiset<T>, x: T, weight: T -> nat)
    requires forall i, j | 0 <= i < |order| && 0 <= j < |order| && order[i] == order[j] :: i == j
    ensures GroupSum(order, counts + multiset{x}, weight)
         == GroupSum(order, counts, weight) + (if x in order then weight(x) else 0)
  {
    if order != [] {
      GroupSumAdd(order[1..], counts, x, weight);
      var y := order[0];
      if x == y {
        assert (counts + multiset{x})[y] == counts[y] + 1;
        assert (counts[y] + 1) * weight(y) == counts[y] * weight(y) + weight(y);
        assert x !in order[1..];
      } else {
        assert (counts + multiset{x})[y] == counts[y];
        assert x in order <==> x in order[1..];
      }
    }
  }

  lemma {:induction false} GroupSumZero<T>(order: seq<T>, weight: T -> nat)
    ensures GroupSum(order, multiset{}, weight) == 0
  {
    if order != [] {
      GroupSumZero(order[1..], weight);
    }
  }

  /** Grouping loses nothing: the groups' weights sum to the items' weights, in any order. */
  lemma {:induction false} GroupingConserves<T(!new)>(order: seq<T>, items: seq<T>, weight: T -> nat)
    requires Lists(order, items)
    ensures GroupSum(order, multiset(items), weight) == ItemSum(items, weight)
    decreases |items|
  {
    if items == [] {
      GroupSumZero(order, weight);
    } else {
      var n := |items| - 1;
      GroupingConserves(order, items[..n], weight);
      GroupSumAdd(order, multiset(items[..n]), items[n], weight);
      assert items == items[..n] + [items[n]];
    }
  }

  lemma {:induction false} CountItems<T>(items: seq<T>)
    ensures ItemSum(items, _ => 1) == |items|
    decreases |items|
  {
    if items != [] {
      CountItems(items[..|items| - 1]);
    }
  }

  /** At load a row stores its key and its value. */
  lemma LoadBytes(s: Scenario, index: Word)
    requires s.keyLength >= 8
    ensures SlotBytes(Key(s, index), SlotAt(s, 0, index)) == |Key(s, index)| + RecordAt(s, 0, index).valueLength
  {
    var r := RecordAt(s, 0, index);
    ValueLength(s, 0, index);
    LoadIsString(s, index);
    var slot := SlotOf(r, ValueOf(s, index, r));
    assert slot.value.value.Str?;
  }

  lemma LoadIsString(s: Scenario, index: Word)
    requires s.keyLength >= 8
    ensures RecordAt(s, 0, index).kind.StringKind?
  {
  }

  lemma {:induction false} StoredIsItemSum(keys: seq<bytes>, slots: seq<Slot>, shapes: seq<(nat, nat)>)
    requires |keys| == |slots| == |shapes|
    requires forall i | 0 <= i < |keys| :: SlotBytes(keys[i], slots[i]) == shapes[i].0 + shapes[i].1
    ensures StoredBytes(keys, slots) == ItemSum(shapes, (p: (nat, nat)) => p.0 + p.1)
    decreases |keys|
  {
    if keys != [] {
      var n := |keys| - 1;
      StoredIsItemSum(keys[..n], slots[..n], shapes[..n]);
    }
  }

  /**
   `distribution`: listing each shape once, in any order, the groups' record counts sum to
   the key count and their logical bytes to those of the load phase.
   */
  lemma DistributionSums(s: Scenario, order: seq<(nat, nat)>)
    requires Valid(s) && Lists(order, Shapes(s))
    ensures GroupSum(order, multiset(Shapes(s)), _ => 1) == s.keys
    ensures GroupSum(order, multiset(Shapes(s)), (p: (nat, nat)) => p.0 + p.1) == StoredBytes(Keys(s), Slots(s, 0))
  {
    var shapes, keys, slots := Shapes(s), Keys(s), Slots(s, 0);
    GroupingConserves(order, shapes, _ => 1);
    CountItems(shapes);
    GroupingConserves(order, shapes, (p: (nat, nat)) => p.0 + p.1);
    forall i | 0 <= i < s.keys
      ensures SlotBytes(keys[i], slots[i]) == shapes[i].0 + shapes[i].1
    {
      LoadBytes(s, i);
    }
    StoredIsItemSum(keys, slots, shapes);
  }
}
