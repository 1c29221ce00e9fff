/**
 Steady traffic between phases: each worker reads uniformly chosen live keys and
 rewrites every fifth one with `SET ... XX`.  The traffic leaves the store alone.
 */
module Steady {
  import opened Wrappers
  import opened Words
  import opened Bytes
  import opened Sampler
  import opened Payloads
  import opened Survivors
  import opened Store
  import opened Interleaving
  import opened Phases
  import opened Scenarios
  import opened Refinement
  import opened Framing
  import opened Tallies

  // ----- Selecting a live key -----

  /** The indices below `n` that are live after a step, ascending. */
  function LiveIndices(step: nat, n: nat): (r: seq<nat>)
    ensures forall k | 0 <= k < |r| :: r[k] < n && (step % 3 == 0 || Survivor(r[k]))
    ensures forall i: nat | i < n && (step % 3 == 0 || Survivor(i)) :: i in r
  {
    if n == 0 then []
    else LiveIndices(step, n - 1) + (if step % 3 == 0 || Survivor(n - 1) then [n - 1] else [])
  }

  lemma {:induction false} LiveIndicesCount(step: nat, keys: nat, n: nat)
    requires n <= keys <= WORD
    ensures |LiveIndices(step, n)| == Live(HwmSlots(keys, step)[..n])
    decreases n
  {
    if n > 0 {
      LiveIndicesCount(step, keys, n - 1);
      var slots := HwmSlots(keys, step);
      assert slots[..n][..n - 1] == slots[..n - 1];
      assert slots[..n][n - 1] == HwmSlot(step, n - 1);
    }
  }

  /** The sampler draws from as many keys as the store holds. */
  lemma LiveDomain(s: Scenario, step: nat)
    requires Valid(s) && s.family.Hwm?
    ensures |LiveIndices(step, s.keys)| == DbSize(StoreAt(s, step))
  {
    hide StoreOf, DbSize, HwmSlot;
    var slots := HwmSlots(s.keys, step);
    SlotsAreHwm(s, step);
    AllKeysDistinct(s);
    StoreSize(Keys(s), slots);
    LiveIndicesCount(step, s.keys, s.keys);
    assert slots[..s.keys] == slots;
  }

  /** In the real dataset the domain is never empty. */
  lemma DatasetDomain(s: Scenario, step: nat)
    requires Valid(s) && s.family.Hwm? && s.keys == HWM_KEYS
    ensures |LiveIndices(step, s.keys)| == if step % 3 == 0 then HWM_KEYS else HWM_SURVIVORS
    ensures LiveIndices(step, s.keys) != []
  {
    hide StoreAt, DbSize, LiveIndices;
    LiveDomain(s, step);
    HwmDatasetSize(s, step);
  }

  /** The index a worker picks for its request number `sequence`. */
  ghost function Pick(live: seq<nat>, worker: nat, sequence: nat): (i: nat)
    requires live != []
    ensures i in live
  {
    live[Rank(worker, sequence, |live|)]
  }

  function Request(index: Word, generation: nat, key: bytes, sequence: nat): Command {
    if sequence % 5 == 4 then SetXX(key, HwmPayload(index, generation)) else Get(key)
  }

  ghost function SteadyCommand(s: Scenario, step: nat, worker: nat, sequence: nat): Command
    requires Valid(s) && s.family.Hwm? && LiveIndices(step, s.keys) != []
  {
    var i := Pick(LiveIndices(step, s.keys), worker, sequence);
    var r := RecordAt(s, step, i);
    Request(i, r.generation, r.key, sequence)
  }

  /** The first `attempts` requests of a worker. */
  ghost function SteadyPrefix(s: Scenario, step: nat, worker: nat, attempts: nat): (r: seq<Command>)
    requires Valid(s) && s.family.Hwm? && LiveIndices(step, s.keys) != []
    ensures |r| == attempts
    ensures forall q | 0 <= q < attempts :: r[q] == SteadyCommand(s, step, worker, q)
  {
    seq(attempts, q requires 0 <= q => SteadyCommand(s, step, worker, q))
  }

  // ----- Command counts -----

  const GET_NAME: bytes := Ascii("GET")
  const SET_NAME: bytes := Ascii("SET")

  /** `hwm_mix_counts`. */
  function MixCounts(attempts: nat): multiset<bytes> {
    multiset{}[GET_NAME := attempts - attempts / 5][SET_NAME := attempts / 5]
  }

  function RequestName(sequence: nat): bytes {
    if sequence % 5 == 4 then SET_NAME else GET_NAME
  }

  lemma MixCountsStep(n: nat)
    ensures MixCounts(n + 1) == MixCounts(n) + multiset{RequestName(n)}
  {
    assert GET_NAME[0] != SET_NAME[0];
    assert (n + 1) / 5 == n / 5 + (if n % 5 == 4 then 1 else 0);
  }

  lemma NoCounts()
    ensures MixCounts(0) == multiset{}
  {
  }

  lemma RequestNamed(index: Word, generation: nat, key: bytes, sequence: nat)
    ensures Name(Request(index, generation, key, sequence)) == RequestName(sequence)
  {
  }

  ghost predicate NamedInTurn(trace: seq<Command>, name: Command -> bytes) {
    forall q | 0 <= q < |trace| :: name(trace[q]) == RequestName(q)
  }

  /** The loop's tally equals the closed form for every prefix. */
  lemma {:induction false} TallyIsMixCounts(trace: seq<Command>, name: Command -> bytes, n: nat)
    requires NamedInTurn(trace, name) && n <= |trace|
    ensures multiset(Images(name, trace[..n])) == MixCounts(n)
    decreases n
  {
    hide MixCounts;
    NoCounts();
    if n > 0 {
      TallyIsMixCounts(trace, name, n - 1);
      MixCountsStep(n - 1);
      assert Images(name, trace[..n]) == Images(name, trace[..n - 1]) + [name(trace[n - 1])];
    }
  }

  /** Counts in any measured window are the difference of two closed forms. */
  lemma WindowCounts(trace: seq<Command>, name: Command -> bytes, warmup: nat, measured: nat)
    requires NamedInTurn(trace, name) && warmup + measured <= |trace|
    ensures multiset(Images(name, trace[warmup..warmup + measured]))
         == MixCounts(warmup + measured) - MixCounts(warmup)
    ensures MixCounts(warmup) <= MixCounts(warmup + measured)
    ensures |MixCounts(warmup + measured)| - |MixCounts(warmup)| == measured
  {
    var end := warmup + measured;
    TallyIsMixCounts(trace, name, warmup);
    TallyIsMixCounts(trace, name, end);
    assert trace[..end] == trace[..warmup] + trace[warmup..end];
    assert Images(name, trace[..end]) == Images(name, trace[..warmup]) + Images(name, trace[warmup..end]);
  }

  lemma PrefixNamed(s: Scenario, step: nat, worker: nat, attempts: nat)
    requires Valid(s) && s.family.Hwm? && LiveIndices(step, s.keys) != []
    ensures NamedInTurn(SteadyPrefix(s, step, worker, attempts), Name)
  {
    var trace := SteadyPrefix(s, step, worker, attempts);
    forall q | 0 <= q < attempts
      ensures Name(trace[q]) == RequestName(q)
    {
      var i := Pick(LiveIndices(step, s.keys), worker, q);
      var r := RecordAt(s, step, i);
      RequestNamed(i, r.generation, r.key, q);
    }
  }

  // ----- The oracle's replay of a worker's prefix -----

  datatype SteadyError = BoundDiffers | DomainEmpty

  datatype Replay = Replay(trace: bytes, counts: multiset<bytes>)

  /** `hwm_steady_prefix`. */
  method ReplayPrefix(s: Scenario, step: nat, worker: int, attempts: int, h: Framing.Hash)
    returns (r: Result<Replay, SteadyError>)
    requires Valid(s) && s.family.Hwm?
    ensures !(0 <= worker < 16 && 0 <= attempts <= 100_000_000) ==> r == Failure(BoundDiffers)
    ensures 0 <= worker < 16 && 0 <= attempts <= 100_000_000 ==>
              if LiveIndices(step, s.keys) == [] then r == Failure(DomainEmpty)
              else r == Success(Replay(h(CommandStream(SteadyPrefix(s, step, worker, attempts))), MixCounts(attempts)))
  {
    if !(0 <= worker < 16 && 0 <= attempts <= 100_000_000) {
      return Failure(BoundDiffers);
    }
    var live := LiveIndices(step, s.keys);
    if live == [] {
      return Failure(DomainEmpty);
    }
    ghost var prefix := SteadyPrefix(s, step, worker, attempts);
    PrefixNamed(s, step, worker, attempts);
    var trace: bytes := [];
    var counts: multiset<bytes> := multiset{};
    for sequence := 0 to attempts
      invariant trace == Stream(WireFrame, prefix[..sequence])
      invariant counts == multiset(Images(Name, prefix[..sequence]))
    {
      var command := NextRequest(s, step, live, worker, sequence);
      assert command == prefix[sequence];
      ReplayStep(prefix, WireFrame, Name, sequence);
      trace := trace + WireFrame(command);
      counts := counts + multiset{Name(command)};
    }
    assert prefix[..attempts] == prefix;
    TallyIsMixCounts(prefix, Name, attempts);
    return Success(Replay(h(trace), counts));
  }

  lemma ReplayStep(trace: seq<Command>, frame: Command -> bytes, name: Command -> bytes, n: nat)
    requires n < |trace|
    ensures Stream(frame, trace[..n + 1]) == Stream(frame, trace[..n]) + frame(trace[n])
    ensures multiset(Images(name, trace[..n + 1])) == multiset(Images(name, trace[..n])) + multiset{name(trace[n])}
  {
    assert trace[..n + 1] == trace[..n] + [trace[n]];
    StreamAppend(frame, trace[..n], trace[n]);
    assert Images(name, trace[..n + 1]) == Images(name, trace[..n]) + [name(trace[n])];
  }

  /** One turn of the loop: draw a rank, look up the record, insist that it is a live string. */
  method NextRequest(s: Scenario, step: nat, live: seq<nat>, worker: nat, sequence: nat) returns (c: Command)
    requires Valid(s) && s.family.Hwm? && live == LiveIndices(step, s.keys) && live != []
    ensures c == SteadyCommand(s, step, worker, sequence)
  {
    var rank := UniformRank(worker, sequence, |live|);
    var i := live[rank.value];
    var r := RecordAt(s, step, i);
    HwmRecord(s, step, i);
    assert r.kind == StringKind && !r.expires;
    c := Request(i, r.generation, r.key, sequence);
  }

  // ----- Validating a worker's report -----

  datatype Report = Report(
    replies: nat,
    warmup: nat,
    straddled: nat,
    measured: nat,
    late: nat,
    trace: bytes,
    wire: multiset<bytes>,
    window: multiset<bytes>)

  /** The counts of a report among themselves. */
  predicate Balanced(report: Report) {
    && report.warmup > 0 && report.measured > 0 && report.straddled <= 1 && report.late <= 1
    && report.replies == report.warmup + report.measured + report.late
  }

  /** What `validate_hwm_steady` demands of a worker's report, given the replay of its prefix. */
  predicate Accepted(report: Report, replay: Replay) {
    && Balanced(report)
    && report.wire == replay.counts && report.trace == replay.trace
    && report.window == MixCounts(report.warmup + report.measured) - MixCounts(report.warmup)
  }

  /** A trace splits into warmup, measured window and late completions, each counted. */
  ghost predicate Accounts(report: Report, trace: seq<Command>, name: Command -> bytes) {
    && |trace| == report.replies == report.warmup + report.measured + report.late
    && report.wire == multiset(Images(name, trace))
    && report.window == multiset(Images(name, trace[report.warmup..report.warmup + report.measured]))
  }

  lemma ReportAccounts(report: Report, trace: seq<Command>, name: Command -> bytes, replay: Replay)
    requires NamedInTurn(trace, name) && |trace| == report.replies
    requires Accepted(report, replay) && replay.counts == MixCounts(|trace|)
    ensures Accounts(report, trace, name)
  {
    hide MixCounts;
    assert trace[..|trace|] == trace;
    TallyIsMixCounts(trace, name, |trace|);
    WindowCounts(trace, name, report.warmup, report.measured);
  }

  lemma SteadyFramable(s: Scenario, step: nat, worker: nat, attempts: nat)
    requires Valid(s) && s.family.Hwm? && LiveIndices(step, s.keys) != []
    ensures All(Framable, SteadyPrefix(s, step, worker, attempts))
  {
    hide Framable, FixedKey, Survivor, HwmPayload, Rank;
    forall q | 0 <= q < attempts
      ensures Framable(SteadyPrefix(s, step, worker, attempts)[q])
    {
      var i := Pick(LiveIndices(step, s.keys), worker, q);
      var r := RecordAt(s, step, i);
      RequestFramable(i, r.generation, r.key, q);
    }
  }

  lemma RequestFramable(index: Word, generation: nat, key: bytes, sequence: nat)
    requires |key| == 18
    ensures Framable(Request(index, generation, key, sequence))
  {
  }

  lemma TraceBinds(h: Framing.Hash, a: seq<Command>, b: seq<Command>) returns (x: bytes, y: bytes)
    requires h(CommandStream(a)) == h(CommandStream(b)) && All(Framable, a) && All(Framable, b)
    ensures a == b || Collision(h, x, y)
  {
    x, y := CommandStream(a), CommandStream(b);
    if x == y {
      WireFramesDelimit();
      StreamInjective(WireFrame, Framable, a, b);
    }
  }

  /**
   A worker that reports the digest of what it sent and passes the validation sent exactly
   the oracle's prefix, its window counts are those of the requests in the window, and
   nothing is unaccounted for; or else two inputs collide under the hash.
   */
  lemma AcceptedReport(s: Scenario, step: nat, worker: nat, h: Framing.Hash, report: Report, sent: seq<Command>)
    returns (x: bytes, y: bytes)
    requires Valid(s) && s.family.Hwm? && LiveIndices(step, s.keys) != [] && All(Framable, sent)
    requires report.trace == h(CommandStream(sent))
    requires Accepted(report, Replay(h(CommandStream(SteadyPrefix(s, step, worker, report.replies))),
                                     MixCounts(report.replies)))
    ensures (sent == SteadyPrefix(s, step, worker, report.replies) && Accounts(report, sent, Name)) || Collision(h, x, y)
  {
    var prefix := SteadyPrefix(s, step, worker, report.replies);
    SteadyFramable(s, step, worker, report.replies);
    x, y := TraceBinds(h, sent, prefix);
    PrefixNamed(s, step, worker, report.replies);
    ReportAccounts(report, prefix, Name, Replay(h(CommandStream(prefix)), MixCounts(report.replies)));
  }

  // ----- Validating the whole event -----

  datatype Event = Event(
    live: nat,
    workers: seq<Report>,
    trace: bytes,
    window: multiset<bytes>,
    completed: nat,
    samples: nat)

  function Traces(reports: seq<Report>): (r: seq<bytes>)
    ensures |r| == |reports|
    ensures forall w | 0 <= w < |reports| :: r[w] == reports[w].trace
  {
    seq(|reports|, w requires 0 <= w < |reports| => reports[w].trace)
  }

  function WindowSum(reports: seq<Report>): multiset<bytes> {
    if reports == [] then multiset{} else WindowSum(reports[..|reports| - 1]) + reports[|reports| - 1].window
  }

  function SampleSum(reports: seq<Report>): nat {
    if reports == [] then 0 else SampleSum(reports[..|reports| - 1]) + reports[|reports| - 1].measured
  }

  /** The replay that a worker's report is compared with. */
  ghost function ReplayOf(s: Scenario, step: nat, worker: nat, replies: nat, h: Framing.Hash): Replay
    requires Valid(s) && s.family.Hwm? && LiveIndices(step, s.keys) != []
  {
    Replay(h(CommandStream(SteadyPrefix(s, step, worker, replies))), MixCounts(replies))
  }

  ghost predicate WorkerAccepted(s: Scenario, step: nat, h: Framing.Hash, worker: nat, report: Report)
    requires Valid(s) && s.family.Hwm? && LiveIndices(step, s.keys) != []
  {
    report.replies <= 100_000_000 && Accepted(report, ReplayOf(s, step, worker, report.replies, h))
  }

  /** What `validate_hwm_steady` demands of the event: every worker, and the aggregate. */
  ghost predicate EventAccepted(s: Scenario, step: nat, h: Framing.Hash, e: Event)
    requires Valid(s) && s.family.Hwm?
  {
    && e.live == |LiveIndices(step, s.keys)| && |e.workers| == WORKERS
    && LiveIndices(step, s.keys) != []
    && (forall w | 0 <= w < WORKERS :: WorkerAccepted(s, step, h, w, e.workers[w]))
    && e.trace == h(FrameAll(Traces(e.workers)))
    && e.window == WindowSum(e.workers)
    && e.completed == e.samples == SampleSum(e.workers)
  }

  method ValidateWorker(s: Scenario, step: nat, h: Framing.Hash, worker: nat, report: Report) returns (ok: bool)
    requires Valid(s) && s.family.Hwm? && worker < WORKERS
    ensures ok <==> LiveIndices(step, s.keys) != [] && WorkerAccepted(s, step, h, worker, report)
  {
    hide LiveIndices, Accepted, SteadyPrefix, CommandStream, MixCounts;
    var replay := ReplayPrefix(s, step, worker, report.replies, h);
    ok := replay.Success? && Accepted(report, replay.value);
  }

  /** `validate_hwm_steady`, workers and aggregate. */
  method ValidateSteady(s: Scenario, step: nat, h: Framing.Hash, e: Event) returns (ok: bool)
    requires Valid(s) && s.family.Hwm?
    ensures ok <==> EventAccepted(s, step, h, e)
  {
    hide LiveIndices, WorkerAccepted, FrameAll, WindowSum, SampleSum, Frame, Traces;
    if e.live != |LiveIndices(step, s.keys)| || |e.workers| != WORKERS {
      return false;
    }
    var outer: bytes, window: multiset<bytes>, samples: nat := [], multiset{}, 0;
    AggregateStart(e.workers);
    for w := 0 to WORKERS
      invariant w > 0 ==> LiveIndices(step, s.keys) != []
      invariant forall v | 0 <= v < w :: WorkerAccepted(s, step, h, v, e.workers[v])
      invariant outer == FrameAll(Traces(e.workers)[..w])
      invariant window == WindowSum(e.workers[..w]) && samples == SampleSum(e.workers[..w])
    {
      var report := e.workers[w];
      var fine := ValidateWorker(s, step, h, w, report);
      if !fine {
        return false;
      }
      AggregateStep(e.workers, w);
      outer := outer + Frame(report.trace);
      window := window + report.window;
      samples := samples + report.measured;
    }
    assert e.workers[..WORKERS] == e.workers && Traces(e.workers)[..WORKERS] == Traces(e.workers);
    ok := e.trace == h(outer) && e.window == window && e.completed == samples && e.samples == samples;
  }

  lemma AggregateStart(reports: seq<Report>)
    ensures FrameAll(Traces(reports)[..0]) == []
    ensures WindowSum(reports[..0]) == multiset{} && SampleSum(reports[..0]) == 0
  {
  }

  lemma AggregateStep(reports: seq<Report>, w: nat)
    requires w < |reports|
    ensures FrameAll(Traces(reports)[..w + 1]) == FrameAll(Traces(reports)[..w]) + Frame(reports[w].trace)
    ensures WindowSum(reports[..w + 1]) == WindowSum(reports[..w]) + reports[w].window
    ensures SampleSum(reports[..w + 1]) == SampleSum(reports[..w]) + reports[w].measured
  {
    var traces := Traces(reports);
    assert traces[..w + 1] == traces[..w] + [traces[w]];
    StreamAppend(Frame, traces[..w], traces[w]);
    assert reports[..w + 1][..w] == reports[..w];
  }

  /** The requests of a worker's measured window. */
  function WindowOf(report: Report, trace: seq<Command>): seq<Command> {
    if report.warmup + report.measured <= |trace| then trace[report.warmup..report.warmup + report.measured] else []
  }

  /** The requests of the first `n` workers' measured windows. */
  function Measured(reports: seq<Report>, sent: seq<seq<Command>>, n: nat): seq<Command>
    requires n <= |reports| == |sent|
  {
    if n == 0 then [] else Measured(reports, sent, n - 1) + WindowOf(reports[n - 1], sent[n - 1])
  }

  lemma ImagesJoin(name: Command -> bytes, a: seq<Command>, b: seq<Command>)
    ensures multiset(Images(name, a + b)) == multiset(Images(name, a)) + multiset(Images(name, b))
  {
    assert Images(name, a + b) == Images(name, a) + Images(name, b);
  }

  lemma AccountsWindow(report: Report, trace: seq<Command>, name: Command -> bytes)
    requires Accounts(report, trace, name)
    ensures report.window == multiset(Images(name, WindowOf(report, trace)))
    ensures |WindowOf(report, trace)| == report.measured
  {
  }

  lemma {:induction false} WindowsAddUp(reports: seq<Report>, sent: seq<seq<Command>>, name: Command -> bytes, n: nat)
    requires n <= |reports| == |sent|
    requires forall w | 0 <= w < n :: Accounts(reports[w], sent[w], name)
    ensures WindowSum(reports[..n]) == multiset(Images(name, Measured(reports, sent, n)))
    ensures SampleSum(reports[..n]) == |Measured(reports, sent, n)|
    decreases n
  {
    hide WindowSum, SampleSum, WindowOf, Accounts, Images;
    if n == 0 {
      AggregateStart(reports);
      assert Images(name, []) == [];
    } else {
      WindowsAddUp(reports, sent, name, n - 1);
      AggregateStep(reports, n - 1);
      AccountsWindow(reports[n - 1], sent[n - 1], name);
      ImagesJoin(name, Measured(reports, sent, n - 1), WindowOf(reports[n - 1], sent[n - 1]));
    }
  }

  /** All sixteen workers sent their prefixes, and the event counts exactly their measured windows. */
  ghost predicate EventAccounts(s: Scenario, step: nat, h: Framing.Hash, e: Event, sent: seq<seq<Command>>)
    requires Valid(s) && s.family.Hwm? && LiveIndices(step, s.keys) != []
    requires |e.workers| == |sent| == WORKERS
  {
    && (forall w | 0 <= w < WORKERS ::
          sent[w] == SteadyPrefix(s, step, w, e.workers[w].replies) && Accounts(e.workers[w], sent[w], Name))
    && e.trace == Digest(h, CommandStreams(sent))
    && e.window == multiset(Images(Name, Measured(e.workers, sent, WORKERS)))
    && e.completed == e.samples == |Measured(e.workers, sent, WORKERS)|
  }

  /**
   An accepted event whose workers report the digests of what they sent accounts for all
   of it, worker by worker and in the aggregate; or two inputs collide under the hash.
   */
  lemma AcceptedEvent(s: Scenario, step: nat, h: Framing.Hash, e: Event, sent: seq<seq<Command>>)
    returns (x: bytes, y: bytes)
    requires Valid(s) && s.family.Hwm? && EventAccepted(s, step, h, e) && |sent| == WORKERS
    requires forall w | 0 <= w < WORKERS :: All(Framable, sent[w]) && e.workers[w].trace == h(CommandStream(sent[w]))
    ensures EventAccounts(s, step, h, e, sent) || Collision(h, x, y)
  {
    hide LiveIndices, Accounts, SteadyPrefix, CommandStream, Accepted, MixCounts, WindowSum, SampleSum, Measured, FrameAll;
    x, y := [], [];
    for n := 0 to WORKERS
      invariant forall w | 0 <= w < n ::
                  sent[w] == SteadyPrefix(s, step, w, e.workers[w].replies) && Accounts(e.workers[w], sent[w], Name)
    {
      assert WorkerAccepted(s, step, h, n, e.workers[n]);
      x, y := AcceptedReport(s, step, n, h, e.workers[n], sent[n]);
      if Collision(h, x, y) {
        return;
      }
    }
    WindowsAddUp(e.workers, sent, Name, WORKERS);
    assert e.workers[..WORKERS] == e.workers;
    assert Traces(e.workers) == InnerDigests(h, CommandStreams(sent));
  }

  /** Totals over the reports of an event. */
  datatype Totals = Totals(replies: nat, warmup: nat, straddled: nat, late: nat)

  function TotalsOf(reports: seq<Report>): Totals {
    if reports == [] then Totals(0, 0, 0, 0)
    else
      var t, r := TotalsOf(reports[..|reports| - 1]), reports[|reports| - 1];
      Totals(t.replies + r.replies, t.warmup + r.warmup, t.straddled + r.straddled, t.late + r.late)
  }

  lemma {:induction false} TotalsBounded(reports: seq<Report>, n: nat)
    requires n <= |reports|
    requires forall w | 0 <= w < |reports| :: Balanced(reports[w])
    ensures var t := TotalsOf(reports[..n]);
            && t.replies == t.warmup + SampleSum(reports[..n]) + t.late
            && t.warmup >= n && SampleSum(reports[..n]) >= n
            && t.straddled <= n && t.late <= n
    decreases n
  {
    if n > 0 {
      TotalsBounded(reports, n - 1);
      assert reports[..n][..n - 1] == reports[..n - 1];
    }
  }

  /**
   An accepted event has a warmup completion and a sample from every worker, at most one
   straddling and one late completion per worker, and no reply outside these.
   */
  lemma EventBounds(s: Scenario, step: nat, h: Framing.Hash, e: Event)
    requires Valid(s) && s.family.Hwm? && EventAccepted(s, step, h, e)
    ensures var t := TotalsOf(e.workers);
            && t.replies == t.warmup + e.samples + t.late
            && t.warmup >= 16 && e.samples >= 16 && t.straddled <= 16 && t.late <= 16
  {
    hide Balanced, TotalsOf, SampleSum, LiveIndices, ReplayOf;
    forall w | 0 <= w < |e.workers|
      ensures Balanced(e.workers[w])
    {
      assert WorkerAccepted(s, step, h, w, e.workers[w]);
    }
    TotalsBounded(e.workers, WORKERS);
    assert e.workers[..WORKERS] == e.workers;
  }

  // ----- Steady traffic preserves the store -----

  /** The command finds a persistent string and leaves it as it is. */
  ghost predicate Harmless(db: Db, c: Command) {
    && c.key in db && db[c.key].value.Str? && !db[c.key].expires
    && (c.Get? || (c.SetXX? && c.data == db[c.key].value.data))
  }

  /** The reply the driver insists on: the stored bytes for a read, OK for a rewrite. */
  function SteadyAnswer(db: Db, c: Command): Reply {
    if c.SetXX? then Simple("OK")
    else if c.key in db && db[c.key].value.Str? then Bulk(db[c.key].value.data)
    else Nil
  }

  lemma {:induction false} HarmlessRun(db: Db, trace: seq<Command>)
    requires forall j | 0 <= j < |trace| :: Harmless(db, trace[j])
    ensures Run(db, trace) == db
    ensures forall j | 0 <= j < |trace| :: Answers(db, trace)[j] == SteadyAnswer(db, trace[j])
    decreases |trace|
  {
    if trace != [] {
      assert Harmless(db, trace[0]);
      assert Execute(db, trace[0]) == db;
      HarmlessRun(db, trace[1..]);
    }
  }

  lemma RequestHarmless(s: Scenario, step: nat, worker: nat, sequence: nat)
    requires Valid(s) && s.family.Hwm? && LiveIndices(step, s.keys) != []
    ensures Harmless(StoreAt(s, step), SteadyCommand(s, step, worker, sequence))
  {
    var i := Pick(LiveIndices(step, s.keys), worker, sequence);
    var keys, slots := Keys(s), Slots(s, step);
    AllKeysDistinct(s);
    StoreLookup(keys, slots, keys[i]);
    HwmRecord(s, step, i);
    RecordKey(s, step, i);
    assert slots[i] == SlotAt(s, step, i);
    HarmlessAt(StoreAt(s, step), RecordAt(s, step, i), i, sequence);
  }

  lemma HarmlessAt(db: Db, r: Record, index: Word, sequence: nat)
    requires r.kind.StringKind? && !r.expires
    requires Lookup(db, r.key) == SlotOf(r, HwmPayload(index, r.generation))
    ensures Harmless(db, Request(index, r.generation, r.key, sequence))
  {
  }

  ghost function SteadyScripts(s: Scenario, step: nat, attempts: seq<nat>): (r: Scripts)
    requires Valid(s) && s.family.Hwm? && LiveIndices(step, s.keys) != [] && |attempts| == WORKERS
    ensures |r| == WORKERS
    ensures forall w | 0 <= w < WORKERS :: r[w] == SteadyPrefix(s, step, w, attempts[w])
  {
    seq(WORKERS, w requires 0 <= w < WORKERS => SteadyPrefix(s, step, w, attempts[w]))
  }

  /**
   Any interleaving of any prefixes of the sixteen workers' requests leaves the store
   unchanged; every key asked for is there, and every `SET ... XX` finds its key.
   */
  lemma SteadyPreserves(s: Scenario, step: nat, attempts: seq<nat>, schedule: seq<nat>)
    requires Valid(s) && s.family.Hwm? && LiveIndices(step, s.keys) != [] && |attempts| == WORKERS
    requires Schedules(SteadyScripts(s, step, attempts), schedule)
    ensures var db, trace := StoreAt(s, step), Trace(SteadyScripts(s, step, attempts), schedule);
            && Run(db, trace) == db
            && forall j | 0 <= j < |trace| ::
                 Harmless(db, trace[j]) && Answers(db, trace)[j] == SteadyAnswer(db, trace[j])
  {
    var scripts := SteadyScripts(s, step, attempts);
    forall w, q | 0 <= w < |scripts| && 0 <= q < |scripts[w]|
      ensures Harmless(StoreAt(s, step), scripts[w][q])
    {
      RequestHarmless(s, step, w, q);
    }
    HarmlessScripts(StoreAt(s, step), scripts, schedule);
  }

  lemma HarmlessScripts(db: Db, scripts: Scripts, schedule: seq<nat>)
    requires Schedules(scripts, schedule)
    requires forall w, q | 0 <= w < |scripts| && 0 <= q < |scripts[w]| :: Harmless(db, scripts[w][q])
    ensures var trace := Trace(scripts, schedule);
            && Run(db, trace) == db
            && forall j | 0 <= j < |trace| ::
                 Harmless(db, trace[j]) && Answers(db, trace)[j] == SteadyAnswer(db, trace[j])
  {
    var trace := Trace(scripts, schedule);
    forall j | 0 <= j < |trace|
      ensures Harmless(db, trace[j])
    {
      TraceFromScripts(scripts, schedule, j);
      var w :| 0 <= w < |scripts| && trace[j] in scripts[w];
    }
    HarmlessRun(db, trace);
  }
}
