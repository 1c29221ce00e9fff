# A verified model of the compact-storage benchmark controller

The benchmark controller drives a key-value server through scripted phases and compares
what it sees with an oracle: a closed form for the contents of the store after every
phase, scripts of commands for 16 concurrent workers, digests and counters that bind
both, a uniform sampler for steady traffic, and careful ownership of child processes and
descriptors.  This project models that logic in Dafny 4.11 and proves what the pieces
promise one another.  `dafny verify dfyconfig.toml` checks all of it.

The main results:

- **Refinement.**  The closed form and the scripts agree: for every scenario, key count
  and number of phases, every interleaving of the workers ends in the predicted store
  with the predicted replies (`Refinement`, over `Store`, `Interleaving`, `Phases`,
  `Scenarios`).  What the closed form and the scripts are for is told family by family,
  down to the number of commands (`Families`).
- **Verification and prediction.**  The exhaustive read-back plus DBSIZE accepts exactly
  the predicted store (`Verification`); every field of the oracle's prediction is what
  it stands for (`Oracle`, `Tallies`); equal digests mean equal content or exhibit a hash
  collision (`Framing`).
- **Sampling and payloads.**  The mixer is a bijection, the rejection sampler never
  reaches its raise and is uniform exactly up to 2^64, every window holds the stated
  number of survivors, the three copies of the payload generator agree (`Words`, `Sampler`,
  `Survivors`, `Payloads`).
- **Steady traffic** leaves the store alone under any interleaving, an accepted event
  accounts for every reply of every worker (`Steady`), and a whole run of mutations,
  traffic and reads ends in the predicted store (`FullRun`).
- **Ownership.**  Against an adversarial operating system, signals reach only the bound,
  unreaped child; descriptors are closed once; children leave the registry only after
  their own wait (`Kernel`, `ChildWait`, `Ownership`).
- **Wire format and workload helpers** (`Resp`, `Workload`).

How the source's form is kept: pure code is functions and lemmas; loops are methods with
invariants, proved equal to a specification function; `NativeChildWait`, the descriptor
lists and the runner are classes whose methods update their fields.  Words are naturals
below 2^64 with every wrap-around written out; `Xor` and shifts are defined on naturals,
as Python computes them.  The environment of `Kernel` may act between any two steps of
the controller: it exits and starts processes, reuses PIDs, takes wait statuses that are
not its to take, opens and closes descriptors of its own, and makes pending signals raise
wherever they are neither masked nor deferred.

Five laws one might expect are false of the code, and each has its exact condition:

- equal verification replies do not always mean equal slots (a wrong-type reply hides the
  contents): `Verification.ChecksDecide`;
- the sampler is uniform if and only if the cardinality is at most 2^64:
  `Sampler.UniformIffWordSized`;
- different generations can share a payload: `Payloads.GenerationsDiffer`;
- the deferring context does not always put both signal handlers back:
  `Kernel.HandlersComeBack`;
- a child can leave the registry before its own wait was observed, but only after the
  status of a child registered under its PID was stolen: `Ownership.Runner.AnyRun`, with
  the run in `Ownership.Runner.EvictedByTheft`.

`hide` statements in proofs only withhold definitions from the verifier to keep proofs
cheap; nothing is assumed anywhere.

## Model

| member | source | states |
|---|---|---|
| `Refinement.RunRefines` | benchmarks/scripts/run-compact-storage-scenarios.py:167-211 | For every non-saturation family, key count and number of phases, and under every complete interleaving of the 16 workers within each phase, running all mutation scripts from the empty store leaves exactly the store that the closed form `record` describes: same keys, kinds, values and TTL flags, and no other key |
| `Refinement.PhaseRefines` | benchmarks/src/bin/compact_resp_scenarios.rs:476-515 | The same for one phase from the closed form of the step before, and every reply on the way, whatever the interleaving, is the one the native driver insists on |
| `Families.FamilyRun` | benchmarks/scripts/run-compact-storage-scenarios.py:192-211 | What each family is for, phase by phase: after any run of its phases, in any interleaving, every key that the last phase touches is as that phase makes it (deleted after odd half and groups phases, back one generation later after even ones, resized, given and freed of a TTL, turned into a hash or list, deleted, reinserted) and every other key is as before |
| `Families.StoryHolds` | benchmarks/scripts/run-compact-storage-scenarios.py:167-211 | The closed form of a key follows that story, for all steps of the family |
| `Families.FamilySize` | benchmarks/scripts/run-compact-storage-scenarios.py:289 | DBSIZE after every phase: half of the keys, rounded up, are gone after odd half phases, all but a quarter after odd groups phases, a tenth after the delete phases of metadata and types, none otherwise |
| `Families.PhaseChanges` | benchmarks/scripts/run-compact-storage-scenarios.py:147-161 | A phase after the load changes the slot of a key if and only if it touches the key, given values long enough to tell overwrites apart |
| `Families.ScriptsMinimal` | benchmarks/scripts/run-compact-storage-scenarios.py:238-257 | A key gets no command if and only if its slot is to stay as it is, and never more than one, but two where a string becomes a hash or list |
| `Families.CommandNames` | benchmarks/scripts/run-compact-storage-scenarios.py:244-257 | The names of the commands of a key in every phase of every family |
| `Families.PredictedCommands` | benchmarks/scripts/run-compact-storage-scenarios.py:293-298 | The predicted operations, transactions and command mix of every phase of every family, as closed forms of the key count |
| `Families.DatasetCommands` | benchmarks/scripts/run-compact-storage-scenarios.py:1077-1098 | With the real key count: a million SETs at load, then per cycle 950000 DELs, nothing, and 950000 SETs |
| `Families.KeyLengths` | benchmarks/scripts/run-compact-storage-scenarios.py:173-191 | The key length of every index in every family |
| `Scenarios.StepRefines` | benchmarks/scripts/run-compact-storage-scenarios.py:238-257 | One key, one step: the commands take the slot of the last step to the slot of this one with the insisted replies |
| `Scenarios.HwmTakes` | benchmarks/scripts/run-compact-storage-scenarios.py:1077-1078 | The delete, idle and refill commands of the high-water-mark family take a slot to the next with the insisted replies; that there are no others is stated by `Families.ScriptsMinimal` |
| `Phases.PhaseTakes` | benchmarks/scripts/run-compact-storage-scenarios.py:281-298 | Any 16-way split of any table of scripts over distinct keys may be interleaved freely: if each row takes its slot, the phase takes the store, reply for reply |
| `Phases.RunFollows` | benchmarks/scripts/run-compact-storage-scenarios.py:147-161 | Phase by phase induction: a table of scripts that steps through a table of slots ends in the store of the last column, for all schedules |
| `Interleaving.OwnerOrderKept` | benchmarks/scripts/run-compact-storage-scenarios.py:281-298 | In every partial interleaving the commands on a key that one worker owns are sent in that worker's order, and what is not yet sent is the rest of its script |
| `Interleaving.SomeScheduleCompletes` | benchmarks/scripts/run-compact-storage-scenarios.py:281-285 | Whatever the scripts, some schedule sends all of them, so the theorems about all complete schedules are not empty |
| `Store.RunIsLocal` | benchmarks/scripts/run-compact-storage-scenarios.py:238-257 | What a trace does to a key is what the commands that name the key do to its slot |
| `Phases.RangesTile` | benchmarks/scripts/run-compact-storage-scenarios.py:285 | The 16 ranges tile the indices for every key count and their sizes differ by at most one |
| `Phases.OwnerOf` | benchmarks/scripts/run-compact-storage-scenarios.py:285 | Every index lies in exactly one worker's range |
| `Refinement.HwmCycles` | benchmarks/scripts/run-compact-storage-scenarios.py:167-173 | After any number of load, delete, idle and refill phases, under all schedules, survivors hold generation 0, refill c has brought every other key back at generation c, and an idle phase leaves the store of the delete before it |
| `FullRun.WholeRun` | benchmarks/scripts/run-compact-storage-scenarios.py:609-726 | Mutations, steady traffic after every non-idle phase and exhaustive reads, each in any interleaving, for any number of phases from the empty store: the whole trace ends in the closed-form store of the last phase |
| `FullRun.PhaseReplies` | benchmarks/src/bin/compact_resp_scenarios.rs:889-922 | On the way every mutation and every steady request gets the reply the driver insists on, and every check is answered from the closed-form store |
| `Refinement.HwmDatasetSize` | benchmarks/scripts/run-compact-storage-scenarios.py:947-948 | With the real key count the store holds 1000000 keys after a load or refill and 50000 otherwise |
| `Refinement.HwmSize` | benchmarks/scripts/run-compact-storage-scenarios.py:1073 | For every key count the store holds all keys after a load or refill and the survivors otherwise |
| `Oracle.IdleDigest` | benchmarks/scripts/run-compact-storage-scenarios.py:1075-1076 | Under any hash the state digest predicted for an idle phase is the one predicted for the delete before it |
| `Verification.VerificationComplete` | benchmarks/scripts/run-compact-storage-scenarios.py:259-266 | Whatever the store: every index gives the literal replies the driver insists on and DBSIZE equals the live count if and only if the store is exactly the closed-form store, with no stray key |
| `Verification.ExpectedReplies` | benchmarks/src/bin/compact_resp_scenarios.rs:516-570 | The slot of a record gives literally these replies: nil, the value, a wrong-type error, the type name, the one field or item, and a TTL of -2, -1 or positive |
| `Verification.ExpectedPassesAlone` | benchmarks/src/bin/compact_resp_scenarios.rs:516-570 | A slot gives the insisted replies if and only if it is the slot of the record |
| `Verification.ChecksDecide` | benchmarks/src/bin/compact_resp_scenarios.rs:516-570 | The candidate law that equal replies mean equal slots fails in general; it holds for a slot if and only if `Decided` holds (slot absent, a string that is read in full, or a hash or list whose record asks for its contents) |
| `Verification.LookalikeAnswersSame` | benchmarks/scripts/run-compact-storage-scenarios.py:259-266 | Every undecided slot has a different slot with the same replies, given explicitly: another TTL flag, one more list item, or another value of a hash field |
| `Verification.SameAnswersSameSlot` | benchmarks/scripts/run-compact-storage-scenarios.py:259-266 | A decided slot is the only one with its replies |
| `Verification.PassesIffRowsAgree` | benchmarks/scripts/run-compact-storage-scenarios.py:1083-1085 | Giving the insisted replies everywhere is the same as agreeing with the closed form on every scenario key |
| `Verification.NoStrayKeys` | benchmarks/scripts/run-compact-storage-scenarios.py:706-708 | Agreement on the scenario keys and the right DBSIZE leave no room for another key |
| `Verification.ReadsAnswer` | benchmarks/scripts/run-compact-storage-scenarios.py:259-266 | A run of verification reads leaves any store as it is and answers from the one slot |
| `Scenarios.KeysDistinct` | benchmarks/scripts/run-compact-storage-scenarios.py:163-190 | Keys of any two indices below 2^64 differ, in every family: fixed, mixed length, class encoded, hexadecimal |
| `Scenarios.FixedKeyLayout` | benchmarks/scripts/run-compact-storage-scenarios.py:163-165 | A fixed key is the letter k up to its last eight bytes, which hold the index, most significant byte first |
| `Scenarios.PointKeyLayout` | benchmarks/scripts/run-compact-storage-scenarios.py:179-180 | A saturation key is `k:` and sixteen lower-case hexadecimal digits that read back as the index |
| `Scenarios.ClassesCompact` | benchmarks/scripts/run-compact-storage-scenarios.py:185-190 | Every class-encoded record has a key of at most 64 and a value of at most 256 bytes and lands in the compact class its index encodes; the first 160 indices meet all 160 classes |
| `Sampler.UniformRank` | benchmarks/scripts/run-compact-storage-scenarios.py:974-982 | The loop with both error exits returns the residue of the first accepted candidate for every positive cardinality, so the final raise is unreachable; a non-positive cardinality is refused |
| `Sampler.SomeCandidateAccepted` | benchmarks/scripts/run-compact-storage-scenarios.py:974-982 | Of the `threshold + 1` candidate words one is accepted, for every start word and every positive cardinality |
| `Sampler.CandidatesDistinct` | benchmarks/scripts/run-compact-storage-scenarios.py:974-982 | No two retries below 2^64 try the same word |
| `Sampler.StartInjective` | benchmarks/scripts/run-compact-storage-scenarios.py:979 | The worker and the sequence number can be read off the start word, for any worker and any sequence number below 2^32 |
| `Sampler.RequestsDiffer` | benchmarks/scripts/run-compact-storage-scenarios.py:979 | Two different requests, of one worker or of two, try different words on every retry they share |
| `Sampler.UniformIffWordSized` | benchmarks/scripts/run-compact-storage-scenarios.py:974-982 | Every residue has the same number of accepted 64-bit words if and only if the cardinality is at most 2^64; the number is then 2^64 divided by the cardinality, rounded down |
| `Sampler.OversizedIsBiased` | benchmarks/scripts/run-compact-storage-scenarios.py:974-982 | Above 2^64 the residue 2^64 - 1 is drawn by some word and the residue 2^64 by none |
| `Sampler.FirstTryUniform` | benchmarks/scripts/run-compact-storage-scenarios.py:950-954 | Seen through the mixer, the start words whose first candidate is accepted with a given residue are equally many for every residue |
| `Words.MixBijective` | benchmarks/scripts/run-compact-storage-scenarios.py:950-954 | `hwm_mix` has an inverse on both sides on 64-bit words |
| `Words.WeylDistinct` | benchmarks/scripts/run-compact-storage-scenarios.py:974-982 | Adding the odd constant repeats no state within 2^64 steps |
| `Survivors.WindowHasSurvivors` | benchmarks/scripts/run-compact-storage-scenarios.py:947-948 | Every window of 1000000 consecutive indices, at any start, holds exactly 50000 survivors |
| `Survivors.PlacedBelowCount` | benchmarks/scripts/run-compact-storage-scenarios.py:947-948 | The affine map permutes every such window, so it hits any bound exactly that often |
| `Payloads.BuildHwmPayload` | benchmarks/scripts/run-compact-storage-scenarios.py:956-963 | The packing loop builds the eight mixed words in order |
| `Payloads.HwmPayloadInjective` | benchmarks/scripts/run-compact-storage-scenarios.py:956-963 | Equal 64-byte payloads have equal index and generation, for all 64-bit words |
| `Payloads.HwmIndexInPrefix` | benchmarks/scripts/run-compact-storage-scenarios.py:956-963 | Different indices differ in the first 8 bytes whatever their generations |
| `Payloads.HwmGenerationInTail` | benchmarks/scripts/run-compact-storage-scenarios.py:956-963 | The same index at different generations differs in each of the other seven words |
| `Payloads.HwmTailDistinct` | benchmarks/scripts/run-compact-storage-scenarios.py:960-962 | The seven words after the first are pairwise different in every payload |
| `Payloads.HwmLayout` | benchmarks/scripts/run-compact-storage-scenarios.py:959-962 | The words lie in order, least significant byte first |
| `Payloads.HwmIndexInEveryWord` | benchmarks/scripts/run-compact-storage-scenarios.py:956-963 | Different indices at one generation differ in all eight words |
| `Payloads.RotatedIsRotation` | benchmarks/scripts/run-compact-storage-scenarios.py:956-963 | The shift-and-or of the index is its rotation left by 17 bits |
| `Payloads.FillHighEntropy` | benchmarks/src/workload.rs:177-187 | The in-place loop over 8-byte chunks with a short last chunk fills the array with the SplitMix64 byte stream, for every length |
| `Payloads.FillValue` | benchmarks/src/workload.rs:169-190 | All three patterns in place |
| `Payloads.ScenarioPayload` | benchmarks/scripts/run-compact-storage-scenarios.py:213-227 | Append whole words, then truncate: the same byte stream from the generation's seed |
| `Payloads.DensityPayload` | benchmarks/scripts/run-memory-density-benchmark.py:46-61 | The density script's generator equals what the Rust fill leaves in the array, for every size and pattern |
| `Payloads.GenerationZero` | benchmarks/scripts/run-compact-storage-scenarios.py:213-227 | The first generation of a scenario payload is the value the Rust workload and the density script use |
| `Payloads.PayloadPrefix` | benchmarks/scripts/run-compact-storage-scenarios.py:213-227 | A shorter payload is a prefix of a longer one |
| `Payloads.EntropyWordsDistinct` | benchmarks/scripts/run-compact-storage-scenarios.py:213-227 | No two aligned words of one payload repeat within the period of 2^64 |
| `Payloads.GenerationsDiffer` | benchmarks/scripts/run-compact-storage-scenarios.py:213-227 | Exactly when two generations share a payload, for every size: modulo 26 in the compressible pattern, modulo 2^36 in the others from 8 bytes on, and below that when the first generated words agree modulo 256 to the size |
| `Framing.WireFramesDelimit` | benchmarks/scripts/run-compact-storage-scenarios.py:233-236 | No command frame is empty or a prefix of another: framed command streams decode in one way only |
| `Framing.RowFramesDelimit` | benchmarks/scripts/run-compact-storage-scenarios.py:229-231 | The same for the four frames of a state row |
| `Framing.FrameLayout` | benchmarks/scripts/run-compact-storage-scenarios.py:229-231 | A frame is eight bytes of length, most significant first, and then the bytes |
| `Framing.CommandFrameLayout` | benchmarks/scripts/run-compact-storage-scenarios.py:233-236 | A command frame is eight bytes of count, most significant first, and then the frames of the parts in order |
| `Framing.CommandReadsBack` | benchmarks/scripts/run-compact-storage-scenarios.py:238-266 | What a server reads off the parts of a request is the command that was sent, and only those parts read so |
| `Framing.StreamInjective` | benchmarks/scripts/run-compact-storage-scenarios.py:229-236 | A stream of self-delimiting encodings determines the sequence it encodes, without knowing its length |
| `Framing.DigestBinds` | benchmarks/scripts/run-compact-storage-scenarios.py:304-306 | Equal outer digests mean equal worker streams, or the lemma returns two distinct inputs with one hash |
| `Framing.TraceDigestBinds` | benchmarks/scripts/run-compact-storage-scenarios.py:296-306 | Equal trace digests mean the same commands, worker by worker, or a collision |
| `Framing.StateDigestBinds` | benchmarks/scripts/run-compact-storage-scenarios.py:291-304 | Equal state digests mean the same rows, worker by worker, or a collision |
| `Oracle.StateDigestDecides` | benchmarks/scripts/run-compact-storage-scenarios.py:281-306 | Equal state digests of any two scenarios and steps mean equal closed-form stores, or a collision |
| `Oracle.ExpectedPhase` | benchmarks/scripts/run-compact-storage-scenarios.py:272-307 | Every field of the prediction is the quantity it stands for: `live_keys` is the DBSIZE of the closed-form store, live and absent make up the key count, `logical_bytes` is what the store holds, counters and command mixes are those of the scripts that the refinement theorem runs, digests are those of the 16 workers; and the workers' shares of live keys, bytes, operations, transactions and mixes add up to the totals |
| `Oracle.TotalTally` | benchmarks/scripts/run-compact-storage-scenarios.py:1062-1100 | The same for the totals of the walk, high-water-mark family included |
| `Oracle.WorkerTally` | benchmarks/scripts/run-compact-storage-scenarios.py:1062-1093 | A worker's three hash inputs are its rows of the state and its two scripts, and its counters are those of the scripts |
| `Oracle.HwmExpectedPhase` | benchmarks/scripts/run-compact-storage-scenarios.py:1057-1100 | The prediction with its list of workers: each worker's trace digest, state digest, range, wire count, record count and command mix are those of its own range |
| `Oracle.HwmCheckCount` | benchmarks/scripts/run-compact-storage-scenarios.py:1083-1098 | The closed form of three verification commands a key equals the count of the commands |
| `Oracle.DistributionSums` | benchmarks/scripts/run-compact-storage-scenarios.py:268-270 | In any listing of the grouped shapes the record counts sum to the key count and the grouped bytes to the bytes the load phase stores |
| `Tallies.PartsSum` | benchmarks/scripts/run-compact-storage-scenarios.py:281-306 | Sums over the 16 ranges add up to the sum over all indices, for any associative tally |
| `Steady.SteadyPreserves` | benchmarks/scripts/run-compact-storage-scenarios.py:984-999 | Any interleaving of any worker prefixes leaves the store of the phase unchanged; every command names a live persistent string, every SET XX finds its key, and every reply is the insisted one |
| `Steady.ReplayPrefix` | benchmarks/scripts/run-compact-storage-scenarios.py:984-999 | The replay loop, bounds and empty domain included, yields the digest of the worker's prefix and the closed-form counts |
| `Steady.TallyIsMixCounts` | benchmarks/scripts/run-compact-storage-scenarios.py:1001-1003 | The loop's tally equals the closed form for every prefix length |
| `Steady.WindowCounts` | benchmarks/scripts/run-compact-storage-scenarios.py:1028-1030 | The counts in any window are the difference of two closed forms |
| `Steady.AcceptedReport` | benchmarks/scripts/run-compact-storage-scenarios.py:1016-1030 | A worker report that passes the validation comes from exactly the oracle's prefix, its window counts are those of the requests in the window, and warmup, measured and late completions account for every reply; or two inputs collide |
| `Steady.ValidateSteady` | benchmarks/scripts/run-compact-storage-scenarios.py:1010-1034 | The validation loop over 16 workers with its running digest, counts and samples accepts exactly the events whose workers and aggregate are as demanded |
| `Steady.AcceptedEvent` | benchmarks/scripts/run-compact-storage-scenarios.py:1015-1034 | An accepted event accounts for all 16 workers at once: they sent their prefixes, the outer digest binds their traces, and the aggregate counts and samples are those of all measured windows together; or two inputs collide |
| `Steady.EventBounds` | benchmarks/scripts/run-compact-storage-scenarios.py:1016-1034 | An accepted event has a warmup completion and a sample from every worker, at most 16 straddling and 16 late completions, and no reply outside these |
| `Steady.LiveDomain` | benchmarks/scripts/run-compact-storage-scenarios.py:986-987 | The sampler draws from exactly as many keys as the store of the phase holds, for every key count |
| `Steady.DatasetDomain` | benchmarks/scripts/run-compact-storage-scenarios.py:986-987 | With the real key count the domain is never empty: 1000000 or 50000 keys |
| `Steady.RequestHarmless` | benchmarks/src/bin/compact_resp_scenarios.rs:1098-1110 | Every steady request finds a live persistent string and would store what is there already |
| `Resp.RequestRoundTrip` | benchmarks/scripts/test-hwm-release-faults.py:160-177 | For any parts, CR LF inside included, and any bytes after them: parsing the encoding returns the parts and leaves exactly those bytes if there are 1 to 4 parts of at most 8192 bytes, and fails otherwise |
| `Resp.EncodeRequest` | benchmarks/scripts/run-memory-density-benchmark.py:139-143 | The loop of `redis_command` builds the encoding |
| `Resp.ReadFaultRequest` | benchmarks/scripts/test-hwm-release-faults.py:160-177 | The reading loop equals the recursive parser, errors included |
| `Resp.PartReadsBack` | benchmarks/scripts/test-hwm-release-faults.py:169-175 | One bulk string of any bytes reads back if and only if it is within the size bound |
| `Workload.BuiltKeysDistinct` | benchmarks/src/workload.rs:221-231 | Keys of any two indices below 2^64 differ, for both patterns and every key count |
| `Workload.SameSessionIff` | benchmarks/src/workload.rs:224-229 | Two keys share a session if and only if their indices agree modulo the key count clamped to 1 to 4096 |
| `Workload.SelectionSafeIff` | benchmarks/src/workload.rs:292-328 | Every draw of the uniform or hot-set selector samples a non-empty range below the key count if and only if the selection is uniform, or there is a hot key, or the hot percentage is 0 |
| `Workload.HotShare` | benchmarks/src/workload.rs:311-321 | Of the hundred percentage draws exactly as many choose the hot keys as the percentage says, at most all |
| `Workload.SelectionReaches` | benchmarks/src/workload.rs:308-321 | Which selections can reach every index: uniform ones, and hot ones exactly when all keys are hot or the percentage leaves room for the rest and for the hot keys, if any |
| `Workload.BuildCdf` | benchmarks/src/workload.rs:331-345 | The two loops and the final store build the normalised prefix sums, ending at 1 |
| `Workload.ZipfPicks` | benchmarks/src/workload.rs:322-326 | Over the reals, for every positive weight sequence: the table is strictly increasing and ends at 1, the search picks k if and only if cdf[k-1] < sample <= cdf[k], and that interval is as wide as the weight's share |
| `ChildWait.AnyRun` | benchmarks/scripts/run-compact-shared-read-gate.py:330-395 | Whatever a client calls, in any order, against an environment that exits, starts and reuses processes and steals statuses: every signal hits the bound child while it is ours and unreaped, none follows a reap or a loss, a recorded outcome is final and, unless this very child's status was stolen, genuine |
| `ChildWait.StopChild` | benchmarks/scripts/run-compact-shared-read-gate.py:358-395 | SIGTERM is tried first and SIGKILL only after that and at least ten seconds later, each on the bound unreaped child and on its group only if it leads it; nothing is tried on a settled child, on one that had exited before, or after the identity was not confirmed; the receipt holds the recorded status, the loss, the identity and exactly the signals sent; an error that no signal causes means that the identity was not confirmed, or that both signals were tried and at least twenty seconds have passed |
| `ChildWait.SignalBound` | benchmarks/scripts/run-compact-shared-read-gate.py:377-386 | Under the mask the identity is confirmed before signalling; the signal hits that incarnation, and its group if it led one on entry |
| `ChildWait.NativeChildWait.Poll` | benchmarks/scripts/run-compact-shared-read-gate.py:341-356 | A saved outcome is returned unchanged; otherwise one status is recorded, or the loss, or nothing; a child that has exited is collected unless a signal strikes first; a raise on unmasking comes after the status is saved |
| `ChildWait.NativeChildWait.Bind` | benchmarks/scripts/run-compact-shared-read-gate.py:323-339 | Binds the start time of the child of ours that has the PID now, or raises and leaves the identity as it was |
| `ChildWait.AwaitReap` | benchmarks/scripts/run-compact-shared-read-gate.py:387-394 | Polls until reaped, lost or the deadline, never giving up early; collects a child that has exited, and changes the record as one poll would |
| `ChildWait.MisleadingStatus` | benchmarks/scripts/run-compact-shared-read-gate.py:341-356 | From any state in which the child still runs, a stolen status and a reused PID make the waiter record another child's status: why status claims need a single wait owner |
| `Kernel.RunEnvFollows` | benchmarks/scripts/run-compact-shared-read-gate.py:301-307 | Over any stretch of environment steps no incarnation and no closed file comes back, children persist with their exit status unless reaped or stolen, and under the mask all of them persist |
| `Kernel.HandlersComeBack` | benchmarks/scripts/run-compact-shared-read-gate.py:310-320 | The two handlers are replaced and restored one at a time: both are back, wherever signals strike, if and only if the signals are masked or one handler was recording already |
| `Kernel.HandlerLeftBehind` | benchmarks/scripts/run-compact-shared-read-gate.py:310-320 | The two runs that leave a recording handler installed for good: SIGINT between the installations, SIGTERM between the restorations |
| `Kernel.Machine.Defer` | benchmarks/scripts/run-compact-shared-read-gate.py:310-315 | Entering goes through one of the modelled courses: untouched, half installed or installed |
| `Ownership.Runner.AnyRun` | benchmarks/scripts/run-compact-storage-scenarios.py:388-539 | Every run of a new runner over helper commands, native sessions and cleanups, with errors and signals at any unmasked point: at most two registered children, each under its own PID, no descriptor closed twice and no stray close, and no child leaves the registry before its own wait was observed, unless the status of a child registered under the same PID was stolen |
| `Ownership.Runner.EvictedByTheft` | benchmarks/scripts/run-compact-storage-scenarios.py:439 | From any state with a running child that is not settled, theft of its status and a fork that returns its PID evict it from the registry: why theft under the PID is excepted |
| `Ownership.Runner.Spawn` | benchmarks/scripts/run-compact-storage-scenarios.py:414-449 | Either a bound, registered, unsettled child with exactly the parent's pipe ends open; or an error, after which all four descriptors are closed again unless a signal struck before the cleanup; a child whose cleanup failed, for instance because binding it failed, stays registered; other children stay registered |
| `Ownership.Runner.CleanupPreserving` | benchmarks/scripts/run-compact-storage-scenarios.py:485-512 | Once both handlers are in place every descriptor of the list ends at -1 and the child leaves the registry if and only if its wait was observed and not lost; a child that stays was lost or every means was tried on it; if a signal raises before that, descriptors and registry are as they were; the handlers end as one of the modelled courses leaves them |
| `Ownership.Runner.CleanupAll` | benchmarks/scripts/run-compact-storage-scenarios.py:470-483 | Goes through every registered child, failures included, until done or a signal strikes between two turns: a child that stays was lost, or SIGKILL was tried on it, or its identity was not confirmed; without a failure the registry ends empty |
| `Ownership.Runner.StopAndPop` | benchmarks/scripts/run-compact-storage-scenarios.py:474-479 | A child is taken off the registry only after its wait was observed without losing ownership, and exactly then if no signal can strike in between |
| `Ownership.CloseOwnedFd` | benchmarks/scripts/run-compact-storage-scenarios.py:451-459 | Once the mask is reached the entry is -1 afterwards, whatever `close` reports, and the file was closed exactly once if the entry was open; a signal before that leaves both alone |
| `Ownership.Runner.WaitFor` | benchmarks/scripts/run-compact-storage-scenarios.py:461-468 | Returns the exit code of the recorded status, none for a child killed by a signal; collects a child that had exited before the deadline; keeps the registry and the descriptor discipline on every error |
| `Ownership.Runner.Command` | benchmarks/scripts/run-compact-storage-scenarios.py:514-539 | Succeeds only after the child was reaped with exit code 0, its entry is gone and its descriptor is closed; on every other path, errors after the entry was popped included, the descriptors are closed too, unless a signal hits before the cleanup is entered |
| `Ownership.Runner.RunNative` | benchmarks/scripts/run-compact-storage-scenarios.py:609-726 | The same for the interactive child, for any sequence of awaited events, acknowledgements and helper commands that are spawned and reaped beside it, each of which may fail |

## Left out

- The storage engine, its write-ahead log, eviction and semantic cache: the repository's benchmark side only talks to a server, and `Store` models the commands the controller relies on.
- Docker, systemd, cgroup, `/proc` and smaps handling, provenance checks and validators of frozen contracts: input and output, and comparisons with fixed constants.
- SHA-256: a hash is any function to 64 hexadecimal characters, and collisions are returned as witnesses instead of excluded.
- The catalogue of scenario ids, package members and backend ids (`scenario`, `phases` as finite lists): the theorems hold for all key counts, lengths and numbers of phases instead.
- Reports, charts, latency percentiles, throughput and CPU ratios: presentation and statistics.
- `budget` callbacks, deadlines of the whole controller and STOP files: they only add points at which an error may raise, and the ownership results already allow an error at each modelled step.
- TTL values: a key either expires or does not, and a PTTL reply in the driver's accepted interval is one reply `Expiring`; passing time never deletes a key within a phase. Integer arguments are read as plain decimals, without the server's limits on their size and form.
- HGETALL replies are maps, so the order of fields within a reply is not modelled.
- Floating point: the Zipf table is over the reals, so rounding in the sums and the reason for the last store of 1 are not captured.
- `parse_resp_bulk`, `hwm_docker_parent_path` and the client side of `redis_command` after sending: easy members beside the round trip.
- `run_one` of the shared-read gate closes descriptors unmasked and suppresses errors; only the runner's descriptor discipline is modelled.
- The child's side of `fork` (descriptor duplication, `setsid`, `exec`) is the environment's: a child may lead its session at any time, or exit.
- The placement variant of `spawn` for high-water-mark baselines (a systemd scope around the child) is not modelled.
- The texts of errors, the receipts written as JSON and the list of cleanup errors: a write may fail wherever the source writes one.
- ChildWait.NativeChildWait.Poll: the recorded status is the forked child's only while that child's status was not stolen, because `poll` does not compare start times; `ChildWait.MisleadingStatus` shows the run.
- Ownership.Runner.CleanupPreserving: a signal between entering the method and installing both handlers raises before anything is cleaned up, as in the source; the `entered` result says so and `Command`, `RunNative` and `Spawn` pass it on.
- Ownership.Runner.AnyRun: that a child leaves the registry only after its own wait is conditional on no theft from a child registered under the same PID, because the PID can then be reused and the entry overwritten (`Ownership.Runner.EvictedByTheft`).
- Ownership.Runner.Command: the bytes read from the child are counted and bounded but not kept.
- Ownership.Runner.RunNative: the contents and the order of the native child's events are not modelled; any sequence of exchanges is allowed.
- Steady.ValidateSteady: thread identities, time bounds, throughput and latency fields of the event are not modelled.
- The list of signals recorded while handlers defer: only whether one was recorded matters to the cleanup.
