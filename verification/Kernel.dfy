/**
 The operating system around the controller: processes, descriptors, the clock and the
 mask of the termination signals.  Between any two of the controller's own steps the
 environment may exit or start processes, reuse PIDs, take a wait status that is not its
 to take, and open or close descriptors of its own.
 */
module Kernel {
  import opened Wrappers

  type Pid = nat

  datatype Signal = SigTerm | SigKill

  /** A process; `ticks` is its start time, unique to the incarnation. */
  datatype Proc = Proc(ticks: nat, ours: bool, exited: Option<int>, leader: bool)

  /**
   `files` maps open descriptors to the file behind them and `owned` holds the files the
   controller's runner opened.  `stolen` holds the start times of children of ours whose
   wait status someone else has collected.
   */
  datatype Sys = Sys(
    procs: map<Pid, Proc>,
    ticks: nat,
    files: map<int, nat>,
    nextFile: nat,
    owned: set<nat>,
    stolen: set<nat>,
    now: nat)

  /** Start times and file numbers are handed out once. */
  ghost predicate Coherent(s: Sys) {
    && (forall p | p in s.procs :: s.procs[p].ticks < s.ticks)
    && (forall f | f in s.files :: s.files[f] < s.nextFile)
    && (forall id | id in s.owned :: id < s.nextFile)
    && (forall f, g | f in s.files && g in s.files && s.files[f] == s.files[g] :: f == g)
  }

  // ----- The environment -----

  datatype EnvStep =
    | Exit(pid: Pid, status: int)
    | Setsid(pid: Pid)
    | Start(pid: Pid, ours: bool)
    | Vanish(pid: Pid)
    | Steal(pid: Pid)
    | Open(fd: nat)
    | Close(fd: nat)
    | Tick(delta: nat)

  /**
   One step of the environment; a step that is not possible does nothing.  Masked
   sections keep other code of the controller from running, so there no status is stolen
   and no child is started.
   */
  function Apply(s: Sys, masked: bool, step: EnvStep): Sys {
    match step
    case Exit(p, status) =>
      if p in s.procs && s.procs[p].ours && s.procs[p].exited.None?
      then s.(procs := s.procs[p := s.procs[p].(exited := Some(status))]) else s
    case Setsid(p) =>
      if p in s.procs && s.procs[p].exited.None?
      then s.(procs := s.procs[p := s.procs[p].(leader := true)]) else s
    case Start(p, ours) =>
      if p !in s.procs && !(ours && masked)
      then s.(procs := s.procs[p := Proc(s.ticks, ours, None, false)], ticks := s.ticks + 1) else s
    case Vanish(p) =>
      if p in s.procs && !s.procs[p].ours then s.(procs := s.procs - {p}) else s
    case Steal(p) =>
      if !masked && p in s.procs && s.procs[p].ours && s.procs[p].exited.Some?
      then s.(procs := s.procs - {p}, stolen := s.stolen + {s.procs[p].ticks}) else s
    case Open(f) =>
      if f !in s.files then s.(files := s.files[f := s.nextFile], nextFile := s.nextFile + 1) else s
    case Close(f) =>
      if f in s.files && s.files[f] !in s.owned then s.(files := s.files - {f}) else s
    case Tick(d) => s.(now := s.now + d)
  }

  function RunEnv(s: Sys, masked: bool, steps: seq<EnvStep>): Sys
    decreases |steps|
  {
    if steps == [] then s else RunEnv(Apply(s, masked, steps[0]), masked, steps[1..])
  }

  /** `b` still has the child that `a` has under `p`. */
  ghost predicate SameChild(a: Sys, b: Sys, p: Pid)
    requires p in a.procs
  {
    && p in b.procs && b.procs[p].ours && b.procs[p].ticks == a.procs[p].ticks
    && (a.procs[p].leader ==> b.procs[p].leader)
    && (a.procs[p].exited.Some? ==> b.procs[p].exited == a.procs[p].exited)
  }

  /** Every child of `a` is still there in `b`, not reaped. */
  ghost predicate KeepsChildren(a: Sys, b: Sys) {
    forall p | p in a.procs && a.procs[p].ours :: SameChild(a, b, p)
  }

  /**
   What any stretch of time leaves true: clocks and counters only advance, no incarnation
   and no closed file comes back, children persist unless reaped by us (`reaped`) or
   stolen, and the runner's open files persist unless closed by us (`closed`).
   */
  ghost predicate Follows(a: Sys, b: Sys, reaped: set<Pid>, closed: set<nat>) {
    && Coherent(b)
    && a.ticks <= b.ticks && a.nextFile <= b.nextFile && a.now <= b.now
    && a.owned <= b.owned && a.stolen <= b.stolen
    && (forall p | p in b.procs && b.procs[p].ticks < a.ticks ::
          p in a.procs && a.procs[p].ticks == b.procs[p].ticks && a.procs[p].ours == b.procs[p].ours)
    && (forall p | p in a.procs && a.procs[p].ours && a.procs[p].ticks !in b.stolen && p !in reaped :: SameChild(a, b, p))
    && (forall f | f in a.files && a.files[f] in a.owned && a.files[f] !in closed ::
          f in b.files && b.files[f] == a.files[f])
    && (forall f | f in b.files && b.files[f] < a.nextFile :: f in a.files && a.files[f] == b.files[f])
  }

  lemma FollowsTrans(a: Sys, b: Sys, c: Sys, reaped: set<Pid>, closed: set<nat>)
    requires Follows(a, b, reaped, closed) && Follows(b, c, reaped, closed)
    ensures Follows(a, c, reaped, closed)
  {
  }

  lemma FollowsRefl(s: Sys, reaped: set<Pid>, closed: set<nat>)
    requires Coherent(s)
    ensures Follows(s, s, reaped, closed) && KeepsChildren(s, s)
  {
  }

  lemma FollowsMonotone(a: Sys, b: Sys, reaped: set<Pid>, closed: set<nat>)
    requires Follows(a, b, reaped, closed)
    ensures Coherent(b) && a.now <= b.now && a.nextFile <= b.nextFile && a.stolen <= b.stolen
  {
  }

  lemma FollowsWiden(a: Sys, b: Sys, reaped: set<Pid>, closed: set<nat>, reaped': set<Pid>, closed': set<nat>)
    requires Follows(a, b, reaped, closed) && reaped <= reaped' && closed <= closed'
    ensures Follows(a, b, reaped', closed')
  {
  }

  lemma FollowsAround(a: Sys, b: Sys, c: Sys, d: Sys, reaped: set<Pid>, closed: set<nat>)
    requires Follows(a, b, {}, {}) && Follows(b, c, reaped, closed) && Follows(c, d, {}, {})
    ensures Follows(a, d, reaped, closed)
  {
    FollowsWiden(a, b, {}, {}, reaped, closed);
    FollowsWiden(c, d, {}, {}, reaped, closed);
    FollowsTrans(a, b, c, reaped, closed);
    FollowsTrans(a, c, d, reaped, closed);
  }

  lemma ProcUpdateFollows(s: Sys, p: Pid, q: Proc)
    requires Coherent(s) && p in s.procs
    requires q.ticks == s.procs[p].ticks && q.ours == s.procs[p].ours && (s.procs[p].leader ==> q.leader)
    requires s.procs[p].exited.Some? ==> q.exited == s.procs[p].exited
    ensures Follows(s, s.(procs := s.procs[p := q]), {}, {})
    ensures KeepsChildren(s, s.(procs := s.procs[p := q]))
  {
  }

  lemma ProcStartFollows(s: Sys, p: Pid, ours: bool)
    requires Coherent(s) && p !in s.procs
    ensures var t := s.(procs := s.procs[p := Proc(s.ticks, ours, None, false)], ticks := s.ticks + 1);
            Follows(s, t, {}, {}) && KeepsChildren(s, t)
  {
  }

  lemma ProcEndFollows(s: Sys, p: Pid, stolen: set<nat>)
    requires Coherent(s) && p in s.procs && s.stolen <= stolen && (s.procs[p].ours ==> s.procs[p].ticks in stolen)
    ensures Follows(s, s.(procs := s.procs - {p}, stolen := stolen), {}, {})
    ensures !s.procs[p].ours ==> KeepsChildren(s, s.(procs := s.procs - {p}, stolen := stolen))
  {
  }

  lemma FileStepFollows(s: Sys, masked: bool, step: EnvStep)
    requires Coherent(s) && (step.Open? || step.Close? || step.Tick?)
    ensures Follows(s, Apply(s, masked, step), {}, {})
    ensures KeepsChildren(s, Apply(s, masked, step))
  {
  }

  lemma ApplyFollows(s: Sys, masked: bool, step: EnvStep)
    requires Coherent(s)
    ensures Follows(s, Apply(s, masked, step), {}, {})
    ensures masked ==> KeepsChildren(s, Apply(s, masked, step))
  {
    hide Follows, KeepsChildren, Coherent;
    FollowsRefl(s, {}, {});
    var t := Apply(s, masked, step);
    if step.Open? || step.Close? || step.Tick? {
      FileStepFollows(s, masked, step);
    } else if t != s {
      match step
      case Exit(p, status) => ProcUpdateFollows(s, p, s.procs[p].(exited := Some(status)));
      case Setsid(p) => ProcUpdateFollows(s, p, s.procs[p].(leader := true));
      case Start(p, ours) => ProcStartFollows(s, p, ours);
      case Vanish(p) => ProcEndFollows(s, p, s.stolen);
      case Steal(p) => ProcEndFollows(s, p, s.stolen + {s.procs[p].ticks});
    }
  }

  lemma {:induction false} RunEnvFollows(s: Sys, masked: bool, steps: seq<EnvStep>)
    requires Coherent(s)
    ensures Follows(s, RunEnv(s, masked, steps), {}, {})
    ensures masked ==> KeepsChildren(s, RunEnv(s, masked, steps))
    decreases |steps|
  {
    if steps != [] {
      var t := Apply(s, masked, steps[0]);
      ApplyFollows(s, masked, steps[0]);
      RunEnvFollows(t, masked, steps[1..]);
      FollowsTrans(s, t, RunEnv(s, masked, steps), {}, {});
    }
  }

  // ----- Handlers of the termination signals -----

  /** Whether the handler of SIGTERM and that of SIGINT only record the signal. */
  datatype Handlers = Handlers(term: bool, interrupt: bool)

  const RAISING: Handlers := Handlers(false, false)
  const RECORDING: Handlers := Handlers(true, true)

  /** A termination signal that arrives now may raise. */
  predicate Exposed(masked: bool, h: Handlers) {
    !masked && h != RECORDING
  }

  datatype Entry = Untouched | HalfInstalled | Installed

  /**
   Entering `defer_cleanup_termination`: SIGTERM's handler is replaced, then SIGINT's.
   A signal may strike before the first replacement (`first`) and between the two (`second`).
   */
  function Enter(masked: bool, h: Handlers, first: bool, second: bool): (Handlers, Entry) {
    var half := h.(term := true);
    if first && Exposed(masked, h) then (h, Untouched)
    else if second && Exposed(masked, half) then (half, HalfInstalled)
    else (RECORDING, Installed)
  }

  lemma EnterEffects(masked: bool, h: Handlers, first: bool, second: bool)
    ensures var (after, entry) := Enter(masked, h, first, second);
            if entry.Installed? then after == RECORDING else Exposed(masked, h)
  {
  }

  /** Leaving it: SIGTERM's handler comes back, then SIGINT's; a signal may strike between the two. */
  function Leave(masked: bool, previous: Handlers, between: bool): Handlers {
    var half := previous.(interrupt := true);
    if between && Exposed(masked, half) then half else previous
  }

  /** The handlers after entering and, if that went through, leaving. */
  function Passage(masked: bool, h: Handlers, first: bool, second: bool, between: bool): Handlers {
    var (entered, entry) := Enter(masked, h, first, second);
    if entry.Installed? then Leave(masked, h, between) else entered
  }

  /**
   The handlers do not always come back: they do, wherever signals strike, exactly when
   the signals are masked or one of the two handlers was recording already.
   */
  lemma HandlersComeBack(masked: bool, h: Handlers)
    ensures (forall first, second, between :: Passage(masked, h, first, second, between) == h)
       <==> masked || h.term || h.interrupt
  {
    if !masked && h == RAISING {
      assert Passage(masked, h, false, true, false) == Handlers(true, false);
    }
  }

  /** A SIGINT between the two installations, or a SIGTERM between the two restorations, leaves a recorder behind. */
  lemma HandlerLeftBehind()
    ensures Passage(false, RAISING, false, true, false) == Handlers(true, false)
    ensures Passage(false, RAISING, false, false, true) == Handlers(false, true)
  {
  }

  /** What a passage may leave of the handlers. */
  ghost predicate Passes(masked: bool, h: Handlers, after: Handlers) {
    after == h || (!masked && h == RAISING && after != RECORDING)
  }

  // ----- The controller's system calls -----

  /** The state after a fork that returned `pid`. */
  function Forked(s: Sys, pid: Pid): Sys {
    s.(procs := s.procs[pid := Proc(s.ticks, true, None, false)], ticks := s.ticks + 1)
  }

  datatype Event =
    | Signalled(signal: Signal, pid: Pid, at: nat, ticks: nat, ours: bool, group: bool, leader: bool)
    | Missed(signal: Signal, pid: Pid, at: nat)
    | Unconfirmed(pid: Pid, at: nat)
    | Reaped(pid: Pid, ticks: nat, status: int)
    | NoChild(pid: Pid)
    | Closed(fd: nat, file: nat)
    | BadClose(fd: nat)

  datatype WaitResult = Lost | Running | Collected(status: int)

  datatype Identity = Identity(pid: Pid, ticks: nat)

  class Machine {
    var sys: Sys
    /** SIGTERM and SIGINT are masked. */
    var masked: bool
    var handlers: Handlers
    /** What the controller's calls did, as the system saw it. */
    ghost var log: seq<Event>

    constructor ()
      ensures Coherent(sys) && !masked && handlers == RAISING && log == []
    {
      sys := Sys(map[], 0, map[], 0, {}, {}, 0);
      masked, handlers, log := false, RAISING, [];
    }

    /** The time between two steps of the controller; a pending signal may raise if nothing stops it. */
    method Gap() returns (raised: bool)
      requires Coherent(sys)
      modifies this`sys
      ensures Follows(old(sys), sys, {}, {})
      ensures masked ==> KeepsChildren(old(sys), sys)
      ensures raised ==> Exposed(masked, handlers)
    {
      var steps: seq<EnvStep> := *;
      RunEnvFollows(sys, masked, steps);
      sys := RunEnv(sys, masked, steps);
      raised := *;
      raised := raised && Exposed(masked, handlers);
    }

    /** Enter `block_termination`. */
    method Block() returns (previous: bool)
      modifies this`masked
      ensures previous == old(masked) && masked
    {
      previous := masked;
      masked := true;
    }

    /** Leave `block_termination`: a pending signal may raise once unmasked. */
    method Restore(previous: bool) returns (raised: bool)
      requires Coherent(sys)
      modifies this`sys, this`masked
      ensures masked == previous
      ensures Follows(old(sys), sys, {}, {})
      ensures masked ==> KeepsChildren(old(sys), sys)
      ensures raised ==> Exposed(masked, handlers)
    {
      masked := previous;
      raised := Gap();
    }

    /** `waitpid(pid, WNOHANG)`. */
    method WaitPid(pid: Pid) returns (r: WaitResult)
      requires Coherent(sys)
      modifies this`sys, this`log
      ensures var a := old(sys);
              if !(pid in a.procs && a.procs[pid].ours) then
                r == Lost && sys == a && log == old(log) + [NoChild(pid)]
              else if a.procs[pid].exited.None? then
                r == Running && sys == a && log == old(log)
              else
                && r == Collected(a.procs[pid].exited.value)
                && sys == a.(procs := a.procs - {pid})
                && log == old(log) + [Reaped(pid, a.procs[pid].ticks, a.procs[pid].exited.value)]
      ensures Follows(old(sys), sys, {pid}, {})
    {
      if !(pid in sys.procs && sys.procs[pid].ours) {
        log := log + [NoChild(pid)];
        return Lost;
      }
      var p := sys.procs[pid];
      if p.exited.None? {
        return Running;
      }
      log := log + [Reaped(pid, p.ticks, p.exited.value)];
      sys := sys.(procs := sys.procs - {pid});
      return Collected(p.exited.value);
    }

    /** `child_wait_identity`: fails unless the PID names a child of ours, and may fail to read even then. */
    method ReadIdentity(pid: Pid) returns (r: Option<Identity>)
      ensures r.Some? ==> pid in sys.procs && sys.procs[pid].ours && r.value == Identity(pid, sys.procs[pid].ticks)
    {
      var readable: bool := *;
      if readable && pid in sys.procs && sys.procs[pid].ours {
        return Some(Identity(pid, sys.procs[pid].ticks));
      }
      return None;
    }

    /** Read the identity again and compare; it must be there and be the expected one. */
    method Confirm(pid: Pid, expected: Option<Identity>) returns (ok: bool)
      modifies this`log
      ensures ok ==> pid in sys.procs && sys.procs[pid].ours && expected == Some(Identity(pid, sys.procs[pid].ticks))
      ensures log == if ok then old(log) else old(log) + [Unconfirmed(pid, sys.now)]
    {
      var read := ReadIdentity(pid);
      ok := expected.Some? && read == expected;
      if !ok {
        log := log + [Unconfirmed(pid, sys.now)];
      }
    }

    /** `getpgid` and `getsid` before a signal: whether the PID leads its own group and session; it may be gone. */
    method LeadsSession(pid: Pid, signal: Signal) returns (r: Option<bool>)
      modifies this`log
      ensures r.Some? ==> pid in sys.procs && r.value == sys.procs[pid].leader
      ensures log == if r.Some? then old(log) else old(log) + [Missed(signal, pid, sys.now)]
    {
      r := None;
      var found: bool := *;
      if found && pid in sys.procs {
        r := Some(sys.procs[pid].leader);
      } else {
        log := log + [Missed(signal, pid, sys.now)];
      }
    }

    /** `killpg` or `kill`; the process may be gone. */
    method Kill(signal: Signal, pid: Pid, group: bool) returns (sent: bool)
      modifies this`log
      ensures sent ==> pid in sys.procs
      ensures log == if sent
                     then old(log) + [Signalled(signal, pid, sys.now, sys.procs[pid].ticks, sys.procs[pid].ours,
                                                group, sys.procs[pid].leader)]
                     else old(log) + [Missed(signal, pid, sys.now)]
    {
      sent := *;
      if sent && pid in sys.procs {
        var p := sys.procs[pid];
        log := log + [Signalled(signal, pid, sys.now, p.ticks, p.ours, group, p.leader)];
      } else {
        log := log + [Missed(signal, pid, sys.now)];
        sent := false;
      }
    }

    /** `fork`: a fresh child, or an error. */
    method Fork() returns (r: Option<Pid>)
      requires Coherent(sys)
      modifies this`sys
      ensures r.None? ==> sys == old(sys)
      ensures r.Some? ==>
                && r.value !in old(sys).procs
                && sys == Forked(old(sys), r.value)
      ensures Follows(old(sys), sys, {}, {})
    {
      var pid: Pid := *;
      if pid in sys.procs {
        return None;
      }
      sys := Forked(sys, pid);
      return Some(pid);
    }

    /** `pipe`: two fresh descriptors, or an error. */
    method Pipe() returns (ok: bool, r: nat, w: nat)
      requires Coherent(sys)
      modifies this`sys
      ensures !ok ==> sys == old(sys)
      ensures ok ==>
                && r !in old(sys).files && w !in old(sys).files && r != w
                && sys == old(sys).(files := old(sys).files[r := old(sys).nextFile][w := old(sys).nextFile + 1],
                                    nextFile := old(sys).nextFile + 2,
                                    owned := old(sys).owned + {old(sys).nextFile, old(sys).nextFile + 1})
      ensures Follows(old(sys), sys, {}, {})
    {
      r, w := *, *;
      ok := r !in sys.files && w !in sys.files && r != w;
      if ok {
        var id := sys.nextFile;
        sys := sys.(files := sys.files[r := id][w := id + 1], nextFile := id + 2, owned := sys.owned + {id, id + 1});
      }
    }

    /** `close`: the descriptor is released even when the call reports an error. */
    method CloseFd(fd: nat) returns (raised: bool)
      requires Coherent(sys)
      modifies this`sys, this`log
      ensures fd in old(sys).files ==>
                && sys == old(sys).(files := old(sys).files - {fd})
                && log == old(log) + [Closed(fd, old(sys).files[fd])]
                && Follows(old(sys), sys, {}, {old(sys).files[fd]})
      ensures fd !in old(sys).files ==> raised && sys == old(sys) && log == old(log) + [BadClose(fd)]
    {
      if fd !in sys.files {
        log := log + [BadClose(fd)];
        return true;
      }
      log := log + [Closed(fd, sys.files[fd])];
      sys := sys.(files := sys.files - {fd});
      raised := *;
    }

    /** `sleep`: at least the given time passes. */
    method Sleep(milliseconds: nat) returns (raised: bool)
      requires Coherent(sys)
      modifies this`sys
      ensures Follows(old(sys), sys, {}, {})
      ensures sys.now >= old(sys).now + milliseconds
      ensures raised ==> Exposed(masked, handlers)
    {
      raised := Gap();
      sys := sys.(now := sys.now + milliseconds);
    }

    /** Enter `defer_cleanup_termination`. */
    method Defer() returns (previous: Handlers, entry: Entry)
      requires Coherent(sys)
      modifies this`sys, this`handlers
      ensures Follows(old(sys), sys, {}, {})
      ensures previous == old(handlers)
      ensures exists first, second :: (handlers, entry) == Enter(masked, previous, first, second)
    {
      ghost var s0 := sys;
      previous := handlers;
      var first := Gap();
      if first {
        assert (handlers, Untouched) == Enter(masked, previous, true, false);
        return previous, Untouched;
      }
      ghost var s1 := sys;
      handlers := handlers.(term := true);
      var second := Gap();
      FollowsTrans(s0, s1, sys, {}, {});
      if second {
        assert (handlers, HalfInstalled) == Enter(masked, previous, false, true);
        return previous, HalfInstalled;
      }
      handlers := handlers.(interrupt := true);
      assert (handlers, Installed) == Enter(masked, previous, false, false);
      entry := Installed;
    }

    /** Leave `defer_cleanup_termination`. */
    method Undefer(previous: Handlers) returns (raised: bool)
      requires Coherent(sys) && handlers == RECORDING
      modifies this`sys, this`handlers
      ensures Follows(old(sys), sys, {}, {})
      ensures exists between :: handlers == Leave(masked, previous, between)
      ensures raised ==> Exposed(masked, handlers)
    {
      ghost var s0 := sys;
      handlers := handlers.(term := previous.term);
      var between := Gap();
      ghost var s1 := sys;
      if between {
        assert handlers == Leave(masked, previous, true);
        return true;
      }
      handlers := handlers.(interrupt := previous.interrupt);
      raised := Gap();
      FollowsTrans(s0, s1, sys, {}, {});
      assert handlers == Leave(masked, previous, false);
    }
  }
}
