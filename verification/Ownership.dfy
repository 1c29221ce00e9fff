/**
 The controller's runner: at most two registered children, and lists of pipe descriptors
 that are closed once each.  Signals and failures may interrupt every unmasked step.
 */
module Ownership {
  import opened Wrappers
  import opened Kernel
  import opened ChildWait

  // ----- Descriptor lists -----

  ghost predicate Names(fds: seq<int>, files: seq<nat>, sys: Sys)
    requires |fds| == |files|
  {
    && (forall i | 0 <= i < |fds| && fds[i] >= 0 ::
          fds[i] in sys.files && sys.files[fds[i]] == files[i] && files[i] in sys.owned)
    && (forall i, j | 0 <= i < |fds| && 0 <= j < |fds| && fds[i] >= 0 && fds[j] >= 0 && files[i] == files[j] :: i == j)
  }

  lemma PipeExtends(fds: seq<int>, files: seq<nat>, i: nat, r: nat, w: nat, a: Sys, b: Sys)
    requires Coherent(a) && |fds| == |files| && Names(fds, files, a) && i + 1 < |fds|
    requires r !in a.files && w !in a.files && r != w
    requires b == a.(files := a.files[r := a.nextFile][w := a.nextFile + 1], nextFile := a.nextFile + 2,
                     owned := a.owned + {a.nextFile, a.nextFile + 1})
    ensures Names(fds[i := r][i + 1 := w], files[i := a.nextFile][i + 1 := a.nextFile + 1], b)
  {
  }

  /** A list of descriptors; -1 marks an entry that is closed or was never opened. */
  class FdList {
    var fds: seq<int>
    /** The file each entry was opened for. */
    ghost var files: seq<nat>

    /** No entry is open; `since` is the next file to be opened. */
    constructor (n: nat, ghost since: nat)
      ensures fds == seq(n, _ => -1) && files == seq(n, _ => since)
    {
      fds := seq(n, _ => -1);
      files := seq(n, _ => since);
    }

    /** A list that takes over descriptors of another. */
    constructor Take(fds: seq<int>, ghost files: seq<nat>)
      ensures this.fds == fds && this.files == files
    {
      this.fds, this.files := fds, files;
    }

    /** Every open entry still names the file it was opened for, and no two name the same. */
    ghost predicate Valid(sys: Sys)
      reads this
    {
      |fds| == |files| && Names(fds, files, sys)
    }

    ghost function FileSet(): set<nat>
      reads this
    {
      set id | id in files
    }

    /** Nothing in the list was opened before file number `since`. */
    ghost predicate Recent(since: nat)
      reads this
    {
      forall i | 0 <= i < |files| :: files[i] >= since
    }

    ghost predicate AllClosed()
      reads this
    {
      forall i | 0 <= i < |fds| :: fds[i] == -1
    }
  }

  /** No stray close, and no file closed twice: closed files are gone from the table for good. */
  ghost predicate ClosedOnce(log: seq<Event>, sys: Sys) {
    && (forall e | e in log :: !e.BadClose?)
    && (forall e | e in log && e.Closed? ::
          e.file in sys.owned && e.file < sys.nextFile && forall f | f in sys.files :: sys.files[f] != e.file)
    && (forall i, j | 0 <= i < |log| && 0 <= j < |log| && log[i].Closed? && log[j].Closed? && log[i].file == log[j].file ::
          i == j)
  }

  ghost predicate NoCloses(events: seq<Event>) {
    forall e | e in events :: !e.Closed? && !e.BadClose?
  }

  lemma ClosedOnceKeeps(log: seq<Event>, a: Sys, events: seq<Event>, b: Sys, reaped: set<Pid>, closed: set<nat>)
    requires ClosedOnce(log, a) && NoCloses(events) && Follows(a, b, reaped, closed)
    ensures ClosedOnce(log + events, b)
  {
    var all := log + events;
    assert forall i | |log| <= i < |all| :: all[i] == events[i - |log|] && all[i] in events;
    forall e | e in all && e.Closed?
      ensures e.file in b.owned && e.file < b.nextFile && forall f | f in b.files :: b.files[f] != e.file
    {
      assert e in log;
    }
    forall i, j | 0 <= i < |all| && 0 <= j < |all| && all[i].Closed? && all[j].Closed? && all[i].file == all[j].file
      ensures i == j
    {
      assert i < |log| && j < |log|;
    }
  }

  lemma ClosedOnceAdds(log: seq<Event>, a: Sys, fd: nat)
    requires ClosedOnce(log, a) && Coherent(a) && fd in a.files && a.files[fd] in a.owned
    ensures ClosedOnce(log + [Closed(fd, a.files[fd])], a.(files := a.files - {fd}))
  {
  }

  lemma TakeIsValid(l: FdList, taken: FdList, sys: Sys)
    requires l.Valid(sys) && |l.fds| > 0
    requires taken.fds == l.fds[..1] && taken.files == l.files[..1]
    ensures taken.Valid(sys) && taken.FileSet() == {l.files[0]}
  {
    assert taken.files == [l.files[0]];
  }

  lemma PairIsValid(l: FdList, taken: FdList, sys: Sys)
    requires l.Valid(sys) && |l.fds| == 4
    requires taken.fds == [l.fds[0], l.fds[3]] && taken.files == [l.files[0], l.files[3]]
    ensures taken.Valid(sys)
  {
  }

  lemma ClosedIsValid(l: FdList, sys: Sys)
    requires l.AllClosed() && |l.fds| == |l.files|
    ensures l.Valid(sys)
  {
  }

  /** A list stays valid while time passes, as long as none of its open files is closed. */
  lemma ListPersists(l: FdList, a: Sys, b: Sys, reaped: set<Pid>, closed: set<nat>)
    requires l.Valid(a) && Follows(a, b, reaped, closed)
    requires forall i | 0 <= i < |l.fds| && l.fds[i] >= 0 :: l.files[i] !in closed
    ensures l.Valid(b)
  {
  }

  /** The masked section of `close_owned_fd`. */
  method ReleaseEntry(l: FdList, index: nat, m: Machine) returns (failed: bool)
    requires Coherent(m.sys) && l.Valid(m.sys) && index < |l.fds| && ClosedOnce(m.log, m.sys) && m.masked
    modifies l`fds, m`sys, m`log
    ensures l.fds == old(l.fds)[index := -1]
    ensures l.Valid(m.sys) && ClosedOnce(m.log, m.sys)
    ensures Follows(old(m.sys), m.sys, {}, {l.files[index]})
    ensures m.log == old(m.log) + if old(l.fds)[index] >= 0 then [Closed(old(l.fds)[index], l.files[index])] else []
  {
    ghost var s0, ids := m.sys, {l.files[index]};
    var calm := m.Gap();
    ghost var s1 := m.sys;
    ListPersists(l, s0, s1, {}, {});
    ClosedOnceKeeps(m.log, s0, [], s1, {}, {});
    assert m.log + [] == m.log;
    FollowsWiden(s0, s1, {}, {}, {}, ids);
    var fd := l.fds[index];
    failed := false;
    if fd >= 0 {
      ClosedOnceAdds(m.log, s1, fd);
      failed := m.CloseFd(fd);
      l.fds := l.fds[index := -1];
      FollowsTrans(s0, s1, m.sys, {}, ids);
    } else {
      l.fds := l.fds[index := -1];
    }
  }

  /** The body of `close_owned_fd`: mask, release, unmask. */
  method CloseMasked(l: FdList, index: nat, m: Machine) returns (raised: bool)
    requires Coherent(m.sys) && l.Valid(m.sys) && index < |l.fds| && ClosedOnce(m.log, m.sys)
    modifies l`fds, m`sys, m`masked, m`log
    ensures l.fds == old(l.fds)[index := -1]
    ensures l.Valid(m.sys) && ClosedOnce(m.log, m.sys)
    ensures m.masked == old(m.masked)
    ensures Follows(old(m.sys), m.sys, {}, {l.files[index]})
    ensures m.log == old(m.log) + if old(l.fds)[index] >= 0 then [Closed(old(l.fds)[index], l.files[index])] else []
  {
    ghost var s0, ids := m.sys, {l.files[index]};
    var previous := m.Block();
    var failed := ReleaseEntry(l, index, m);
    ghost var s1, log1 := m.sys, m.log;
    raised := m.Restore(previous);
    ListPersists(l, s1, m.sys, {}, {});
    ClosedOnceKeeps(log1, s1, [], m.sys, {}, {});
    assert log1 + [] == log1;
    FollowsWiden(s1, m.sys, {}, {}, {}, ids);
    FollowsTrans(s0, s1, m.sys, {}, ids);
    raised := raised || failed;
  }

  /**
   `close_owned_fd`: once the mask is reached the entry is -1 afterwards, whatever `close`
   reports; a signal that raises before leaves it alone.
   */
  method CloseOwnedFd(l: FdList, index: nat, m: Machine) returns (raised: bool, reached: bool)
    requires Coherent(m.sys) && l.Valid(m.sys) && index < |l.fds| && ClosedOnce(m.log, m.sys)
    modifies l`fds, m`sys, m`masked, m`log
    ensures l.fds == if reached then old(l.fds)[index := -1] else old(l.fds)
    ensures l.Valid(m.sys) && ClosedOnce(m.log, m.sys) && Coherent(m.sys)
    ensures m.masked == old(m.masked)
    ensures Follows(old(m.sys), m.sys, {}, {l.files[index]})
    ensures m.log == old(m.log) + if reached && old(l.fds)[index] >= 0
                                  then [Closed(old(l.fds)[index], l.files[index])] else []
    ensures !reached ==> raised && Exposed(m.masked, m.handlers)
  {
    hide Follows, ClosedOnce, Names, Coherent;
    ghost var s0, log0, ids := m.sys, m.log, {l.files[index]};
    raised := m.Gap();
    ghost var s1 := m.sys;
    FollowsMonotone(s0, s1, {}, {});
    ListPersists(l, s0, s1, {}, {});
    ClosedOnceKeeps(log0, s0, [], s1, {}, {});
    assert log0 + [] == log0;
    FollowsWiden(s0, s1, {}, {}, {}, ids);
    reached := !raised;
    if reached {
      raised := CloseMasked(l, index, m);
      FollowsTrans(s0, s1, m.sys, {}, ids);
      FollowsMonotone(s1, m.sys, {}, ids);
    }
  }

  /** Closing a whole list, ignoring errors, as the cleanup does with its handlers in place. */
  method CloseAll(l: FdList, m: Machine) returns (failed: bool)
    requires Coherent(m.sys) && l.Valid(m.sys) && ClosedOnce(m.log, m.sys) && m.handlers == RECORDING
    modifies l`fds, m`sys, m`masked, m`log
    ensures |l.fds| == old(|l.fds|) && l.AllClosed() && old(m.log) <= m.log
    ensures l.Valid(m.sys) && ClosedOnce(m.log, m.sys) && Coherent(m.sys)
    ensures m.masked == old(m.masked)
    ensures Follows(old(m.sys), m.sys, {}, l.FileSet())
  {
    hide Follows, ClosedOnce, Coherent;
    failed := false;
    ghost var s0, ids := m.sys, l.FileSet();
    FollowsRefl(s0, {}, ids);
    for index := 0 to |l.fds|
      invariant |l.fds| == old(|l.fds|) && old(m.log) <= m.log
      invariant forall i | 0 <= i < index :: l.fds[i] == -1
      invariant Coherent(m.sys) && l.Valid(m.sys) && ClosedOnce(m.log, m.sys)
      invariant m.masked == old(m.masked)
      invariant Follows(s0, m.sys, {}, ids)
    {
      ghost var s1 := m.sys;
      var raised, reached := CloseOwnedFd(l, index, m);
      FollowsWiden(s1, m.sys, {}, {l.files[index]}, {}, ids);
      FollowsTrans(s0, s1, m.sys, {}, ids);
      failed := failed || raised;
    }
  }

  // ----- The registry of children -----

  /** What is reaped or closed after it was started or opened in `b` does not count against `a`. */
  lemma FollowsForgets(a: Sys, b: Sys, c: Sys, reaped: set<Pid>, closed: set<nat>)
    requires Follows(a, b, {}, {}) && Follows(b, c, reaped, closed)
    requires forall p | p in reaped && p in a.procs && a.procs[p].ours :: a.procs[p].ticks in b.stolen
    requires forall id | id in closed :: id >= a.nextFile
    requires Coherent(a)
    ensures Follows(a, c, {}, {})
  {
  }

  lemma FreshPid(a: Sys, b: Sys, p: Pid)
    requires Follows(a, b, {}, {}) && p !in b.procs
    ensures p in a.procs && a.procs[p].ours ==> a.procs[p].ticks in b.stolen
  {
  }

  /** Every means was tried on a child: SIGKILL in the end, or its identity could not be confirmed. */
  ghost predicate Pursued(log: seq<Event>, pid: Pid) {
    exists e | e in log :: IsTry(e) && e.pid == pid && (e.Unconfirmed? || e.signal == SigKill)
  }

  lemma WasPursued(before: seq<Event>, tries: seq<Event>, seen: seq<Event>, log: seq<Event>, pid: Pid)
    requires log == before + tries + seen
    ensures before <= log
    ensures tries != [] && IsTry(tries[|tries| - 1]) && tries[|tries| - 1].pid == pid
            && (tries[|tries| - 1].Unconfirmed? || tries[|tries| - 1].signal == SigKill) ==>
              Pursued(log[|before|..], pid)
  {
    assert log[|before|..] == tries + seen;
    if tries != [] {
      assert tries[|tries| - 1] in tries + seen;
    }
  }

  /** Giving up and running out of time both end with a last resort. */
  lemma LastTry(tries: seq<Event>, since: nat, pid: Pid, identity: Option<Identity>)
    requires AimedAtBound(tries, pid, identity) && InOrder(tries, since)
    ensures GaveUp(tries) || |tries| == 2 ==>
              && IsTry(tries[|tries| - 1]) && tries[|tries| - 1].pid == pid
              && (tries[|tries| - 1].Unconfirmed? || tries[|tries| - 1].signal == SigKill)
  {
    if tries != [] {
      assert tries[|tries| - 1] in tries;
    }
  }

  lemma PursuedStays(start: nat, a: seq<Event>, b: seq<Event>)
    requires start <= |a| && a <= b
    ensures forall pid :: Pursued(a[start..], pid) ==> Pursued(b[start..], pid)
    ensures forall pid :: Pursued(b[|a|..], pid) ==> Pursued(b[start..], pid)
  {
    assert forall e | e in a[start..] :: e in b[start..];
    assert forall e | e in b[|a|..] :: e in b[start..];
  }

  lemma StopClosesNothing(c: NativeChildWait, sent: seq<Event>, seen: seq<Event>)
    requires AimedAtBound(sent, c.pid, c.identity) && forall e | e in seen :: !e.Closed? && !e.BadClose?
    ensures NoCloses(sent + seen)
  {
  }

  lemma PassagesPass(masked: bool, h: Handlers)
    ensures forall first, second, between :: Passes(masked, h, Passage(masked, h, first, second, between))
  {
  }

  ghost function Just(c: NativeChildWait?): set<NativeChildWait> {
    if c != null then {c} else {}
  }

  ghost function JustPid(c: NativeChildWait?): set<Pid> {
    if c != null then {c.pid} else {}
  }

  /** One exchange with the native child, or a helper command issued while it waits. */
  datatype Exchange = AwaitEvent | Acknowledge | Snapshot(timeout: nat)

  /** `WIFEXITED` and `WEXITSTATUS` of a raw wait status. */
  function ExitCode(status: int): Option<int> {
    if status % 128 == 0 then Some(status / 256 % 256) else None
  }

  /** The child was reaped and had exited with code 0. */
  ghost predicate Succeeded(c: NativeChildWait)
    reads c
  {
    c.wait.Some? && ExitCode(c.wait.value.status) == Some(0)
  }

  /** How a read loop ends. */
  datatype ReadEnd = EndOfFile | Line | ReadFailed

  datatype Task = Helper(timeout: nat) | Native(exchanges: seq<Exchange>, runtime: nat) | StopAll

  class Runner {
    const m: Machine
    var children: map<Pid, NativeChildWait>
    /** Every waiter that was ever registered. */
    ghost var spawned: set<NativeChildWait>

    constructor (m: Machine)
      requires Coherent(m.sys) && ClosedOnce(m.log, m.sys)
      ensures this.m == m && children == map[] && spawned == {} && Inv()
    {
      this.m := m;
      children, spawned := map[], {};
    }

    /** The status of a child registered under the PID, this one or an earlier one, was stolen. */
    ghost predicate Tainted(pid: Pid, sys: Sys)
      reads this
    {
      exists w | w in spawned :: w.pid == pid && w.born in sys.stolen
    }

    /** The child is registered, or its own wait was observed, or there was theft under its PID. */
    ghost predicate Accounted(c: NativeChildWait, sys: Sys)
      reads this, c
    {
      c.wait.Some? || (c.pid in children && children[c.pid] == c) || Tainted(c.pid, sys)
    }

    /** At most two children, each under its own PID and still pinned, and every child accounted for. */
    ghost predicate Registry(sys: Sys)
      reads this, children.Values, spawned
    {
      && |children| <= 2
      && (forall p | p in children :: children[p] in spawned && children[p].pid == p)
      && (forall p | p in children :: children[p].Pinned(sys) || Tainted(p, sys))
      && (forall c | c in spawned :: Accounted(c, sys))
    }

    /** What every step keeps: the registry, and no descriptor closed twice. */
    ghost predicate Inv()
      reads this, m, children.Values, spawned
    {
      Coherent(m.sys) && ClosedOnce(m.log, m.sys) && Registry(m.sys)
    }

    /** The waiter's entry, if there is one, is the waiter's own. */
    ghost predicate Owns(c: NativeChildWait)
      reads this, m
    {
      c in spawned && (Tainted(c.pid, m.sys) || (c.pid in children ==> children[c.pid] == c))
    }

    /** The child was started after `a` and joined the registry `before`. */
    ghost predicate Started(c: NativeChildWait, a: Sys, before: map<Pid, NativeChildWait>)
      reads this, m, c
    {
      && !c.Settled() && c in spawned && children == before[c.pid := c]
      && (c.pid in a.procs && a.procs[c.pid].ours ==> a.procs[c.pid].ticks in m.sys.stolen)
    }

    lemma AllTaintsStay(a: Sys, b: Sys)
      requires a.stolen <= b.stolen
      ensures forall pid :: Tainted(pid, a) ==> Tainted(pid, b)
    {
    }

    lemma TaintStays(pid: Pid, a: Sys, b: Sys)
      requires a.stolen <= b.stolen
      ensures Tainted(pid, a) ==> Tainted(pid, b)
    {
    }

    lemma RegistryPersists(a: Sys, b: Sys, closed: set<nat>)
      requires Registry(a) && Follows(a, b, {}, closed)
      ensures Registry(b)
    {
      FollowsMonotone(a, b, {}, closed);
      forall p | p in children
        ensures children[p].Pinned(b) || Tainted(p, b)
      {
        PinnedPersists(children[p], a, b, {}, closed);
        TaintStays(p, a, b);
      }
    }

    lemma TimePasses(log: seq<Event>, a: Sys, b: Sys)
      requires ClosedOnce(log, a) && Registry(a) && Follows(a, b, {}, {})
      ensures Coherent(b) && ClosedOnce(log, b) && Registry(b)
    {
      RegistryPersists(a, b, {});
      ClosedOnceKeeps(log, a, [], b, {}, {});
      assert log + [] == log;
    }

    /** `pop`: whoever is registered under the PID leaves. */
    method Pop(pid: Pid)
      requires Inv()
      requires pid in children ==> children[pid].wait.Some? || Tainted(pid, m.sys)
      modifies this`children
      ensures Inv() && children == old(children) - {pid}
    {
      children := children - {pid};
    }

    /**
     One turn of `cleanup_child`: stop the child and take it off the registry.  A signal
     may strike between the two, and then the child stays.
     */
    method StopAndPop(c: NativeChildWait) returns (ok: bool)
      requires Inv() && Owns(c) && c.pid in children
      modifies this`children, m`sys, m`masked, m`log, c`wait, c`ownershipLost
      ensures Inv() && Owns(c) && m.masked == old(m.masked)
      ensures Follows(old(m.sys), m.sys, {c.pid}, {})
      ensures children == if ok then old(children) - {c.pid} else old(children)
      ensures old(c.wait).Some? ==> c.wait == old(c.wait)
      ensures ok ==> c.wait.Some? && !c.ownershipLost
      ensures !Exposed(m.masked, m.handlers) ==> (ok <==> c.wait.Some? && !c.ownershipLost)
      ensures old(m.log) <= m.log
      ensures !ok && !Exposed(m.masked, m.handlers) && !c.Settled() ==> Pursued(m.log[|old(m.log)|..], c.pid)
    {
      hide Follows, ClosedOnce, Coherent, Registry, Tainted;
      ghost var s0 := m.sys;
      ok := Stop(c);
      ghost var s1 := m.sys;
      var raised := m.Gap();
      TimePasses(m.log, s1, m.sys);
      FollowsMonotone(s1, m.sys, {}, {});
      TaintStays(c.pid, s1, m.sys);
      FollowsWiden(s1, m.sys, {}, {}, {c.pid}, {});
      FollowsTrans(s0, s1, m.sys, {c.pid}, {});
      ok := ok && !raised;
      if ok {
        Pop(c.pid);
      }
    }

    method Stop(c: NativeChildWait) returns (ok: bool)
      requires Inv() && Owns(c) && c.pid in children
      modifies m`sys, m`masked, m`log, c`wait, c`ownershipLost
      ensures Inv() && m.masked == old(m.masked) && Owns(c)
      ensures Follows(old(m.sys), m.sys, {c.pid}, {})
      ensures old(c.wait).Some? ==> c.wait == old(c.wait)
      ensures old(m.log) <= m.log
      ensures !ok && !Exposed(m.masked, m.handlers) && !c.Settled() ==> Pursued(m.log[|old(m.log)|..], c.pid)
      ensures ok ==> c.wait.Some? && !c.ownershipLost
      ensures !Exposed(m.masked, m.handlers) ==> (ok <==> c.wait.Some? && !c.ownershipLost)
    {
      hide Follows, ClosedOnce, Coherent, AimedAtBound, InOrder, NotesOf;
      ghost var s0, log0 := m.sys, m.log;
      var out;
      ghost var tries, seen;
      out, tries, seen := StopChild(c, m);
      StopClosesNothing(c, tries, seen);
      assert log0 + tries + seen == log0 + (tries + seen);
      ClosedOnceKeeps(log0, s0, tries + seen, m.sys, {c.pid}, {});
      OthersPersist(c, s0, m.sys);
      LastTry(tries, s0.now, c.pid, c.identity);
      WasPursued(log0, tries, seen, m.log, c.pid);
      ok := out.Receipt? && !out.lost && out.wait.Some?;
    }

    /** Polling or stopping one child leaves the others pinned, and the registry as it is. */
    lemma OthersPersist(c: NativeChildWait, a: Sys, b: Sys)
      requires Follows(a, b, {c.pid}, {}) && c in spawned
      requires |children| <= 2 && (forall p | p in children :: children[p] in spawned && children[p].pid == p)
      requires forall p | p in children && p != c.pid :: children[p].Pinned(a) || Tainted(p, a)
      requires c.pid in children ==> Tainted(c.pid, a) || (children[c.pid] == c && c.Pinned(b))
      requires forall w | w in spawned :: Accounted(w, a)
      ensures Coherent(b) && Registry(b)
      ensures Tainted(c.pid, a) ==> Tainted(c.pid, b)
    {
      hide Follows;
      FollowsMonotone(a, b, {c.pid}, {});
      TaintStays(c.pid, a, b);
      forall p | p in children && p != c.pid
        ensures children[p].Pinned(b) || Tainted(p, b)
      {
        PinnedPersists(children[p], a, b, {c.pid}, {});
        TaintStays(p, a, b);
      }
    }

    lemma AllEntriesNamed()
      requires Registry(m.sys)
      ensures forall p | p in children :: children[p].pid == p
    {
    }

    lemma EntryOwned(pid: Pid)
      requires Registry(m.sys) && pid in children
      ensures children[pid].pid == pid && Owns(children[pid])
    {
    }

    /** One turn of `cleanup_child()`, which a signal may keep from starting. */
    method CleanupTurn(pid: Pid, c: NativeChildWait) returns (struck: bool, popped: bool)
      requires Inv() && pid in children && children[pid] == c
      modifies this`children, m`sys, m`masked, m`log, c`wait, c`ownershipLost
      ensures Inv() && m.masked == old(m.masked) && old(m.log) <= m.log
      ensures children == if popped then old(children) - {pid} else old(children)
      ensures struck ==> Exposed(m.masked, m.handlers) && !popped
      ensures !popped && !Exposed(m.masked, m.handlers) ==>
                c.ownershipLost || Pursued(m.log[|old(m.log)|..], pid)
    {
      hide Follows, ClosedOnce, Coherent, Registry, Tainted, Pursued;
      ghost var s0 := m.sys;
      popped := false;
      struck := m.Gap();
      TimePasses(m.log, s0, m.sys);
      if !struck {
        EntryOwned(pid);
        popped := StopAndPop(c);
      }
    }

    /**
     `cleanup_child()`: stop every registered child, going on after failures; a signal
     between two turns ends it.
     */
    method CleanupAll() returns (ok: bool)
      requires Inv()
      modifies this`children, m`sys, m`masked, m`log, children.Values`wait, children.Values`ownershipLost
      ensures Inv() && m.masked == old(m.masked)
      ensures ok ==> children == map[]
      ensures forall p | p in children :: p in old(children) && children[p] == old(children)[p]
      ensures old(m.log) <= m.log
      ensures !Exposed(m.masked, m.handlers) ==> forall p | p in children ::
                children[p].ownershipLost || Pursued(m.log[|old(m.log)|..], p)
    {
      hide Follows, ClosedOnce, Coherent, Registry, Tainted, Pursued;
      ghost var start := |m.log|;
      var left := children.Keys;
      ok := true;
      while left != {}
        invariant Inv() && m.masked == old(m.masked)
        invariant left <= children.Keys
        invariant forall p | p in children :: p in old(children) && children[p] == old(children)[p]
        invariant ok ==> children.Keys == left
        invariant old(m.log) <= m.log
        invariant !Exposed(m.masked, m.handlers) ==> forall p | p in children && p !in left ::
                    children[p].ownershipLost || Pursued(m.log[start..], p)
        decreases |left|
      {
        var pid :| pid in left;
        left := left - {pid};
        assert children[pid] in old(children).Values;
        AllEntriesNamed();
        ghost var log0 := m.log;
        var struck, popped := CleanupTurn(pid, children[pid]);
        PursuedStays(start, log0, m.log);
        if struck {
          return false;
        }
        ok := ok && popped;
      }
    }

    /** The part of `cleanup_preserving` that runs with the handlers deferring. */
    method CleanupDeferred(waiter: NativeChildWait?, l: FdList) returns (failed: bool)
      requires Inv() && l.Valid(m.sys) && (waiter != null ==> Owns(waiter)) && m.handlers == RECORDING
      modifies this`children, m`sys, m`masked, m`log, l`fds, Just(waiter)`wait, Just(waiter)`ownershipLost
      ensures Inv() && m.masked == old(m.masked) && (waiter != null ==> Owns(waiter))
      ensures l.AllClosed() && l.Valid(m.sys) && |l.fds| == old(|l.fds|)
      ensures Follows(old(m.sys), m.sys, JustPid(waiter), l.FileSet())
      ensures waiter != null && !failed ==> waiter.pid !in children
      ensures waiter != null && waiter.pid in old(children) ==>
                (waiter.pid !in children <==> waiter.wait.Some? && !waiter.ownershipLost)
      ensures old(m.log) <= m.log
      ensures waiter != null && waiter.pid in children ==>
                waiter.ownershipLost || Pursued(m.log[|old(m.log)|..], waiter.pid)
      ensures waiter != null && old(waiter.wait).Some? ==> waiter.wait == old(waiter.wait)
      ensures forall p | p in old(children) && (waiter == null || p != waiter.pid) ::
                p in children && children[p] == old(children)[p]
      ensures forall p | p in children :: p in old(children) && children[p] == old(children)[p]
    {
      hide Follows, Names, ClosedOnce, Registry, Tainted, Coherent, Pursued;
      ghost var s0, ids := m.sys, l.FileSet();
      ghost var start := |m.log|;
      ghost var pids := JustPid(waiter);
      failed := CloseAll(l, m);
      ghost var s1 := m.sys;
      RegistryPersists(s0, s1, ids);
      FollowsMonotone(s0, s1, {}, ids);
      AllTaintsStay(s0, s1);
      FollowsWiden(s0, s1, {}, ids, pids, ids);
      if waiter != null && waiter.pid in children {
        ghost var log0 := m.log;
        var popped := StopAndPop(waiter);
        PursuedStays(start, log0, m.log);
        FollowsWiden(s1, m.sys, {waiter.pid}, {}, pids, ids);
        FollowsTrans(s0, s1, m.sys, pids, ids);
        failed := failed || !popped;
      }
      ClosedIsValid(l, m.sys);
    }

    /**
     `cleanup_preserving`: once both handlers are in place nothing stops it.  A signal may
     raise before that, and then nothing was cleaned up (`entered` is false) and one
     handler may be left recording; another may raise while the handlers are put back.
     */
    method CleanupPreserving(waiter: NativeChildWait?, l: FdList, original: bool) returns (entered: bool, raised: bool)
      requires Inv() && l.Valid(m.sys) && (waiter != null ==> Owns(waiter))
      modifies this`children, m, l`fds, Just(waiter)`wait, Just(waiter)`ownershipLost
      ensures Inv() && m.masked == old(m.masked)
      ensures exists first, second, between ::
                && m.handlers == Passage(m.masked, old(m.handlers), first, second, between)
                && (entered <==> Enter(m.masked, old(m.handlers), first, second).1.Installed?)
      ensures l.Valid(m.sys) && |l.fds| == old(|l.fds|) && (if entered then l.AllClosed() else l.fds == old(l.fds))
      ensures !entered ==> raised && Exposed(m.masked, old(m.handlers)) && children == old(children)
      ensures Follows(old(m.sys), m.sys, JustPid(waiter), l.FileSet())
      ensures entered && !raised && !original && waiter != null ==> waiter.pid !in children
      ensures entered && waiter != null && waiter.pid in old(children) ==>
                (waiter.pid !in children <==> waiter.wait.Some? && !waiter.ownershipLost)
      ensures old(m.log) <= m.log
      ensures entered && waiter != null && waiter.pid in children ==>
                waiter.ownershipLost || Pursued(m.log[|old(m.log)|..], waiter.pid)
      ensures waiter != null && old(waiter.wait).Some? ==> waiter.wait == old(waiter.wait)
      ensures forall p | p in old(children) && (waiter == null || p != waiter.pid) ::
                p in children && children[p] == old(children)[p]
      ensures forall p | p in children :: p in old(children) && children[p] == old(children)[p]
    {
      hide Follows, Names, ClosedOnce, Coherent, Registry, Tainted, Enter, Leave, Pursued;
      ghost var s0, pids, ids := m.sys, JustPid(waiter), l.FileSet();
      var previous, entry := m.Defer();
      ghost var first, second :| (m.handlers, entry) == Enter(m.masked, previous, first, second);
      ghost var s1 := m.sys;
      TimePasses(m.log, s0, s1);
      FollowsMonotone(s0, s1, {}, {});
      AllTaintsStay(s0, s1);
      ListPersists(l, s0, s1, {}, {});
      EnterEffects(m.masked, previous, first, second);
      if entry != Installed {
        FollowsWiden(s0, s1, {}, {}, pids, ids);
        assert m.handlers == Passage(m.masked, previous, first, second, false);
        return false, true;
      }
      var failed := CleanupDeferred(waiter, l);
      ghost var s2 := m.sys;
      var received: bool, receiptLost: bool := *, *;
      var late := m.Undefer(previous);
      ghost var between :| m.handlers == Leave(m.masked, previous, between);
      assert m.handlers == Passage(m.masked, previous, first, second, between);
      TimePasses(m.log, s2, m.sys);
      FollowsAround(s0, s1, s2, m.sys, pids, ids);
      ClosedIsValid(l, m.sys);
      entered := true;
      raised := late || (!original && (failed || received || receiptLost));
    }

    /** One `os.pipe` into two entries of a list, under the mask. */
    method OpenPipe(l: FdList, i: nat) returns (ok: bool, r: nat, w: nat)
      requires Inv() && l.Valid(m.sys) && i + 1 < |l.fds|
      modifies m`sys, l
      ensures Inv() && l.Valid(m.sys) && Follows(old(m.sys), m.sys, {}, {})
      ensures !ok ==> l.fds == old(l.fds) && l.files == old(l.files)
      ensures ok ==> l.fds == old(l.fds)[i := r][i + 1 := w]
                     && l.files == old(l.files)[i := old(m.sys.nextFile)][i + 1 := old(m.sys.nextFile) + 1]
    {
      hide Follows, ClosedOnce, Registry, Coherent;
      ghost var s0 := m.sys;
      ok, r, w := m.Pipe();
      TimePasses(m.log, s0, m.sys);
      if ok {
        PipeExtends(l.fds, l.files, i, r, w, s0, m.sys);
        l.fds := l.fds[i := r][i + 1 := w];
        l.files := l.files[i := s0.nextFile][i + 1 := s0.nextFile + 1];
      } else {
        assert l.Valid(s0);
      }
    }

    /** `os.fork`, then the new waiter is registered before anything can interrupt. */
    method Register() returns (waiter: NativeChildWait?)
      requires Inv() && |children| < 2 && m.masked
      modifies this`children, this`spawned, m`sys
      ensures Inv() && Follows(old(m.sys), m.sys, {}, {})
      ensures spawned == old(spawned) + Just(waiter)
      ensures waiter == null ==> children == old(children)
      ensures waiter != null ==>
                && fresh(waiter) && !waiter.Settled() && waiter.identity.None? && waiter.Pinned(m.sys)
                && waiter.pid !in old(m.sys.procs) && waiter in spawned
                && waiter.pid in m.sys.procs && m.sys.procs[waiter.pid].ours && m.sys.procs[waiter.pid].ticks == waiter.born
                && children == old(children)[waiter.pid := waiter]
    {
      hide ClosedOnce, Follows, Coherent;
      ghost var s0 := m.sys;
      var forked := m.Fork();
      TimePasses(m.log, s0, m.sys);
      if forked.None? {
        return null;
      }
      var pid := forked.value;
      waiter := new NativeChildWait(pid, s0.ticks);
      Enroll(waiter);
    }

    /** A new child takes the entry of its PID; whoever had it is gone from the system. */
    method Enroll(c: NativeChildWait)
      requires Inv() && |children| < 2 && c.Pinned(m.sys)
      requires c.pid in children ==> children[c.pid].wait.Some? || Tainted(c.pid, m.sys)
      modifies this`children, this`spawned
      ensures Inv() && children == old(children)[c.pid := c] && spawned == old(spawned) + {c}
    {
      hide ClosedOnce, Coherent;
      children := children[c.pid := c];
      spawned := spawned + {c};
    }

    /** The four pipe ends of a child. */
    method OpenPipes(l: FdList, ghost since: nat) returns (ok: bool)
      requires Inv() && l.Valid(m.sys) && |l.fds| == 4 && l.Recent(since) && since <= m.sys.nextFile
      modifies m`sys, l
      ensures Inv() && l.Valid(m.sys) && |l.fds| == 4 && Follows(old(m.sys), m.sys, {}, {})
      ensures l.Recent(since)
      ensures ok ==> forall i | 0 <= i < 4 :: l.fds[i] >= 0
    {
      hide ClosedOnce, Coherent, Follows, Names, Registry;
      ghost var s0 := m.sys;
      var r, w;
      ok, r, w := OpenPipe(l, 0);
      if ok {
        ghost var s1 := m.sys;
        FollowsMonotone(s0, s1, {}, {});
        ok, r, w := OpenPipe(l, 2);
        FollowsTrans(s0, s1, m.sys, {}, {});
      }
    }

    /** `bind` right after the fork, still masked; it may fail, and then the child has no identity. */
    method BindFresh(waiter: NativeChildWait) returns (failed: bool)
      requires Inv() && m.masked && !waiter.Settled() && waiter.Pinned(m.sys) && waiter.identity.None?
      requires waiter.pid in m.sys.procs && m.sys.procs[waiter.pid].ours && m.sys.procs[waiter.pid].ticks == waiter.born
      modifies m`sys, waiter`identity
      ensures Inv() && Follows(old(m.sys), m.sys, {}, {})
      ensures waiter.identity == if failed then None else Some(Identity(waiter.pid, waiter.born))
    {
      hide ClosedOnce;
      ghost var s0 := m.sys;
      var calm := m.Gap();
      TimePasses(m.log, s0, m.sys);
      failed := waiter.Bind(m);
    }

    /** The masked section of `spawn`. */
    method Launch(l: FdList, ghost since: nat) returns (waiter: NativeChildWait?, failed: bool)
      requires Inv() && |children| < 2 && m.masked
      requires l.Valid(m.sys) && |l.fds| == 4 && l.Recent(since) && since <= m.sys.nextFile
      modifies this`children, this`spawned, m`sys, l
      ensures old(spawned) <= spawned
      ensures Inv() && l.Valid(m.sys) && |l.fds| == 4 && Follows(old(m.sys), m.sys, {}, {})
      ensures l.Recent(since)
      ensures waiter == null ==> children == old(children) && failed
      ensures waiter != null ==>
                && fresh(waiter) && Started(waiter, old(m.sys), old(children)) && (waiter.identity.None? <==> failed)
                && forall i | 0 <= i < 4 :: l.fds[i] >= 0
    {
      hide ClosedOnce, Names, Coherent, Follows, Registry;
      ghost var s0 := m.sys;
      waiter, failed := null, true;
      var ok := OpenPipes(l, since);
      if ok {
        ghost var s1 := m.sys;
        waiter := Register();
        ghost var s2 := m.sys;
        FollowsTrans(s0, s1, s2, {}, {});
        ListPersists(l, s1, s2, {}, {});
        if waiter != null {
          FreshPid(s0, s1, waiter.pid);
          failed := BindFresh(waiter);
          FollowsMonotone(s1, s2, {}, {});
          FollowsMonotone(s2, m.sys, {}, {});
          FollowsTrans(s0, s2, m.sys, {}, {});
          ListPersists(l, s2, m.sys, {}, {});
        }
      }
    }

    /** `close_owned_fd` as the runner calls it. */
    method CloseOne(l: FdList, index: nat) returns (raised: bool)
      requires Inv() && l.Valid(m.sys) && index < |l.fds|
      modifies l`fds, m`sys, m`masked, m`log
      ensures Inv() && l.Valid(m.sys) && m.masked == old(m.masked)
      ensures l.fds == old(l.fds)[index := -1] || (raised && l.fds == old(l.fds))
      ensures Follows(old(m.sys), m.sys, {}, l.FileSet())
    {
      hide Follows, ClosedOnce, Names, Registry, Coherent;
      ghost var s0, ids := m.sys, l.FileSet();
      var reached;
      raised, reached := CloseOwnedFd(l, index, m);
      FollowsWiden(s0, m.sys, {}, {l.files[index]}, {}, ids);
      RegistryPersists(s0, m.sys, ids);
    }

    /** The parent's copies of the child's ends are closed; an error ends the attempt. */
    method CloseChildEnds(l: FdList, interactive: bool) returns (raised: bool)
      requires Inv() && l.Valid(m.sys) && |l.fds| == 4
      modifies l`fds, m`sys, m`masked, m`log
      ensures Inv() && l.Valid(m.sys) && m.masked == old(m.masked) && |l.fds| == 4
      ensures Follows(old(m.sys), m.sys, {}, l.FileSet())
      ensures l.fds[0] == old(l.fds)[0]
      ensures forall i | 0 <= i < 4 :: l.fds[i] == old(l.fds)[i] || l.fds[i] == -1
      ensures !raised ==> l.fds[1] == l.fds[2] == -1 && (if interactive then l.fds[3] == old(l.fds)[3] else l.fds[3] == -1)
    {
      hide Follows, ClosedOnce, Names, Registry, Coherent;
      ghost var s0, ids := m.sys, l.FileSet();
      raised := CloseOne(l, 2);
      if !raised {
        ghost var s1 := m.sys;
        raised := CloseOne(l, 1);
        FollowsTrans(s0, s1, m.sys, {}, ids);
        if !raised && !interactive {
          ghost var s2 := m.sys;
          raised := CloseOne(l, 3);
          FollowsTrans(s0, s2, m.sys, {}, ids);
        }
      }
    }

    /** The masked section of `spawn` and the return from it. */
    method LaunchMasked(l: FdList, ghost since: nat) returns (waiter: NativeChildWait?, raised: bool)
      requires Inv() && |children| < 2 && l.Valid(m.sys) && |l.fds| == 4 && l.Recent(since) && since <= m.sys.nextFile
      modifies this`children, this`spawned, m`sys, m`masked, l
      ensures old(spawned) <= spawned
      ensures Inv() && m.masked == old(m.masked) && l.Valid(m.sys) && |l.fds| == 4
      ensures Follows(old(m.sys), m.sys, {}, {})
      ensures l.Recent(since)
      ensures waiter == null ==> children == old(children) && raised
      ensures waiter != null ==>
                && fresh(waiter) && Started(waiter, old(m.sys), old(children)) && (!raised ==> waiter.identity.Some?)
                && forall i | 0 <= i < 4 :: l.fds[i] >= 0
    {
      hide Follows, ClosedOnce, Names, Coherent;
      ghost var s0 := m.sys;
      var previous := m.Block();
      var failed;
      waiter, failed := Launch(l, since);
      ghost var s1 := m.sys;
      raised := m.Restore(previous);
      TimePasses(m.log, s1, m.sys);
      FollowsTrans(s0, s1, m.sys, {}, {});
      ListPersists(l, s1, m.sys, {}, {});
      FollowsMonotone(s1, m.sys, {}, {});
      raised := raised || failed;
    }

    /** Children that were there stay, unless their own wait was observed or there was theft under their PID. */
    ghost predicate KeepsOthers(before: map<Pid, NativeChildWait>)
      reads this, m, before.Values
    {
      forall p | p in before ::
        (p in children && children[p] == before[p]) || Tainted(p, m.sys) || before[p].wait.Some?
    }

    /** Whoever joined the registry was created since. */
    twostate predicate NoneOlder(before: map<Pid, NativeChildWait>)
      reads this
    {
      forall p | p in children :: (p in before && children[p] == before[p]) || fresh(children[p])
    }

    lemma StartKeepsOthers(c: NativeChildWait, a: Sys, before: map<Pid, NativeChildWait>)
      requires Started(c, a, before) && a.stolen <= m.sys.stolen
      requires forall p | p in before :: before[p] in spawned && before[p].pid == p
      requires forall p | p in before :: before[p].Pinned(a) || Tainted(p, a)
      ensures KeepsOthers(before)
    {
      forall p | p in before
        ensures (p in children && children[p] == before[p]) || Tainted(p, m.sys) || before[p].wait.Some?
      {
        TaintStays(p, a, m.sys);
      }
    }

    lemma StartedSince(c: NativeChildWait, a: Sys, b: Sys, before: map<Pid, NativeChildWait>)
      requires Started(c, b, before) && Follows(a, b, {}, {}) && b.stolen <= m.sys.stolen
      ensures Started(c, a, before)
    {
    }

    /** The way into the masked section of `spawn`, where a signal may strike, and the section. */
    method EnterAndLaunch(l: FdList) returns (waiter: NativeChildWait?, raised: bool)
      requires Inv() && |children| < 2 && l.Valid(m.sys) && |l.fds| == 4 && l.Recent(m.sys.nextFile)
      modifies this`children, this`spawned, m`sys, m`masked, l
      ensures old(spawned) <= spawned
      ensures Inv() && m.masked == old(m.masked) && l.Valid(m.sys) && |l.fds| == 4
      ensures Follows(old(m.sys), m.sys, {}, {})
      ensures l.Recent(old(m.sys.nextFile))
      ensures waiter == null ==> children == old(children) && raised
      ensures waiter != null ==>
                && fresh(waiter) && Started(waiter, old(m.sys), old(children)) && (!raised ==> waiter.identity.Some?)
                && forall i | 0 <= i < 4 :: l.fds[i] >= 0
    {
      hide Follows, ClosedOnce, Names, Coherent, Registry;
      ghost var s0, before := m.sys, children;
      waiter := null;
      raised := m.Gap();
      ghost var s1 := m.sys;
      TimePasses(m.log, s0, s1);
      FollowsMonotone(s0, s1, {}, {});
      ListPersists(l, s0, s1, {}, {});
      if !raised {
        waiter, raised := LaunchMasked(l, s0.nextFile);
        FollowsTrans(s0, s1, m.sys, {}, {});
        FollowsMonotone(s1, m.sys, {}, {});
        if waiter != null {
          StartedSince(waiter, s0, s1, before);
        }
      }
    }

    /** The guarded body of `spawn`. */
    method TrySpawn(l: FdList, interactive: bool) returns (waiter: NativeChildWait?, raised: bool)
      requires Inv() && |children| < 2 && l.Valid(m.sys) && |l.fds| == 4 && l.Recent(m.sys.nextFile)
      modifies this`children, this`spawned, m`sys, m`masked, m`log, l
      ensures old(spawned) <= spawned
      ensures Inv() && m.masked == old(m.masked) && l.Valid(m.sys) && |l.fds| == 4
      ensures Follows(old(m.sys), m.sys, {}, {})
      ensures l.Recent(old(m.sys.nextFile))
      ensures waiter == null ==> children == old(children) && raised
      ensures waiter != null ==> fresh(waiter) && Started(waiter, old(m.sys), old(children))
      ensures !raised ==>
                && waiter.identity.Some? && l.fds[0] >= 0 && l.fds[1] == l.fds[2] == -1
                && (l.fds[3] >= 0 <==> interactive)
      ensures KeepsOthers(old(children))
    {
      hide Follows, ClosedOnce, Names, Coherent, Accounted;
      ghost var s0, before := m.sys, children;
      waiter, raised := EnterAndLaunch(l);
      FollowsMonotone(s0, m.sys, {}, {});
      if waiter != null {
        StartKeepsOthers(waiter, s0, before);
      }
      if !raised {
        ghost var s1, ids := m.sys, l.FileSet();
        raised := CloseChildEnds(l, interactive);
        FollowsForgets(s0, s1, m.sys, {}, ids);
        FollowsMonotone(s1, m.sys, {}, ids);
        var unwritten: bool := *;
        raised := raised || unwritten;
      }
    }

    /** The way out of a failed `spawn`: clean up, then raise. */
    method Abandon(c: NativeChildWait?, l: FdList, ghost start: Sys, ghost before: map<Pid, NativeChildWait>)
      returns (entered: bool)
      requires Inv() && l.Valid(m.sys) && l.Recent(start.nextFile)
      requires Coherent(start) && Follows(start, m.sys, {}, {}) && KeepsOthers(before)
      requires if c == null then children == before else Started(c, start, before) && c !in before.Values
      modifies this`children, m, l`fds, Just(c)`wait, Just(c)`ownershipLost
      ensures Inv() && m.masked == old(m.masked) && Passes(m.masked, old(m.handlers), m.handlers)
      ensures l.Valid(m.sys) && |l.fds| == old(|l.fds|) && (entered ==> l.AllClosed())
      ensures !entered ==> Exposed(m.masked, old(m.handlers))
      ensures Follows(start, m.sys, {}, {}) && KeepsOthers(before)
      ensures forall p | p in children :: p in old(children) && children[p] == old(children)[p]
    {
      hide Follows, ClosedOnce, Coherent, Names, Registry, Passage;
      ghost var s1, ids := m.sys, l.FileSet();
      var raised;
      entered, raised := CleanupPreserving(c, l, true);
      PassagesPass(m.masked, old(m.handlers));
      FollowsForgets(start, s1, m.sys, JustPid(c), ids);
      FollowsMonotone(s1, m.sys, JustPid(c), ids);
      forall p | p in before
        ensures (p in children && children[p] == before[p]) || Tainted(p, m.sys) || before[p].wait.Some?
      {
        assert p in before.Keys && before[p] in before.Values;
        TaintStays(p, s1, m.sys);
      }
    }

    /**
     `spawn`: a bound, registered child and its descriptors; or an error, after a cleanup
     that closes all descriptors and stops the child if there is one.  A child that could
     not be stopped (because binding it failed, say) stays registered.
     */
    method Spawn(interactive: bool) returns (waiter: NativeChildWait?, l: FdList, entered: bool)
      requires Inv()
      modifies this`children, this`spawned, m
      ensures old(spawned) <= spawned
      ensures Inv() && m.masked == old(m.masked) && Passes(m.masked, old(m.handlers), m.handlers)
      ensures fresh(l) && l.Valid(m.sys) && |l.fds| == 4 && l.Recent(old(m.sys.nextFile))
      ensures Follows(old(m.sys), m.sys, {}, {})
      ensures waiter == null && entered ==> l.AllClosed()
      ensures !entered ==> waiter == null && Exposed(m.masked, old(m.handlers))
      ensures waiter != null ==>
                && fresh(waiter) && Started(waiter, old(m.sys), old(children)) && m.handlers == old(m.handlers)
                && waiter.identity.Some? && l.fds[0] >= 0 && l.fds[1] == l.fds[2] == -1
                && (l.fds[3] >= 0 <==> interactive)
      ensures KeepsOthers(old(children)) && NoneOlder(old(children))
    {
      hide Follows, ClosedOnce, Coherent, Names, Registry;
      ghost var s0, before := m.sys, children;
      FollowsRefl(s0, {}, {});
      l := new FdList(4, m.sys.nextFile);
      ClosedIsValid(l, s0);
      waiter, entered := null, true;
      if |children| < 2 {
        var c, raised := TrySpawn(l, interactive);
        if raised {
          entered := Abandon(c, l, s0, before);
        } else {
          waiter := c;
        }
      }
    }

    /** `poll` as the runner calls it. */
    method PollOnce(c: NativeChildWait) returns (polled: Polled)
      requires Inv() && Owns(c)
      modifies m`sys, m`masked, m`log, c`wait, c`ownershipLost
      ensures Inv() && Owns(c) && m.masked == old(m.masked)
      ensures Follows(old(m.sys), m.sys, {c.pid}, {})
      ensures polled.Value? ==> polled.wait == c.wait
      ensures polled.Raised? && !Exposed(m.masked, m.handlers) ==> c.ownershipLost && c.wait.None?
      ensures old(c.wait).Some? ==> c.wait == old(c.wait)
      ensures !old(c.Settled()) && !Exposed(m.masked, m.handlers) ==> c.Collected(old(m.sys), m.sys.stolen)
    {
      hide Follows, ClosedOnce, Coherent;
      ghost var s0, log0 := m.sys, m.log;
      ghost var seen;
      polled, seen := c.Poll(m);
      assert NoCloses(seen);
      ClosedOnceKeeps(log0, s0, seen, m.sys, {c.pid}, {});
      OthersPersist(c, s0, m.sys);
    }

    /** `wait`: the exit code, or an error at the deadline or for a child killed by a signal. */
    method WaitFor(c: NativeChildWait, until: nat) returns (code: Option<int>)
      requires Inv() && Owns(c)
      modifies m`sys, m`masked, m`log, c`wait, c`ownershipLost
      ensures Inv() && Owns(c) && m.masked == old(m.masked)
      ensures Follows(old(m.sys), m.sys, {c.pid}, {})
      ensures code.Some? ==> c.wait.Some? && code == ExitCode(c.wait.value.status)
      ensures !Exposed(m.masked, m.handlers) && c.wait.Some? && old(m.sys.now) < until ==>
                code == ExitCode(c.wait.value.status)
      ensures !Exposed(m.masked, m.handlers) && !old(c.Settled()) && old(m.sys.now) < until ==>
                c.Collected(old(m.sys), m.sys.stolen)
    {
      hide Follows, ClosedOnce, Coherent, Registry, Tainted;
      ghost var s0 := m.sys;
      FollowsRefl(s0, {c.pid}, {});
      while m.sys.now < until
        invariant Inv() && Owns(c) && m.masked == old(m.masked)
        invariant Follows(s0, m.sys, {c.pid}, {})
        invariant m.sys == s0 || c.wait.None?
        invariant m.sys != s0 && !Exposed(m.masked, m.handlers) && !old(c.Settled()) ==> c.Collected(s0, m.sys.stolen)
        invariant m.sys == s0 ==> c.wait == old(c.wait) && c.ownershipLost == old(c.ownershipLost)
        decreases until - m.sys.now
      {
        ghost var s1 := m.sys;
        var polled := PollOnce(c);
        ghost var s2 := m.sys;
        FollowsTrans(s0, s1, s2, {c.pid}, {});
        FollowsMonotone(s1, s2, {c.pid}, {});
        if polled.Raised? {
          return None;
        }
        if polled.wait.Some? {
          return ExitCode(polled.wait.value.status);
        }
        var raised := m.Sleep(50);
        TimePasses(m.log, s2, m.sys);
        FollowsMonotone(s2, m.sys, {}, {});
        TaintStays(c.pid, s2, m.sys);
        FollowsWiden(s2, m.sys, {}, {}, {c.pid}, {});
        FollowsTrans(s0, s2, m.sys, {c.pid}, {});
        if raised {
          return None;
        }
      }
      code := None;
    }

    /**
     The read loops: of `command`, until the end of file; of `run_native`, until a line is
     there.  Both are bounded in size and time, and an error may end them at every turn.
     */
    method ReadBounded(until: nat, bound: nat, wanted: ReadEnd) returns (how: ReadEnd, size: nat)
      requires Inv()
      modifies m`sys
      ensures Inv() && Follows(old(m.sys), m.sys, {}, {})
      ensures how == ReadFailed || (how == wanted && size <= bound && old(m.sys.now) < until)
    {
      hide Follows, ClosedOnce, Registry;
      ghost var s0 := m.sys;
      FollowsRefl(s0, {}, {});
      size := 0;
      how := ReadFailed;
      while m.sys.now < until && size <= bound
        invariant Inv() && Follows(s0, m.sys, {}, {}) && how == ReadFailed
        invariant old(m.sys.now) < until || m.sys == s0
        decreases until - m.sys.now, bound + 1 - size
      {
        ghost var s1 := m.sys;
        var chunk: nat, ready: bool, line: bool, failed: bool := *, *, *, *;
        var raised := m.Sleep(if ready then 0 else 100);
        TimePasses(m.log, s1, m.sys);
        FollowsTrans(s0, s1, m.sys, {}, {});
        if raised || failed {
          return;
        }
        if ready {
          if chunk == 0 {
            how := if wanted == EndOfFile then EndOfFile else ReadFailed;
            return;
          }
          size := size + chunk;
          if wanted == Line && line && size <= bound {
            how := Line;
            return;
          }
        }
      }
    }

    /** Take a reaped child off the registry; a signal may strike right after. */
    method Retire(c: NativeChildWait) returns (raised: bool)
      requires Inv() && Owns(c) && c.wait.Some?
      modifies this`children, m`sys
      ensures Inv() && Owns(c) && children == old(children) - {c.pid}
      ensures Follows(old(m.sys), m.sys, {}, {})
    {
      hide Follows, ClosedOnce, Registry, Coherent, Tainted;
      Pop(c.pid);
      ghost var s0 := m.sys;
      raised := m.Gap();
      TimePasses(m.log, s0, m.sys);
    }

    /**
     Wait for the child, check and write its receipts, and take it off the registry; an
     error may strike before that, and another one or a signal after it.
     */
    method Conclude(c: NativeChildWait, until: nat) returns (ok: bool)
      requires Inv() && Owns(c)
      modifies this`children, m`sys, m`masked, m`log, c`wait, c`ownershipLost
      ensures Inv() && Owns(c) && m.masked == old(m.masked)
      ensures Follows(old(m.sys), m.sys, {c.pid}, {})
      ensures children == old(children) || (children == old(children) - {c.pid} && c.wait.Some?)
      ensures ok ==> Succeeded(c) && c.pid !in children
    {
      hide Follows, ClosedOnce, Registry, Coherent, Owns;
      ghost var s0 := m.sys;
      var code := WaitFor(c, until);
      var failed: bool, late: bool := *, *;
      if code != Some(0) || failed {
        return false;
      }
      ghost var s1 := m.sys;
      var raised := Retire(c);
      FollowsWiden(s1, m.sys, {}, {}, {c.pid}, {});
      FollowsTrans(s0, s1, m.sys, {c.pid}, {});
      ok := !raised && !late;
    }

    /** The guarded body of `command`. */
    method TryCommand(c: NativeChildWait, until: nat) returns (ok: bool)
      requires Inv() && Owns(c)
      modifies this`children, m`sys, m`masked, m`log, c`wait, c`ownershipLost
      ensures Inv() && Owns(c) && m.masked == old(m.masked)
      ensures Follows(old(m.sys), m.sys, {c.pid}, {})
      ensures children == old(children) || (children == old(children) - {c.pid} && c.wait.Some?)
      ensures ok ==> Succeeded(c) && c.pid !in children
    {
      hide Follows, ClosedOnce, Registry;
      ghost var s0 := m.sys;
      var how, size := ReadBounded(until, 1_048_576, EndOfFile);
      ok := how == EndOfFile;
      ghost var s1 := m.sys;
      FollowsMonotone(s0, s1, {}, {});
      TaintStays(c.pid, s0, s1);
      FollowsWiden(s0, s1, {}, {}, {c.pid}, {});
      if ok {
        ok := Conclude(c, until);
        FollowsTrans(s0, s1, m.sys, {c.pid}, {});
      }
    }

    /** What `command` does with a spawned child, cleanup included. */
    method FinishCommand(c: NativeChildWait, pipes: FdList, until: nat) returns (done: bool, l: FdList, entered: bool)
      requires Inv() && c in spawned && c.pid in children && children[c.pid] == c
      requires pipes.Valid(m.sys) && |pipes.fds| == 4
      modifies this`children, m, c`wait, c`ownershipLost
      ensures Inv() && m.masked == old(m.masked) && Passes(m.masked, old(m.handlers), m.handlers)
      ensures Follows(old(m.sys), m.sys, {c.pid}, {pipes.files[0]})
      ensures forall p | p in children :: p in old(children) && children[p] == old(children)[p]
      ensures forall p | p in old(children) && p != c.pid :: p in children
      ensures fresh(l) && (entered ==> l.AllClosed())
      ensures !entered ==> Exposed(m.masked, old(m.handlers))
      ensures done ==> entered && Succeeded(c) && c.pid !in children
    {
      hide Follows, ClosedOnce, Names, Registry, Coherent;
      ghost var s0, ids := m.sys, {pipes.files[0]};
      var early := m.Gap();
      ghost var s1 := m.sys;
      TimePasses(m.log, s0, s1);
      FollowsWiden(s0, s1, {}, {}, {c.pid}, ids);
      l := new FdList.Take(pipes.fds[..1], pipes.files[..1]);
      done, entered := false, false;
      if early {
        return;
      }
      ListPersists(pipes, s0, s1, {}, {});
      TakeIsValid(pipes, l, m.sys);
      ghost var handlers := m.handlers;
      var ok := TryCommand(c, until);
      ghost var s2 := m.sys;
      FollowsWiden(s1, s2, {c.pid}, {}, {c.pid}, ids);
      FollowsTrans(s0, s1, s2, {c.pid}, ids);
      ListPersists(l, s1, s2, {c.pid}, {});
      var raised;
      entered, raised := CleanupPreserving(c, l, !ok);
      PassagesPass(m.masked, handlers);
      FollowsTrans(s0, s2, m.sys, {c.pid}, ids);
      done := ok && !raised;
    }

    /**
     `command`: it succeeds only after the child was reaped, its entry is gone and its
     descriptor is closed; and unless a signal hits before a cleanup is entered, its
     descriptors are closed on every other path too.
     */
    method Command(timeout: nat) returns (done: bool, waiter: NativeChildWait?, l: FdList, entered: bool)
      requires Inv()
      modifies this`children, this`spawned, m
      ensures old(spawned) <= spawned
      ensures Inv() && m.masked == old(m.masked) && Passes(m.masked, old(m.handlers), m.handlers)
      ensures Follows(old(m.sys), m.sys, {}, {})
      ensures KeepsOthers(old(children)) && NoneOlder(old(children))
      ensures fresh(l) && (entered ==> l.AllClosed())
      ensures !entered ==> Exposed(m.masked, old(m.handlers))
      ensures done ==> entered && waiter != null && Succeeded(waiter) && waiter.pid !in children
    {
      hide Follows, ClosedOnce, Names, Registry, Coherent;
      ghost var s0 := m.sys;
      var until := m.sys.now + timeout;
      waiter, l, entered := Spawn(false);
      done := false;
      if waiter != null {
        ghost var s1, file := m.sys, l.files[0];
        done, l, entered := FinishCommand(waiter, l, until);
        FollowsForgets(s0, s1, m.sys, {waiter.pid}, {file});
        FollowsMonotone(s1, m.sys, {waiter.pid}, {file});
      }
    }

    /** One exchange of `run_native`. */
    method DoExchange(x: Exchange, until: nat) returns (ok: bool)
      requires Inv()
      modifies this`children, this`spawned, m
      ensures old(spawned) <= spawned
      ensures Inv() && m.masked == old(m.masked) && Passes(m.masked, old(m.handlers), m.handlers)
      ensures Follows(old(m.sys), m.sys, {}, {})
      ensures KeepsOthers(old(children)) && NoneOlder(old(children))
    {
      hide Follows, ClosedOnce, Names, Registry, Coherent;
      match x
      case AwaitEvent =>
        var how, size := ReadBounded(until, 65_536, Line);
        ok := how == Line;
      case Acknowledge =>
        ghost var s0 := m.sys;
        var raised := m.Gap();
        TimePasses(m.log, s0, m.sys);
        ok := *;
        ok := ok && !raised;
      case Snapshot(timeout) =>
        var w, fds, entered;
        ok, w, fds, entered := Command(timeout);
    }

    /** The native child runs while events are awaited and acknowledged and helper commands are issued. */
    method Converse(c: NativeChildWait, l: FdList, exchanges: seq<Exchange>, until: nat) returns (ok: bool)
      requires Inv() && Owns(c) && l.Valid(m.sys) && c.wait.None?
      modifies this`children, this`spawned, m
      ensures old(spawned) <= spawned
      ensures Inv() && Owns(c) && l.Valid(m.sys) && NoneOlder(old(children))
      ensures m.masked == old(m.masked) && Passes(m.masked, old(m.handlers), m.handlers)
      ensures Follows(old(m.sys), m.sys, {}, {})
    {
      hide Follows, ClosedOnce, Names, Coherent;
      ghost var s0 := m.sys;
      FollowsRefl(s0, {}, {});
      ok := true;
      for i := 0 to |exchanges|
        invariant Inv() && Owns(c) && l.Valid(m.sys) && NoneOlder(old(children)) && old(spawned) <= spawned
        invariant m.masked == old(m.masked) && Passes(m.masked, old(m.handlers), m.handlers)
        invariant Follows(s0, m.sys, {}, {})
      {
        ghost var s1, before := m.sys, children;
        ok := DoExchange(exchanges[i], until);
        FollowsTrans(s0, s1, m.sys, {}, {});
        FollowsMonotone(s1, m.sys, {}, {});
        TaintStays(c.pid, s1, m.sys);
        StillOwned(c);
        ListPersists(l, s1, m.sys, {}, {});
        if !ok {
          return;
        }
      }
    }

    /** A child whose wait was not observed keeps its entry. */
    lemma StillOwned(c: NativeChildWait)
      requires Registry(m.sys) && c in spawned && c.wait.None?
      ensures Owns(c)
    {
      assert Accounted(c, m.sys);
    }

    /** The guarded body of `run_native`. */
    method TryNative(c: NativeChildWait, l: FdList, exchanges: seq<Exchange>, until: nat) returns (ok: bool)
      requires Inv() && Owns(c) && l.Valid(m.sys) && |l.fds| == 2 && c.wait.None?
      modifies this`children, this`spawned, m, l`fds, c`wait, c`ownershipLost
      ensures old(spawned) <= spawned
      ensures Inv() && Owns(c) && l.Valid(m.sys) && |l.fds| == 2 && NoneOlder(old(children))
      ensures m.masked == old(m.masked) && Passes(m.masked, old(m.handlers), m.handlers)
      ensures Follows(old(m.sys), m.sys, {c.pid}, l.FileSet())
      ensures ok ==> Succeeded(c) && c.pid !in children && l.fds[1] == -1
    {
      hide Follows, ClosedOnce, Names, Registry, Coherent;
      ghost var s0, ids := m.sys, l.FileSet();
      ok := Converse(c, l, exchanges, until);
      ghost var s1 := m.sys;
      FollowsWiden(s0, s1, {}, {}, {c.pid}, ids);
      if !ok {
        return;
      }
      var raised := CloseOne(l, 1);
      ghost var s2 := m.sys;
      FollowsMonotone(s1, s2, {}, ids);
      TaintStays(c.pid, s1, s2);
      FollowsWiden(s1, s2, {}, ids, {c.pid}, ids);
      FollowsTrans(s0, s1, s2, {c.pid}, ids);
      if raised {
        return false;
      }
      ok := Conclude(c, until);
      FollowsWiden(s2, m.sys, {c.pid}, {}, {c.pid}, ids);
      FollowsTrans(s0, s2, m.sys, {c.pid}, ids);
      ListPersists(l, s2, m.sys, {c.pid}, {});
    }

    /** What `run_native` does with its spawned child, cleanup included. */
    method FinishNative(c: NativeChildWait, pipes: FdList, exchanges: seq<Exchange>, until: nat)
      returns (done: bool, l: FdList, entered: bool)
      requires Inv() && c in spawned && c.pid in children && children[c.pid] == c && c.wait.None?
      requires pipes.Valid(m.sys) && |pipes.fds| == 4
      modifies this`children, this`spawned, m, c`wait, c`ownershipLost
      ensures old(spawned) <= spawned
      ensures Inv() && m.masked == old(m.masked) && NoneOlder(old(children))
      ensures Passes(m.masked, old(m.handlers), m.handlers)
      ensures fresh(l) && (entered ==> l.AllClosed())
      ensures !entered ==> Exposed(m.masked, old(m.handlers))
      ensures done ==> entered && Succeeded(c) && c.pid !in children
    {
      hide Follows, ClosedOnce, Names, Registry, Coherent;
      ghost var s0 := m.sys;
      var early := m.Gap();
      TimePasses(m.log, s0, m.sys);
      l := new FdList.Take([pipes.fds[0], pipes.fds[3]], [pipes.files[0], pipes.files[3]]);
      done, entered := false, false;
      if early {
        return;
      }
      ListPersists(pipes, s0, m.sys, {}, {});
      PairIsValid(pipes, l, m.sys);
      var ok := TryNative(c, l, exchanges, until);
      ghost var handlers := m.handlers;
      var raised;
      entered, raised := CleanupPreserving(c, l, !ok);
      PassagesPass(m.masked, handlers);
      done := ok && !raised;
    }

    /** `run_native`: an interactive child, helper commands meanwhile, then its own wait. */
    method RunNative(exchanges: seq<Exchange>, runtime: nat)
      returns (done: bool, waiter: NativeChildWait?, l: FdList, entered: bool)
      requires Inv()
      modifies this`children, this`spawned, m
      ensures old(spawned) <= spawned
      ensures Inv() && m.masked == old(m.masked) && NoneOlder(old(children))
      ensures Passes(m.masked, old(m.handlers), m.handlers)
      ensures fresh(l) && (entered ==> l.AllClosed())
      ensures !entered ==> Exposed(m.masked, old(m.handlers))
      ensures done ==> entered && waiter != null && Succeeded(waiter) && waiter.pid !in children
    {
      hide Follows, ClosedOnce, Names, Registry, Coherent;
      var until := m.sys.now + runtime;
      waiter, l, entered := Spawn(true);
      done := false;
      if waiter != null {
        done, l, entered := FinishNative(waiter, l, exchanges, until);
      }
    }

    /**
     Every run: whatever a controller does with a new runner, and wherever signals and
     errors strike, there are never more than two registered children, no descriptor is
     closed twice, and a child leaves the registry only after its own wait was observed,
     unless the status of a child registered under the same PID was stolen.
     */
    method AnyRun(tasks: seq<Task>)
      requires Inv() && children == map[] && spawned == {}
      modifies this`children, this`spawned, m
      ensures |children| <= 2 && forall p | p in children :: children[p].pid == p
      ensures m.masked == old(m.masked) && Passes(m.masked, old(m.handlers), m.handlers)
      ensures ClosedOnce(m.log, m.sys)
      ensures forall c | c in spawned && !Tainted(c.pid, m.sys) ::
                c.wait.Some? || (c.pid in children && children[c.pid] == c)
    {
      for i := 0 to |tasks|
        invariant Inv() && forall p | p in children :: fresh(children[p])
        invariant m.masked == old(m.masked) && Passes(m.masked, old(m.handlers), m.handlers)
      {
        match tasks[i]
        case Helper(timeout) =>
          var done, w, l, entered := Command(timeout);
        case Native(exchanges, runtime) =>
          var done, w, l, entered := RunNative(exchanges, runtime);
        case StopAll =>
          var ok := CleanupAll();
      }
    }

    /** Someone collects the status of a registered child that has just exited. */
    method Rob(c: NativeChildWait, status: int)
      requires Inv() && c in spawned && c.wait.None? && !Tainted(c.pid, m.sys)
      requires m.sys.procs[c.pid].exited.None?
      modifies m`sys
      ensures Inv() && Tainted(c.pid, m.sys) && c.pid !in m.sys.procs
    {
      hide ClosedOnce, Follows;
      ghost var s0 := m.sys;
      assert Accounted(c, s0);
      Stolen(m.sys, c.pid, status);
      RunEnvFollows(m.sys, false, [Exit(c.pid, status), Steal(c.pid)]);
      m.sys := RunEnv(m.sys, false, [Exit(c.pid, status), Steal(c.pid)]);
      TimePasses(m.log, s0, m.sys);
      assert c.born in m.sys.stolen;
    }

    /**
     Why theft is excepted: from any state with an unsettled child that still runs, a
     stolen status and a fork that returns the same PID evict it from the registry.
     */
    method EvictedByTheft(c: NativeChildWait, status: int)
      requires Inv() && c in spawned && c.wait.None? && |children| < 2 && !Tainted(c.pid, m.sys)
      requires m.sys.procs[c.pid].exited.None?
      modifies this`children, this`spawned, m`sys
      ensures Inv() && c in spawned && c.wait.None?
      ensures c.pid in children && children[c.pid] != c
    {
      hide ClosedOnce, Follows, Registry, Tainted, Coherent;
      Rob(c, status);
      ghost var s1 := m.sys;
      ProcStartFollows(s1, c.pid, true);
      m.sys := Forked(m.sys, c.pid);
      TimePasses(m.log, s1, m.sys);
      TaintStays(c.pid, s1, m.sys);
      var usurper := new NativeChildWait(c.pid, s1.ticks);
      Enroll(usurper);
    }
  }
}
