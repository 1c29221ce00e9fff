/**
 One owner of a child's wait status.  `NativeChildWait` polls without blocking and
 records what it saw; `StopChild` sends at most one SIGTERM and then one SIGKILL, each to
 the incarnation that was bound, and none once the child is reaped or lost.
 */
module ChildWait {
  import opened Wrappers
  import opened Kernel

  datatype Wait = Wait(pid: Pid, status: int)

  datatype Polled = Value(wait: Option<Wait>) | Raised

  class NativeChildWait {
    const pid: Pid
    /** Start time of the child that was forked. */
    ghost const born: nat
    var identity: Option<Identity>
    var wait: Option<Wait>
    var ownershipLost: bool

    constructor (pid: Pid, ghost born: nat)
      ensures this.pid == pid && this.born == born
      ensures identity.None? && wait.None? && !ownershipLost
    {
      this.pid, this.born := pid, born;
      identity, wait, ownershipLost := None, None, false;
    }

    /** The waiter is done: the status is saved, or is lost for good. */
    predicate Settled()
      reads this
    {
      wait.Some? || ownershipLost
    }

    /** Unless its status was stolen, an unsettled waiter still has the child that was forked. */
    ghost predicate Pinned(sys: Sys)
      reads this
    {
      && (identity.Some? ==> identity.value == Identity(pid, born))
      && (born !in sys.stolen && wait.None? ==>
            !ownershipLost && pid in sys.procs && sys.procs[pid].ours && sys.procs[pid].ticks == born)
    }

    /** What polling may have added to the record (`wait0` and `lost0` are the record before). */
    ghost predicate Observed(wait0: Option<Wait>, lost0: bool, seen: seq<Event>)
      reads this
    {
      if wait0.Some? || lost0 then seen == [] && wait == wait0 && ownershipLost == lost0
      else
        || (seen == [] && !Settled())
        || (seen == [NoChild(pid)] && wait.None? && ownershipLost)
        || (|seen| == 1 && seen[0].Reaped? && seen[0].pid == pid
            && wait == Some(Wait(pid, seen[0].status)) && !ownershipLost)
    }

    /** Unless the child's status was stolen, what was collected is the status of the forked child. */
    ghost predicate Genuine(sys: Sys, seen: seq<Event>)
      reads this
    {
      born !in sys.stolen ==> forall e | e in seen :: e.Reaped? && e.ticks == born
    }

    /** The child has exited and is there to be collected. */
    ghost predicate Exited(sys: Sys) {
      pid in sys.procs && sys.procs[pid].ours && sys.procs[pid].exited.Some?
    }

    /** An exit before `a` was collected, unless its status was stolen. */
    ghost predicate Collected(a: Sys, stolen: set<nat>)
      reads this
    {
      Exited(a) && a.procs[pid].ticks !in stolen ==> wait == Some(Wait(pid, a.procs[pid].exited.value))
    }

    /** `bind`; reading the identity may fail. */
    method Bind(m: Machine) returns (raised: bool)
      modifies this`identity
      ensures raised ==> identity == old(identity)
      ensures !raised ==> pid in m.sys.procs && m.sys.procs[pid].ours
                          && identity == Some(Identity(pid, m.sys.procs[pid].ticks))
    {
      var read := m.ReadIdentity(pid);
      if read.None? {
        return true;
      }
      identity := read;
      raised := false;
    }

    /** The masked section of `poll`: ask once, and record what came back. */
    method Collect(m: Machine) returns (ghost seen: seq<Event>)
      requires Coherent(m.sys) && m.masked && !Settled()
      modifies this`wait, this`ownershipLost, m`sys, m`log
      ensures Follows(old(m.sys), m.sys, {pid}, {})
      ensures m.log == old(m.log) + seen
      ensures Observed(None, false, seen)
      ensures !Settled() ==> pid in m.sys.procs && m.sys.procs[pid].ours
      ensures var before := old(m.sys.procs);
              Exited(old(m.sys)) ==>
                && wait == Some(Wait(pid, before[pid].exited.value))
                && seen == [Reaped(pid, before[pid].ticks, before[pid].exited.value)]
      ensures old(Pinned(m.sys)) ==> Pinned(m.sys) && Genuine(m.sys, seen)
    {
      seen := [];
      ghost var s0 := m.sys;
      var calm := m.Gap();
      ghost var s1 := m.sys;
      FollowsWiden(s0, s1, {}, {}, {pid}, {});
      var waited := m.WaitPid(pid);
      FollowsTrans(s0, s1, m.sys, {pid}, {});
      if waited.Lost? {
        seen := [NoChild(pid)];
        ownershipLost := true;
      } else if waited.Collected? {
        seen := [Reaped(pid, s1.procs[pid].ticks, waited.status)];
        wait := Some(Wait(pid, waited.status));
      }
    }

    /** `poll`: a pending signal may raise on unmasking, after the status is saved. */
    method Poll(m: Machine) returns (r: Polled, ghost seen: seq<Event>)
      requires Coherent(m.sys)
      modifies this`wait, this`ownershipLost, m`sys, m`masked, m`log
      ensures m.masked == old(m.masked)
      ensures Follows(old(m.sys), m.sys, {pid}, {})
      ensures m.log == old(m.log) + seen
      ensures Observed(old(wait), old(ownershipLost), seen)
      ensures m.masked && r == Value(None) ==> pid in m.sys.procs && m.sys.procs[pid].ours
      ensures r.Value? ==> r.wait == wait
      ensures r == Value(None) ==> !ownershipLost
      ensures r.Raised? && !Exposed(m.masked, m.handlers) ==> ownershipLost && wait.None?
      ensures !old(Settled()) && !Exposed(m.masked, m.handlers) ==> Collected(old(m.sys), m.sys.stolen)
      ensures old(Pinned(m.sys)) ==> Pinned(m.sys) && Genuine(m.sys, seen)
    {
      seen := [];
      ghost var s0 := m.sys;
      var raised := m.Gap();
      ghost var s1 := m.sys;
      FollowsWiden(s0, s1, {}, {}, {pid}, {});
      if raised {
        r := Raised;
        return;
      }
      if wait.Some? {
        r := Value(wait);
        return;
      }
      if ownershipLost {
        r := Raised;
        return;
      }
      var previous := m.Block();
      seen := Collect(m);
      ghost var s2 := m.sys;
      FollowsTrans(s0, s1, s2, {pid}, {});
      raised := m.Restore(previous);
      FollowsWiden(s2, m.sys, {}, {}, {pid}, {});
      FollowsTrans(s0, s2, m.sys, {pid}, {});
      r := Value(wait);
      if ownershipLost || raised {
        r := Raised;
      }
    }
  }

  /** Time alone does not unpin a child. */
  lemma PinnedPersists(c: NativeChildWait, a: Sys, b: Sys, reaped: set<Pid>, closed: set<nat>)
    requires Follows(a, b, reaped, closed) && c.pid !in reaped
    ensures c.Pinned(a) ==> c.Pinned(b)
  {
  }

  /** Time alone does not undo an exit. */
  lemma ExitStays(c: NativeChildWait, a: Sys, b: Sys)
    requires Follows(a, b, {}, {})
    ensures c.Exited(a) && a.procs[c.pid].ticks !in b.stolen ==>
              c.Exited(b) && b.procs[c.pid].ticks == a.procs[c.pid].ticks
              && b.procs[c.pid].exited == a.procs[c.pid].exited
  {
  }

  // ----- Stopping a child -----

  /** What one turn of the cleanup may do to a child that is still there. */
  predicate IsTry(e: Event) {
    e.Signalled? || e.Missed? || e.Unconfirmed?
  }

  /** Every signal hits the bound incarnation while it is our unreaped child, the group only if it leads it. */
  ghost predicate AimedAtBound(tries: seq<Event>, pid: Pid, identity: Option<Identity>) {
    forall e | e in tries ::
      && IsTry(e) && e.pid == pid
      && (e.Signalled? ==> identity == Some(Identity(pid, e.ticks)) && e.ours && (e.group ==> e.leader))
  }

  /** At most one try, in the given time, with the given signal unless the identity was not confirmed. */
  ghost predicate OneTry(tries: seq<Event>, signal: Signal, since: nat, until: nat) {
    && |tries| <= 1
    && (tries != [] ==> IsTry(tries[0]) && since <= tries[0].at <= until
                        && (tries[0].Unconfirmed? || tries[0].signal == signal))
  }

  /** The one try was a signal, sent or missed. */
  ghost predicate Tried(tries: seq<Event>) {
    |tries| == 1 && !tries[0].Unconfirmed?
  }

  /** The identity was not confirmed, and that was the end of it. */
  ghost predicate GaveUp(tries: seq<Event>) {
    tries != [] && tries[|tries| - 1].Unconfirmed?
  }

  /** SIGTERM is tried first; SIGKILL only after that, and ten seconds later; nothing after a failed confirmation. */
  ghost predicate InOrder(tries: seq<Event>, since: nat) {
    && |tries| <= 2
    && (|tries| >= 1 ==> IsTry(tries[0]) && tries[0].at >= since
                         && (tries[0].Unconfirmed? || tries[0].signal == SigTerm))
    && (|tries| == 2 ==> IsTry(tries[1]) && !tries[0].Unconfirmed? && tries[1].at >= tries[0].at + 10_000
                         && (tries[1].Unconfirmed? || tries[1].signal == SigKill))
  }

  /** An entry of the receipt's list of signals. */
  datatype Note = Note(signal: Signal, group: bool, pid: Pid)

  /** The notes on the tries that sent a signal. */
  function NotesOf(tries: seq<Event>): seq<Note> {
    if tries == [] then []
    else
      var e := tries[|tries| - 1];
      NotesOf(tries[..|tries| - 1]) + if e.Signalled? then [Note(e.signal, e.group, e.pid)] else []
  }

  /** How a stage of the cleanup ends: go on, return the receipt, or raise. */
  datatype Stage = GoOn | Finish | Raise

  /** Under the mask, with the child known to be unreaped: compare identities and signal. */
  method SignalBound(w: NativeChildWait, m: Machine, signal: Signal)
    returns (stage: Stage, notes: seq<Note>, ghost tries: seq<Event>)
    requires Coherent(m.sys) && m.masked
    requires w.pid in m.sys.procs && m.sys.procs[w.pid].ours
    modifies m`sys, m`log
    ensures Follows(old(m.sys), m.sys, {}, {})
    ensures m.log == old(m.log) + tries
    ensures AimedAtBound(tries, w.pid, w.identity) && OneTry(tries, signal, old(m.sys.now), m.sys.now)
    ensures stage == if Tried(tries) then GoOn else Raise
    ensures Tried(tries) || GaveUp(tries)
    ensures old(m.sys.procs)[w.pid].leader ==> forall e | e in tries && e.Signalled? :: e.group
    ensures notes == NotesOf(tries)
  {
    notes := [];
    stage := GoOn;
    ghost var s0 := m.sys;
    FollowsRefl(s0, {}, {});
    var confirmed := m.Confirm(w.pid, w.identity);
    if !confirmed {
      tries := [Unconfirmed(w.pid, s0.now)];
      stage := Raise;
      return;
    }
    var calm := m.Gap();
    ghost var s1 := m.sys;
    tries := [Missed(signal, w.pid, s1.now)];
    var leads := m.LeadsSession(w.pid, signal);
    if leads.Some? {
      calm := m.Gap();
      FollowsTrans(s0, s1, m.sys, {}, {});
      tries := [Missed(signal, w.pid, m.sys.now)];
      var done := m.Kill(signal, w.pid, leads.value);
      if done {
        var p := m.sys.procs[w.pid];
        tries := [Signalled(signal, w.pid, m.sys.now, p.ticks, p.ours, leads.value, p.leader)];
        notes := [Note(signal, leads.value, w.pid)];
      }
    }
  }

  /** The masked section of an attempt: poll, and signal a child that is still there. */
  method PollThenSignal(w: NativeChildWait, m: Machine, signal: Signal)
    returns (stage: Stage, notes: seq<Note>, ghost tries: seq<Event>, ghost seen: seq<Event>)
    requires Coherent(m.sys) && m.masked
    modifies w`wait, w`ownershipLost, m`sys, m`masked, m`log
    ensures m.masked
    ensures Follows(old(m.sys), m.sys, {w.pid}, {})
    ensures m.log == old(m.log) + tries + seen
    ensures w.Observed(old(w.wait), old(w.ownershipLost), seen)
    ensures AimedAtBound(tries, w.pid, w.identity) && OneTry(tries, signal, old(m.sys.now), m.sys.now)
    ensures w.Settled() ==> tries == []
    ensures notes == NotesOf(tries)
    ensures stage == Finish ==> w.Settled()
    ensures stage == GoOn ==> !w.Settled() && Tried(tries)
    ensures stage == Raise && !Exposed(m.masked, m.handlers) ==> !w.Settled() && GaveUp(tries)
    ensures !old(w.Settled()) && !Exposed(m.masked, m.handlers) ==> w.Collected(old(m.sys), m.sys.stolen)
    ensures old(w.Pinned(m.sys)) ==> w.Pinned(m.sys) && w.Genuine(m.sys, seen)
  {
    hide Follows, Coherent, AimedAtBound;
    NothingSent(w.pid, w.identity);
    notes, tries := [], [];
    ghost var s0 := m.sys;
    var polled;
    polled, seen := w.Poll(m);
    ghost var s1 := m.sys;
    FollowsMonotone(s0, s1, {w.pid}, {});
    stage := Finish;
    if !w.Settled() {
      stage, notes, tries := SignalBound(w, m, signal);
      FollowsWiden(s1, m.sys, {}, {}, {w.pid}, {});
      FollowsTrans(s0, s1, m.sys, {w.pid}, {});
      FollowsMonotone(s1, m.sys, {w.pid}, {});
      PinnedPersists(w, s1, m.sys, {}, {});
    }
  }

  /** One attempt under `block_termination`; leaving it may raise. */
  method TrySignal(w: NativeChildWait, m: Machine, signal: Signal)
    returns (stage: Stage, notes: seq<Note>, ghost tries: seq<Event>, ghost seen: seq<Event>)
    requires Coherent(m.sys)
    modifies w`wait, w`ownershipLost, m`sys, m`masked, m`log
    ensures m.masked == old(m.masked)
    ensures Follows(old(m.sys), m.sys, {w.pid}, {})
    ensures m.log == old(m.log) + tries + seen
    ensures w.Observed(old(w.wait), old(w.ownershipLost), seen)
    ensures AimedAtBound(tries, w.pid, w.identity) && OneTry(tries, signal, old(m.sys.now), m.sys.now)
    ensures w.Settled() ==> tries == []
    ensures notes == NotesOf(tries)
    ensures stage == Finish ==> w.Settled()
    ensures stage == GoOn ==> !w.Settled() && Tried(tries)
    ensures stage == Raise && !Exposed(m.masked, m.handlers) ==> !w.Settled() && GaveUp(tries)
    ensures !old(w.Settled()) && !Exposed(m.masked, m.handlers) ==> w.Collected(old(m.sys), m.sys.stolen)
    ensures old(w.Pinned(m.sys)) ==> w.Pinned(m.sys) && w.Genuine(m.sys, seen)
  {
    hide Follows, Coherent, AimedAtBound;
    NothingSent(w.pid, w.identity);
    notes, tries, seen := [], [], [];
    stage := Raise;
    ghost var s0 := m.sys;
    var raised := m.Gap();
    ghost var s1 := m.sys;
    FollowsMonotone(s0, s1, {}, {});
    PinnedPersists(w, s0, s1, {}, {});
    FollowsWiden(s0, s1, {}, {}, {w.pid}, {});
    if raised {
      return;
    }
    var previous := m.Block();
    stage, notes, tries, seen := PollThenSignal(w, m, signal);
    ghost var s2 := m.sys;
    FollowsMonotone(s1, s2, {w.pid}, {});
    raised := m.Restore(previous);
    FollowsMonotone(s2, m.sys, {}, {});
    PinnedPersists(w, s2, m.sys, {}, {});
    ExitStays(w, s0, s1);
    FollowsAround(s0, s1, s2, m.sys, {w.pid}, {});
    if raised {
      stage := Raise;
    }
  }

  /** Poll until the child is reaped or the deadline passes. */
  method AwaitReap(w: NativeChildWait, m: Machine, milliseconds: nat)
    returns (stage: Stage, ghost seen: seq<Event>)
    requires Coherent(m.sys) && !w.Settled()
    modifies w`wait, w`ownershipLost, m`sys, m`masked, m`log
    ensures m.masked == old(m.masked)
    ensures Follows(old(m.sys), m.sys, {w.pid}, {})
    ensures m.log == old(m.log) + seen
    ensures w.Observed(None, false, seen)
    ensures stage == Finish ==> w.Settled()
    ensures stage == GoOn ==> !w.Settled() && m.sys.now >= old(m.sys.now) + milliseconds
    ensures stage == Raise ==> Exposed(m.masked, m.handlers)
    ensures milliseconds > 0 && !Exposed(m.masked, m.handlers) ==> w.Collected(old(m.sys), m.sys.stolen)
    ensures old(w.Pinned(m.sys)) ==> w.Pinned(m.sys) && w.Genuine(m.sys, seen)
  {
    hide Follows, Coherent;
    seen := [];
    ghost var s0 := m.sys;
    FollowsRefl(s0, {w.pid}, {});
    var until := m.sys.now + milliseconds;
    while m.sys.now < until
      invariant m.masked == old(m.masked)
      invariant Coherent(m.sys) && Follows(s0, m.sys, {w.pid}, {})
      invariant m.log == old(m.log) && seen == [] && !w.Settled()
      invariant old(w.Pinned(m.sys)) ==> w.Pinned(m.sys)
      invariant m.sys == s0 || (!Exposed(m.masked, m.handlers) ==> w.Collected(s0, m.sys.stolen))
      decreases until - m.sys.now
    {
      ghost var s1 := m.sys;
      var polled;
      polled, seen := w.Poll(m);
      ghost var s2 := m.sys;
      FollowsTrans(s0, s1, s2, {w.pid}, {});
      FollowsMonotone(s1, s2, {w.pid}, {});
      if polled.Raised? {
        stage := if w.ownershipLost then Finish else Raise;
        return;
      }
      if polled.wait.Some? {
        stage := Finish;
        return;
      }
      var raised := m.Sleep(100);
      FollowsWiden(s2, m.sys, {}, {}, {w.pid}, {});
      FollowsTrans(s0, s2, m.sys, {w.pid}, {});
      FollowsMonotone(s2, m.sys, {}, {});
      PinnedPersists(w, s2, m.sys, {}, {});
      if raised {
        stage := Raise;
        return;
      }
    }
    stage := GoOn;
  }

  /** One turn of the loop over signals: the masked attempt, then ten seconds of polling. */
  method Attempt(w: NativeChildWait, m: Machine, signal: Signal)
    returns (stage: Stage, notes: seq<Note>, ghost tries: seq<Event>, ghost seen: seq<Event>)
    requires Coherent(m.sys)
    modifies w`wait, w`ownershipLost, m`sys, m`masked, m`log
    ensures m.masked == old(m.masked)
    ensures Follows(old(m.sys), m.sys, {w.pid}, {})
    ensures m.log == old(m.log) + tries + seen
    ensures w.Observed(old(w.wait), old(w.ownershipLost), seen)
    ensures AimedAtBound(tries, w.pid, w.identity) && OneTry(tries, signal, old(m.sys.now), m.sys.now)
    ensures old(w.Settled()) ==> tries == []
    ensures notes == NotesOf(tries)
    ensures stage == Finish ==> w.Settled()
    ensures stage == GoOn ==> !w.Settled() && Tried(tries) && m.sys.now >= tries[0].at + 10_000
    ensures stage == Raise && !Exposed(m.masked, m.handlers) ==> !w.Settled() && GaveUp(tries)
    ensures !old(w.Settled()) && !Exposed(m.masked, m.handlers) && w.Exited(old(m.sys))
            && old(m.sys.procs)[w.pid].ticks !in m.sys.stolen ==>
              tries == [] && w.Collected(old(m.sys), m.sys.stolen)
    ensures old(w.Pinned(m.sys)) ==> w.Pinned(m.sys) && w.Genuine(m.sys, seen)
  {
    hide Follows, Coherent, AimedAtBound;
    ghost var s0 := m.sys;
    stage, notes, tries, seen := TrySignal(w, m, signal);
    ghost var s1 := m.sys;
    FollowsMonotone(s0, s1, {w.pid}, {});
    if stage == GoOn {
      stage, seen := AwaitReap(w, m, 10_000);
      FollowsTrans(s0, s1, m.sys, {w.pid}, {});
      FollowsMonotone(s1, m.sys, {w.pid}, {});
    }
  }

  /** What `stop_child` reports: the waiter's record, its identity and the signals sent. */
  datatype Stopped =
    | Receipt(wait: Option<Wait>, lost: bool, identity: Option<Identity>, signals: seq<Note>)
    | StopRaised

  /** `stop_child`. */
  method StopChild(w: NativeChildWait, m: Machine)
    returns (out: Stopped, ghost tries: seq<Event>, ghost seen: seq<Event>)
    requires Coherent(m.sys)
    modifies w`wait, w`ownershipLost, m`sys, m`masked, m`log
    ensures m.masked == old(m.masked)
    ensures Follows(old(m.sys), m.sys, {w.pid}, {})
    ensures m.log == old(m.log) + tries + seen
    ensures w.Observed(old(w.wait), old(w.ownershipLost), seen)
    ensures AimedAtBound(tries, w.pid, w.identity) && InOrder(tries, old(m.sys.now))
    ensures old(w.Settled()) ==> tries == []
    ensures out.Receipt? ==>
              && out.wait == w.wait && out.lost == w.ownershipLost && out.identity == w.identity
              && out.signals == NotesOf(tries) && w.Settled()
    ensures out.StopRaised? && !Exposed(m.masked, m.handlers) ==>
              !w.Settled() && (GaveUp(tries) || (|tries| == 2 && m.sys.now >= old(m.sys.now) + 20_000))
    ensures !old(w.Settled()) && !Exposed(m.masked, m.handlers) && w.Exited(old(m.sys))
            && old(m.sys.procs)[w.pid].ticks !in m.sys.stolen ==>
              out.Receipt? && tries == [] && w.Collected(old(m.sys), m.sys.stolen)
    ensures old(w.Pinned(m.sys)) ==> w.Pinned(m.sys) && w.Genuine(m.sys, seen)
  {
    hide Follows, Coherent, AimedAtBound, NotesOf, InOrder;
    NothingSent(w.pid, w.identity);
    tries, seen := [], [];
    ghost var s0 := m.sys;
    if w.ownershipLost {
      FollowsRefl(s0, {w.pid}, {});
      out := Receipt(w.wait, true, w.identity, []);
      return;
    }
    var stage, notes;
    stage, notes, tries, seen := Attempt(w, m, SigTerm);
    ghost var s1, first := m.sys, tries;
    FollowsMonotone(s0, s1, {w.pid}, {});
    FirstInOrder(tries, s0.now, s1.now);
    if stage == GoOn {
      var more;
      ghost var second;
      stage, more, second, seen := Attempt(w, m, SigKill);
      FollowsTrans(s0, s1, m.sys, {w.pid}, {});
      FollowsMonotone(s1, m.sys, {w.pid}, {});
      TriesJoin(first, second, s0.now, s1.now, m.sys.now, w.pid, w.identity);
      tries := first + second;
      notes := notes + more;
    }
    out := if stage == Finish then Receipt(w.wait, w.ownershipLost, w.identity, notes) else StopRaised;
  }

  lemma NothingSent(pid: Pid, identity: Option<Identity>)
    ensures AimedAtBound([], pid, identity) && NotesOf([]) == []
    ensures forall since :: InOrder([], since)
  {
  }

  lemma FirstInOrder(tries: seq<Event>, since: nat, until: nat)
    requires OneTry(tries, SigTerm, since, until)
    ensures InOrder(tries, since)
  {
  }

  lemma TriesJoin(first: seq<Event>, second: seq<Event>, start: nat, middle: nat, end: nat,
                  pid: Pid, identity: Option<Identity>)
    requires AimedAtBound(first, pid, identity) && AimedAtBound(second, pid, identity)
    requires OneTry(first, SigTerm, start, middle) && Tried(first) && middle >= first[0].at + 10_000
    requires OneTry(second, SigKill, middle, end)
    ensures AimedAtBound(first + second, pid, identity) && InOrder(first + second, start)
    ensures NotesOf(first + second) == NotesOf(first) + NotesOf(second)
    ensures GaveUp(second) ==> GaveUp(first + second)
  {
    var both := first + second;
    if |second| == 1 {
      assert both[..1] == first && second[..0] == [];
      assert both[1] == second[0];
    } else {
      assert both == first;
    }
  }

  // ----- What theft does to a waiter -----

  /** A child exits, its status is taken by someone else, and its PID goes to another child that exits. */
  lemma StolenAndReused(s: Sys, pid: Pid, first: int, second: int)
    requires Coherent(s) && pid in s.procs && s.procs[pid].ours && s.procs[pid].exited.None?
    ensures var t := RunEnv(s, false, [Exit(pid, first), Steal(pid), Start(pid, true), Exit(pid, second)]);
            && Coherent(t) && s.procs[pid].ticks in t.stolen && s.procs[pid].ticks != s.ticks
            && pid in t.procs && t.procs[pid] == Proc(s.ticks, true, Some(second), false)
  {
    var steps := [Exit(pid, first), Steal(pid), Start(pid, true), Exit(pid, second)];
    RunEnvFollows(s, false, steps);
    Stolen(s, pid, first);
    RunEnvConcat(s, false, [Exit(pid, first), Steal(pid)], [Start(pid, true), Exit(pid, second)]);
    assert steps == [Exit(pid, first), Steal(pid)] + [Start(pid, true), Exit(pid, second)];
    RunTwo(RunEnv(s, false, [Exit(pid, first), Steal(pid)]), Start(pid, true), Exit(pid, second));
  }

  lemma Stolen(s: Sys, pid: Pid, status: int)
    requires Coherent(s) && pid in s.procs && s.procs[pid].ours && s.procs[pid].exited.None?
    ensures RunEnv(s, false, [Exit(pid, status), Steal(pid)])
         == s.(procs := s.procs - {pid}, stolen := s.stolen + {s.procs[pid].ticks})
  {
    RunTwo(s, Exit(pid, status), Steal(pid));
    assert s.procs[pid := s.procs[pid].(exited := Some(status))] - {pid} == s.procs - {pid};
  }

  lemma RunTwo(s: Sys, first: EnvStep, second: EnvStep)
    ensures RunEnv(s, false, [first, second]) == Apply(Apply(s, false, first), false, second)
  {
    var t := Apply(s, false, first);
    assert [first, second][1..] == [second];
    assert RunEnv(t, false, [second]) == RunEnv(Apply(t, false, second), false, [second][1..]);
  }

  lemma {:induction false} RunEnvConcat(s: Sys, masked: bool, a: seq<EnvStep>, b: seq<EnvStep>)
    ensures RunEnv(s, masked, a + b) == RunEnv(RunEnv(s, masked, a), masked, b)
    decreases |a|
  {
    if a == [] {
      assert a + b == b;
    } else {
      assert (a + b)[1..] == a[1..] + b;
      RunEnvConcat(Apply(s, masked, a[0]), masked, a[1..], b);
    }
  }

  /**
   Why the status claim needs a single wait owner: from any state in which the child still
   runs, theft and reuse of the PID make the waiter record another child's status as its own.
   */
  method MisleadingStatus(w: NativeChildWait, m: Machine, first: int, second: int)
    requires Coherent(m.sys) && !w.Settled() && w.Pinned(m.sys) && w.born !in m.sys.stolen
    requires m.sys.procs[w.pid].exited.None?
    modifies w`wait, w`ownershipLost, m`sys, m`masked, m`log
    ensures w.wait == Some(Wait(w.pid, second))
    ensures w.born in m.sys.stolen
    ensures |m.log| > 0 && m.log[|m.log| - 1].Reaped? && m.log[|m.log| - 1].ticks != w.born
  {
    ghost var s0 := m.sys;
    StolenAndReused(m.sys, w.pid, first, second);
    m.sys := RunEnv(m.sys, false, [Exit(w.pid, first), Steal(w.pid), Start(w.pid, true), Exit(w.pid, second)]);
    var previous := m.Block();
    ghost var s1 := m.sys;
    ghost var seen := w.Collect(m);
    FollowsMonotone(s1, m.sys, {w.pid}, {});
  }

  // ----- Every run of a waiter -----

  datatype Call = DoPoll | DoStop

  /** Signals hit the bound child only, and none comes after the child was reaped or lost. */
  ghost predicate Disciplined(log: seq<Event>, pid: Pid, identity: Option<Identity>) {
    forall j | 0 <= j < |log| && log[j].Signalled? ::
      && AimedAtBound([log[j]], pid, identity)
      && forall i | 0 <= i < j :: IsTry(log[i])
  }

  method OneCall(w: NativeChildWait, m: Machine, call: Call) returns (ghost tries: seq<Event>, ghost seen: seq<Event>)
    requires Coherent(m.sys)
    modifies w`wait, w`ownershipLost, m`sys, m`masked, m`log
    ensures Coherent(m.sys) && old(m.sys.stolen) <= m.sys.stolen && m.log == old(m.log) + tries + seen
    ensures w.Observed(old(w.wait), old(w.ownershipLost), seen)
    ensures AimedAtBound(tries, w.pid, w.identity) && (old(w.Settled()) ==> tries == [])
    ensures old(w.Pinned(m.sys)) ==> w.Pinned(m.sys) && w.Genuine(m.sys, seen)
  {
    var raised := m.Gap();
    tries := [];
    if call == DoPoll {
      var polled;
      polled, seen := w.Poll(m);
    } else {
      var out;
      out, tries, seen := StopChild(w, m);
    }
  }

  /**
   Whatever a client calls, in any order and against any environment: every signal hits
   the bound, unreaped child, none follows a reap or a loss, the record of an outcome is
   final, and unless the child's own status was stolen it is the status of the forked child.
   */
  method AnyRun(w: NativeChildWait, m: Machine, calls: seq<Call>) returns (ghost seen: seq<Event>)
    requires Coherent(m.sys) && !w.Settled()
    modifies w`wait, w`ownershipLost, m`sys, m`masked, m`log
    ensures old(m.log) <= m.log && Disciplined(m.log[|old(m.log)|..], w.pid, w.identity)
    ensures w.Observed(None, false, seen)
    ensures old(w.Pinned(m.sys)) ==> w.Pinned(m.sys) && w.Genuine(m.sys, seen)
    ensures forall e | e in m.log[|old(m.log)|..] && !IsTry(e) :: e in seen
  {
    seen := [];
    ghost var start := |m.log|;
    for i := 0 to |calls|
      invariant Coherent(m.sys)
      invariant old(m.log) <= m.log && |old(m.log)| == start
      invariant Disciplined(m.log[start..], w.pid, w.identity)
      invariant w.Observed(None, false, seen)
      invariant old(w.Pinned(m.sys)) ==> w.Pinned(m.sys) && w.Genuine(m.sys, seen)
      invariant forall e | e in m.log[start..] && !IsTry(e) :: e in seen
    {
      ghost var before, settled := m.log, w.Settled();
      ghost var tries, more := OneCall(w, m, calls[i]);
      DisciplineExtends(before[start..], tries, more, w.pid, w.identity, settled);
      assert m.log[start..] == before[start..] + tries + more;
      if !settled {
        seen := more;
      }
    }
  }

  lemma DisciplineExtends(log: seq<Event>, tries: seq<Event>, seen: seq<Event>,
                          pid: Pid, identity: Option<Identity>, settled: bool)
    requires Disciplined(log, pid, identity) && AimedAtBound(tries, pid, identity)
    requires forall e | e in seen :: !IsTry(e)
    requires if settled then tries == [] && seen == [] else forall e | e in log :: IsTry(e)
    ensures Disciplined(log + tries + seen, pid, identity)
  {
    var all := log + tries + seen;
    assert forall j | |log| + |tries| <= j < |all| :: all[j] == seen[j - |log| - |tries|] && all[j] in seen;
    forall j | 0 <= j < |all| && all[j].Signalled?
      ensures AimedAtBound([all[j]], pid, identity)
      ensures forall i | 0 <= i < j :: IsTry(all[i])
    {
      if j < |log| {
        assert all[j] == log[j];
        assert forall i | 0 <= i < j :: all[i] == log[i];
      } else if j < |log| + |tries| {
        assert all[j] == tries[j - |log|] && all[j] in tries;
        assert forall i | 0 <= i < |log| :: all[i] == log[i] && log[i] in log;
        assert forall i | |log| <= i < j :: all[i] == tries[i - |log|] && all[i] in tries;
      }
    }
  }
}
