/**
 What the end of a lock call means: a caller gets a result only if its operation ran to that result while it held the
 lock, gets that result unless releasing the lock fails, and otherwise gets an error for one of a few reasons.
 */
module FileLockOutcomes {
  import opened FileLock

  function PhaseIn(s: State, f: Token): Phase
    requires f in s.frames
  {
    s.frames[f].phase
  }

  /** Only its own step changes a frame's phase; a frame stays what and whose it is. */
  lemma OwnStepsOnly(s: State, a: Action, f: Token)
    requires Enabled(s, a) && f in s.frames
    ensures f in Next(s, a).frames
    ensures var before, after := s.frames[f], Next(s, a).frames[f];
            && after == before.(phase := after.phase)
            && (after.phase != before.phase ==> a.Step? && a.f == f)
  {
  }

  /** A frame begins by trying, either on its own or to guard a recovery. */
  lemma BeginsTrying(s: State, a: Action, f: Token)
    requires Enabled(s, a) && f !in s.frames && f in Next(s, a).frames
    ensures PhaseIn(Next(s, a), f).Trying? && (a.Begin? || (a.Step? && a.op == TakeGuard(f)))
  {
  }

  // ----- by outcome: when a step leads where -----

  /** A creation meets an existing file exactly when there is one; every file operation, and every call of a guarded
      section, may fail; and nobody hears that an owner is gone while a process of his runs. */
  lemma WhatCallsMayDo(s: State, f: Token)
    requires Alive(s, f)
    ensures var phase, user := PhaseIn(s, f), s.frames[f].job.UserWork?;
            && (phase.Trying? ==> (CanStep(s, f, OpenBusy) <==> s.frames[f].path in s.files))
            && (CanStep(s, f, CallFails) <==>
                  !(phase.Created? || phase.Inspected? || phase.Judged? || phase.Guarding? || phase.Backoff?
                    || phase.Done? || (user && phase.Holding? && !phase.stage.Finished?)))
    ensures forall stale, owner ::
              CanStep(s, f, Recheck(stale, true)) && PhaseIn(s, f).stage.content == Record(owner) ==>
                Recoverable(s, s.frames[f].process, owner)
  {
  }

  /** A caller tries again at once exactly after a pause, when the lock file turns out to be missing, or when the
      guarded section removed it or found it missing. */
  lemma TriesAgainExactly(s: State, f: Token, op: Op)
    requires Alive(s, f) && CanStep(s, f, op)
    ensures PhaseIn(Next(s, Step(f, op)), f).Trying? <==>
              || op.Retry?
              || ((op.StatLock? || op.ReadLock?) && s.frames[f].path !in s.files)
              || (op.GuardReturned?
                  && s.frames[PhaseIn(s, f).child].phase in {Done(Returned(true)), Done(Missing)})
  {
  }

  /** It pauses exactly when recovery is switched off, the lock file is young, its record cannot be read, its owner is
      not gone, or the guarded section found that it is another file by now. */
  lemma PausesExactly(s: State, f: Token, op: Op)
    requires Alive(s, f) && CanStep(s, f, op)
    ensures PhaseIn(Next(s, Step(f, op)), f).Backoff? <==>
              || op.SkipRecovery?
              || (op == StatLock(false) && s.frames[f].path in s.files)
              || (op.ReadLock? && s.frames[f].path in s.files && !s.files[s.frames[f].path].content.Record?)
              || op == ProbeOwner(false)
              || (op.GuardReturned? && s.frames[PhaseIn(s, f).child].phase == Done(Returned(false)))
  {
  }

  /** The reasons for an error: the deadline, a failed creation, recoveries nested sixteen deep, an error of the guarded
      section, any other failing call outside the operation, and an operation that threw itself. */
  predicate Refuses(s: State, f: Token, op: Op)
    requires f in s.frames && CanStep(s, f, op)
  {
    var phase := s.frames[f].phase;
    || op.GiveUp? || op.RemoveFailed?
    || (op.TakeGuard? && s.frames[f].depth >= 16)
    || (op.GuardReturned? && s.frames[phase.child].phase == Done(Threw))
    || (op.CallFails? && !phase.Holding?)
    || (op.CallFails? && phase == Holding(Finished(Threw)))
    || (op.ReadOwn? && phase == Holding(Finished(Threw)) && !OwnRecord(s, f))
    || (op.UnlinkOwn? && phase == Releasing(Threw))
  }

  predicate OwnRecord(s: State, f: Token)
    requires f in s.frames
  {
    var p := s.frames[f].path;
    p in s.files && s.files[p].content.Record? && s.files[p].content.owner.token == f
  }

  lemma ThrowsExactly(s: State, f: Token, op: Op)
    requires Alive(s, f) && CanStep(s, f, op)
    ensures PhaseIn(Next(s, Step(f, op)), f) == Done(Threw) <==> Refuses(s, f, op)
  {
  }

  /** A frame takes the lock exactly by completing its record in a file that it created itself. */
  lemma AcquiresExactly(s: State, f: Token, op: Op)
    requires Alive(s, f) && CanStep(s, f, op)
    ensures PhaseIn(Next(s, Step(f, op)), f) == Holding(Running) <==> op.WriteRest?
    ensures PhaseIn(Next(s, Step(f, op)), f).Created? <==> op.OpenNew? || op.WriteSome?
    ensures PhaseIn(Next(s, Step(f, op)), f).Contended? <==> op.OpenBusy?
    ensures PhaseIn(Next(s, Step(f, op)), f).Cleaning? <==> op.WriteError?
  {
  }

  /** The guarded section confirms a removal exactly if the file is the measured one with the same record, still stale,
      and its owner still gone; it answers no exactly if one of these fails, and reports a missing file exactly if it
      meets none. */
  lemma RecheckExactly(s: State, f: Token, op: Op)
    requires Alive(s, f) && CanStep(s, f, op) && s.frames[f].job.Recovery?
    requires op.StatAgain? || op.ReadAgain? || op.Recheck? || op.UnlinkStale?
    ensures var job, after := s.frames[f].job, PhaseIn(Next(s, Step(f, op)), f);
            && (op.Recheck? ==>
                  var stage := PhaseIn(s, f).stage;
                  after == Holding(if op.stale && op.gone && stage.inode == job.inode
                                   && stage.content == Record(job.owner)
                                   then Confirmed else Finished(Returned(false))))
            && (!op.Recheck? ==> (after == Holding(Finished(Missing)) <==> job.target !in s.files))
            && (op.UnlinkStale? && job.target in s.files ==> after == Holding(Finished(Returned(true))))
  {
  }

  // ----- a result is the result of the operation -----

  /** The results that a frame has promised to return. */
  predicate Reports(phase: Phase, result: Outcome) {
    phase == Releasing(result) || (phase == Done(result) && result != Threw)
  }

  /** Over every run: a frame that ends with a result, or is about to, ran its operation to that result before, alive
      and hence, by mutual exclusion, as the only holder. */
  lemma {:induction false} EndsAsItRan(states: seq<State>, actions: seq<Action>, i: nat, f: Token, result: Outcome)
    returns (j: nat)
    requires IsRun(states, actions) && i < |states| && f in states[i].frames
    requires Reports(PhaseIn(states[i], f), result)
    ensures j < i && Alive(states[j], f) && PhaseIn(states[j], f) == Holding(Finished(result))
  {
    assert i > 0;
    assert Leads(states, actions, i - 1);
    var s, a := states[i - 1], actions[i - 1];
    if f !in s.frames {
      BeginsTrying(s, a, f);
    } else {
      OwnStepsOnly(s, a, f);
      if Reports(PhaseIn(s, f), result) {
        j := EndsAsItRan(states, actions, i - 1, f, result);
      } else {
        j := i - 1;
      }
    }
  }

  /** A release that fails, which is the one way to lose the result of an operation. */
  predicate LosesResult(s: State, a: Action, f: Token) {
    f in s.frames && s.frames[f].phase.Releasing? && a == Step(f, CallFails)
  }

  /** Over every run: once its operation has finished, a frame ends with that result or is still about to, unless the
      unlink of its release fails; then it ends with an error. */
  lemma {:induction false} FinishedIsReported(states: seq<State>, actions: seq<Action>, i: nat, j: nat, f: Token,
                                              result: Outcome)
    requires IsRun(states, actions) && i <= j < |states| && f in states[i].frames
    requires PhaseIn(states[i], f) == Holding(Finished(result))
    ensures f in states[j].frames
    ensures var phase := PhaseIn(states[j], f);
            || phase == Holding(Finished(result)) || phase == Releasing(result) || phase == Done(result)
            || (phase == Done(Threw) && exists m | i <= m < j :: LosesResult(states[m], actions[m], f))
    decreases j
  {
    if i < j {
      FinishedIsReported(states, actions, i, j - 1, f, result);
      assert Leads(states, actions, j - 1);
      OwnStepsOnly(states[j - 1], actions[j - 1], f);
    }
  }

  /** Over every run: a frame that ended with an error met one of the reasons. */
  lemma {:induction false} WhyThrew(states: seq<State>, actions: seq<Action>, i: nat, f: Token) returns (m: nat)
    requires IsRun(states, actions) && i < |states| && f in states[i].frames && PhaseIn(states[i], f) == Done(Threw)
    ensures m < i && actions[m].Step? && actions[m].f == f
    ensures f in states[m].frames && CanStep(states[m], f, actions[m].op) && Refuses(states[m], f, actions[m].op)
  {
    assert i > 0;
    assert Leads(states, actions, i - 1);
    var s, a := states[i - 1], actions[i - 1];
    if f !in s.frames {
      BeginsTrying(s, a, f);
    } else {
      OwnStepsOnly(s, a, f);
      if PhaseIn(s, f) == Done(Threw) {
        m := WhyThrew(states, actions, i - 1, f);
      } else {
        m := i - 1;
        ThrowsExactly(s, f, a.op);
      }
    }
  }

  /** The end is final. */
  lemma {:induction false} DoneIsFinal(states: seq<State>, actions: seq<Action>, i: nat, j: nat, f: Token)
    requires IsRun(states, actions) && i <= j < |states| && f in states[i].frames && PhaseIn(states[i], f).Done?
    ensures f in states[j].frames && states[j].frames[f] == states[i].frames[f]
    decreases j
  {
    if i < j {
      DoneIsFinal(states, actions, i, j - 1, f);
      assert Leads(states, actions, j - 1);
      OwnStepsOnly(states[j - 1], actions[j - 1], f);
    }
  }

  // ----- a caller tries again at once only where the lock was gone -----

  /** The child of a frame that waits for a guarded section recovers that frame's lock. */
  predicate Guards(s: State, f: Token, g: Token) {
    && f in s.frames && s.frames[f].phase == Guarding(g)
    && g in s.frames && s.frames[g].job.Recovery? && s.frames[g].job.target == s.frames[f].path
  }

  lemma {:induction false} GuardingGuards(states: seq<State>, actions: seq<Action>, i: nat, f: Token)
    requires IsRun(states, actions) && i < |states| && f in states[i].frames && PhaseIn(states[i], f).Guarding?
    ensures Guards(states[i], f, PhaseIn(states[i], f).child)
  {
    assert i > 0;
    assert Leads(states, actions, i - 1);
    var s, a := states[i - 1], actions[i - 1];
    if f !in s.frames {
      BeginsTrying(s, a, f);
    } else {
      OwnStepsOnly(s, a, f);
      if PhaseIn(s, f) == PhaseIn(states[i], f) {
        GuardingGuards(states, actions, i - 1, f);
        OwnStepsOnly(s, a, PhaseIn(s, f).child);
      }
    }
  }

  /** It has been waiting for as long as that child has been there. */
  lemma {:induction false} GuardingSince(states: seq<State>, actions: seq<Action>, m: nat, i: nat, f: Token, g: Token)
    requires IsRun(states, actions) && m <= i < |states| && g in states[m].frames
    requires f in states[i].frames && PhaseIn(states[i], f) == Guarding(g)
    ensures f in states[m].frames && PhaseIn(states[m], f) == Guarding(g)
    decreases i
  {
    if m < i {
      assert Leads(states, actions, i - 1);
      var s, a := states[i - 1], actions[i - 1];
      StaysThere(states, actions, m, i - 1, g);
      if f !in s.frames { BeginsTrying(s, a, f); } else { OwnStepsOnly(s, a, f); }
      GuardingSince(states, actions, m, i - 1, f, g);
    }
  }

  lemma {:induction false} StaysThere(states: seq<State>, actions: seq<Action>, m: nat, i: nat, g: Token)
    requires IsRun(states, actions) && m <= i < |states| && g in states[m].frames
    ensures g in states[i].frames && states[i].frames[g].job == states[m].frames[g].job
    decreases i
  {
    if m < i {
      StaysThere(states, actions, m, i - 1, g);
      assert Leads(states, actions, i - 1);
      OwnStepsOnly(states[i - 1], actions[i - 1], g);
    }
  }

  /** A guarded section that removed its target, or found it missing, saw it gone. */
  lemma {:induction false} SectionSawItGone(states: seq<State>, actions: seq<Action>, i: nat, g: Token, result: Outcome)
    returns (m: nat)
    requires IsRun(states, actions) && i < |states| && g in states[i].frames && states[i].frames[g].job.Recovery?
    requires PhaseIn(states[i], g) == Holding(Finished(result)) && (result == Returned(true) || result == Missing)
    ensures m <= i && g in states[m].frames && states[i].frames[g].job.target !in states[m].files
  {
    assert i > 0;
    assert Leads(states, actions, i - 1);
    var s, a := states[i - 1], actions[i - 1];
    if g !in s.frames {
      BeginsTrying(s, a, g);
    } else {
      OwnStepsOnly(s, a, g);
      if PhaseIn(s, g) == Holding(Finished(result)) {
        m := SectionSawItGone(states, actions, i - 1, g, result);
      } else if a.op.UnlinkStale? {
        m := i;
      } else {
        m := i - 1;
      }
    }
  }

  predicate InRecovery(phase: Phase) {
    phase.Contended? || phase.Measured? || phase.Guarding?
  }

  /** Over every run: a caller that goes back to creating the file without a pause was contending for it at an instant
      when it was gone. */
  lemma RetriesWhenGone(states: seq<State>, actions: seq<Action>, i: nat, f: Token) returns (m: nat)
    requires IsRun(states, actions) && i < |actions| && actions[i].Step? && actions[i].f == f && !actions[i].op.Retry?
    requires f in states[i + 1].frames && PhaseIn(states[i + 1], f).Trying?
    ensures m <= i && f in states[m].frames && InRecovery(PhaseIn(states[m], f))
    ensures states[m].frames[f].path !in states[m].files
    ensures states[m].frames[f].path == states[i + 1].frames[f].path
  {
    assert Leads(states, actions, i);
    OwnStepsOnly(states[i], actions[i], f);
    TriesAgainExactly(states[i], f, actions[i].op);
    if actions[i].op.GuardReturned? {
      var g := PhaseIn(states[i], f).child;
      GuardingGuards(states, actions, i, f);
      var j := EndsAsItRan(states, actions, i, g, PhaseIn(states[i], g).result);
      StaysThere(states, actions, j, i, g);
      m := SectionSawItGone(states, actions, j, g, PhaseIn(states[i], g).result);
      GuardingSince(states, actions, m, i, f, g);
      GuardingGuards(states, actions, m, f);
      StaysThere(states, actions, m, i, g);
    } else {
      m := i;
    }
  }

  // ----- a removal was found stale twice -----

  /** What a frame has measured and probed by the time it is this far. */
  predicate FoundStale(phase: Phase) {
    phase.Measured? || phase.Inspected? || phase.Judged? || phase.Guarding?
  }

  lemma {:induction false} MeasuredStale(states: seq<State>, actions: seq<Action>, i: nat, f: Token) returns (m: nat)
    requires IsRun(states, actions) && i < |states| && f in states[i].frames && FoundStale(PhaseIn(states[i], f))
    ensures m < i && actions[m] == Step(f, StatLock(true))
  {
    assert i > 0;
    assert Leads(states, actions, i - 1);
    var s, a := states[i - 1], actions[i - 1];
    if f !in s.frames {
      BeginsTrying(s, a, f);
    } else {
      OwnStepsOnly(s, a, f);
      if FoundStale(PhaseIn(s, f)) { m := MeasuredStale(states, actions, i - 1, f); } else { m := i - 1; }
    }
  }

  lemma {:induction false} ProbedGone(states: seq<State>, actions: seq<Action>, i: nat, f: Token) returns (m: nat)
    requires IsRun(states, actions) && i < |states| && f in states[i].frames
    requires PhaseIn(states[i], f).Judged? || PhaseIn(states[i], f).Guarding?
    ensures m < i && actions[m] == Step(f, ProbeOwner(true))
  {
    assert i > 0;
    assert Leads(states, actions, i - 1);
    var s, a := states[i - 1], actions[i - 1];
    if f !in s.frames {
      BeginsTrying(s, a, f);
    } else {
      OwnStepsOnly(s, a, f);
      if PhaseIn(s, f).Judged? || PhaseIn(s, f).Guarding? {
        m := ProbedGone(states, actions, i - 1, f);
      } else {
        m := i - 1;
      }
    }
  }

  lemma {:induction false} RecheckedStale(states: seq<State>, actions: seq<Action>, i: nat, g: Token) returns (m: nat)
    requires IsRun(states, actions) && i < |states| && g in states[i].frames
    requires PhaseIn(states[i], g) == Holding(Confirmed)
    ensures m < i && actions[m] == Step(g, Recheck(true, true))
  {
    assert i > 0;
    assert Leads(states, actions, i - 1);
    var s, a := states[i - 1], actions[i - 1];
    if g !in s.frames {
      BeginsTrying(s, a, g);
    } else {
      OwnStepsOnly(s, a, g);
      if PhaseIn(s, g) == Holding(Confirmed) {
        m := RecheckedStale(states, actions, i - 1, g);
      } else {
        m := i - 1;
      }
    }
  }

  lemma {:induction false} GuardWasTaken(states: seq<State>, actions: seq<Action>, i: nat, g: Token)
    returns (m: nat, f: Token)
    requires IsRun(states, actions) && i < |states| && g in states[i].frames && states[i].frames[g].job.Recovery?
    ensures m < i && actions[m] == Step(f, TakeGuard(g)) && f in states[m].frames && PhaseIn(states[m], f).Judged?
  {
    assert i > 0;
    assert Leads(states, actions, i - 1);
    var s, a := states[i - 1], actions[i - 1];
    if g !in s.frames {
      BeginsTrying(s, a, g);
      m, f := i - 1, a.f;
    } else {
      OwnStepsOnly(s, a, g);
      m, f := GuardWasTaken(states, actions, i - 1, g);
    }
  }

  /** Over every run: before a lock file is removed as stale, it was found stale and its owner gone twice, by the caller
      that took the guard and again under the guard. */
  lemma RemovedWasStaleTwice(states: seq<State>, actions: seq<Action>, i: nat, g: Token)
    returns (f: Token, stat: nat, probe: nat, recheck: nat)
    requires IsRun(states, actions) && i < |actions| && actions[i] == Step(g, UnlinkStale)
    ensures stat < i && actions[stat] == Step(f, StatLock(true))
    ensures probe < i && actions[probe] == Step(f, ProbeOwner(true))
    ensures recheck < i && actions[recheck] == Step(g, Recheck(true, true))
  {
    assert Leads(states, actions, i);
    recheck := RecheckedStale(states, actions, i, g);
    var m;
    m, f := GuardWasTaken(states, actions, i, g);
    stat := MeasuredStale(states, actions, m, f);
    probe := ProbedGone(states, actions, m, f);
  }

  // ----- whole calls -----

  /** The state after a call that took these files and this frame to that phase. */
  function Reached(s: State, files: map<LockPath, File>, f: Token, frame: Frame): State {
    s.(files := files, frames := s.frames[f := frame])
  }

  lemma Moves(o: State, s: State, files: map<LockPath, File>, f: Token, frame: Frame, op: Op,
              files': map<LockPath, File>,
              phase: Phase)
    requires var t := Reached(s, files, f, frame);
             && Reaches(o, t) && frame.process in s.live && CanStep(t, f, op)
             && Next(t, Step(f, op)).files == files'
             && Next(t, Step(f, op)).frames == t.frames[f := frame.(phase := phase)]
    ensures Reaches(o, Reached(s, files', f, frame.(phase := phase)))
  {
    OneMore(o, Reached(s, files, f, frame), Step(f, op));
    assert s.frames[f := frame][f := frame.(phase := phase)] == s.frames[f := frame.(phase := phase)];
  }

  lemma Started(o: State, s: State, f: Token, process: Process, path: LockPath)
    requires Reaches(o, s) && f !in s.frames && process in s.live
    ensures Reaches(o, Reached(s, s.files, f, Frame(process, path, UserWork, 0, Trying)))
  {
    OneMore(o, s, Begin(f, process, path));
  }

  /** A call that finds the lock free takes it, leaving nothing but its own record in the file. */
  lemma FreeLockIsTaken(o: State, s: State, f: Token, process: Process, path: LockPath, inode: nat)
    requires Reaches(o, s) && f !in s.frames && process in s.live && path !in s.files
    ensures var frame := Frame(process, path, UserWork, 0, Holding(Running));
            Reaches(o, Reached(s, s.files[path := File(inode, Record(Owner(f, process.host, process.pid)))], f, frame))
  {
    var frame := Frame(process, path, UserWork, 0, Trying);
    Started(o, s, f, process, path);
    var created := s.files[path := File(inode, Unwritten)];
    Moves(o, s, s.files, f, frame, OpenNew(inode), created, Created);
    var written := s.files[path := File(inode, Record(Owner(f, process.host, process.pid)))];
    Moves(o, s, created, f, frame.(phase := Created), WriteRest, written, Holding(Running));
  }

  /** From the empty start a process can come up and take a lock. */
  lemma FirstLock(f: Token, process: Process, path: LockPath, inode: nat)
    ensures Reaches(Start, State(map[path := File(inode, Record(Owner(f, process.host, process.pid)))],
                                 map[f := Frame(process, path, UserWork, 0, Holding(Running))], {process}, {}))
  {
    var up := Start.(live := {process});
    Here(Start);
    OneMore(Start, Start, Boot(process));
    assert Start.live + {process} == {process};
    FreeLockIsTaken(Start, up, f, process, path, inode);
  }

  lemma Onward(s: State, t: State, u: State)
    requires Reaches(s, t) && Reaches(t, u)
    ensures Reaches(s, u)
  {
    var states, actions :| IsPath(states, actions, s, t);
    var more, rest :| IsPath(more, rest, t, u);
    var all, acts := states + more[1..], actions + rest;
    forall i | 0 <= i < |acts| ensures Leads(all, acts, i) {
      if i < |actions| {
        assert Leads(states, actions, i);
      } else {
        assert Leads(more, rest, i - |actions|);
        assert all[i] == more[i - |actions|] && all[i + 1] == more[i - |actions| + 1];
      }
    }
    assert IsPath(all, acts, s, u);
  }

  lemma HolderDies(e: Token, f: Token, p: Process, q: Process, path: LockPath, inode: nat) returns (s: State)
    requires e != f && p.host == q.host && p.pid != q.pid && path.UserLock?
    ensures Reaches(Start, s) && s.live == {q} && s.frames.Keys == {e, f}
    ensures s.files == map[path := File(inode, Record(Owner(e, p.host, p.pid)))]
    ensures s.frames[f] == Frame(q, path, UserWork, 0, Contended)
  {
    FirstLock(e, p, path, inode);
    var s1 := State(map[path := File(inode, Record(Owner(e, p.host, p.pid)))],
                    map[e := Frame(p, path, UserWork, 0, Holding(Running))], {p}, {});
    OneMore(Start, s1, Exit(p));
    var s2 := s1.(live := {}, dead := {p});
    assert s1.live - {p} == {} && s1.dead + {p} == {p};
    OneMore(Start, s2, Boot(q));
    var s3 := s2.(live := {q});
    assert s2.live + {q} == {q};
    Started(Start, s3, f, q, path);
    Moves(Start, s3, s3.files, f, Frame(q, path, UserWork, 0, Trying), OpenBusy, s3.files, Contended);
    s := Reached(s3, s3.files, f, Frame(q, path, UserWork, 0, Contended));
  }

  /** From the empty start: a holder dies in the middle of its operation, and another process of its host takes over. */
  lemma DeadHolderIsReplaced(e: Token, f: Token, g: Token, p: Process, q: Process, path: LockPath, inode: nat,
                             newInode: nat)
    returns (t: State)
    requires e != f && g !in {e, f} && p.host == q.host && p.pid != q.pid && path.UserLock?
    ensures Reaches(Start, t) && t.live == {q}
    ensures t.files == map[path := File(newInode, Record(Owner(f, q.host, q.pid)))]
    ensures f in t.frames && t.frames[f] == Frame(q, path, UserWork, 0, Holding(Running))
  {
    var s := HolderDies(e, f, p, q, path, inode);
    var owner := Owner(e, p.host, p.pid);
    assert f in s.frames && FindsStaleLock(s, f, inode, owner);
    StaleLockCanBeTaken(s, f, g, inode, owner, newInode);
    t := With(s, s.files[path := File(newInode, Record(OwnerOf(f, s.frames[f])))], f,
              s.frames[f].(phase := Holding(Running)), g, GuardOf(s.frames[f], inode, owner, Done(Returned(true))));
    Onward(Start, s, t);
  }

  /** Whatever its operation returns or throws, the call then ends with exactly that and leaves no file behind. */
  lemma WholeCall(s: State, f: Token, process: Process, path: LockPath, inode: nat, result: Outcome)
    requires f !in s.frames && process in s.live && path !in s.files
    ensures Reaches(s, Reached(s, s.files, f, Frame(process, path, UserWork, 0, Done(result))))
  {
    var frame := Frame(process, path, UserWork, 0, Holding(Running));
    var held := s.files[path := File(inode, Record(Owner(f, process.host, process.pid)))];
    Here(s);
    FreeLockIsTaken(s, s, f, process, path, inode);
    Moves(s, s, held, f, frame, ReturnFromWork(result), held, Holding(Finished(result)));
    Moves(s, s, held, f, frame.(phase := Holding(Finished(result))), ReadOwn, held, Releasing(result));
    assert held - {path} == s.files;
    Moves(s, s, held, f, frame.(phase := Releasing(result)), UnlinkOwn, s.files, Done(result));
  }

  /** A call that cannot write its record removes the file it created and ends with an error. */
  lemma FailedCreationCleansUp(s: State, f: Token, process: Process, path: LockPath, inode: nat)
    requires f !in s.frames && process in s.live && path !in s.files
    ensures Reaches(s, Reached(s, s.files, f, Frame(process, path, UserWork, 0, Done(Threw))))
  {
    var frame := Frame(process, path, UserWork, 0, Trying);
    Here(s);
    Started(s, s, f, process, path);
    var created, torn := s.files[path := File(inode, Unwritten)], s.files[path := File(inode, Truncated)];
    Moves(s, s, s.files, f, frame, OpenNew(inode), created, Created);
    Moves(s, s, created, f, frame.(phase := Created), WriteSome, torn, Created);
    Moves(s, s, torn, f, frame.(phase := Created), WriteError, torn, Cleaning);
    assert torn - {path} == s.files;
    Moves(s, s, torn, f, frame.(phase := Cleaning), RemoveFailed, s.files, Done(Threw));
  }

  /** A call that finds the lock taken and young pauses, tries again, and at the deadline ends with an error; it changes
      no file. */
  lemma BusyLockTimesOut(s: State, f: Token, process: Process, path: LockPath)
    requires f !in s.frames && process in s.live && path in s.files
    ensures Reaches(s, Reached(s, s.files, f, Frame(process, path, UserWork, 0, Done(Threw))))
  {
    var frame := Frame(process, path, UserWork, 0, Trying);
    Here(s);
    Started(s, s, f, process, path);
    Moves(s, s, s.files, f, frame, OpenBusy, s.files, Contended);
    Moves(s, s, s.files, f, frame.(phase := Contended), StatLock(false), s.files, Backoff);
    Moves(s, s, s.files, f, frame.(phase := Backoff), Retry, s.files, Trying);
    Moves(s, s, s.files, f, frame, OpenBusy, s.files, Contended);
    Moves(s, s, s.files, f, frame.(phase := Contended), SkipRecovery, s.files, Backoff);
    Moves(s, s, s.files, f, frame.(phase := Backoff), GiveUp, s.files, Done(Threw));
  }
}
