/**
 The cross-process file lock with stale recovery, as a transition system.

 Every call of `withFileLockUntil` is a frame identified by its owner token.  A frame belongs to a
 process, and a process may exit between any two system calls; its frames then take no further step.
 Frames of different processes interleave freely, one system call at a time.  A recovery guard is a
 lock like any other: the guarded section of `recoverStaleLock` is the job of a child frame, so that
 every statement below holds for user locks, guards, guards of guards, and so on at once.

 Environment assumptions, each visible in `Enabled` or in a type:
   - owner tokens are unique: a new frame takes a token no frame has used;
   - death is permanent: a process that exited is never booted again;
   - a probe answers "no such process" only when no living process of that host has the pid
     (pids may be reused, and a probe may wrongly answer "alive");
   - the guard's name is injective in (path, bytes): it is a datatype constructor;
   - only these frames touch the files.  Inode numbers may be reused at will.
 */
module FileLock {

  type Token = nat

  datatype Process = Process(host: string, pid: nat, instance: nat)

  datatype Owner = Owner(token: Token, host: string, pid: nat)

  // Only a completely written record parses; an empty or truncated file names no owner.
  datatype Content = Unwritten | Truncated | Record(owner: Owner)

  datatype File = File(inode: nat, content: Content)

  datatype LockPath =
    | UserLock(name: string)
    | RecoveryGuard(target: LockPath, bytes: Owner)

  // How a frame's operation, or the whole frame, ends.  Missing is an ENOENT error.
  datatype Outcome = Returned(flag: bool) | Missing | Threw

  datatype Job =
    | UserWork
    | Recovery(target: LockPath, inode: nat, owner: Owner)

  datatype Stage =
    | Running
    | Restated(inode: nat)
    | Reread(inode: nat, content: Content)
    | Confirmed
    | Finished(result: Outcome)

  datatype Phase =
    | Trying                                   // about to open exclusively
    | Contended                                // the open failed with EEXIST
    | Backoff                                  // recovery did not help: sleep or time out
    | Measured(inode: nat)                     // the lock file looked stale
    | Inspected(inode: nat, owner: Owner)      // its bytes parsed
    | Judged(inode: nat, owner: Owner)         // its owner is gone from this host
    | Guarding(child: Token)                   // waiting for the guarded section
    | Created                                  // the file exists, the record is not complete
    | Cleaning                                 // writing the record failed
    | Holding(stage: Stage)                    // the operation runs
    | Releasing(result: Outcome)               // the own record was seen, the unlink is next
    | Done(result: Outcome)

  datatype Frame = Frame(process: Process, path: LockPath, job: Job, depth: nat, phase: Phase)

  datatype State = State(files: map<LockPath, File>, frames: map<Token, Frame>, live: set<Process>, dead: set<Process>)

  const MAX_RECOVERY_DEPTH := 16

  // The system calls and decisions of one frame, in the order of the source.
  datatype Op =
    | OpenNew(inode: nat)
    | OpenBusy
    | WriteSome
    | WriteRest
    | WriteError
    | RemoveFailed
    | SkipRecovery
    | StatLock(stale: bool)
    | ReadLock
    | ProbeOwner(gone: bool)
    | TakeGuard(child: Token)
    | GuardReturned
    | Retry
    | GiveUp
    | ReturnFromWork(result: Outcome)
    | StatAgain
    | ReadAgain
    | Recheck(stale: bool, gone: bool)
    | UnlinkStale
    | ReadOwn
    | UnlinkOwn
    | CallFails                                // any other error code

  datatype Action =
    | Boot(process: Process)
    | Exit(process: Process)
    | Begin(f: Token, process: Process, path: LockPath)
    | Step(f: Token, op: Op)

  // What one step does to the files, and the phase its frame reaches.
  datatype FileChange = Keep | Create(path: LockPath, inode: nat) | Write(path: LockPath, content: Content)
      | Remove(path: LockPath)

  datatype Effect =
    | Effect(change: FileChange, phase: Phase)
    | Spawn(child: Token, guard: Frame)

  const Start := State(map[], map[], {}, {})

  function OwnerOf(f: Token, frame: Frame): Owner {
    Owner(f, frame.process.host, frame.process.pid)
  }

  predicate Alive(s: State, f: Token) {
    f in s.frames && s.frames[f].process in s.live
  }

  predicate Unoccupied(s: State, host: string, pid: nat) {
    forall p | p in s.live :: p.host == host ==> p.pid != pid
  }

  /** What `isRecoverableOwner` may find out: a probe of this host that answers "no such process". */
  predicate Recoverable(s: State, prober: Process, owner: Owner) {
    owner.host == prober.host && Unoccupied(s, owner.host, owner.pid)
  }

  /** The calls a living frame may make next. */
  predicate CanStep(s: State, f: Token, op: Op)
    requires f in s.frames
  {
    var fr := s.frames[f];
    match op
    case OpenNew(_) => fr.phase.Trying? && fr.path !in s.files
    case OpenBusy => fr.phase.Trying? && fr.path in s.files
    case WriteSome => fr.phase.Created?
    case WriteRest => fr.phase.Created?
    case WriteError => fr.phase.Created?
    case RemoveFailed => fr.phase.Cleaning?
    case SkipRecovery => fr.phase.Contended?
    case StatLock(_) => fr.phase.Contended?
    case ReadLock => fr.phase.Measured?
    case ProbeOwner(gone) => fr.phase.Inspected? && (gone ==> Recoverable(s, fr.process, fr.phase.owner))
    case TakeGuard(child) => fr.phase.Judged? && child !in s.frames
    case GuardReturned => fr.phase.Guarding? && fr.phase.child in s.frames && s.frames[fr.phase.child].phase.Done?
    case Retry => fr.phase.Backoff?
    case GiveUp => fr.phase.Backoff?
    case ReturnFromWork(_) => fr.phase == Holding(Running) && fr.job.UserWork?
    case StatAgain => fr.phase == Holding(Running) && fr.job.Recovery?
    case ReadAgain => fr.phase.Holding? && fr.phase.stage.Restated? && fr.job.Recovery?
    case Recheck(_, gone) =>
      && fr.phase.Holding? && fr.phase.stage.Reread? && fr.job.Recovery?
      && (gone && fr.phase.stage.content.Record? ==> Recoverable(s, fr.process, fr.phase.stage.content.owner))
    case UnlinkStale => fr.phase == Holding(Confirmed) && fr.job.Recovery?
    case ReadOwn => fr.phase.Holding? && fr.phase.stage.Finished?
    case UnlinkOwn => fr.phase.Releasing?
    case CallFails =>
      || fr.phase.Trying? || fr.phase.Contended? || fr.phase.Measured? || fr.phase.Cleaning? || fr.phase.Releasing?
      || (fr.phase.Holding? && (fr.job.Recovery? || fr.phase.stage.Finished?))
  }

  /** The branch a call takes.  A file operation that finds its path absent follows the ENOENT branch. */
  function EffectOf(s: State, f: Token, op: Op): Effect
    requires f in s.frames && CanStep(s, f, op)
  {
    var fr := s.frames[f];
    match op
    case OpenNew(inode) => Effect(Create(fr.path, inode), Created)
    case OpenBusy => Effect(Keep, Contended)
    case WriteSome => Effect(Write(fr.path, Truncated), Created)
    case WriteRest => Effect(Write(fr.path, Record(OwnerOf(f, fr))), Holding(Running))
    case WriteError => Effect(Keep, Cleaning)
    case RemoveFailed => Effect(Remove(fr.path), Done(Threw))
    case SkipRecovery => Effect(Keep, Backoff)
    case StatLock(stale) =>
      Effect(Keep, if fr.path !in s.files then Trying
                   else if stale then Measured(s.files[fr.path].inode) else Backoff)
    case ReadLock =>
      Effect(Keep, if fr.path !in s.files then Trying
                   else if s.files[fr.path].content.Record? then
                     Inspected(fr.phase.inode, s.files[fr.path].content.owner)
                   else Backoff)
    case ProbeOwner(gone) => Effect(Keep, if gone then Judged(fr.phase.inode, fr.phase.owner) else Backoff)
    case TakeGuard(child) =>
      if fr.depth >= MAX_RECOVERY_DEPTH then Effect(Keep, Done(Threw))
      else Spawn(child, Frame(fr.process, RecoveryGuard(fr.path, fr.phase.owner),
                              Recovery(fr.path, fr.phase.inode, fr.phase.owner), fr.depth + 1, Trying))
    case GuardReturned =>
      Effect(Keep, match s.frames[fr.phase.child].phase.result
                   case Returned(flag) => if flag then Trying else Backoff
                   case Missing => Trying
                   case Threw => Done(Threw))
    case Retry => Effect(Keep, Trying)
    case GiveUp => Effect(Keep, Done(Threw))
    case ReturnFromWork(result) => Effect(Keep, Holding(Finished(result)))
    case StatAgain =>
      Effect(Keep,
             Holding(if fr.job.target in s.files then Restated(s.files[fr.job.target].inode) else Finished(Missing)))
    case ReadAgain =>
      Effect(Keep, Holding(if fr.job.target in s.files then Reread(fr.phase.stage.inode, s.files[fr.job.target].content)
                           else Finished(Missing)))
    case Recheck(stale, gone) =>
      Effect(Keep, Holding(if fr.phase.stage.inode == fr.job.inode && stale
                              && fr.phase.stage.content == Record(fr.job.owner) && gone
                           then Confirmed else Finished(Returned(false))))
    case UnlinkStale =>
      if fr.job.target in s.files then Effect(Remove(fr.job.target), Holding(Finished(Returned(true))))
      else Effect(Keep, Holding(Finished(Missing)))
    case ReadOwn =>
      Effect(Keep, if fr.path in s.files && s.files[fr.path].content.Record?
                      && s.files[fr.path].content.owner.token == f
                   then Releasing(fr.phase.stage.result) else Done(fr.phase.stage.result))
    case UnlinkOwn => Effect(Remove(fr.path), Done(fr.phase.result))
    case CallFails =>
      // An unreadable own record counts as somebody else's; every other failure is rethrown.
      Effect(Keep, if !fr.phase.Holding? then Done(Threw)
                   else if fr.phase.stage.Finished? then Done(fr.phase.stage.result)
                   else Holding(Finished(Threw)))
  }

  function ChangedFiles(files: map<LockPath, File>, change: FileChange): map<LockPath, File> {
    match change
    case Keep => files
    case Create(p, inode) => files[p := File(inode, Unwritten)]
    case Write(p, content) => if p in files then files[p := files[p].(content := content)] else files
    case Remove(p) => files - {p}
  }

  function ApplyEffect(s: State, f: Token, e: Effect): State
    requires f in s.frames
  {
    match e
    case Effect(change, phase) =>
      s.(files := ChangedFiles(s.files, change), frames := s.frames[f := s.frames[f].(phase := phase)])
    case Spawn(child, guard) =>
      s.(frames := s.frames[child := guard][f := s.frames[f].(phase := Guarding(child))])
  }

  predicate Enabled(s: State, a: Action) {
    match a
    case Boot(p) => p !in s.live && p !in s.dead && Unoccupied(s, p.host, p.pid)
    case Exit(p) => p in s.live
    case Begin(f, p, _) => f !in s.frames && p in s.live
    case Step(f, op) => Alive(s, f) && CanStep(s, f, op)
  }

  function Next(s: State, a: Action): State
    requires Enabled(s, a)
  {
    match a
    case Boot(p) => s.(live := s.live + {p})
    case Exit(p) => s.(live := s.live - {p}, dead := s.dead + {p})
    case Begin(f, p, path) => s.(frames := s.frames[f := Frame(p, path, UserWork, 0, Trying)])
    case Step(f, op) => ApplyEffect(s, f, EffectOf(s, f, op))
  }

  ghost predicate Leads(states: seq<State>, actions: seq<Action>, i: nat)
    requires |states| == |actions| + 1 && i < |actions|
  {
    Enabled(states[i], actions[i]) && states[i + 1] == Next(states[i], actions[i])
  }

  /** A run: `states[0]` is empty and action `i` leads from `states[i]` to `states[i+1]`. */
  ghost predicate IsRun(states: seq<State>, actions: seq<Action>) {
    && |states| == |actions| + 1
    && states[0] == Start
    && forall i | 0 <= i < |actions| :: Leads(states, actions, i)
  }

  // ---------------------------------------------------------------- the invariant

  predicate Occupies(phase: Phase) {
    phase.Created? || phase.Cleaning? || phase.Holding? || phase.Releasing?
  }

  predicate Occupant(s: State, f: Token) {
    Alive(s, f) && Occupies(s.frames[f].phase)
  }

  predicate Departed(s: State, owner: Owner) {
    && owner.token in s.frames
    && OwnerOf(owner.token, s.frames[owner.token]) == owner
    && s.frames[owner.token].process in s.dead
  }

  predicate Known(s: State, owner: Owner) {
    owner.token in s.frames && OwnerOf(owner.token, s.frames[owner.token]) == owner
  }

  ghost predicate ProcessesSound(s: State) {
    && s.live !! s.dead
    && forall f | f in s.frames :: s.frames[f].process in s.live + s.dead
  }

  ghost predicate RecordsKnown(s: State) {
    forall p | p in s.files && s.files[p].content.Record? :: Known(s, s.files[p].content.owner)
  }

  /** A living occupant's file exists; it holds its complete record exactly from the last write on. */
  predicate OwnsFile(s: State, f: Token)
    requires f in s.frames
  {
    var fr := s.frames[f];
    && fr.path in s.files
    && (if fr.phase.Created? || fr.phase.Cleaning? then !s.files[fr.path].content.Record?
        else s.files[fr.path].content == Record(OwnerOf(f, fr)))
  }

  ghost predicate OccupantsOwn(s: State) {
    forall f | Occupant(s, f) :: OwnsFile(s, f)
  }

  ghost predicate OccupantsAlone(s: State) {
    forall f, g | Occupant(s, f) && Occupant(s, g) && s.frames[f].path == s.frames[g].path :: f == g
  }

  /** What a frame has learnt about an owner that it judged, or is recovering. */
  predicate JudgementSound(s: State, f: Token)
    requires f in s.frames
  {
    var fr := s.frames[f];
    && (fr.phase.Inspected? ==> Known(s, fr.phase.owner))
    && (fr.phase.Judged? ==> Departed(s, fr.phase.owner) && fr.phase.owner.host == fr.process.host)
    && (fr.job.Recovery? ==>
          && fr.path == RecoveryGuard(fr.job.target, fr.job.owner)
          && Departed(s, fr.job.owner)
          && fr.job.owner.host == fr.process.host)
  }

  ghost predicate JudgementsSound(s: State) {
    forall f | f in s.frames :: JudgementSound(s, f)
  }

  predicate HasStaleRecord(s: State, job: Job)
    requires job.Recovery?
  {
    job.target in s.files && s.files[job.target].content == Record(job.owner)
  }

  /** What the guarded section of a living frame has established about the file it is about to remove. */
  predicate RecheckSound(s: State, f: Token)
    requires f in s.frames && s.frames[f].job.Recovery? && s.frames[f].phase.Holding?
  {
    var fr := s.frames[f];
    match fr.phase.stage
    case Restated(inode) => HasStaleRecord(s, fr.job) ==> s.files[fr.job.target].inode == inode
    case Reread(inode, content) =>
      content == Record(fr.job.owner) ==> HasStaleRecord(s, fr.job) && s.files[fr.job.target].inode == inode
    case Confirmed => HasStaleRecord(s, fr.job) && s.files[fr.job.target].inode == fr.job.inode
    case _ => true
  }

  ghost predicate RechecksSound(s: State) {
    forall f | Alive(s, f) && s.frames[f].job.Recovery? && s.frames[f].phase.Holding? :: RecheckSound(s, f)
  }

  ghost predicate Inv(s: State) {
    && ProcessesSound(s)
    && RecordsKnown(s)
    && OccupantsOwn(s)
    && OccupantsAlone(s)
    && JudgementsSound(s)
    && RechecksSound(s)
  }

  // ---------------------------------------------------------------- one step

  /** The part of the invariant's preservation that depends on which call is made. */
  predicate ChangeJustified(s: State, f: Token, change: FileChange, phase: Phase)
    requires f in s.frames
  {
    var fr := s.frames[f];
    match change
    case Keep =>
      && (phase.Created? || phase.Cleaning? ==> fr.phase.Created? || fr.phase.Cleaning?)
      && (phase.Holding? || phase.Releasing? ==> fr.phase.Holding? || fr.phase.Releasing?)
    case Create(p, _) => p == fr.path && p !in s.files && phase.Created?
    case Write(p, content) =>
      && p == fr.path && fr.phase.Created?
      && ((phase.Created? && content.Truncated?) || (phase == Holding(Running) && content == Record(OwnerOf(f, fr))))
    case Remove(p) =>
      || (p == fr.path && Occupies(fr.phase) && phase.Done?)
      || (fr.phase == Holding(Confirmed) && fr.job.Recovery? && p == fr.job.target
          && phase == Holding(Finished(Returned(true))))
  }

  lemma EffectJustified(s: State, f: Token, op: Op)
    requires Inv(s) && Alive(s, f) && CanStep(s, f, op)
    ensures match EffectOf(s, f, op)
            case Effect(change, phase) => ChangeJustified(s, f, change, phase)
            case Spawn(child, guard) =>
              && child !in s.frames && s.frames[f].phase.Judged? && guard.process == s.frames[f].process
              && guard.phase.Trying?
              && guard.job == Recovery(s.frames[f].path, s.frames[f].phase.inode, s.frames[f].phase.owner)
              && guard.path == RecoveryGuard(guard.job.target, guard.job.owner)
  {
  }

  lemma StepKeepsJudgement(s: State, f: Token, op: Op)
    requires Inv(s) && Alive(s, f) && CanStep(s, f, op)
    ensures JudgementSound(Next(s, Step(f, op)), f)
  {
    assert JudgementSound(s, f);
  }

  lemma StepKeepsRecheck(s: State, f: Token, op: Op)
    requires Inv(s) && Alive(s, f) && CanStep(s, f, op) && s.frames[f].job.Recovery?
    requires Next(s, Step(f, op)).frames[f].phase.Holding?
    ensures RecheckSound(Next(s, Step(f, op)), f)
  {
  }

  /** A file that is being removed has no living occupant other than the remover itself. */
  lemma RemovedFileIsFree(s: State, f: Token, p: LockPath, phase: Phase, g: Token)
    requires Inv(s) && Alive(s, f) && ChangeJustified(s, f, Remove(p), phase)
    requires Occupant(s, g) && s.frames[g].path == p
    ensures g == f && phase.Done?
  {
  }

  lemma EffectKeepsOwnership(s: State, f: Token, change: FileChange, phase: Phase, g: Token)
    requires Inv(s) && Alive(s, f) && ChangeJustified(s, f, change, phase)
    requires Occupant(ApplyEffect(s, f, Effect(change, phase)), g)
    ensures OwnsFile(ApplyEffect(s, f, Effect(change, phase)), g)
  {
    if Occupant(s, f) { assert OwnsFile(s, f); }
    if g != f {
      assert Occupant(s, g) && OwnsFile(s, g);
      match change
      case Keep =>
      case Create(p, _) =>
      case Write(p, _) => assert s.frames[g].path != p;
      case Remove(p) => if s.frames[g].path == p { RemovedFileIsFree(s, f, p, phase, g); }
    }
  }

  lemma EffectKeepsAlone(s: State, f: Token, change: FileChange, phase: Phase, g: Token, h: Token)
    requires Inv(s) && Alive(s, f) && ChangeJustified(s, f, change, phase)
    requires var t := ApplyEffect(s, f, Effect(change, phase));
             Occupant(t, g) && Occupant(t, h) && t.frames[g].path == t.frames[h].path
    ensures g == h
  {
    if Occupant(s, g) { assert OwnsFile(s, g); }
    if Occupant(s, h) { assert OwnsFile(s, h); }
  }

  lemma EffectKeepsRecheck(s: State, f: Token, change: FileChange, phase: Phase, g: Token)
    requires Inv(s) && Alive(s, f) && ChangeJustified(s, f, change, phase)
    requires g != f && Alive(s, g) && s.frames[g].job.Recovery? && s.frames[g].phase.Holding?
    ensures RecheckSound(ApplyEffect(s, f, Effect(change, phase)), g)
  {
    var job := s.frames[g].job;
    assert RecheckSound(s, g) && JudgementSound(s, g) && JudgementSound(s, f);
    if Occupant(s, f) { assert OwnsFile(s, f); }
    match change
    case Keep =>
    case Create(_, _) =>
    case Write(p, content) => assert content != Record(job.owner);
    case Remove(p) =>
      // Another remover of the same record would hold the same guard.
      if s.frames[f].phase == Holding(Confirmed) && s.frames[f].job.Recovery? { assert RecheckSound(s, f); }
  }

  lemma EffectKeepsInv(s: State, f: Token, op: Op)
    requires Inv(s) && Alive(s, f) && CanStep(s, f, op) && EffectOf(s, f, op).Effect?
    ensures Inv(Next(s, Step(f, op)))
  {
    var Effect(change, phase) := EffectOf(s, f, op);
    var t := Next(s, Step(f, op));
    EffectJustified(s, f, op);
    forall g | Occupant(t, g) ensures OwnsFile(t, g) { EffectKeepsOwnership(s, f, change, phase, g); }
    forall g, h | Occupant(t, g) && Occupant(t, h) && t.frames[g].path == t.frames[h].path ensures g == h {
      EffectKeepsAlone(s, f, change, phase, g, h);
    }
    forall g | g in t.frames ensures JudgementSound(t, g) {
      if g == f { StepKeepsJudgement(s, f, op); } else { assert JudgementSound(s, g); }
    }
    forall g | Alive(t, g) && t.frames[g].job.Recovery? && t.frames[g].phase.Holding? ensures RecheckSound(t, g) {
      if g == f { StepKeepsRecheck(s, f, op); } else { EffectKeepsRecheck(s, f, change, phase, g); }
    }
  }

  lemma SpawnKeepsJudgements(s: State, f: Token, op: Op)
    requires Inv(s) && Alive(s, f) && CanStep(s, f, op) && EffectOf(s, f, op).Spawn?
    ensures JudgementsSound(Next(s, Step(f, op)))
  {
  }

  lemma SpawnKeepsInv(s: State, f: Token, op: Op)
    requires Inv(s) && Alive(s, f) && CanStep(s, f, op) && EffectOf(s, f, op).Spawn?
    ensures Inv(Next(s, Step(f, op)))
  {
    var t := Next(s, Step(f, op));
    SpawnKeepsJudgements(s, f, op);
    forall g | Occupant(t, g) ensures OwnsFile(t, g) { assert OwnsFile(s, g); }
    forall g | Alive(t, g) && t.frames[g].job.Recovery? && t.frames[g].phase.Holding? ensures RecheckSound(t, g) {
      assert RecheckSound(s, g);
    }
  }

  lemma BeginKeepsInv(s: State, a: Action)
    requires Inv(s) && Enabled(s, a) && a.Begin?
    ensures Inv(Next(s, a))
  {
    var t := Next(s, a);
    forall g | Occupant(t, g) ensures OwnsFile(t, g) { assert OwnsFile(s, g); }
    forall g | g in t.frames ensures JudgementSound(t, g) {
      if g in s.frames { assert JudgementSound(s, g); }
    }
    forall g | Alive(t, g) && t.frames[g].job.Recovery? && t.frames[g].phase.Holding? ensures RecheckSound(t, g) {
      assert RecheckSound(s, g);
    }
  }

  lemma ProcessesKeepInv(s: State, a: Action)
    requires Inv(s) && Enabled(s, a) && (a.Boot? || a.Exit?)
    ensures Inv(Next(s, a))
  {
    var t := Next(s, a);
    forall g | Occupant(t, g) ensures OwnsFile(t, g) { assert Occupant(s, g) && OwnsFile(s, g); }
    forall g | g in t.frames ensures JudgementSound(t, g) { assert JudgementSound(s, g); }
    forall g | Alive(t, g) && t.frames[g].job.Recovery? && t.frames[g].phase.Holding? ensures RecheckSound(t, g) {
      assert RecheckSound(s, g);
    }
  }

  lemma StepKeepsInv(s: State, a: Action)
    requires Inv(s) && Enabled(s, a)
    ensures Inv(Next(s, a))
  {
    match a
    case Step(f, op) =>
      if EffectOf(s, f, op).Effect? { EffectKeepsInv(s, f, op); } else { SpawnKeepsInv(s, f, op); }
    case Begin(_, _, _) => BeginKeepsInv(s, a);
    case _ => ProcessesKeepInv(s, a);
  }

  // ---------------------------------------------------------------- whole runs

  lemma {:induction false} ReachableInv(states: seq<State>, actions: seq<Action>, i: nat)
    requires IsRun(states, actions) && i < |states|
    ensures Inv(states[i])
  {
    if i > 0 {
      ReachableInv(states, actions, i - 1);
      assert Leads(states, actions, i - 1);
      StepKeepsInv(states[i - 1], actions[i - 1]);
    }
  }

  /** Mutual exclusion: no two living frames run their operation under one path, guards included,
      and the path's file then holds exactly the holder's record. */
  lemma MutualExclusion(states: seq<State>, actions: seq<Action>, i: nat, f: Token, g: Token)
    requires IsRun(states, actions) && i < |states|
    requires Alive(states[i], f) && states[i].frames[f].phase.Holding?
    ensures var s := states[i]; var p := s.frames[f].path;
            p in s.files && s.files[p].content == Record(OwnerOf(f, s.frames[f]))
    ensures var s := states[i];
            Alive(s, g) && s.frames[g].phase.Holding? && s.frames[g].path == s.frames[f].path ==> f == g
  {
    ReachableInv(states, actions, i);
    assert Occupant(states[i], f) && OwnsFile(states[i], f);
  }

  /** A recovery unlink removes the very file that was measured and read before the guard was taken:
      its inode and its record, whose owner ran on the remover's host and has exited.
      Nothing else changes, and no living frame occupies the path. */
  lemma RecoveryRemovesTheDeadRecord(states: seq<State>, actions: seq<Action>, i: nat, f: Token)
    requires IsRun(states, actions) && i < |actions| && actions[i] == Step(f, UnlinkStale)
    ensures f in states[i].frames && states[i].frames[f].job.Recovery?
    ensures var s, job := states[i], states[i].frames[f].job;
            && job.target in s.files && s.files[job.target] == File(job.inode, Record(job.owner))
            && Departed(s, job.owner) && job.owner.host == s.frames[f].process.host
            && states[i + 1].files == s.files - {job.target}
            && forall g | Occupant(s, g) :: s.frames[g].path != job.target
  {
    var s := states[i];
    ReachableInv(states, actions, i);
    assert Leads(states, actions, i);
    assert RecheckSound(s, f) && JudgementSound(s, f);
    forall g | Occupant(s, g) ensures s.frames[g].path != s.frames[f].job.target { assert OwnsFile(s, g); }
  }

  /** A living holder always finds its own record, and its release removes that file and no other. */
  lemma ReleaseRemovesTheOwnRecord(states: seq<State>, actions: seq<Action>, i: nat, f: Token)
    requires IsRun(states, actions) && i < |actions|
    requires actions[i] == Step(f, ReadOwn) || actions[i] == Step(f, UnlinkOwn)
    ensures f in states[i].frames && f in states[i + 1].frames
    ensures var s, p := states[i], states[i].frames[f].path;
            && p in s.files && s.files[p].content == Record(OwnerOf(f, s.frames[f]))
            && (actions[i].op.ReadOwn? ==> states[i + 1].files == s.files && states[i + 1].frames[f].phase.Releasing?)
            && (actions[i].op.UnlinkOwn? ==> states[i + 1].files == s.files - {p})
  {
    assert Leads(states, actions, i);
    ReachableInv(states, actions, i);
    assert Occupant(states[i], f) && OwnsFile(states[i], f);
  }

  /** While a frame occupies a path and lives, no step of any other frame or process touches its file. */
  lemma OthersLeaveTheHeldFile(states: seq<State>, actions: seq<Action>, i: nat, g: Token)
    requires IsRun(states, actions) && i < |actions| && Occupant(states[i], g)
    requires !(actions[i].Step? && actions[i].f == g)
    ensures var p := states[i].frames[g].path;
            p in states[i].files && p in states[i + 1].files && states[i + 1].files[p] == states[i].files[p]
  {
    var s := states[i];
    assert Leads(states, actions, i);
    ReachableInv(states, actions, i);
    assert OwnsFile(s, g);
    if actions[i].Step? {
      var f := actions[i].f;
      EffectJustified(s, f, actions[i].op);
      if Occupant(s, f) { assert OwnsFile(s, f); }
      match EffectOf(s, f, actions[i].op)
      case Effect(Remove(p), phase) => if p == s.frames[g].path { RemovedFileIsFree(s, f, p, phase, g); }
      case _ =>
    }
  }

  predicate Orphaned(s: State, p: LockPath) {
    p in s.files && !s.files[p].content.Record? && forall f | f in s.frames && Occupant(s, f) :: s.frames[f].path != p
  }

  lemma OrphanStays(s: State, a: Action, p: LockPath)
    requires Inv(s) && Enabled(s, a) && Orphaned(s, p)
    ensures Orphaned(Next(s, a), p) && Next(s, a).files[p] == s.files[p]
  {
    if a.Step? {
      EffectJustified(s, a.f, a.op);
      if s.frames[a.f].phase == Holding(Confirmed) && s.frames[a.f].job.Recovery? { assert RecheckSound(s, a.f); }
    }
  }

  /** A file whose creator died before its record was complete is never recovered by anybody. */
  lemma {:induction false} OrphanIsForever(states: seq<State>, actions: seq<Action>, i: nat, j: nat, p: LockPath)
    requires IsRun(states, actions) && i <= j < |states| && Orphaned(states[i], p)
    ensures Orphaned(states[j], p) && states[j].files[p] == states[i].files[p]
    decreases j
  {
    if i < j {
      OrphanIsForever(states, actions, i, j - 1, p);
      ReachableInv(states, actions, j - 1);
      assert Leads(states, actions, j - 1);
      OrphanStays(states[j - 1], actions[j - 1], p);
    }
  }

  // ---------------------------------------------------------------- recovery works

  /** Actions that lead from state `s` to state `t`. */
  ghost predicate IsPath(states: seq<State>, actions: seq<Action>, s: State, t: State) {
    && |states| == |actions| + 1 && states[0] == s && states[|actions|] == t
    && forall i | 0 <= i < |actions| :: Leads(states, actions, i)
  }

  ghost predicate Reaches(s: State, t: State) {
    exists states, actions :: IsPath(states, actions, s, t)
  }

  lemma Here(s: State)
    ensures Reaches(s, s)
  {
    assert IsPath([s], [], s, s);
  }

  lemma OneMore(s: State, t: State, a: Action)
    requires Reaches(s, t) && Enabled(t, a)
    ensures Reaches(s, Next(t, a))
  {
    var states, actions :| IsPath(states, actions, s, t);
    var states', actions' := states + [Next(t, a)], actions + [a];
    forall i | 0 <= i < |actions'| ensures Leads(states', actions', i) {
      if i < |actions| { assert Leads(states, actions, i); }
    }
    assert IsPath(states', actions', s, Next(t, a));
  }

  /** `s` with these files and these two frames. */
  function With(s: State, files: map<LockPath, File>, f: Token, a: Frame, g: Token, b: Frame): State {
    s.(files := files, frames := s.frames[f := a][g := b])
  }

  lemma FirstSteps(o: State, s: State, files: map<LockPath, File>, f: Token, a: Frame, g: Token, b: Frame, op: Op,
                   change: FileChange, phase: Phase)
    requires f != g && a.process in s.live
    requires var t := With(s, files, f, a, g, b);
             Reaches(o, t) && CanStep(t, f, op) && EffectOf(t, f, op) == Effect(change, phase)
    ensures Reaches(o, With(s, ChangedFiles(files, change), f, a.(phase := phase), g, b))
  {
    var t := With(s, files, f, a, g, b);
    OneMore(o, t, Step(f, op));
    assert s.frames[f := a][g := b][f := a.(phase := phase)] == s.frames[f := a.(phase := phase)][g := b];
  }

  lemma SecondSteps(o: State, s: State, files: map<LockPath, File>, f: Token, a: Frame, g: Token, b: Frame, op: Op,
                    change: FileChange, phase: Phase)
    requires f != g && b.process in s.live
    requires var t := With(s, files, f, a, g, b);
             Reaches(o, t) && CanStep(t, g, op) && EffectOf(t, g, op) == Effect(change, phase)
    ensures Reaches(o, With(s, ChangedFiles(files, change), f, a, g, b.(phase := phase)))
  {
    var t := With(s, files, f, a, g, b);
    OneMore(o, t, Step(g, op));
    assert s.frames[f := a][g := b][g := b.(phase := phase)] == s.frames[f := a][g := b.(phase := phase)];
  }

  /** A caller that finds the lock held by the record of a process that is gone from its host. */
  predicate FindsStaleLock(s: State, f: Token, inode: nat, owner: Owner) {
    && Alive(s, f) && s.frames[f].phase.Contended? && s.frames[f].depth < MAX_RECOVERY_DEPTH
    && s.frames[f].path in s.files && s.files[s.frames[f].path] == File(inode, Record(owner))
    && Recoverable(s, s.frames[f].process, owner)
    && RecoveryGuard(s.frames[f].path, owner) !in s.files
  }

  function GuardOf(fr: Frame, inode: nat, owner: Owner, phase: Phase): Frame {
    Frame(fr.process, RecoveryGuard(fr.path, owner), Recovery(fr.path, inode, owner), fr.depth + 1, phase)
  }

  lemma JudgesAndGuards(s: State, f: Token, g: Token, inode: nat, owner: Owner)
    requires FindsStaleLock(s, f, inode, owner) && g !in s.frames
    ensures var fr := s.frames[f];
            Reaches(s, With(s, s.files, f, fr.(phase := Guarding(g)), g, GuardOf(fr, inode, owner, Trying)))
  {
    var fr := s.frames[f];
    Here(s);
    OneMore(s, s, Step(f, StatLock(true)));
    var measured := s.(frames := s.frames[f := fr.(phase := Measured(inode))]);
    OneMore(s, measured, Step(f, ReadLock));
    var inspected := s.(frames := s.frames[f := fr.(phase := Inspected(inode, owner))]);
    assert Next(measured, Step(f, ReadLock)).frames == inspected.frames;
    OneMore(s, inspected, Step(f, ProbeOwner(true)));
    var judged := s.(frames := s.frames[f := fr.(phase := Judged(inode, owner))]);
    assert Next(inspected, Step(f, ProbeOwner(true))).frames == judged.frames;
    OneMore(s, judged, Step(f, TakeGuard(g)));
    assert Next(judged, Step(f, TakeGuard(g))).frames
        == s.frames[f := fr.(phase := Guarding(g))][g := GuardOf(fr, inode, owner, Trying)];
  }

  lemma GuardAcquires(s: State, f: Token, g: Token, inode: nat, owner: Owner, guardInode: nat)
    requires FindsStaleLock(s, f, inode, owner) && g !in s.frames
    ensures var fr, guard := s.frames[f], GuardOf(s.frames[f], inode, owner, Holding(Running));
            Reaches(s, With(s, s.files[guard.path := File(guardInode, Record(OwnerOf(g, guard)))], f,
                            fr.(phase := Guarding(g)), g, guard))
  {
    var fr, guard := s.frames[f], GuardOf(s.frames[f], inode, owner, Trying);
    var waiting := fr.(phase := Guarding(g));
    JudgesAndGuards(s, f, g, inode, owner);
    SecondSteps(s, s, s.files, f, waiting, g, guard, OpenNew(guardInode), Create(guard.path, guardInode), Created);
    var files := s.files[guard.path := File(guardInode, Unwritten)];
    SecondSteps(s, s, files, f, waiting, g, guard.(phase := Created), WriteRest,
                Write(guard.path, Record(OwnerOf(g, guard))), Holding(Running));
    assert ChangedFiles(files, Write(guard.path, Record(OwnerOf(g, guard))))
        == s.files[guard.path := File(guardInode, Record(OwnerOf(g, guard)))];
  }

  lemma GuardRechecks(s: State, f: Token, g: Token, inode: nat, owner: Owner, guardInode: nat)
    requires FindsStaleLock(s, f, inode, owner) && g !in s.frames
    ensures var fr, guard := s.frames[f], GuardOf(s.frames[f], inode, owner, Holding(Confirmed));
            Reaches(s, With(s, s.files[guard.path := File(guardInode, Record(OwnerOf(g, guard)))], f,
                            fr.(phase := Guarding(g)), g, guard))
  {
    var fr, guard := s.frames[f], GuardOf(s.frames[f], inode, owner, Holding(Running));
    var waiting := fr.(phase := Guarding(g));
    var files := s.files[guard.path := File(guardInode, Record(OwnerOf(g, guard)))];
    GuardAcquires(s, f, g, inode, owner, guardInode);
    SecondSteps(s, s, files, f, waiting, g, guard, StatAgain, Keep, Holding(Restated(inode)));
    guard := guard.(phase := Holding(Restated(inode)));
    SecondSteps(s, s, files, f, waiting, g, guard, ReadAgain, Keep, Holding(Reread(inode, Record(owner))));
    guard := guard.(phase := Holding(Reread(inode, Record(owner))));
    SecondSteps(s, s, files, f, waiting, g, guard, Recheck(true, true), Keep, Holding(Confirmed));
  }

  lemma GuardRemoves(s: State, f: Token, g: Token, inode: nat, owner: Owner, guardInode: nat)
    requires FindsStaleLock(s, f, inode, owner) && g !in s.frames
    ensures var fr, guard := s.frames[f], GuardOf(s.frames[f], inode, owner, Done(Returned(true)));
            Reaches(s, With(s, s.files - {fr.path}, f, fr.(phase := Guarding(g)), g, guard))
  {
    var fr, guard := s.frames[f], GuardOf(s.frames[f], inode, owner, Holding(Confirmed));
    var waiting := fr.(phase := Guarding(g));
    var files := s.files[guard.path := File(guardInode, Record(OwnerOf(g, guard)))];
    GuardRechecks(s, f, g, inode, owner, guardInode);
    SecondSteps(s, s, files, f, waiting, g, guard, UnlinkStale, Remove(fr.path), Holding(Finished(Returned(true))));
    guard := guard.(phase := Holding(Finished(Returned(true))));
    SecondSteps(s, s, files - {fr.path}, f, waiting, g, guard, ReadOwn, Keep, Releasing(Returned(true)));
    guard := guard.(phase := Releasing(Returned(true)));
    SecondSteps(s, s, files - {fr.path}, f, waiting, g, guard, UnlinkOwn, Remove(guard.path), Done(Returned(true)));
    assert files - {fr.path} - {guard.path} == s.files - {fr.path};
  }

  /** A caller that finds the lock of a dead process can recover it and take it over, and leaves nothing else behind. */
  lemma StaleLockCanBeTaken(s: State, f: Token, g: Token, inode: nat, owner: Owner, newInode: nat)
    requires FindsStaleLock(s, f, inode, owner) && g !in s.frames
    ensures var fr, guard := s.frames[f], GuardOf(s.frames[f], inode, owner, Done(Returned(true)));
            Reaches(s, With(s, s.files[fr.path := File(newInode, Record(OwnerOf(f, fr)))], f,
                            fr.(phase := Holding(Running)), g, guard))
  {
    var fr, guard := s.frames[f], GuardOf(s.frames[f], inode, owner, Done(Returned(true)));
    var files := s.files - {fr.path};
    GuardRemoves(s, f, g, inode, owner, newInode);
    FirstSteps(s, s, files, f, fr.(phase := Guarding(g)), g, guard, GuardReturned, Keep, Trying);
    FirstSteps(s, s, files, f, fr.(phase := Trying), g, guard, OpenNew(newInode), Create(fr.path, newInode), Created);
    var created := files[fr.path := File(newInode, Unwritten)];
    FirstSteps(s, s, created, f, fr.(phase := Created), g, guard, WriteRest, Write(fr.path, Record(OwnerOf(f, fr))),
               Holding(Running));
    assert ChangedFiles(created, Write(fr.path, Record(OwnerOf(f, fr))))
        == s.files[fr.path := File(newInode, Record(OwnerOf(f, fr)))];
  }
}
