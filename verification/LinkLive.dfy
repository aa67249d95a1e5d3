/**
 `executeEntityLinkLive` run by any number of executors over one plan directory, without a lock: only the exclusive
 creation of files orders them.  Every file operation is one step; between two steps anyone may act, and an executor
 may stop for good at any point (crash, abort or exception).  The host checks around each pass change no file and can
 only throw, so they are such stops.
 */
module LinkLive {
  import opened Options

  type Executor = nat

  // What a text parses to: nothing, or an outcome that deriveRecord admits or not.
  datatype Reading = Garbled | Outcome(admitted: bool)

  // `owner` is not in the file and no executor looks at it: it records who created the file.
  datatype Reservation = Free | Reserved(owner: Executor, whole: bool)

  // A native file only grows, chunk by chunk, so the number of chunks stands for its bytes.
  datatype Native = NoNative | Native(size: nat, value: Reading)

  // A derived record repeats the digest of the native bytes it was derived from, and their admission.
  datatype Record = NoRecord | TornRecord | Record(size: nat, admitted: bool)

  datatype Slot = Slot(reservation: Reservation, native: Native, record: Record)

  datatype Pending = Pending(slot: nat, size: nat, admitted: bool)

  // The next question of an inspection about the slot it has reached.
  datatype Probe =
    | AskReserved | AskOrphanNative | AskOrphanRecord | ReadReserved | AskNative | AskLoneRecord | ReadNative
    | AskRecord(size: nat, admitted: bool) | ReadRecord(size: nat, admitted: bool)

  datatype Phase =
    | Scan(k: nat, j: nat, probe: Probe, seen: set<nat>, stop: bool, pending: seq<Pending>)
    | Publish(k: nat, created: bool, seen: set<nat>, stop: bool, pending: seq<Pending>)
    | Decide(k: nat, seen: set<nat>, stop: bool)
    | Reserve(k: nat)
    | FillReservation(k: nat)
    | Ready(k: nat)
    | Running(k: nat)
    | FillNative(k: nat)
    | ReadOwn(k: nat)
    | OwnRecord(k: nat, created: bool, size: nat, admitted: bool)
    | Finished

  // `log` lists the slots in the order in which the model was invoked for them.
  datatype State = State(slots: seq<Slot>, phases: map<Executor, Phase>, log: seq<nat>)

  // What the environment decides: to let the executor go on, what a further chunk of the outcome makes of the text,
  // or to end the executor.
  datatype Choice = Advance | Chunk(value: Reading) | Stop

  datatype Move = Move(executor: Executor, choice: Choice)

  datatype Answer = Conflict | Ask(probe: Probe) | Unreserved | Unknown
      | Result(size: nat, admitted: bool, unpublished: bool)

  /** One file operation of `inspectRecords` on one slot. */
  function Look(slot: Slot, probe: Probe): Answer {
    match probe
    case AskReserved => Ask(if slot.reservation.Free? then AskOrphanNative else ReadReserved)
    case AskOrphanNative => if slot.native.NoNative? then Ask(AskOrphanRecord) else Conflict
    case AskOrphanRecord => if slot.record.NoRecord? then Unreserved else Conflict
    case ReadReserved => if slot.reservation.Reserved? && slot.reservation.whole then Ask(AskNative) else Conflict
    case AskNative => Ask(if slot.native.NoNative? then AskLoneRecord else ReadNative)
    case AskLoneRecord => if slot.record.NoRecord? then Unknown else Conflict
    case ReadNative =>
      if slot.native.Native? && slot.native.value.Outcome? then
        Ask(AskRecord(slot.native.size, slot.native.value.admitted))
      else Conflict
    case AskRecord(size, admitted) =>
      if slot.record.NoRecord? then Result(size, admitted, true) else Ask(ReadRecord(size, admitted))
    case ReadRecord(size, admitted) =>
      if slot.record == Record(size, admitted) then Result(size, admitted, false) else Conflict
  }

  function Begin(n: nat, k: nat): Phase {
    if k < n then Scan(k, 0, AskReserved, {}, false, []) else Finished
  }

  /** What an answer makes of an inspection. */
  function Answered(phase: Phase, answer: Answer): Phase
    requires phase.Scan?
  {
    match answer
      case Conflict => Finished
      case Ask(probe) => phase.(probe := probe)
      case Unreserved => phase.(j := phase.j + 1, probe := AskReserved)
      case Unknown => phase.(j := phase.j + 1, probe := AskReserved, stop := true)
      case Result(size, admitted, unpublished) =>
        phase.(j := phase.j + 1, probe := AskReserved, seen := phase.seen + {phase.j}, stop := phase.stop || !admitted,
               pending := if unpublished then phase.pending + [Pending(phase.j, size, admitted)] else phase.pending)
  }

  function ScanStep(slots: seq<Slot>, phase: Phase): Phase
    requires phase.Scan?
  {
    if phase.j >= |slots| then Publish(phase.k, false, phase.seen, phase.stop, phase.pending)
    else Answered(phase, Look(slots[phase.j], phase.probe))
  }

  /** One step of a live executor at slot `k`: what becomes of that slot's files and of the executor. */
  function OwnStep(slot: Slot, n: nat, p: Executor, phase: Phase, choice: Choice): (Slot, Phase) {
    match phase
    case Reserve(k) =>
      if slot.reservation.Free? then (slot.(reservation := Reserved(p, false)), FillReservation(k))
      else (slot, Finished)
    case FillReservation(k) => (slot.(reservation := Reserved(p, true)), Ready(k))
    case Ready(k) => (slot, Running(k))
    case Running(k) =>
      if slot.native.NoNative? then (slot.(native := Native(0, Garbled)), FillNative(k)) else (slot, Finished)
    case FillNative(k) =>
      if slot.native.NoNative? then (slot, Finished)
      else if choice.Chunk? then
        if slot.native.value == Outcome(true) && choice.value != Outcome(true) then
          (slot, phase)  // only a newline may follow
        else (slot.(native := Native(slot.native.size + 1, choice.value)), phase)
      else if slot.native.value.Garbled? then (slot, phase) else (slot, ReadOwn(k))
    case ReadOwn(k) =>
      if slot.native.Native? && slot.native.value.Outcome? then
        (slot, OwnRecord(k, false, slot.native.size, slot.native.value.admitted))
      else (slot, Finished)
    case OwnRecord(k, created, size, admitted) =>
      if created then (slot.(record := Record(size, admitted)), if admitted then Begin(n, k + 1) else Finished)
      else if slot.record.NoRecord? then (slot.(record := TornRecord), OwnRecord(k, true, size, admitted))
      else (slot, Finished)
    case _ => (slot, phase)
  }

  function PublishStep(slots: seq<Slot>, phase: Phase): (seq<Slot>, Phase)
    requires phase.Publish?
  {
    if phase.pending == [] then (slots, Decide(phase.k, phase.seen, phase.stop))
    else
      var first := phase.pending[0];
      if first.slot >= |slots| then (slots, Finished)
      else
        var slot := slots[first.slot];
        if phase.created then
          (slots[first.slot := slot.(record := Record(first.size, first.admitted))],
           Publish(phase.k, false, phase.seen, phase.stop, phase.pending[1..]))
        else if slot.record.NoRecord? then
          (slots[first.slot := slot.(record := TornRecord)],
           Publish(phase.k, true, phase.seen, phase.stop, phase.pending))
        else (slots, Finished)
  }

  function Act(slots: seq<Slot>, p: Executor, phase: Phase, choice: Choice): (seq<Slot>, Phase) {
    if choice.Stop? || phase.Finished? then (slots, Finished)
    else if phase.Scan? then (slots, ScanStep(slots, phase))
    else if phase.Publish? then PublishStep(slots, phase)
    else if phase.Decide? then
      (slots,
       if phase.stop then Finished else if phase.k in phase.seen then Begin(|slots|, phase.k + 1) else Reserve(phase.k))
    else if phase.k >= |slots| then (slots, Finished)
    else
      var next := OwnStep(slots[phase.k], |slots|, p, phase, choice);
      (slots[phase.k := next.0], next.1)
  }

  function After(s: State, move: Move): (s': State)
    ensures |s'.slots| == |s.slots|
  {
    if move.executor !in s.phases then s.(phases := s.phases[move.executor := Begin(|s.slots|, 0)])
    else
      var phase := s.phases[move.executor];
      var next := Act(s.slots, move.executor, phase, move.choice);
      State(next.0, s.phases[move.executor := next.1],
            if phase.Ready? && next.1.Running? then s.log + [phase.k] else s.log)
  }

  function Run(s: State, moves: seq<Move>): (s': State)
    ensures |s'.slots| == |s.slots|
    decreases |moves|
  {
    if moves == [] then s else Run(After(s, moves[0]), moves[1..])
  }

  /** A freshly prepared directory for a plan of `n` slots. */
  function Prepared(n: nat): State {
    State(seq(n, _ => Slot(Free, NoNative, NoRecord)), map[], [])
  }

  // ----- what every step keeps -----

  predicate Settled(slot: Slot) {
    slot.native.Native? && slot.native.value == Outcome(true)
  }

  predicate AllSettled(slots: seq<Slot>, k: nat) {
    k <= |slots| && forall i | 0 <= i < k :: Settled(slots[i])
  }

  /** A record as derived from the native file at some earlier or the present length. */
  predicate Derived(native: Native, size: nat, admitted: bool) {
    && native.Native? && size <= native.size
    && (size == native.size ==> native.value == Outcome(admitted))
    && (admitted ==> native.value == Outcome(true))
  }

  predicate SlotsOk(slots: seq<Slot>) {
    forall i: nat | i < |slots| ::
      && (slots[i].reservation.Reserved? ==> AllSettled(slots, i))
      && (slots[i].native.Native? ==> slots[i].reservation.Reserved? && slots[i].reservation.whole)
      && (!slots[i].record.NoRecord? ==> slots[i].native.Native?)
      && (slots[i].record.Record? ==> Derived(slots[i].native, slots[i].record.size, slots[i].record.admitted))
  }

  predicate LogOk(slots: seq<Slot>, log: seq<nat>) {
    && |log| <= |slots|
    && (forall i | 0 <= i < |log| :: log[i] == i && slots[i].reservation.Reserved? && slots[i].reservation.whole)
    && forall i | 0 <= i < |slots| && slots[i].native.Native? :: i < |log|
  }

  predicate SawOk(slots: seq<Slot>, j: nat, size: nat, admitted: bool) {
    j < |slots| && Derived(slots[j].native, size, admitted)
  }

  predicate ViewOk(slots: seq<Slot>, seen: set<nat>, stop: bool, pending: seq<Pending>) {
    && (!stop ==> forall i | i in seen :: i < |slots| && Settled(slots[i]))
    && forall x | 0 <= x < |pending| :: SawOk(slots, pending[x].slot, pending[x].size, pending[x].admitted)
  }

  predicate OwnerOk(slot: Slot, log: seq<nat>, p: Executor, phase: Phase)
    requires !phase.Finished?
  {
    match phase
    case FillReservation(k) => slot.reservation == Reserved(p, false) && slot.native.NoNative? && |log| <= k
    case Ready(k) => slot.reservation == Reserved(p, true) && slot.native.NoNative? && |log| <= k
    case Running(k) => slot.reservation == Reserved(p, true) && slot.native.NoNative? && k < |log|
    case FillNative(_) => slot.reservation == Reserved(p, true) && slot.native.Native?
    case ReadOwn(_) => slot.reservation == Reserved(p, true) && slot.native.Native? && slot.native.value.Outcome?
    case OwnRecord(_, _, size, admitted) =>
      && slot.reservation == Reserved(p, true) && slot.native.Native? && size == slot.native.size
      && slot.native.value == Outcome(admitted)
    case _ => true
  }

  predicate PhaseOk(slots: seq<Slot>, log: seq<nat>, p: Executor, phase: Phase) {
    phase.Finished? || (
      && phase.k < |slots| && AllSettled(slots, phase.k)
      && OwnerOk(slots[phase.k], log, p, phase)
      && (phase.Scan? ==> ViewOk(slots, phase.seen, phase.stop, phase.pending))
      && (phase.Scan? && (phase.probe.AskRecord? || phase.probe.ReadRecord?) ==>
            SawOk(slots, phase.j, phase.probe.size, phase.probe.admitted))
      && (phase.Publish? ==> ViewOk(slots, phase.seen, phase.stop, phase.pending))
      && (phase.Decide? ==> ViewOk(slots, phase.seen, phase.stop, [])))
  }

  ghost predicate Inv(s: State) {
    && SlotsOk(s.slots) && LogOk(s.slots, s.log)
    && forall p | p in s.phases :: PhaseOk(s.slots, s.log, p, s.phases[p])
  }

  /** Files are created once and only grow. */
  predicate SlotGrows(slot: Slot, slot': Slot) {
    && (slot.reservation.Reserved? ==>
          slot'.reservation.Reserved? && slot'.reservation.owner == slot.reservation.owner
          && (slot.reservation.whole ==> slot'.reservation.whole))
    && (slot.native.Native? ==>
          slot'.native == slot.native || (slot'.native.Native? && slot.native.size < slot'.native.size))
    && (Settled(slot) ==> Settled(slot'))
  }

  /** Only the creator of a reservation touches it or the native file beside it. */
  predicate Untouched(slot: Slot, slot': Slot, p: Executor) {
    slot.reservation.Reserved? && slot.reservation.owner != p ==>
      slot'.reservation == slot.reservation && slot'.native == slot.native
  }

  predicate Grows(slots: seq<Slot>, slots': seq<Slot>, p: Executor) {
    && |slots'| == |slots|
    && forall i | 0 <= i < |slots| :: SlotGrows(slots[i], slots'[i]) && Untouched(slots[i], slots'[i], p)
  }

  lemma ActGrows(s: State, p: Executor, choice: Choice)
    requires Inv(s) && p in s.phases
    ensures Grows(s.slots, Act(s.slots, p, s.phases[p], choice).0, p)
  {
  }

  /** What another executor does never invalidates what this one relies on. */
  lemma OthersStay(slots: seq<Slot>, slots': seq<Slot>, log: seq<nat>, log': seq<nat>, p: Executor, q: Executor,
                   phase: Phase)
    requires Grows(slots, slots', p) && PhaseOk(slots, log, q, phase) && p != q
    requires |log| <= |log'|
    requires !phase.Finished? && (phase.FillReservation? || phase.Ready?) ==> |log'| <= phase.k
    ensures PhaseOk(slots', log', q, phase)
  {
  }

  lemma SlotsStay(s: State, p: Executor, choice: Choice)
    requires Inv(s) && p in s.phases
    ensures SlotsOk(Act(s.slots, p, s.phases[p], choice).0)
  {
    var phase := s.phases[p];
    assert PhaseOk(s.slots, s.log, p, phase);
    ActGrows(s, p, choice);
    var slots' := Act(s.slots, p, phase, choice).0;
    forall i: nat | i < |slots'| && slots'[i].reservation.Reserved? ensures AllSettled(slots', i) {
    }
  }

  lemma ScanKeeps(s: State, p: Executor)
    requires Inv(s) && p in s.phases && s.phases[p].Scan?
    ensures PhaseOk(s.slots, s.log, p, ScanStep(s.slots, s.phases[p]))
  {
  }

  lemma PublishKeeps(s: State, p: Executor)
    requires Inv(s) && p in s.phases && s.phases[p].Publish?
    ensures var next := PublishStep(s.slots, s.phases[p]); PhaseOk(next.0, s.log, p, next.1)
  {
  }

  /** An executor that has just filled its reservation stands at the first slot without an invocation. */
  lemma ReadyIsNext(s: State, p: Executor)
    requires Inv(s) && p in s.phases && s.phases[p].Ready?
    ensures s.phases[p].k == |s.log|
  {
    var phase := s.phases[p];
    assert PhaseOk(s.slots, s.log, p, phase);
    if phase.k > 0 { assert Settled(s.slots[phase.k - 1]); }
  }

  lemma CallStepKeeps(s: State, p: Executor, choice: Choice)
    requires Inv(s) && p in s.phases && !choice.Stop?
    requires var phase := s.phases[p];
             phase.Decide? || phase.Reserve? || phase.FillReservation? || phase.Ready? || phase.Running?
    ensures PhaseOk(After(s, Move(p, choice)).slots, After(s, Move(p, choice)).log, p,
                    After(s, Move(p, choice)).phases[p])
  {
    var phase := s.phases[p];
    assert PhaseOk(s.slots, s.log, p, phase);
    ActGrows(s, p, choice);
    if phase.Ready? { ReadyIsNext(s, p); }
  }

  lemma ResultStepKeeps(s: State, p: Executor, choice: Choice)
    requires Inv(s) && p in s.phases && !choice.Stop?
    requires s.phases[p].FillNative? || s.phases[p].ReadOwn? || s.phases[p].OwnRecord?
    ensures PhaseOk(After(s, Move(p, choice)).slots, After(s, Move(p, choice)).log, p,
                    After(s, Move(p, choice)).phases[p])
  {
    assert PhaseOk(s.slots, s.log, p, s.phases[p]);
    ActGrows(s, p, choice);
  }

  lemma LogStays(s: State, p: Executor, choice: Choice)
    requires Inv(s) && p in s.phases
    ensures LogOk(After(s, Move(p, choice)).slots, After(s, Move(p, choice)).log)
    ensures |After(s, Move(p, choice)).log| > |s.log| ==>
              s.phases[p].Ready? && s.phases[p].k == |s.log| && !choice.Stop?
  {
    var phase := s.phases[p];
    assert PhaseOk(s.slots, s.log, p, phase);
    ActGrows(s, p, choice);
    if phase.Ready? { ReadyIsNext(s, p); }
  }

  lemma StepKeeps(s: State, move: Move)
    requires Inv(s)
    ensures Inv(After(s, move))
  {
    var p := move.executor;
    var s' := After(s, move);
    if p in s.phases {
      var phase := s.phases[p];
      ActGrows(s, p, move.choice);
      SlotsStay(s, p, move.choice);
      LogStays(s, p, move.choice);
      assert PhaseOk(s.slots, s.log, p, phase);
      forall q | q in s'.phases ensures PhaseOk(s'.slots, s'.log, q, s'.phases[q]) {
        if q != p {
          assert PhaseOk(s.slots, s.log, q, s.phases[q]);
          OthersStay(s.slots, s'.slots, s.log, s'.log, p, q, s.phases[q]);
        } else if phase.Finished? || move.choice.Stop? {
        } else if phase.Scan? { ScanKeeps(s, p);
        } else if phase.Publish? { PublishKeeps(s, p);
        } else if phase.FillNative? || phase.ReadOwn? || phase.OwnRecord? { ResultStepKeeps(s, p, move.choice);
        } else { CallStepKeeps(s, p, move.choice); }
      }
    } else {
      forall q | q in s'.phases ensures PhaseOk(s'.slots, s'.log, q, s'.phases[q]) {
        if q != p { assert PhaseOk(s.slots, s.log, q, s.phases[q]); }
      }
    }
  }

  lemma {:induction false} RunKeeps(s: State, moves: seq<Move>)
    requires Inv(s)
    ensures Inv(Run(s, moves))
    decreases |moves|
  {
    if moves != [] {
      StepKeeps(s, moves[0]);
      RunKeeps(After(s, moves[0]), moves[1..]);
    }
  }

  lemma PreparedInv(n: nat)
    ensures Inv(Prepared(n))
  {
  }

  // ----- over whole runs -----

  /** Whatever the interleaving, the model is invoked for the slots in plan order, for each at most once. */
  lemma InvocationsFollowThePlan(n: nat, moves: seq<Move>)
    ensures var s := Run(Prepared(n), moves);
            && |s.log| <= n && |s.slots| == n
            && (forall i | 0 <= i < |s.log| :: s.log[i] == i && s.slots[i].reservation.Reserved?)
            && (forall i | 0 <= i < n && s.slots[i].native.Native? :: i < |s.log|)
  {
    PreparedInv(n);
    RunKeeps(Prepared(n), moves);
  }

  /** The reserved slots are a prefix of the plan, and all of them but the last hold an admitted native result. */
  lemma ReservedPrefixIsSettled(n: nat, moves: seq<Move>, i: nat, j: nat)
    requires j < i < n && Run(Prepared(n), moves).slots[i].reservation.Reserved?
    ensures var slot := Run(Prepared(n), moves).slots[j]; slot.reservation.Reserved? && Settled(slot)
  {
    PreparedInv(n);
    RunKeeps(Prepared(n), moves);
  }

  /** At most one invocation is in flight, lost or not admitted. */
  lemma OneOpenInvocation(n: nat, moves: seq<Move>, i: nat, j: nat)
    requires var s := Run(Prepared(n), moves);
             i < n && j < n && i in s.log && j in s.log && !Settled(s.slots[i]) && !Settled(s.slots[j])
    ensures i == j
  {
    PreparedInv(n);
    RunKeeps(Prepared(n), moves);
    if i < j { ReservedPrefixIsSettled(n, moves, j, i); }
    if j < i { ReservedPrefixIsSettled(n, moves, i, j); }
  }

  /** The executor that reserved the slot will not make its native file read as an admitted outcome any more. */
  predicate Abandoned(s: State, k: nat) {
    && k < |s.slots| && s.slots[k].reservation.Reserved? && !Settled(s.slots[k])
    && var owner := s.slots[k].reservation.owner;
    && owner in s.phases
    && var phase := s.phases[owner];
    phase.FillReservation? || phase.Ready? || phase.Running? || phase.FillNative? ==> phase.k != k
  }

  /** Every live executor stands at or before such a slot, so no step reserves or invokes. */
  lemma NothingIsStarted(s: State, k: nat, p: Executor, choice: Choice)
    requires Inv(s) && Abandoned(s, k) && p in s.phases && !s.phases[p].Finished?
    ensures s.phases[p].k <= k && !s.phases[p].Ready?
    ensures s.phases[p].k < k ==> Settled(s.slots[s.phases[p].k])
    ensures After(s, Move(p, choice)).log == s.log
  {
  }

  lemma AbandonedStays(s: State, k: nat, p: Executor, choice: Choice)
    requires Inv(s) && Abandoned(s, k) && p in s.phases
    ensures Abandoned(After(s, Move(p, choice)), k)
  {
    var phase := s.phases[p];
    assert PhaseOk(s.slots, s.log, p, phase);
    if p != s.slots[k].reservation.owner {
      ActGrows(s, p, choice);
    } else if !phase.Finished? {
      NothingIsStarted(s, k, p, choice);
    }
  }

  lemma AbandonedStep(s: State, k: nat, move: Move)
    requires Inv(s) && Abandoned(s, k)
    ensures var s' := After(s, move);
            && Abandoned(s', k) && s'.log == s.log
            && forall i | 0 <= i < |s.slots| :: s'.slots[i].reservation.Reserved? <==> s.slots[i].reservation.Reserved?
  {
    var p := move.executor;
    if p in s.phases {
      AbandonedStays(s, k, p, move.choice);
      if !s.phases[p].Finished? { NothingIsStarted(s, k, p, move.choice); }
      ActGrows(s, p, move.choice);
      forall i: nat | i < |s.slots| && s.slots[i].reservation.Free? ensures After(s, move).slots[i].reservation.Free? {
      }
    }
  }

  /** A reserved slot whose native result is lost or not admitted stops the plan for good. */
  lemma {:induction false} AbandonedSlotFreezesThePlan(s: State, k: nat, moves: seq<Move>)
    requires Inv(s) && Abandoned(s, k)
    ensures var s' := Run(s, moves);
            && s'.log == s.log && |s'.slots| == |s.slots| && Abandoned(s', k)
            && forall i | 0 <= i < |s.slots| :: s'.slots[i].reservation.Reserved? <==> s.slots[i].reservation.Reserved?
    decreases |moves|
  {
    if moves != [] {
      StepKeeps(s, moves[0]);
      AbandonedStep(s, k, moves[0]);
      AbandonedSlotFreezesThePlan(After(s, moves[0]), k, moves[1..]);
    }
  }

  // ----- inspection of a directory nobody is changing -----

  function Rank(probe: Probe): nat {
    match probe
    case AskReserved => 5 case AskOrphanNative => 2 case AskOrphanRecord => 1 case ReadReserved => 4 case AskNative => 3
    case AskLoneRecord => 1 case ReadNative => 2 case AskRecord(_, _) => 1 case ReadRecord(_, _) => 0
  }

  /** All questions about one slot, in order. */
  function Verdict(slot: Slot, probe: Probe := AskReserved): (answer: Answer)
    ensures !answer.Ask?
    decreases Rank(probe)
  {
    var answer := Look(slot, probe);
    if answer.Ask? then Verdict(slot, answer.probe) else answer
  }

  predicate Increasing(xs: seq<nat>, n: nat) {
    (forall x | x in xs :: x < n) && forall a, b | 0 <= a < b < |xs| :: xs[a] < xs[b]
  }

  lemma IncreasingAppend(xs: seq<nat>, n: nat)
    requires Increasing(xs, n)
    ensures Increasing(xs + [n], n + 1)
  {
    forall x | x in xs + [n] ensures x < n + 1 { assert x in xs || x == n; }
    forall a, b | 0 <= a < b < |xs + [n]| ensures (xs + [n])[a] < (xs + [n])[b] { assert xs == [] || xs[a] in xs; }
  }

  /** What the files of a slot amount to. */
  function Evidence(slot: Slot): Answer {
    if slot.reservation.Free? then if slot.native.NoNative? && slot.record.NoRecord? then Unreserved else Conflict
    else if !slot.reservation.whole then Conflict
    else if slot.native.NoNative? then if slot.record.NoRecord? then Unknown else Conflict
    else if slot.native.value.Garbled? then Conflict
    else if slot.record.NoRecord? then Result(slot.native.size, slot.native.value.admitted, true)
    else if slot.record == Record(slot.native.size, slot.native.value.admitted) then
      Result(slot.native.size, slot.native.value.admitted, false)
    else Conflict
  }

  /** Asked step by step on unchanging files, the questions come to that. */
  lemma VerdictIsEvidence(slot: Slot)
    ensures Verdict(slot) == Evidence(slot)
  {
  }

  predicate Unpublished(slot: Slot, size: nat, admitted: bool) {
    Evidence(slot) == Result(size, admitted, true)
  }

  datatype Inspection = Inspection(records: seq<nat>, unknown: seq<nat>, pending: seq<Pending>, startedAt: Option<int>)

  const NOTHING_SEEN := Inspection([], [], [], None)

  /** One more slot, reserved at that time if at all, with such evidence. */
  function Noted(seen: Inspection, i: nat, answer: Answer, at: int): Inspection {
    match answer
    case Unknown => seen.(unknown := seen.unknown + [i], startedAt := Sooner(seen.startedAt, at))
    case Result(size, admitted, unpublished) =>
      seen.(records := seen.records + [i], startedAt := Sooner(seen.startedAt, at),
            pending := if unpublished then seen.pending + [Pending(i, size, admitted)] else seen.pending)
    case _ => seen
  }

  function Sooner(first: Option<int>, at: int): Option<int> {
    if first.None? || at < first.value then Some(at) else first
  }

  function Inspected(slots: seq<Slot>, reservedAt: seq<int>, n: nat): Inspection
    requires n <= |slots| == |reservedAt|
  {
    if n == 0 then NOTHING_SEEN
    else Noted(Inspected(slots, reservedAt, n - 1), n - 1, Evidence(slots[n - 1]), reservedAt[n - 1])
  }

  /** The lists name exactly the first `n` slots whose files amount to that, in plan order. */
  predicate Lists(slots: seq<Slot>, n: nat, seen: Inspection)
    requires n <= |slots|
  {
    && Increasing(seen.records, n) && Increasing(seen.unknown, n)
    && forall i: nat | i < n ::
         (i in seen.records <==> Evidence(slots[i]).Result?) && (i in seen.unknown <==> Evidence(slots[i]).Unknown?)
  }

  /** The records to be published are exactly those of the slots with a result and no record. */
  ghost predicate Awaits(slots: seq<Slot>, n: nat, seen: Inspection)
    requires n <= |slots|
  {
    && (forall w | w in seen.pending :: w.slot < n && Unpublished(slots[w.slot], w.size, w.admitted))
    && (forall i: nat, size, admitted | i < n && Unpublished(slots[i], size, admitted) ::
          Pending(i, size, admitted) in seen.pending)
  }

  /** The time is the earliest among the reservations, if there is one. */
  predicate Earliest(slots: seq<Slot>, reservedAt: seq<int>, n: nat, seen: Inspection)
    requires n <= |slots| == |reservedAt|
  {
    var first := seen.startedAt;
    && (forall i | 0 <= i < n && slots[i].reservation.Reserved? :: first.Some? && first.value <= reservedAt[i])
    && (first.Some? ==> exists i | 0 <= i < n :: slots[i].reservation.Reserved? && first.value == reservedAt[i])
  }

  lemma ListsExtend(slots: seq<Slot>, n: nat, seen: Inspection, at: int)
    requires n < |slots| && Lists(slots, n, seen)
    ensures Lists(slots, n + 1, Noted(seen, n, Evidence(slots[n]), at))
  {
    IncreasingAppend(seen.records, n);
    IncreasingAppend(seen.unknown, n);
  }

  lemma AwaitsExtend(slots: seq<Slot>, n: nat, seen: Inspection, at: int)
    requires n < |slots| && Awaits(slots, n, seen)
    ensures Awaits(slots, n + 1, Noted(seen, n, Evidence(slots[n]), at))
  {
  }

  lemma EarliestExtends(slots: seq<Slot>, reservedAt: seq<int>, n: nat, seen: Inspection)
    requires n < |slots| == |reservedAt| && Earliest(slots, reservedAt, n, seen) && !Evidence(slots[n]).Conflict?
    ensures Earliest(slots, reservedAt, n + 1, Noted(seen, n, Evidence(slots[n]), reservedAt[n]))
  {
  }

  lemma {:induction false} InspectedLists(slots: seq<Slot>, reservedAt: seq<int>, n: nat)
    requires n <= |slots| == |reservedAt|
    ensures Lists(slots, n, Inspected(slots, reservedAt, n))
  {
    if n > 0 {
      InspectedLists(slots, reservedAt, n - 1);
      ListsExtend(slots, n - 1, Inspected(slots, reservedAt, n - 1), reservedAt[n - 1]);
    }
  }

  lemma {:induction false} InspectedAwaits(slots: seq<Slot>, reservedAt: seq<int>, n: nat)
    requires n <= |slots| == |reservedAt|
    ensures Awaits(slots, n, Inspected(slots, reservedAt, n))
  {
    if n > 0 {
      var before := Inspected(slots, reservedAt, n - 1);
      InspectedAwaits(slots, reservedAt, n - 1);
      AwaitsExtend(slots, n - 1, before, reservedAt[n - 1]);
      assert Awaits(slots, n, Noted(before, n - 1, Evidence(slots[n - 1]), reservedAt[n - 1]));
    }
  }

  lemma {:induction false} InspectedEarliest(slots: seq<Slot>, reservedAt: seq<int>, n: nat)
    requires n <= |slots| == |reservedAt| && forall i | 0 <= i < n :: !Evidence(slots[i]).Conflict?
    ensures Earliest(slots, reservedAt, n, Inspected(slots, reservedAt, n))
  {
    if n > 0 {
      InspectedEarliest(slots, reservedAt, n - 1);
      EarliestExtends(slots, reservedAt, n - 1, Inspected(slots, reservedAt, n - 1));
    }
  }

  /** `inspectRecords` while nobody else acts; `reservedAt` holds the times that the reservations state. */
  method InspectRecords(slots: seq<Slot>, reservedAt: seq<int>) returns (thrown: bool, seen: Inspection)
    requires |reservedAt| == |slots|
    ensures thrown <==> exists i :: 0 <= i < |slots| && Evidence(slots[i]).Conflict?
    ensures !thrown ==>
              && Lists(slots, |slots|, seen) && Awaits(slots, |slots|, seen)
              && Earliest(slots, reservedAt, |slots|, seen)
  {
    var records: seq<nat>, unknown: seq<nat>, pending: seq<Pending> := [], [], [];
    var startedAt: Option<int> := None;
    thrown, seen := true, NOTHING_SEEN;
    for i := 0 to |slots|
      invariant thrown && forall h | 0 <= h < i :: !Evidence(slots[h]).Conflict?
      invariant Inspection(records, unknown, pending, startedAt) == Inspected(slots, reservedAt, i)
    {
      var slot := slots[i];
      if slot.reservation.Free? {
        if slot.native.Native? || !slot.record.NoRecord? { return; }
        continue;
      }
      if !slot.reservation.whole { return; }
      if startedAt.None? || reservedAt[i] < startedAt.value { startedAt := Some(reservedAt[i]); }
      if slot.native.NoNative? {
        if !slot.record.NoRecord? { return; }
        unknown := unknown + [i];
        continue;
      }
      if slot.native.value.Garbled? { return; }
      var record := Record(slot.native.size, slot.native.value.admitted);
      if !slot.record.NoRecord? {
        if slot.record != record { return; }
      } else {
        pending := pending + [Pending(i, record.size, record.admitted)];
      }
      records := records + [i];
    }
    InspectedLists(slots, reservedAt, |slots|);
    InspectedAwaits(slots, reservedAt, |slots|);
    InspectedEarliest(slots, reservedAt, |slots|);
    thrown, seen := false, Inspection(records, unknown, pending, startedAt);
  }

  /** No file is half written. */
  predicate Quiet(slots: seq<Slot>) {
    forall i | 0 <= i < |slots| ::
      && (slots[i].reservation.Reserved? ==> slots[i].reservation.whole)
      && (slots[i].native.Native? ==> slots[i].native.value.Outcome?)
      && !slots[i].record.TornRecord?
  }

  /** The record was derived from a native file that has grown since. */
  predicate Stale(slot: Slot) {
    slot.record.Record? && slot.native.Native? && slot.record.size < slot.native.size
  }

  /** After any run that leaves no file half written, an inspection throws exactly when some record was derived from a
      native file that still grew afterwards, and it misses no invocation. */
  lemma InspectionOfAReachedDirectory(n: nat, moves: seq<Move>, i: nat)
    requires i < n && Quiet(Run(Prepared(n), moves).slots)
    ensures var s := Run(Prepared(n), moves); var slot := s.slots[i];
            && (Evidence(slot).Conflict? <==> Stale(slot))
            && (!Evidence(slot).Conflict? && i in s.log ==> Evidence(slot).Unknown? || Evidence(slot).Result?)
  {
    PreparedInv(n);
    RunKeeps(Prepared(n), moves);
    var s := Run(Prepared(n), moves);
    assert SlotsOk(s.slots) && LogOk(s.slots, s.log);
  }

  // ----- which runs leave an early record -----

  /** The slot whose record file this executor has created and not yet written. */
  function Creating(phase: Phase): set<nat> {
    match phase
    case Publish(_, created, _, _, pending) => if created && pending != [] then {pending[0].slot} else {}
    case OwnRecord(k, created, _, _) => if created then {k} else {}
    case _ => {}
  }

  predicate CreatorOk(slots: seq<Slot>, phase: Phase) {
    forall j | j in Creating(phase) :: j < |slots| && slots[j].record.TornRecord?
  }

  /** Half-written records have one writer each, so that a complete record is never written again. */
  ghost predicate CreatorsOk(slots: seq<Slot>, phases: map<Executor, Phase>) {
    && (forall p | p in phases :: CreatorOk(slots, phases[p]))
    && (forall p, q | p in phases && q in phases && p != q :: Creating(phases[p]) !! Creating(phases[q]))
  }

  /** A record file is written by the executor that created it; all others only create it. */
  predicate RecordsStep(slots: seq<Slot>, phase: Phase, slots': seq<Slot>, phase': Phase) {
    && |slots'| == |slots|
    && (forall j | j in Creating(phase') :: j < |slots| && slots[j].record.NoRecord? && slots'[j].record.TornRecord?)
    && (forall j: nat | j < |slots| && slots'[j].record != slots[j].record ::
          j in Creating(phase) || (slots[j].record.NoRecord? && slots'[j].record.TornRecord?))
  }

  lemma OwnRecordStep(slots: seq<Slot>, p: Executor, phase: Phase, choice: Choice)
    requires !phase.Scan? && !phase.Publish? && !phase.Decide? && !phase.Finished? && phase.k < |slots|
    ensures var next := OwnStep(slots[phase.k], |slots|, p, phase, choice);
            RecordsStep(slots, phase, slots[phase.k := next.0], next.1)
  {
  }

  lemma PublishRecordStep(slots: seq<Slot>, phase: Phase)
    requires phase.Publish?
    ensures RecordsStep(slots, phase, PublishStep(slots, phase).0, PublishStep(slots, phase).1)
  {
  }

  lemma RecordStep(slots: seq<Slot>, p: Executor, phase: Phase, choice: Choice)
    ensures var next := Act(slots, p, phase, choice); RecordsStep(slots, phase, next.0, next.1)
  {
    if choice.Stop? || phase.Finished? || phase.Scan? || phase.Decide? {
    } else if phase.Publish? {
      PublishRecordStep(slots, phase);
    } else if phase.k < |slots| {
      OwnRecordStep(slots, p, phase, choice);
    }
  }

  lemma CreatorsKeep(s: State, move: Move)
    requires Inv(s) && CreatorsOk(s.slots, s.phases)
    ensures CreatorsOk(After(s, move).slots, After(s, move).phases)
  {
    var p, s' := move.executor, After(s, move);
    if p in s.phases {
      RecordStep(s.slots, p, s.phases[p], move.choice);
      forall q | q in s'.phases ensures CreatorOk(s'.slots, s'.phases[q]) {
        if q != p { assert CreatorOk(s.slots, s.phases[q]) && Creating(s.phases[p]) !! Creating(s.phases[q]); }
      }
      forall q | q in s'.phases && q != p ensures Creating(s'.phases[p]) !! Creating(s'.phases[q]) {
        assert CreatorOk(s.slots, s.phases[q]);
      }
    }
  }

  ghost predicate AnyStale(slots: seq<Slot>) {
    exists i :: 0 <= i < |slots| && Stale(slots[i])
  }

  /** The moves that leave a record behind its native file: the writer goes on although a record is published, or a
      record is published from a view older than the last chunk. */
  predicate Spoils(s: State, move: Move) {
    move.executor in s.phases && !move.choice.Stop? &&
    match s.phases[move.executor]
    case FillNative(k) =>
      && move.choice.Chunk? && k < |s.slots| && s.slots[k].record.Record? && s.slots[k].native.Native?
      && (s.slots[k].native.value == Outcome(true) ==> move.choice.value == Outcome(true))
    case Publish(_, created, _, _, pending) =>
      && created && pending != [] && pending[0].slot < |s.slots|
      && s.slots[pending[0].slot].native.Native? && pending[0].size < s.slots[pending[0].slot].native.size
    case _ => false
  }

  lemma StepSpoils(s: State, move: Move)
    requires Inv(s) && CreatorsOk(s.slots, s.phases)
    ensures AnyStale(After(s, move).slots) <==> AnyStale(s.slots) || Spoils(s, move)
  {
    var p, s' := move.executor, After(s, move);
    if p in s.phases {
      assert PhaseOk(s.slots, s.log, p, s.phases[p]);
      RecordStep(s.slots, p, s.phases[p], move.choice);
      ActGrows(s, p, move.choice);
      assert CreatorOk(s.slots, s.phases[p]);
      forall i: nat | i < |s.slots| && Stale(s.slots[i]) ensures Stale(s'.slots[i]) {
      }
    }
  }

  /** Some move of the run leaves a record behind its native file. */
  ghost predicate Spoiled(s: State, moves: seq<Move>)
    decreases |moves|
  {
    moves != [] && (Spoils(s, moves[0]) || Spoiled(After(s, moves[0]), moves[1..]))
  }

  lemma {:induction false} RunSpoils(s: State, moves: seq<Move>)
    requires Inv(s) && CreatorsOk(s.slots, s.phases)
    ensures AnyStale(Run(s, moves).slots) <==> AnyStale(s.slots) || Spoiled(s, moves)
    decreases |moves|
  {
    if moves != [] {
      StepKeeps(s, moves[0]);
      CreatorsKeep(s, moves[0]);
      StepSpoils(s, moves[0]);
      RunSpoils(After(s, moves[0]), moves[1..]);
    }
  }

  /** Where no file is half written, the inspection throws if and only if some move of the run left a record behind. */
  lemma InspectionThrowsExactly(n: nat, moves: seq<Move>)
    requires Quiet(Run(Prepared(n), moves).slots)
    ensures (exists i :: 0 <= i < n && Evidence(Run(Prepared(n), moves).slots[i]).Conflict?)
            <==> Spoiled(Prepared(n), moves)
  {
    PreparedInv(n);
    RunSpoils(Prepared(n), moves);
    var slots := Run(Prepared(n), moves).slots;
    forall i: nat | i < n ensures Evidence(slots[i]).Conflict? <==> Stale(slots[i]) {
      InspectionOfAReachedDirectory(n, moves, i);
    }
  }

  // ----- no outcome goes unrecorded -----

  /** The executor has written the native outcome of slot `k` and is about to derive and publish its record. */
  predicate Deriving(s: State, p: Executor, k: nat, size: nat, admitted: bool) {
    && p in s.phases && k < |s.slots|
    && s.slots[k].reservation == Reserved(p, true) && s.slots[k].native == Native(size, Outcome(admitted))
    && (s.phases[p] == ReadOwn(k) || s.phases[p] == OwnRecord(k, false, size, admitted)
        || s.phases[p] == OwnRecord(k, true, size, admitted))
  }

  /** It has published it and left the slot. */
  predicate Derives(s: State, p: Executor, k: nat, size: nat, admitted: bool) {
    && p in s.phases && k < |s.slots|
    && s.slots[k].reservation == Reserved(p, true) && s.slots[k].native == Native(size, Outcome(admitted))
    && s.slots[k].record == Record(size, admitted) && (s.phases[p].Finished? || s.phases[p].k > k)
  }

  /** Somebody else's record is there before its own. */
  predicate Forestalled(s: State, p: Executor, k: nat, size: nat, admitted: bool) {
    Deriving(s, p, k, size, admitted) && !Creates(s.phases[p]) && !s.slots[k].record.NoRecord?
  }

  predicate Creates(phase: Phase) {
    phase.OwnRecord? && phase.created
  }

  /** At some point of the run. */
  ghost predicate ForestalledIn(s: State, moves: seq<Move>, p: Executor, k: nat, size: nat, admitted: bool)
    decreases |moves|
  {
    Forestalled(s, p, k, size, admitted)
    || (moves != [] && ForestalledIn(After(s, moves[0]), moves[1..], p, k, size, admitted))
  }

  lemma DerivedStays(s: State, move: Move, p: Executor, k: nat, size: nat, admitted: bool)
    requires Inv(s) && CreatorsOk(s.slots, s.phases) && Derives(s, p, k, size, admitted)
    ensures Derives(After(s, move), p, k, size, admitted)
  {
    var q := move.executor;
    if q in s.phases {
      RecordStep(s.slots, q, s.phases[q], move.choice);
      ActGrows(s, q, move.choice);
      assert CreatorOk(s.slots, s.phases[q]) && PhaseOk(s.slots, s.log, q, s.phases[q]);
    }
  }

  lemma DerivingGoesOn(s: State, move: Move, p: Executor, k: nat, size: nat, admitted: bool)
    requires Inv(s) && CreatorsOk(s.slots, s.phases) && Deriving(s, p, k, size, admitted)
    requires move != Move(p, Stop) && !Forestalled(s, p, k, size, admitted)
    ensures Deriving(After(s, move), p, k, size, admitted) || Derives(After(s, move), p, k, size, admitted)
  {
    var q := move.executor;
    if q in s.phases && q != p { ActGrows(s, q, move.choice); }
  }

  /** Over every run: an executor that has written a complete outcome, admitted or not, and is not stopped, either is
      still deriving the record, or has left exactly that record, unless another executor created one first. */
  lemma {:induction false} NoOutcomeGoesUnrecorded(s: State, moves: seq<Move>, p: Executor, k: nat, size: nat,
                                                   admitted: bool)
    requires Inv(s) && CreatorsOk(s.slots, s.phases)
    requires Deriving(s, p, k, size, admitted) || Derives(s, p, k, size, admitted)
    requires Move(p, Stop) !in moves
    ensures var t := Run(s, moves);
            || ForestalledIn(s, moves, p, k, size, admitted)
            || Deriving(t, p, k, size, admitted) || Derives(t, p, k, size, admitted)
    decreases |moves|
  {
    if moves != [] && !Forestalled(s, p, k, size, admitted) {
      var t := After(s, moves[0]);
      StepKeeps(s, moves[0]);
      CreatorsKeep(s, moves[0]);
      if Derives(s, p, k, size, admitted) {
        DerivedStays(s, moves[0], p, k, size, admitted);
      } else {
        DerivingGoesOn(s, moves[0], p, k, size, admitted);
      }
      NoOutcomeGoesUnrecorded(t, moves[1..], p, k, size, admitted);
    }
  }

  lemma {:induction false} RunsConcatenate(s: State, moves: seq<Move>, more: seq<Move>)
    ensures Run(s, moves + more) == Run(Run(s, moves), more)
    decreases |moves|
  {
    if moves == [] {
      assert [] + more == more;
    } else {
      assert (moves + more)[1..] == moves[1..] + more;
      RunsConcatenate(After(s, moves[0]), moves[1..], more);
    }
  }

  ghost predicate Reaches(s: State, t: State) {
    exists moves :: Run(s, moves) == t
  }

  lemma Here(s: State)
    ensures Reaches(s, s)
  {
    assert Run(s, []) == s;
  }

  lemma Through(s: State, t: State, u: State)
    requires Reaches(s, t) && Reaches(t, u)
    ensures Reaches(s, u)
  {
    var moves, more :| Run(s, moves) == t && Run(t, more) == u;
    RunsConcatenate(s, moves, more);
  }

  lemma Onward(o: State, s: State, p: Executor, choice: Choice, s': State)
    requires Reaches(o, s)
    requires var t := After(s, Move(p, choice)); t.slots == s'.slots && t.phases == s'.phases && t.log == s'.log
    ensures Reaches(o, s')
  {
    assert Run(s, [Move(p, choice)]) == s';
    Through(o, s, s');
  }

  /** A lone executor takes its slot from free to recorded, whatever the outcome of the call: it invokes the model once
      and publishes the record of exactly that outcome; then it moves on if the outcome is admitted and ends if not. */
  lemma CallIsRecorded(s: State, p: Executor, admitted: bool)
    requires p in s.phases && s.phases[p].Reserve? && s.phases[p].k < |s.slots|
    requires s.slots[s.phases[p].k] == Slot(Free, NoNative, NoRecord)
    ensures var k := s.phases[p].k;
            Reaches(s, State(s.slots[k := Slot(Reserved(p, true), Native(1, Outcome(admitted)), Record(1, admitted))],
                             s.phases[p := if admitted then Begin(|s.slots|, k + 1) else Finished], s.log + [k]))
  {
    var k := s.phases[p].k;
    var slot := Slot(Reserved(p, true), Native(1, Outcome(admitted)), NoRecord);
    ReservesAndCalls(s, p, admitted);
    var s1 := State(s.slots[k := slot], s.phases[p := FillNative(k)], s.log + [k]);
    var s2 := s1.(phases := s.phases[p := ReadOwn(k)]);
    Onward(s, s1, p, Advance, s2);
    var s3 := s1.(phases := s.phases[p := OwnRecord(k, false, 1, admitted)]);
    Onward(s, s2, p, Advance, s3);
    var s4 := s3.(slots := s.slots[k := slot.(record := TornRecord)],
                  phases := s.phases[p := OwnRecord(k, true, 1, admitted)]);
    Onward(s, s3, p, Advance, s4);
    Onward(s, s4, p, Advance,
           s4.(slots := s.slots[k := slot.(record := Record(1, admitted))],
               phases := s.phases[p := if admitted then Begin(|s.slots|, k + 1) else Finished]));
  }

  lemma ReservesAndCalls(s: State, p: Executor, admitted: bool)
    requires p in s.phases && s.phases[p].Reserve? && s.phases[p].k < |s.slots|
    requires s.slots[s.phases[p].k] == Slot(Free, NoNative, NoRecord)
    ensures var k := s.phases[p].k;
            Reaches(s, State(s.slots[k := Slot(Reserved(p, true), Native(1, Outcome(admitted)), NoRecord)],
                             s.phases[p := FillNative(k)], s.log + [k]))
  {
    var k := s.phases[p].k;
    var held := Slot(Reserved(p, true), NoNative, NoRecord);
    Here(s);
    var s1 := s.(slots := s.slots[k := held.(reservation := Reserved(p, false))],
                 phases := s.phases[p := FillReservation(k)]);
    Onward(s, s, p, Advance, s1);
    var s2 := s.(slots := s.slots[k := held], phases := s.phases[p := Ready(k)]);
    Onward(s, s1, p, Advance, s2);
    var s3 := State(s2.slots, s.phases[p := Running(k)], s.log + [k]);
    Onward(s, s2, p, Advance, s3);
    var s4 := s3.(slots := s.slots[k := held.(native := Native(0, Garbled))], phases := s.phases[p := FillNative(k)]);
    Onward(s, s3, p, Advance, s4);
    Onward(s, s4, p, Chunk(Outcome(admitted)),
           s4.(slots := s.slots[k := held.(native := Native(1, Outcome(admitted)))]));
  }

  // ----- a pass that nobody disturbs -----

  /** The states of a run in which this executor alone goes on, step by step. */
  ghost predicate Solo(s: State, p: Executor, path: seq<State>, t: State) {
    && path != [] && path[0] == s && path[|path| - 1] == t
    && forall i | 0 <= i < |path| - 1 :: path[i + 1] == After(path[i], Move(p, Advance))
  }

  ghost predicate Goes(s: State, p: Executor, t: State) {
    exists path :: Solo(s, p, path, t)
  }

  function At(s: State, p: Executor, phase: Phase): State {
    State(s.slots, s.phases[p := phase], s.log)
  }

  lemma ActGoes(o: State, s: State, p: Executor, phase: Phase)
    requires Goes(o, p, At(s, p, phase)) && !phase.Ready?
    ensures var next := Act(s.slots, p, phase, Advance);
            Goes(o, p, State(next.0, s.phases[p := next.1], s.log))
  {
    var next := Act(s.slots, p, phase, Advance);
    var path :| Solo(o, p, path, At(s, p, phase));
    assert s.phases[p := phase][p := next.1] == s.phases[p := next.1];
    var t := State(next.0, s.phases[p := next.1], s.log);
    assert Solo(o, p, path + [t], t);
  }

  lemma {:induction false} VerdictGoes(o: State, s: State, p: Executor, phase: Phase)
    requires phase.Scan? && phase.j < |s.slots| && Goes(o, p, At(s, p, phase))
    ensures Goes(o, p, At(s, p, Answered(phase, Verdict(s.slots[phase.j], phase.probe))))
    decreases Rank(phase.probe)
  {
    var answer := Look(s.slots[phase.j], phase.probe);
    ActGoes(o, s, p, phase);
    if answer.Ask? { VerdictGoes(o, s, p, Answered(phase, answer)); }
  }

  function Results(slots: seq<Slot>, n: nat): set<nat>
    requires n <= |slots|
  {
    set i: nat | i < n && Evidence(slots[i]).Result?
  }

  /** Some outcome is unknown or not admitted. */
  predicate Stops(slots: seq<Slot>, n: nat)
    requires n <= |slots|
  {
    exists i: nat :: i < n && HoldsBack(Evidence(slots[i]))
  }

  predicate HoldsBack(answer: Answer) {
    answer.Unknown? || (answer.Result? && !answer.admitted)
  }

  function Looked(slots: seq<Slot>, reservedAt: seq<int>, k: nat, n: nat): Phase
    requires n <= |slots| == |reservedAt|
  {
    Scan(k, n, AskReserved, Results(slots, n), Stops(slots, n), Inspected(slots, reservedAt, n).pending)
  }

  lemma LooksOn(slots: seq<Slot>, reservedAt: seq<int>, k: nat, n: nat)
    requires n < |slots| == |reservedAt| && !Evidence(slots[n]).Conflict?
    ensures Answered(Looked(slots, reservedAt, k, n), Evidence(slots[n])) == Looked(slots, reservedAt, k, n + 1)
  {
    var answer := Evidence(slots[n]);
    assert Results(slots, n + 1) == if answer.Result? then Results(slots, n) + {n} else Results(slots, n);
    assert Stops(slots, n + 1) <==> Stops(slots, n) || HoldsBack(answer) by {
      if HoldsBack(answer) { assert n < n + 1 && HoldsBack(Evidence(slots[n])); }
    }
  }

  predicate Undisputed(slots: seq<Slot>, n: nat)
    requires n <= |slots|
  {
    forall i | 0 <= i < n :: !Evidence(slots[i]).Conflict?
  }

  lemma LookStep(s: State, p: Executor, reservedAt: seq<int>, k: nat, n: nat)
    requires n < |s.slots| == |reservedAt| && !Evidence(s.slots[n]).Conflict?
    requires Goes(s, p, At(s, p, Looked(s.slots, reservedAt, k, n)))
    ensures Goes(s, p, At(s, p, Looked(s.slots, reservedAt, k, n + 1)))
  {
    VerdictGoes(s, s, p, Looked(s.slots, reservedAt, k, n));
    VerdictIsEvidence(s.slots[n]);
    LooksOn(s.slots, reservedAt, k, n);
  }

  lemma LookBegins(s: State, p: Executor, reservedAt: seq<int>, k: nat)
    requires p in s.phases && s.phases[p] == Scan(k, 0, AskReserved, {}, false, []) && |s.slots| == |reservedAt|
    ensures Goes(s, p, At(s, p, Looked(s.slots, reservedAt, k, 0)))
  {
    assert Solo(s, p, [s], s);
    assert Results(s.slots, 0) == {} && s.phases[p := s.phases[p]] == s.phases;
  }

  lemma {:induction false} LookGoes(s: State, p: Executor, reservedAt: seq<int>, k: nat, n: nat)
    requires p in s.phases && s.phases[p] == Scan(k, 0, AskReserved, {}, false, [])
    requires n <= |s.slots| == |reservedAt| && Undisputed(s.slots, n)
    ensures Goes(s, p, At(s, p, Looked(s.slots, reservedAt, k, n)))
  {
    if n == 0 {
      LookBegins(s, p, reservedAt, k);
    } else {
      LookGoes(s, p, reservedAt, k, n - 1);
      LookStep(s, p, reservedAt, k, n - 1);
    }
  }

  /** The slot with the record that an inspection finds missing. */
  function Complemented(slot: Slot): Slot {
    var answer := Evidence(slot);
    if answer.Result? && answer.unpublished then slot.(record := Record(answer.size, answer.admitted)) else slot
  }

  /** All slots from `from` on complemented. */
  function Complements(slots: seq<Slot>, from: nat): seq<Slot> {
    seq(|slots|, i requires 0 <= i < |slots| => if i < from then slots[i] else Complemented(slots[i]))
  }

  // Records are published in plan order: those of the slots before `from` are there, those from `from` on are missing.
  ghost predicate Missing(slots: seq<Slot>, from: nat, pending: seq<Pending>) {
    && (forall x | 0 <= x < |pending| ::
          from <= pending[x].slot < |slots|
          && Unpublished(slots[pending[x].slot], pending[x].size, pending[x].admitted))
    && (forall x, y | 0 <= x < y < |pending| :: pending[x].slot < pending[y].slot)
    && (forall i: nat, size, admitted | from <= i < |slots| && Unpublished(slots[i], size, admitted) ::
          exists x :: 0 <= x < |pending| && pending[x].slot == i)
  }

  predicate InOrder(pending: seq<Pending>, n: nat) {
    && (forall x | 0 <= x < |pending| :: pending[x].slot < n)
    && (forall x, y | 0 <= x < y < |pending| :: pending[x].slot < pending[y].slot)
  }

  lemma {:induction false} PendingInOrder(slots: seq<Slot>, reservedAt: seq<int>, n: nat)
    requires n <= |slots| == |reservedAt|
    ensures InOrder(Inspected(slots, reservedAt, n).pending, n)
  {
    if n > 0 {
      PendingInOrder(slots, reservedAt, n - 1);
      var before, answer := Inspected(slots, reservedAt, n - 1).pending, Evidence(slots[n - 1]);
      if answer.Result? && answer.unpublished {
        assert InOrder(before + [Pending(n - 1, answer.size, answer.admitted)], n);
      } else {
        assert InOrder(before, n);
      }
    }
  }

  lemma AllMissing(slots: seq<Slot>, reservedAt: seq<int>)
    requires |slots| == |reservedAt|
    ensures Missing(slots, 0, Inspected(slots, reservedAt, |slots|).pending)
  {
    var n, pending := |slots|, Inspected(slots, reservedAt, |slots|).pending;
    InspectedAwaits(slots, reservedAt, n);
    PendingInOrder(slots, reservedAt, n);
    forall x | 0 <= x < |pending| ensures Unpublished(slots[pending[x].slot], pending[x].size, pending[x].admitted) {
      assert pending[x] in pending;
    }
    forall i: nat, size, admitted | i < |slots| && Unpublished(slots[i], size, admitted)
      ensures exists x :: 0 <= x < |pending| && pending[x].slot == i
    {
      assert Pending(i, size, admitted) in pending;
    }
  }

  lemma NothingMissing(slots: seq<Slot>, from: nat)
    requires Missing(slots, from, [])
    ensures Complements(slots, from) == slots
  {
    forall i | 0 <= i < |slots| && i >= from ensures Complemented(slots[i]) == slots[i] {
      var answer := Evidence(slots[i]);
      assert answer.Result? && answer.unpublished ==> Unpublished(slots[i], answer.size, answer.admitted);
    }
  }

  function WithRecord(slots: seq<Slot>, w: Pending): seq<Slot>
    requires w.slot < |slots|
  {
    slots[w.slot := slots[w.slot].(record := Record(w.size, w.admitted))]
  }

  lemma LaterMissing(slots: seq<Slot>, from: nat, pending: seq<Pending>)
    requires pending != [] && Missing(slots, from, pending)
    ensures Missing(WithRecord(slots, pending[0]), pending[0].slot + 1, pending[1..])
  {
    var w, later, slots' := pending[0], pending[1..], WithRecord(slots, pending[0]);
    assert forall x | 0 <= x < |later| :: later[x] == pending[x + 1];
    forall i: nat, size, admitted | w.slot < i < |slots'| && Unpublished(slots'[i], size, admitted)
      ensures exists x :: 0 <= x < |later| && later[x].slot == i
    {
      assert Unpublished(slots[i], size, admitted);
      var x :| 0 <= x < |pending| && pending[x].slot == i;
      assert later[x - 1].slot == i;
    }
  }

  lemma OnePublished(slots: seq<Slot>, from: nat, pending: seq<Pending>)
    requires pending != [] && Missing(slots, from, pending)
    ensures Complements(WithRecord(slots, pending[0]), pending[0].slot + 1) == Complements(slots, from)
  {
    var w := pending[0];
    assert Unpublished(slots[w.slot], w.size, w.admitted);
    forall i | from <= i < w.slot ensures Complemented(slots[i]) == slots[i] {
      assert forall x | 0 <= x < |pending| :: pending[x].slot >= w.slot;
      var answer := Evidence(slots[i]);
      assert answer.Result? && answer.unpublished ==> Unpublished(slots[i], answer.size, answer.admitted);
    }
  }

  lemma OneGoes(o: State, s: State, p: Executor, k: nat, seen: set<nat>, stop: bool, pending: seq<Pending>)
    requires pending != [] && pending[0].slot < |s.slots| && s.slots[pending[0].slot].record.NoRecord?
    requires Goes(o, p, At(s, p, Publish(k, false, seen, stop, pending)))
    ensures Goes(o, p, State(WithRecord(s.slots, pending[0]),
                             s.phases[p := Publish(k, false, seen, stop, pending[1..])], s.log))
  {
    var w := pending[0];
    ActGoes(o, s, p, Publish(k, false, seen, stop, pending));
    var torn := s.(slots := s.slots[w.slot := s.slots[w.slot].(record := TornRecord)]);
    ActGoes(o, torn, p, Publish(k, true, seen, stop, pending));
    assert WithRecord(torn.slots, w) == WithRecord(s.slots, w);
  }

  lemma {:induction false} PublishGoes(o: State, s: State, p: Executor, k: nat, seen: set<nat>, stop: bool,
                                       pending: seq<Pending>, from: nat)
    requires Missing(s.slots, from, pending) && Goes(o, p, At(s, p, Publish(k, false, seen, stop, pending)))
    ensures Goes(o, p, State(Complements(s.slots, from), s.phases[p := Decide(k, seen, stop)], s.log))
    decreases |pending|
  {
    if pending == [] {
      NothingMissing(s.slots, from);
      ActGoes(o, s, p, Publish(k, false, seen, stop, pending));
    } else {
      var w := pending[0];
      assert Unpublished(s.slots[w.slot], w.size, w.admitted);
      LaterMissing(s.slots, from, pending);
      OnePublished(s.slots, from, pending);
      OneGoes(o, s, p, k, seen, stop, pending);
      PublishGoes(o, s.(slots := WithRecord(s.slots, w)), p, k, seen, stop, pending[1..], w.slot + 1);
    }
  }

  /** A pass that nobody disturbs, over any files.  If no slot conflicts, it publishes every missing record, sees
      exactly the slots with a result, and knows whether to stop; otherwise it ends at the first conflict and leaves
      every file as it was. */
  lemma PassGoes(s: State, p: Executor, k: nat)
    requires p in s.phases && k < |s.slots| && s.phases[p] == Begin(|s.slots|, k)
    ensures !Undisputed(s.slots, |s.slots|) ==> Goes(s, p, At(s, p, Finished))
    ensures Undisputed(s.slots, |s.slots|) ==>
              var seen, stop := Results(s.slots, |s.slots|), Stops(s.slots, |s.slots|);
              var t := State(Complements(s.slots, 0), s.phases[p := Decide(k, seen, stop)], s.log);
              && Goes(s, p, t)
              && Goes(s, p, At(t, p, if stop then Finished
                                     else if Evidence(s.slots[k]).Result? then Begin(|s.slots|, k + 1)
                                     else Reserve(k)))
  {
    var n := |s.slots|;
    var reservedAt := seq(n, _ => 0);
    if !Undisputed(s.slots, n) {
      var i := FirstConflict(s.slots, n);
      LookGoes(s, p, reservedAt, k, i);
      VerdictGoes(s, s, p, Looked(s.slots, reservedAt, k, i));
      VerdictIsEvidence(s.slots[i]);
    } else {
      LookGoes(s, p, reservedAt, k, n);
      PublishAndDecide(s, p, reservedAt, k);
    }
  }

  lemma {:induction false} FirstConflict(slots: seq<Slot>, n: nat) returns (i: nat)
    requires n <= |slots| && !Undisputed(slots, n)
    ensures i < n && Evidence(slots[i]).Conflict? && Undisputed(slots, i)
  {
    i := n - 1;
    if !Undisputed(slots, n - 1) { i := FirstConflict(slots, n - 1); }
  }

  lemma PublishAndDecide(s: State, p: Executor, reservedAt: seq<int>, k: nat)
    requires k < |s.slots| == |reservedAt|
    requires Goes(s, p, At(s, p, Looked(s.slots, reservedAt, k, |s.slots|)))
    ensures var seen, stop := Results(s.slots, |s.slots|), Stops(s.slots, |s.slots|);
            var t := State(Complements(s.slots, 0), s.phases[p := Decide(k, seen, stop)], s.log);
            && Goes(s, p, t)
            && Goes(s, p, At(t, p, if stop then Finished
                                   else if Evidence(s.slots[k]).Result? then Begin(|s.slots|, k + 1)
                                   else Reserve(k)))
  {
    var n, pending := |s.slots|, Inspected(s.slots, reservedAt, |s.slots|).pending;
    ActGoes(s, s, p, Looked(s.slots, reservedAt, k, n));
    AllMissing(s.slots, reservedAt);
    PublishGoes(s, s, p, k, Results(s.slots, n), Stops(s.slots, n), pending, 0);
    DecideGoes(s, s.(slots := Complements(s.slots, 0)), p, k, Results(s.slots, n), Stops(s.slots, n));
    var seen, stop := Results(s.slots, n), Stops(s.slots, n);
    var next := if stop then Finished else if k in seen then Begin(n, k + 1) else Reserve(k);
    assert s.phases[p := Decide(k, seen, stop)][p := next] == s.phases[p := next];
  }

  lemma DecideGoes(o: State, s: State, p: Executor, k: nat, seen: set<nat>, stop: bool)
    requires Goes(o, p, At(s, p, Decide(k, seen, stop)))
    ensures Goes(o, p, At(s, p, if stop then Finished
                                else if k in seen then Begin(|s.slots|, k + 1) else Reserve(k)))
  {
    ActGoes(o, s, p, Decide(k, seen, stop));
  }

  // ----- a lone executor -----

  const DONE := Native(1, Outcome(true))

  function Below(n: nat): (r: set<nat>)
    ensures forall x: nat :: x in r <==> x < n
  {
    if n == 0 then {} else Below(n - 1) + {n - 1}
  }

  /** The slots before `k` are settled and recorded by `p`, the others free. */
  function Half(n: nat, k: nat, p: Executor): seq<Slot> {
    seq(n, i => if i < k then Slot(Reserved(p, true), DONE, Record(1, true)) else FRESH)
  }

  function Count(k: nat): seq<nat> {
    seq(k, i => i)
  }

  /** An inspection that nobody disturbs comes to the verdict on the slot it has reached. */
  lemma {:induction false} ScanReaches(o: State, s: State, p: Executor)
    requires p in s.phases && s.phases[p].Scan? && s.phases[p].j < |s.slots| && Reaches(o, s)
    ensures var phase := s.phases[p];
            Reaches(o, s.(phases := s.phases[p := Answered(phase, Verdict(s.slots[phase.j], phase.probe))]))
    decreases Rank(s.phases[p].probe)
  {
    var phase := s.phases[p];
    var answer := Look(s.slots[phase.j], phase.probe);
    var s' := s.(phases := s.phases[p := Answered(phase, answer)]);
    Onward(o, s, p, Advance, s');
    if answer.Ask? {
      ScanReaches(o, s', p);
      assert s'.phases[p := Answered(s'.phases[p], Verdict(s.slots[phase.j], answer.probe))]
          == s.phases[p := Answered(phase, Verdict(s.slots[phase.j], phase.probe))];
    }
  }

  function Scanning(n: nat, k: nat, j: nat, p: Executor): State {
    State(Half(n, k, p), map[p := Scan(k, j, AskReserved, Below(if j < k then j else k), false, [])], Count(k))
  }

  lemma ScansOne(o: State, n: nat, k: nat, j: nat, p: Executor)
    requires k < n && j < n && Reaches(o, Scanning(n, k, j, p))
    ensures Reaches(o, Scanning(n, k, j + 1, p))
  {
    var s := Scanning(n, k, j, p);
    ScanReaches(o, s, p);
    VerdictIsEvidence(s.slots[j]);
    assert j < k ==> Below(j) + {j} == Below(j + 1);
    assert s.phases[p := Answered(s.phases[p], Evidence(s.slots[j]))] == Scanning(n, k, j + 1, p).phases;
  }

  lemma {:induction false} ScanThrough(o: State, n: nat, k: nat, j: nat, p: Executor)
    requires k < n && j <= n && Reaches(o, Scanning(n, k, 0, p))
    ensures Reaches(o, Scanning(n, k, j, p))
  {
    if j > 0 {
      ScanThrough(o, n, k, j - 1, p);
      ScansOne(o, n, k, j - 1, p);
    }
  }

  lemma SlotIsDone(n: nat, k: nat, p: Executor)
    requires k < n
    ensures Half(n, k, p)[k] == FRESH
    ensures Half(n, k, p)[k := Slot(Reserved(p, true), DONE, Record(1, true))] == Half(n, k + 1, p)
    ensures Count(k) + [k] == Count(k + 1)
  {
  }

  lemma TakesItsSlot(o: State, n: nat, k: nat, p: Executor)
    requires k < n && Reaches(o, Scanning(n, k, n, p))
    ensures Reaches(o, State(Half(n, k, p), map[p := Reserve(k)], Count(k)))
  {
    var s := Scanning(n, k, n, p);
    var s1 := State(s.slots, map[p := Publish(k, false, Below(k), false, [])], s.log);
    Onward(o, s, p, Advance, s1);
    var s2 := State(s.slots, map[p := Decide(k, Below(k), false)], s.log);
    Onward(o, s1, p, Advance, s2);
    Onward(o, s2, p, Advance, State(s.slots, map[p := Reserve(k)], s.log));
  }

  lemma CompletesItsSlot(n: nat, k: nat, p: Executor)
    requires k < n
    ensures Reaches(State(Half(n, k, p), map[p := Reserve(k)], Count(k)),
                    State(Half(n, k + 1, p), map[p := Begin(n, k + 1)], Count(k + 1)))
  {
    var s := State(Half(n, k, p), map[p := Reserve(k)], Count(k));
    SlotIsDone(n, k, p);
    CallIsRecorded(s, p, true);
    assert s.phases[p := Begin(n, k + 1)] == map[p := Begin(n, k + 1)];
  }

  /** One pass: the executor looks at all slots, takes the next one and completes it. */
  lemma PassReaches(o: State, n: nat, k: nat, p: Executor)
    requires k < n && Reaches(o, Scanning(n, k, 0, p))
    ensures Reaches(o, State(Half(n, k + 1, p), map[p := Begin(n, k + 1)], Count(k + 1)))
  {
    ScanThrough(o, n, k, n, p);
    TakesItsSlot(o, n, k, p);
    CompletesItsSlot(n, k, p);
    Through(o, State(Half(n, k, p), map[p := Reserve(k)], Count(k)),
            State(Half(n, k + 1, p), map[p := Begin(n, k + 1)], Count(k + 1)));
  }

  lemma {:induction false} PassesReach(n: nat, k: nat, p: Executor)
    requires k <= n
    ensures Reaches(Prepared(n), State(Half(n, k, p), map[p := Begin(n, k)], Count(k)))
  {
    if k == 0 {
      Here(Prepared(n));
      assert Half(n, 0, p) == Prepared(n).slots && Count(0) == [];
      Onward(Prepared(n), Prepared(n), p, Advance, State(Half(n, 0, p), map[p := Begin(n, 0)], Count(0)));
    } else {
      PassesReach(n, k - 1, p);
      assert Below(0) == {};
      PassReaches(Prepared(n), n, k - 1, p);
    }
  }

  /** A lone executor whose outcomes are admitted completes the whole plan, invoking the model once for each slot. */
  lemma LoneExecutorCompletes(n: nat, p: Executor)
    ensures var slots := seq(n, _ => Slot(Reserved(p, true), Native(1, Outcome(true)), Record(1, true)));
            Reaches(Prepared(n), State(slots, map[p := Finished], Count(n)))
  {
    PassesReach(n, n, p);
    assert Half(n, n, p) == seq(n, _ => Slot(Reserved(p, true), Native(1, Outcome(true)), Record(1, true)));
  }

  // ----- an early record -----

  function OneSlot(slot: Slot, phases: map<Executor, Phase>, log: seq<nat>): State {
    State([slot], phases, log)
  }

  const FRESH := Slot(Free, NoNative, NoRecord)
  const UNSEALED := Slot(Reserved(0, true), Native(1, Outcome(true)), NoRecord)
  const FIRST := Scan(0, 0, AskReserved, {}, false, [])
  const FOUND := [Pending(0, 1, true)]

  lemma ToReserve()
    ensures Reaches(Prepared(1), OneSlot(FRESH, map[0 := Reserve(0)], []))
  {
    PassesReach(1, 0, 0);
    assert Below(0) == {} && Half(1, 0, 0) == [FRESH] && Count(0) == [];
    ScanThrough(Prepared(1), 1, 0, 1, 0);
    TakesItsSlot(Prepared(1), 1, 0, 0);
  }

  lemma ToUnsealed()
    ensures Reaches(Prepared(1), OneSlot(UNSEALED, map[0 := FillNative(0)], [0]))
  {
    var free := OneSlot(FRESH, map[0 := Reserve(0)], []);
    ToReserve();
    ReservesAndCalls(free, 0, true);
    assert free.slots[0 := UNSEALED] == [UNSEALED] && free.phases[0 := FillNative(0)] == map[0 := FillNative(0)]
        && [] + [0] == [0];
    Through(Prepared(1), free, OneSlot(UNSEALED, map[0 := FillNative(0)], [0]));
  }

  lemma ToQuestion()
    ensures Reaches(Prepared(1),
                    OneSlot(UNSEALED, map[0 := FillNative(0), 1 := FIRST.(probe := AskRecord(1, true))], [0]))
  {
    ToUnsealed();
    var own := FillNative(0);
    Onward(Prepared(1), OneSlot(UNSEALED, map[0 := own], [0]), 1, Advance,
           OneSlot(UNSEALED, map[0 := own, 1 := FIRST], [0]));
    var probes := [AskReserved, ReadReserved, AskNative, ReadNative, AskRecord(1, true)];
    var x := 0;
    while x < 4
      invariant 0 <= x <= 4
      invariant Reaches(Prepared(1), OneSlot(UNSEALED, map[0 := own, 1 := FIRST.(probe := probes[x])], [0]))
    {
      Onward(Prepared(1), OneSlot(UNSEALED, map[0 := own, 1 := FIRST.(probe := probes[x])], [0]), 1, Advance,
                   OneSlot(UNSEALED, map[0 := own, 1 := FIRST.(probe := probes[x + 1])], [0]));
      x := x + 1;
    }
  }

  lemma ToFound()
    ensures Reaches(Prepared(1),
                    OneSlot(UNSEALED, map[0 := FillNative(0), 1 := Publish(0, false, {0}, false, FOUND)], [0]))
  {
    ToQuestion();
    var own := FillNative(0);
    var seen := Scan(0, 1, AskReserved, {0}, false, FOUND);
    assert ScanStep([UNSEALED], FIRST.(probe := AskRecord(1, true))) == seen by {
      assert FIRST.pending + FOUND == FOUND && FIRST.seen + {0} == {0};
    }
    Onward(Prepared(1), OneSlot(UNSEALED, map[0 := own, 1 := FIRST.(probe := AskRecord(1, true))], [0]), 1, Advance,
                 OneSlot(UNSEALED, map[0 := own, 1 := seen], [0]));
    Onward(Prepared(1), OneSlot(UNSEALED, map[0 := own, 1 := seen], [0]), 1, Advance,
                 OneSlot(UNSEALED, map[0 := own, 1 := Publish(0, false, {0}, false, FOUND)], [0]));
  }

  /** Such a record does occur: an executor may inspect a native file that lacks only its closing newline, and publish
      the record of that text. */
  lemma EarlyRecordConflicts()
    ensures exists s :: Reaches(Prepared(1), s) && |s.slots| == 1 && Quiet(s.slots) && Verdict(s.slots[0]).Conflict?
  {
    ToFound();
    var own := FillNative(0);
    var creating, created := Publish(0, false, {0}, false, FOUND), Publish(0, true, {0}, false, FOUND);
    var torn, early := UNSEALED.(record := TornRecord), UNSEALED.(record := Record(1, true));
    var published := Publish(0, false, {0}, false, []);
    assert FOUND[1..] == [];
    Onward(Prepared(1), OneSlot(UNSEALED, map[0 := own, 1 := creating], [0]), 1, Advance,
           OneSlot(torn, map[0 := own, 1 := created], [0]));
    Onward(Prepared(1), OneSlot(torn, map[0 := own, 1 := created], [0]), 1, Advance,
           OneSlot(early, map[0 := own, 1 := published], [0]));
    var late := early.(native := Native(2, Outcome(true)));
    Onward(Prepared(1), OneSlot(early, map[0 := own, 1 := published], [0]), 0, Chunk(Outcome(true)),
                 OneSlot(late, map[0 := own, 1 := published], [0]));
    VerdictIsEvidence(late);
    assert Quiet(OneSlot(late, map[0 := own, 1 := published], [0]).slots);
  }
}
