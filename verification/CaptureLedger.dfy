/**
 The capture ledger: at most one process at a time, held by an exclusively created lock file, reserves the next slot of
 the plan, invokes the model, archives what it returned and records the attempt.  A process may die between any two
 operations and inside any publication; what it leaves behind is all that the next one, and the replay, can see.
 */
module CaptureLedger {
  import opened Options

  // ----- what an attempt amounts to -----

  datatype Native = Native(ok: bool, hasOutput: bool, refusal: Option<string>, failureKind: Option<string>,
                           attemptCount: Option<nat>, toolCalls: Option<nat>, inputTokens: nat, outputTokens: nat,
                           cacheReadTokens: nat, cacheCreationTokens: nat, usageReported: Option<bool>, costUSD: real,
                           costReported: Option<bool>)

  datatype Usage = Usage(input: nat, output: nat, cacheRead: nat, cacheCreation: nat)

  datatype Projected = Projected(outcome: string, usage: Option<Usage>, costUSD: Option<real>, blocked: bool)

  function NonEmpty(text: Option<string>): bool {
    text.Some? && text.value != ""
  }

  function Reported(result: Native): bool {
    result.usageReported != Some(false)
  }

  function UsageOf(result: Native): Usage {
    Usage(result.inputTokens, result.outputTokens, result.cacheReadTokens, result.cacheCreationTokens)
  }

  function InputTokens(result: Native): nat {
    result.inputTokens + result.cacheReadTokens + result.cacheCreationTokens
  }

  predicate Violates(result: Native, inputBound: nat, outputBound: nat) {
    || (result.attemptCount.Some? && result.attemptCount.value != 1)
    || (result.toolCalls.Some? && result.toolCalls.value != 0)
    || (Reported(result) && (InputTokens(result) > inputBound || result.outputTokens > outputBound))
  }

  /** `projection`; None stands for a native value that the schema does not accept. */
  function Projection(native: Option<Native>, exception: Option<string>, inputBound: nat, outputBound: nat): Projected {
    if native.None? then
      Projected(if NonEmpty(exception) then "host_exception" else "invalid_native_result", None, None, true)
    else
      var result := native.value;
      var outcome :=
        if NonEmpty(exception) then "host_exception"
        else if NonEmpty(result.refusal) then "refusal"
        else if result.failureKind.Some? then result.failureKind.value
        else if !result.ok || !result.hasOutput then "call_failure"
        else "output";
      var reported := Reported(result);
      var violates := Violates(result, inputBound, outputBound);
      Projected(if violates then "policy_violation" else outcome,
                if reported then Some(UsageOf(result)) else None,
                if result.costReported != Some(false) then Some(result.costUSD) else None,
                !reported || violates || outcome == "policy_violation" || NonEmpty(exception))
  }

  function Total(usage: Usage): nat {
    usage.input + usage.cacheRead + usage.cacheCreation + usage.output
  }

  /** An attempt that does not block reported its usage, and stayed within what was reserved for it. */
  predicate Bounded(projected: Projected, inputBound: nat, outputBound: nat) {
    !projected.blocked ==> projected.usage.Some? && Total(projected.usage.value) <= inputBound + outputBound
  }

  lemma UnblockedIsBounded(native: Option<Native>, exception: Option<string>, inputBound: nat, outputBound: nat)
    ensures Bounded(Projection(native, exception, inputBound, outputBound), inputBound, outputBound)
  {
  }

  /** Within what was reserved: at most one attempt, no tool call, and, if usage is reported, tokens within the
      bounds. */
  predicate Within(result: Native, inputBound: nat, outputBound: nat) {
    && result.attemptCount in {None, Some(1)} && result.toolCalls in {None, Some(0)}
    && (result.usageReported != Some(false) ==>
          && result.inputTokens + result.cacheReadTokens + result.cacheCreationTokens <= inputBound
          && result.outputTokens <= outputBound)
  }

  predicate Silent(text: Option<string>) {
    text.None? || text.value == ""
  }

  /** What blocks the ledger: no acceptable native value, unreported usage, a violated bound, an exception, or a failure
      that calls itself a policy violation. */
  lemma BlockedExactly(native: Option<Native>, exception: Option<string>, inputBound: nat, outputBound: nat)
    ensures Projection(native, exception, inputBound, outputBound).blocked <==>
              || native.None? || native.value.usageReported == Some(false)
              || !Within(native.value, inputBound, outputBound)
              || !Silent(exception)
              || (Silent(native.value.refusal) && native.value.failureKind == Some("policy_violation"))
  {
    LabelsDiffer();
  }

  lemma LabelsDiffer()
    ensures |"host_exception"| == 14 && |"invalid_native_result"| == 21 && |"refusal"| == 7 && |"call_failure"| == 12
            && |"policy_violation"| == 16 && |"output"| == 6
  {
  }

  /** Nothing but the result itself decides: it is acceptable and within bounds, and there was no exception. */
  predicate Speaks(native: Option<Native>, exception: Option<string>, inputBound: nat, outputBound: nat) {
    native.Some? && Within(native.value, inputBound, outputBound) && Silent(exception)
  }

  /** When each outcome is shown: violated bounds come first, then exceptions, an unacceptable result and a refusal;
      then the executor's own failure kind, whatever it is called; and only a success with text is output. */
  lemma OutcomeExactly(native: Option<Native>, exception: Option<string>, inputBound: nat, outputBound: nat)
    ensures var outcome := Projection(native, exception, inputBound, outputBound).outcome;
            var speaks := Speaks(native, exception, inputBound, outputBound);
            && (native.Some? && !Within(native.value, inputBound, outputBound) ==> outcome == "policy_violation")
            && (!Silent(exception) && (native.None? || Within(native.value, inputBound, outputBound)) ==>
                  outcome == "host_exception")
            && (native.None? && Silent(exception) ==> outcome == "invalid_native_result")
            && (speaks && !Silent(native.value.refusal) ==> outcome == "refusal")
            && (speaks && Silent(native.value.refusal) ==>
                  && (native.value.failureKind.Some? ==> outcome == native.value.failureKind.value)
                  && (native.value.failureKind.None? && !(native.value.ok && native.value.hasOutput) ==>
                        outcome == "call_failure")
                  && (native.value.failureKind.None? && native.value.ok && native.value.hasOutput ==>
                        outcome == "output"))
  {
    assert native.Some? ==>
             (Within(native.value, inputBound, outputBound) <==> !Violates(native.value, inputBound, outputBound));
  }

  /** Usage and cost are shown exactly when the executor reports them, and as it reports them. */
  lemma ReportedAsIs(native: Option<Native>, exception: Option<string>, inputBound: nat, outputBound: nat)
    ensures var shown := Projection(native, exception, inputBound, outputBound);
            && (shown.usage.Some? <==> native.Some? && native.value.usageReported != Some(false))
            && (shown.usage.Some? ==>
                  && shown.usage.value.input == native.value.inputTokens
                  && shown.usage.value.output == native.value.outputTokens
                  && shown.usage.value.cacheRead == native.value.cacheReadTokens
                  && shown.usage.value.cacheCreation == native.value.cacheCreationTokens
                  && Total(shown.usage.value) == native.value.inputTokens + native.value.outputTokens
                                                 + native.value.cacheReadTokens + native.value.cacheCreationTokens)
            && (shown.costUSD.Some? <==> native.Some? && native.value.costReported != Some(false))
            && (shown.costUSD.Some? ==> shown.costUSD.value == native.value.costUSD)
  {
  }

  /** An attempt counts as output exactly when it succeeded with text, unrefused, within bounds and without exception,
      or when its executor reports a failure of that name. */
  lemma OutputExactly(native: Option<Native>, exception: Option<string>, inputBound: nat, outputBound: nat)
    ensures Projection(native, exception, inputBound, outputBound).outcome == "output" <==>
              && Speaks(native, exception, inputBound, outputBound) && Silent(native.value.refusal)
              && (native.value.failureKind == Some("output")
                  || (native.value.failureKind.None? && native.value.ok && native.value.hasOutput))
  {
    LabelsDiffer();
  }

  /** What a replay cannot reconstruct when the native value of a failed archiving is lost. */
  predicate Matters(native: Option<Native>, inputBound: nat, outputBound: nat) {
    native.Some?
    && (Reported(native.value) || native.value.costReported != Some(false)
        || Violates(native.value, inputBound, outputBound))
  }

  lemma LostNativeMatters(native: Option<Native>, exception: Option<string>, inputBound: nat, outputBound: nat)
    requires NonEmpty(exception)
    ensures var known := Projection(native, exception, inputBound, outputBound);
            var lost := Projection(None, exception, inputBound, outputBound);
            known != lost <==> Matters(native, inputBound, outputBound)
  {
  }

  // ----- the directory -----

  // A torn file exists, but its bytes do not parse.
  datatype File<+T> = Absent | Torn | Whole(value: T)

  type Digest = nat

  // `id` tells texts of equal meaning apart, as their digests do.
  datatype Text = Text(id: nat, parsed: Option<Native>)

  // The fields of a reservation that are not fixed by the plan and the slot.
  datatype Reservation = Reservation(permission: Digest, reservedAt: int)

  datatype Attempt = Attempt(reservation: Reservation, archived: Option<Text>, exception: Option<string>,
                             finishedAt: int, projected: Projected)

  datatype Files = Files(reserved: File<Reservation>, native: File<Text>, attempt: File<Attempt>)

  datatype Plan = Plan(maxCalls: nat, maxTokens: nat, inputBound: nat, outputBound: nat)

  function ReservationTokens(plan: Plan): nat {
    plan.inputBound + plan.outputBound
  }

  // ----- replay -----

  datatype Verdict = Empty | Invalid | Open(blocked: bool)

  predicate AttemptFits(plan: Plan, files: Files)
    requires files.reserved.Whole? && files.attempt.Whole?
  {
    var attempt := files.attempt.value;
    && attempt.reservation == files.reserved.value
    && attempt.archived == (if files.native.Whole? then Some(files.native.value) else None)
    && attempt.finishedAt >= files.reserved.value.reservedAt
    && attempt.projected
       == Projection(if files.native.Whole? then files.native.value.parsed else None, attempt.exception,
                                       plan.inputBound, plan.outputBound)
  }

  function Judge(plan: Plan, permission: File<Digest>, files: Files): Verdict {
    if files.reserved.Absent? then if files.native.Absent? && files.attempt.Absent? then Empty else Invalid
    else if files.reserved.Torn? || files.native.Torn? || files.attempt.Torn? then Invalid
    else if permission != Whole(files.reserved.value.permission) then Invalid
    else if files.attempt.Absent? then Open(true)
    else if AttemptFits(plan, files) then Open(files.attempt.value.projected.blocked)
    else Invalid
  }

  // What an attempt adds to a slot: the exception it states and when it ended.
  datatype Ended = Ended(exception: Option<string>, at: int)

  /** The files of a slot that was reserved, archived if there is a text, and recorded if it ended. */
  function Lawful(plan: Plan, reservation: Reservation, text: Option<Text>, ended: Option<Ended>): Files {
    Files(Whole(reservation), if text.Some? then Whole(text.value) else Absent,
          if ended.None? then Absent
          else Whole(Attempt(reservation, text, ended.value.exception, ended.value.at,
                             LawfulProjection(plan, text, ended.value))))
  }

  function LawfulProjection(plan: Plan, text: Option<Text>, ended: Ended): Projected {
    Projection(if text.Some? then text.value.parsed else None, ended.exception, plan.inputBound, plan.outputBound)
  }

  /** A slot replays exactly if it has no file, or its files are those of a call under the permission that did not end
      before it was reserved; it is open for good if it has no attempt or a blocked one. */
  lemma JudgeExactly(plan: Plan, permission: File<Digest>, files: Files)
    ensures Judge(plan, permission, files).Empty? <==> files == Files(Absent, Absent, Absent)
    ensures forall blocked :: Judge(plan, permission, files) == Open(blocked) <==>
              exists reservation, text, ended ::
                && files == Lawful(plan, reservation, text, ended) && permission == Whole(reservation.permission)
                && (if ended.None? then blocked
                    else ended.value.at >= reservation.reservedAt
                         && blocked == LawfulProjection(plan, text, ended.value).blocked)
  {
    if files.reserved.Whole? && !files.native.Torn? && !files.attempt.Torn? {
      var text := if files.native.Whole? then Some(files.native.value) else None;
      var ended := if files.attempt.Absent? then None
                   else Some(Ended(files.attempt.value.exception, files.attempt.value.finishedAt));
      assert Judge(plan, permission, files).Open? ==> files == Lawful(plan, files.reserved.value, text, ended);
    }
  }

  datatype View = View(count: nat, blocked: bool)

  /** The slots are used in order, only the last one may be blocked, and the budgets cover their number. */
  predicate Describes(plan: Plan, permission: File<Digest>, slots: seq<Files>, view: View) {
    && view.count <= |slots|
    && (forall i | 0 <= i < view.count - 1 :: Judge(plan, permission, slots[i]) == Open(false))
    && (if view.count > 0 then Judge(plan, permission, slots[view.count - 1]) == Open(view.blocked) else !view.blocked)
    && (forall i | view.count <= i < |slots| :: Judge(plan, permission, slots[i]).Empty?)
    && view.count <= plan.maxCalls && view.count * ReservationTokens(plan) <= plan.maxTokens
  }

  lemma OneView(plan: Plan, permission: File<Digest>, slots: seq<Files>, v: View, w: View)
    requires Describes(plan, permission, slots, v) && Describes(plan, permission, slots, w)
    ensures v == w
  {
  }

  lemma NoView(plan: Plan, permission: File<Digest>, slots: seq<Files>, i: nat, j: nat, v: View)
    requires j <= i < |slots| && !Judge(plan, permission, slots[i]).Empty?
    requires Judge(plan, permission, slots[i]).Invalid? || (j < i && Judge(plan, permission, slots[j]) != Open(false))
    ensures !Describes(plan, permission, slots, v)
  {
  }

  /** `ledger`. */
  method Ledger(plan: Plan, permission: File<Digest>, slots: seq<Files>) returns (view: Option<View>)
    ensures view.Some? ==> Describes(plan, permission, slots, view.value)
    ensures view.None? ==> forall v :: !Describes(plan, permission, slots, v)
  {
    var gap, blocked, records := false, false, 0;
    for i := 0 to |slots|
      invariant records <= i && (gap <==> records < i)
      invariant forall h | 0 <= h < records - 1 :: Judge(plan, permission, slots[h]) == Open(false)
      invariant if records > 0 then Judge(plan, permission, slots[records - 1]) == Open(blocked) else !blocked
      invariant forall h | records <= h < i :: Judge(plan, permission, slots[h]).Empty?
    {
      var files := slots[i];
      if files.reserved.Absent? {
        if !files.native.Absent? || !files.attempt.Absent? {
          forall v ensures !Describes(plan, permission, slots, v) { NoView(plan, permission, slots, i, i, v); }
          return None;
        }
        gap := true;
      } else if gap || blocked {
        forall v ensures !Describes(plan, permission, slots, v) {
          NoView(plan, permission, slots, i, if gap then records else records - 1, v);
        }
        return None;
      } else if files.reserved.Torn? || permission != Whole(files.reserved.value.permission) || files.native.Torn?
                || files.attempt.Torn?
             || (files.attempt.Whole? && !AttemptFits(plan, files)) {
        forall v ensures !Describes(plan, permission, slots, v) { NoView(plan, permission, slots, i, i, v); }
        return None;
      } else {
        blocked := files.attempt.Absent? || files.attempt.value.projected.blocked;
        records := records + 1;
      }
    }
    if records > plan.maxCalls || records * ReservationTokens(plan) > plan.maxTokens {
      forall v ensures !Describes(plan, permission, slots, v) {
        assert v.count < records ==> !Judge(plan, permission, slots[v.count]).Empty?;
        assert records < v.count <= |slots| ==> Judge(plan, permission, slots[records]).Empty?;
      }
      return None;
    }
    return Some(View(records, blocked));
  }

  // ----- the executors -----

  type Process = nat

  datatype Phase =
    | Entered                                                     // holds the lock
    | Checked(slot: nat)                                          // the ledger admits a call for this slot
    | Permitted(slot: nat, permission: Digest)                    // the permission file holds these bytes
    | Calling(slot: nat, dispatched: bool)                        // the reservation is published
    | Returned(slot: nat, text: Text)
    | Archived(slot: nat, native: Option<Native>, archived: Option<Text>, exception: Option<string>)
    | Gone                                                        // died, or released the lock

  datatype State = State(slots: seq<Files>, permission: File<Digest>, lock: Option<Process>,
                         phases: map<Process, Phase>, log: seq<nat>)

  // How much of a file a failing publication leaves behind, and whether it throws or the process dies.
  datatype Left = Nothing | Part | All
  datatype Publication = Kept | Broken(left: Left, dies: bool)

  datatype Move =
    | Enter(p: Process)
    | Check(p: Process)
    | Permit(p: Process, bytes: Digest, publication: Publication)
    | Reserve(p: Process, now: int, publication: Publication)
    | Dispatch(p: Process)                                        // the executor asks the gate, which may let it pass
    | Return(p: Process, text: Text)
    | Throw(p: Process, message: string)
    | Archive(p: Process, publication: Publication, message: string)
    | Record(p: Process, now: int, publication: Publication)
    | Fail(p: Process)                                            // throws: the lock is released
    | Die(p: Process)                                             // the lock stays
    | Unlock                                                      // an operator removes the lock of a dead process

  function Remains<T>(publication: Publication, value: T): File<T> {
    if publication.Kept? || publication.left.All? then Whole(value) else if publication.left.Part? then Torn else Absent
  }

  function End(s: State, p: Process, dies: bool): State {
    s.(phases := s.phases[p := Gone], lock := if dies then s.lock else None)
  }

  function Goes(s: State, p: Process, publication: Publication, next: Phase): State {
    if publication.Kept? then s.(phases := s.phases[p := next]) else End(s, p, publication.dies)
  }

  ghost predicate Executable(plan: Plan, s: State, view: View) {
    && Describes(plan, s.permission, s.slots, view) && !view.blocked
    && view.count < plan.maxCalls && view.count < |s.slots|
    && plan.maxTokens - view.count * ReservationTokens(plan) >= ReservationTokens(plan)
  }

  function PhaseOf(s: State, p: Process): Phase {
    if p in s.phases then s.phases[p] else Gone
  }

  ghost function After(plan: Plan, s: State, move: Move): (s': State)
    ensures |s'.slots| == |s.slots|
  {
    match move
    case Unlock => if s.lock.Some? && PhaseOf(s, s.lock.value).Gone? then s.(lock := None) else s
    case Enter(p) =>
      if p in s.phases then s
      else if s.lock.Some? then s.(phases := s.phases[p := Gone])
      else s.(lock := Some(p), phases := s.phases[p := Entered])
    case Fail(p) => if PhaseOf(s, p).Gone? then s else End(s, p, false)
    case Die(p) => if PhaseOf(s, p).Gone? then s else End(s, p, true)
    case Check(p) =>
      if !PhaseOf(s, p).Entered? then s
      else if exists v :: Executable(plan, s, v) then
        var v :| Executable(plan, s, v);
        s.(phases := s.phases[p := Checked(v.count)])
      else End(s, p, false)
    case Permit(p, bytes, publication) =>
      if !PhaseOf(s, p).Checked? then s
      else if !s.permission.Absent? then
        if s.permission == Whole(bytes) then s.(phases := s.phases[p := Permitted(s.phases[p].slot, bytes)])
        else End(s, p, false)
      else Goes(s.(permission := Remains(publication, bytes)), p, publication, Permitted(s.phases[p].slot, bytes))
    case Reserve(p, now, publication) =>
      if !PhaseOf(s, p).Permitted? then s
      else
        var k := s.phases[p].slot;
        if k >= |s.slots| || !s.slots[k].reserved.Absent? then End(s, p, false)
        else
          var reserved := Remains(publication, Reservation(s.phases[p].permission, now));
          Goes(s.(slots := s.slots[k := s.slots[k].(reserved := reserved)]), p, publication, Calling(k, false))
    case Dispatch(p) =>
      if !PhaseOf(s, p).Calling? || s.phases[p].dispatched then s
      else s.(phases := s.phases[p := Calling(s.phases[p].slot, true)], log := s.log + [s.phases[p].slot])
    case Return(p, text) =>
      if !PhaseOf(s, p).Calling? then s else s.(phases := s.phases[p := Returned(s.phases[p].slot, text)])
    case Throw(p, message) =>
      if !PhaseOf(s, p).Calling? then s
      else s.(phases := s.phases[p := Archived(s.phases[p].slot, None, None, Some(message))])
    case Archive(p, publication, message) =>
      if !PhaseOf(s, p).Returned? then s
      else
        var k, text := s.phases[p].slot, s.phases[p].text;
        if k >= |s.slots| || !s.slots[k].native.Absent? then
          s.(phases := s.phases[p := Archived(k, text.parsed, None, Some(message))])
        else
          var written := s.(slots := s.slots[k := s.slots[k].(native := Remains(publication, text))]);
          if publication.Kept? then written.(phases := s.phases[p := Archived(k, text.parsed, Some(text), None)])
          else if publication.dies then End(written, p, true)
          else written.(phases := s.phases[p := Archived(k, text.parsed, None, Some(message))])
    case Record(p, now, publication) =>
      if !PhaseOf(s, p).Archived? then s
      else
        var phase := s.phases[p];
        var k := phase.slot;
        if k >= |s.slots| || !s.slots[k].attempt.Absent? || !s.slots[k].reserved.Whole? then End(s, p, false)
        else
          var attempt := Attempt(s.slots[k].reserved.value, phase.archived, phase.exception, now,
                                 Projection(phase.native, phase.exception, plan.inputBound, plan.outputBound));
          End(s.(slots := s.slots[k := s.slots[k].(attempt := Remains(publication, attempt))]), p,
              publication.Broken? && publication.dies)
  }

  ghost function Run(plan: Plan, s: State, moves: seq<Move>): (s': State)
    ensures |s'.slots| == |s.slots|
    decreases |moves|
  {
    if moves == [] then s else Run(plan, After(plan, s, moves[0]), moves[1..])
  }

  /** A freshly prepared directory for `n` slots. */
  function Prepared(n: nat): State {
    State(seq(n, _ => Files(Absent, Absent, Absent)), Absent, None, map[], [])
  }

  // ----- what every move keeps -----

  predicate AttemptOk(plan: Plan, files: Files, attempt: Attempt) {
    && files.reserved == Whole(attempt.reservation)
    && Bounded(attempt.projected, plan.inputBound, plan.outputBound)
    && (if attempt.archived.Some? then
          && files.native == Whole(attempt.archived.value) && attempt.exception.None?
          && attempt.projected == Projection(attempt.archived.value.parsed, None, plan.inputBound, plan.outputBound)
        else attempt.exception.Some?)
  }

  predicate FilesOk(plan: Plan, permission: File<Digest>, files: Files) {
    && (!files.reserved.Absent? ==> permission.Whole?)
    && (files.reserved.Whole? ==> permission == Whole(files.reserved.value.permission))
    && (!files.reserved.Whole? ==> files.native.Absent? && files.attempt.Absent?)
    && (files.attempt.Whole? ==> AttemptOk(plan, files, files.attempt.value))
  }

  /** All calls before this slot ended well, and the budgets allow one more. */
  predicate Reached(plan: Plan, permission: File<Digest>, slots: seq<Files>, k: nat) {
    && k < |slots| && k < plan.maxCalls && (k + 1) * ReservationTokens(plan) <= plan.maxTokens
    && forall j | 0 <= j < k :: Judge(plan, permission, slots[j]) == Open(false)
  }

  predicate SlotsOk(plan: Plan, permission: File<Digest>, slots: seq<Files>) {
    forall i: nat | i < |slots| ::
      FilesOk(plan, permission, slots[i]) && (!slots[i].reserved.Absent? ==> Reached(plan, permission, slots, i))
  }

  predicate LogOk(slots: seq<Files>, log: seq<nat>) {
    && (forall x | x in log :: x < |slots| && slots[x].reserved.Whole?)
    && forall a, b | 0 <= a < b < |log| :: log[a] < log[b]
  }

  predicate Working(s: State, k: nat) {
    k < |s.slots| && s.slots[k].reserved.Whole? && s.slots[k].attempt.Absent?
  }

  predicate PhaseOk(plan: Plan, s: State, p: Process, phase: Phase) {
    match phase
    case Gone => true
    case Entered => s.lock == Some(p)
    case Checked(k) => s.lock == Some(p) && Reached(plan, s.permission, s.slots, k) && s.slots[k].reserved.Absent?
    case Permitted(k, bytes) =>
      s.lock == Some(p) && Reached(plan, s.permission, s.slots, k) && s.slots[k].reserved.Absent?
      && s.permission == Whole(bytes)
    case Calling(k, dispatched) =>
      s.lock == Some(p) && Working(s, k) && s.slots[k].native.Absent?
      && (!dispatched ==> forall x | x in s.log :: x < k)
    case Returned(k, _) => s.lock == Some(p) && Working(s, k) && s.slots[k].native.Absent?
    case Archived(k, native, archived, exception) =>
      && s.lock == Some(p) && Working(s, k)
      && (if archived.Some? then
            s.slots[k].native == Whole(archived.value) && exception.None? && native == archived.value.parsed
          else exception.Some?)
  }

  ghost predicate Inv(plan: Plan, s: State) {
    && SlotsOk(plan, s.permission, s.slots) && LogOk(s.slots, s.log)
    && forall p | p in s.phases :: PhaseOk(plan, s, p, s.phases[p])
  }

  lemma CheckKeeps(plan: Plan, s: State, p: Process)
    requires Inv(plan, s)
    ensures Inv(plan, After(plan, s, Check(p)))
  {
  }

  lemma ReserveKeeps(plan: Plan, s: State, p: Process, now: int, publication: Publication)
    requires Inv(plan, s)
    ensures Inv(plan, After(plan, s, Reserve(p, now, publication)))
  {
  }

  lemma ArchiveKeeps(plan: Plan, s: State, p: Process, publication: Publication, message: string)
    requires Inv(plan, s)
    ensures Inv(plan, After(plan, s, Archive(p, publication, message)))
  {
    if PhaseOf(s, p).Returned? {
      assert PhaseOk(plan, s, p, s.phases[p]);
      var k := s.phases[p].slot;
    }
  }

  lemma RecordKeeps(plan: Plan, s: State, p: Process, now: int, publication: Publication)
    requires Inv(plan, s)
    ensures Inv(plan, After(plan, s, Record(p, now, publication)))
  {
  }

  lemma DispatchKeeps(plan: Plan, s: State, p: Process)
    requires Inv(plan, s)
    ensures Inv(plan, After(plan, s, Dispatch(p)))
  {
    if PhaseOf(s, p).Calling? && !s.phases[p].dispatched {
      assert PhaseOk(plan, s, p, s.phases[p]);
      var log' := After(plan, s, Dispatch(p)).log;
      forall a, b | 0 <= a < b < |log'| ensures log'[a] < log'[b] { assert log'[a] in s.log; }
    }
  }

  lemma StepKeeps(plan: Plan, s: State, move: Move)
    requires Inv(plan, s)
    ensures Inv(plan, After(plan, s, move))
  {
    match move
    case Check(p) => CheckKeeps(plan, s, p);
    case Permit(_, _, _) =>
    case Reserve(p, now, publication) => ReserveKeeps(plan, s, p, now, publication);
    case Dispatch(p) => DispatchKeeps(plan, s, p);
    case Archive(p, publication, message) => ArchiveKeeps(plan, s, p, publication, message);
    case Record(p, now, publication) => RecordKeeps(plan, s, p, now, publication);
    case Unlock =>
      if s.lock.Some? && PhaseOf(s, s.lock.value).Gone? {
        forall q | q in s.phases ensures s.phases[q].Gone? { assert PhaseOk(plan, s, q, s.phases[q]); }
      }
    case _ =>
      var p := move.p;
      if !PhaseOf(s, p).Gone? {
        assert PhaseOk(plan, s, p, s.phases[p]);
      } else if s.lock.None? {
        forall q | q in s.phases ensures s.phases[q].Gone? { assert PhaseOk(plan, s, q, s.phases[q]); }
      } else {
        forall q | q in s.phases ensures PhaseOk(plan, After(plan, s, move), q, s.phases[q]) {
          assert PhaseOk(plan, s, q, s.phases[q]);
        }
      }
  }

  lemma {:induction false} RunKeeps(plan: Plan, s: State, moves: seq<Move>)
    requires Inv(plan, s)
    ensures Inv(plan, Run(plan, s, moves))
    decreases |moves|
  {
    if moves != [] {
      StepKeeps(plan, s, moves[0]);
      RunKeeps(plan, After(plan, s, moves[0]), moves[1..]);
    }
  }

  // ----- over whole runs -----

  /** The model is invoked for each slot at most once, in plan order, and only behind a complete reservation. */
  lemma DispatchedAtMostOnce(plan: Plan, n: nat, moves: seq<Move>)
    ensures var s := Run(plan, Prepared(n), moves);
            && (forall a, b | 0 <= a < b < |s.log| :: s.log[a] < s.log[b])
            && (forall k | k in s.log :: k < n && s.slots[k].reserved.Whole?)
  {
    RunKeeps(plan, Prepared(n), moves);
  }

  /** Reserved slots are a prefix; every one but the last has a complete, unblocked attempt that replays. */
  lemma NothingAfterABlockedSlot(plan: Plan, n: nat, moves: seq<Move>, i: nat, j: nat)
    requires j < i < n && !Run(plan, Prepared(n), moves).slots[i].reserved.Absent?
    ensures var s := Run(plan, Prepared(n), moves);
            Judge(plan, s.permission, s.slots[j]) == Open(false) && s.slots[j].attempt.Whole?
            && !s.slots[j].attempt.value.projected.blocked
  {
    RunKeeps(plan, Prepared(n), moves);
    var s := Run(plan, Prepared(n), moves);
    assert Reached(plan, s.permission, s.slots, i);
  }

  function Used(slots: seq<Files>): nat {
    if slots == [] then 0
    else Used(slots[..|slots| - 1]) + if slots[|slots| - 1].reserved.Absent? then 0 else 1
  }

  function Share(files: Files): nat {
    var attempt := files.attempt;
    if attempt.Whole? && !attempt.value.projected.blocked && attempt.value.projected.usage.Some?
    then Total(attempt.value.projected.usage.value)
    else 0
  }

  /** The tokens that unblocked attempts report. */
  function Spent(slots: seq<Files>): nat {
    if slots == [] then 0 else Spent(slots[..|slots| - 1]) + Share(slots[|slots| - 1])
  }

  lemma {:induction false} UsedIsPrefix(slots: seq<Files>)
    requires forall i, j | 0 <= j < i < |slots| && !slots[i].reserved.Absent? :: !slots[j].reserved.Absent?
    ensures Used(slots) <= |slots|
    ensures forall i | 0 <= i < |slots| :: !slots[i].reserved.Absent? <==> i < Used(slots)
  {
    if slots != [] {
      var front := slots[..|slots| - 1];
      UsedIsPrefix(front);
      assert Used(front) < |front| ==> slots[Used(front)].reserved.Absent?;
      forall i | 0 <= i < |front| ensures !slots[i].reserved.Absent? <==> i < Used(front) {
        assert front[i] == slots[i];
      }
    }
  }

  lemma ReservedIsPrefix(plan: Plan, s: State)
    requires Inv(plan, s)
    ensures Used(s.slots) <= |s.slots|
    ensures forall i | 0 <= i < |s.slots| :: !s.slots[i].reserved.Absent? <==> i < Used(s.slots)
  {
    forall i: nat, j: nat | j < i < |s.slots| && !s.slots[i].reserved.Absent? ensures !s.slots[j].reserved.Absent? {
      assert Judge(plan, s.permission, s.slots[j]) == Open(false);
    }
    UsedIsPrefix(s.slots);
  }

  lemma OneMore(count: nat, unit: nat)
    ensures (count + 1) * unit == count * unit + unit
  {
  }

  lemma {:induction false} SpentIsReserved(plan: Plan, permission: File<Digest>, slots: seq<Files>, unit: nat)
    requires unit == ReservationTokens(plan)
    requires forall i | 0 <= i < |slots| :: FilesOk(plan, permission, slots[i])
    ensures Spent(slots) <= Used(slots) * unit
  {
    if slots == [] {
    } else {
      var front, last := slots[..|slots| - 1], slots[|slots| - 1];
      SpentIsReserved(plan, permission, front, unit);
      OneMore(Used(front), unit);
    }
  }

  /** Reservations stay within the calls and tokens of the plan, and so do the tokens that unblocked attempts report. */
  lemma BudgetsHold(plan: Plan, n: nat, moves: seq<Move>)
    ensures var slots := Run(plan, Prepared(n), moves).slots;
            && Used(slots) <= plan.maxCalls && Used(slots) * ReservationTokens(plan) <= plan.maxTokens
            && Spent(slots) <= plan.maxTokens
  {
    var s := Run(plan, Prepared(n), moves);
    RunKeeps(plan, Prepared(n), moves);
    ReservedIsPrefix(plan, s);
    SpentIsReserved(plan, s.permission, s.slots, ReservationTokens(plan));
    if Used(s.slots) > 0 { assert Reached(plan, s.permission, s.slots, Used(s.slots) - 1); }
  }

  // ----- which runs the replay accepts -----

  predicate Faultless(plan: Plan, files: Files) {
    && !files.reserved.Torn? && !files.native.Torn? && !files.attempt.Torn?
    && (files.attempt.Whole? && files.reserved.Whole? ==>
          var attempt := files.attempt.value;
          && attempt.finishedAt >= files.reserved.value.reservedAt
          && (attempt.archived.None? ==>
                files.native.Absent?
                && attempt.projected == Projection(None, attempt.exception, plan.inputBound, plan.outputBound)))
  }

  predicate AllFaultless(plan: Plan, slots: seq<Files>) {
    forall i | 0 <= i < |slots| :: Faultless(plan, slots[i])
  }

  /** The moves that spoil a ledger: a file torn by an interrupted publication, a clock that ran backwards during a
      call, and an attempt recorded although archiving its native value failed, if the value was written after all or
      its projection depends on it. */
  predicate Faulty(plan: Plan, s: State, move: Move) {
    match move
    case Reserve(p, _, publication) => PhaseOf(s, p).Permitted? && publication.Broken? && publication.left.Part?
    case Archive(p, publication, _) => PhaseOf(s, p).Returned? && publication.Broken? && publication.left.Part?
    case Record(p, now, publication) =>
      PhaseOf(s, p).Archived? && Working(s, s.phases[p].slot) &&
      var phase := s.phases[p];
      if publication.Broken? && !publication.left.All? then publication.left.Part?
      else
        || now < s.slots[phase.slot].reserved.value.reservedAt
        || (phase.archived.None? &&
            (!s.slots[phase.slot].native.Absent?
             || Projection(phase.native, phase.exception, plan.inputBound, plan.outputBound)
                != Projection(None, phase.exception, plan.inputBound, plan.outputBound)))
    case _ => false
  }

  ghost predicate FaultFree(plan: Plan, s: State, moves: seq<Move>)
    decreases |moves|
  {
    moves == [] || (!Faulty(plan, s, moves[0]) && FaultFree(plan, After(plan, s, moves[0]), moves[1..]))
  }

  lemma PutFaultless(plan: Plan, slots: seq<Files>, k: nat, files: Files)
    requires k < |slots| && (Faultless(plan, files) ==> Faultless(plan, slots[k]))
    ensures AllFaultless(plan, slots[k := files]) <==> AllFaultless(plan, slots) && Faultless(plan, files)
  {
    var after := slots[k := files];
    if AllFaultless(plan, after) {
      assert after[k] == files;
      forall i | 0 <= i < |slots| ensures Faultless(plan, slots[i]) { assert i != k ==> after[i] == slots[i]; }
    }
  }

  lemma StepFaults(plan: Plan, s: State, move: Move)
    requires Inv(plan, s)
    ensures AllFaultless(plan, After(plan, s, move).slots) <==> AllFaultless(plan, s.slots) && !Faulty(plan, s, move)
  {
    if move.Reserve? || move.Archive? || move.Record? {
      var phase := PhaseOf(s, move.p);
      if phase.Permitted? || phase.Returned? || phase.Archived? {
        assert PhaseOk(plan, s, move.p, phase);
        var k := phase.slot;
        assert FilesOk(plan, s.permission, s.slots[k]);
        PutFaultless(plan, s.slots, k, After(plan, s, move).slots[k]);
      }
    }
  }

  lemma {:induction false} RunFaults(plan: Plan, s: State, moves: seq<Move>)
    requires Inv(plan, s)
    ensures AllFaultless(plan, Run(plan, s, moves).slots) <==> AllFaultless(plan, s.slots) && FaultFree(plan, s, moves)
    decreases |moves|
  {
    if moves != [] {
      StepKeeps(plan, s, moves[0]);
      StepFaults(plan, s, moves[0]);
      RunFaults(plan, After(plan, s, moves[0]), moves[1..]);
    }
  }

  ghost predicate Accepted(plan: Plan, s: State) {
    exists v :: Describes(plan, s.permission, s.slots, v)
  }

  lemma FaultlessIsAccepted(plan: Plan, s: State)
    requires Inv(plan, s) && AllFaultless(plan, s.slots)
    ensures Accepted(plan, s)
  {
    forall i: nat | i < |s.slots|
      ensures FilesOk(plan, s.permission, s.slots[i]) && !Judge(plan, s.permission, s.slots[i]).Invalid?
    {
      assert Faultless(plan, s.slots[i]);
    }
    ReservedIsPrefix(plan, s);
    var m := Used(s.slots);
    var v := if m == 0 then View(0, false) else View(m, Judge(plan, s.permission, s.slots[m - 1]).blocked);
    if m > 0 { assert Reached(plan, s.permission, s.slots, m - 1); }
    assert Describes(plan, s.permission, s.slots, v);
  }

  /** The replay accepts the directory that a run leaves behind if and only if no move of the run was faulty. */
  lemma ReplayAcceptsExactly(plan: Plan, n: nat, moves: seq<Move>)
    ensures Accepted(plan, Run(plan, Prepared(n), moves)) <==> FaultFree(plan, Prepared(n), moves)
  {
    RunKeeps(plan, Prepared(n), moves);
    RunFaults(plan, Prepared(n), moves);
    if FaultFree(plan, Prepared(n), moves) { FaultlessIsAccepted(plan, Run(plan, Prepared(n), moves)); }
  }

  // ----- careful runs -----

  /** A move at time `now` whose publications are atomic, and whose archiving does not fail and live on. */
  predicate Careful(move: Move) {
    match move
    case Reserve(_, _, publication) => publication.Kept? || !publication.left.Part?
    case Archive(_, publication, _) => publication.Kept? || (publication.dies && !publication.left.Part?)
    case Record(_, _, publication) => publication.Kept? || !publication.left.Part?
    case _ => true
  }

  function Clock(move: Move, clock: int): int {
    if move.Reserve? || move.Record? then move.now else clock
  }

  /** Every move is careful and the clock does not run backwards. */
  predicate CarefulRun(moves: seq<Move>, clock: int)
    decreases |moves|
  {
    moves == [] || (Careful(moves[0]) && Clock(moves[0], clock) >= clock
                    && CarefulRun(moves[1..], Clock(moves[0], clock)))
  }

  predicate ReservedBefore(slots: seq<Files>, clock: int) {
    forall i | 0 <= i < |slots| && slots[i].reserved.Whole? :: slots[i].reserved.value.reservedAt <= clock
  }

  /** Without an archive there was no native value. */
  ghost predicate NothingLost(s: State) {
    forall p | p in s.phases && s.phases[p].Archived? && s.phases[p].archived.None? ::
      s.phases[p].native.None? && s.phases[p].slot < |s.slots| && s.slots[s.phases[p].slot].native.Absent?
  }

  ghost predicate CarefulState(s: State, clock: int) {
    ReservedBefore(s.slots, clock) && NothingLost(s)
  }

  lemma NothingIsLost(plan: Plan, s: State, move: Move)
    requires Inv(plan, s) && NothingLost(s) && Careful(move)
    ensures NothingLost(After(plan, s, move))
  {
    if !move.Unlock? && !PhaseOf(s, move.p).Gone? {
      assert PhaseOk(plan, s, move.p, s.phases[move.p]);
    }
  }

  /** With atomic publication, archiving that either works or kills the process, and a clock that does not run
      backwards, the replay accepts every state of every run. */
  lemma {:induction false} CarefulRunsAreFaultFree(plan: Plan, s: State, moves: seq<Move>, clock: int)
    requires Inv(plan, s) && CarefulState(s, clock) && CarefulRun(moves, clock)
    ensures FaultFree(plan, s, moves)
    decreases |moves|
  {
    if moves != [] {
      StepKeeps(plan, s, moves[0]);
      NothingIsLost(plan, s, moves[0]);
      CarefulRunsAreFaultFree(plan, After(plan, s, moves[0]), moves[1..], Clock(moves[0], clock));
    }
  }

  lemma CarefulRunsAreAccepted(plan: Plan, n: nat, moves: seq<Move>, clock: int)
    requires CarefulRun(moves, clock)
    ensures Accepted(plan, Run(plan, Prepared(n), moves))
  {
    CarefulRunsAreFaultFree(plan, Prepared(n), moves, clock);
    ReplayAcceptsExactly(plan, n, moves);
  }

  /** Archiving that fails without a trace and lives on is enough to spoil the ledger: the attempt then records usage,
      cost or a violation that no file supports. */
  lemma LostArchiveIsRejected(plan: Plan, s: State, p: Process, message: string, now: int)
    requires Inv(plan, s) && PhaseOf(s, p).Returned? && message != ""
    requires Matters(s.phases[p].text.parsed, plan.inputBound, plan.outputBound)
    ensures var lost := After(plan, s, Archive(p, Broken(Nothing, false), message));
            !Accepted(plan, After(plan, lost, Record(p, now, Kept)))
  {
    assert PhaseOk(plan, s, p, s.phases[p]);
    var lost := After(plan, s, Archive(p, Broken(Nothing, false), message));
    StepKeeps(plan, s, Archive(p, Broken(Nothing, false), message));
    StepKeeps(plan, lost, Record(p, now, Kept));
    LostNativeMatters(s.phases[p].text.parsed, Some(message), plan.inputBound, plan.outputBound);
    assert Faulty(plan, lost, Record(p, now, Kept));
    StepFaults(plan, lost, Record(p, now, Kept));
  }

  // ----- the lock -----

  /** The move kills its process, at the latest during a publication; a permission that exists is not published. */
  predicate Kills(s: State, move: Move) {
    match move
    case Die(_) => true
    case Permit(_, _, publication) => s.permission.Absent? && publication.Broken? && publication.dies
    case Reserve(_, _, publication) => publication.Broken? && publication.dies
    case Archive(_, publication, _) => publication.Broken? && publication.dies
    case Record(_, _, publication) => publication.Broken? && publication.dies
    case _ => false
  }

  /** A process holds the lock from its first check to its end, whatever the others do.  It ends by its own move alone,
      and then the lock is released unless it died; dying or throwing always ends it. */
  lemma HowProcessesEnd(plan: Plan, s: State, p: Process, move: Move)
    requires Inv(plan, s) && p in s.phases && !s.phases[p].Gone?
    ensures p in After(plan, s, move).phases && s.lock == Some(p)
    ensures var t := After(plan, s, move);
            && (t.phases[p].Gone? ==>
                  !move.Unlock? && move.p == p && t.lock == (if Kills(s, move) then Some(p) else None))
            && (!t.phases[p].Gone? ==> t.lock == Some(p))
            && (move == Die(p) || move == Fail(p) ==> t.phases[p].Gone?)
  {
    assert PhaseOk(plan, s, p, s.phases[p]);
    if !move.Unlock? && move.p != p && move.p in s.phases {
      assert PhaseOk(plan, s, move.p, s.phases[move.p]);
    }
  }

  /** A new process gets the lock if it is free and otherwise gives up; an operator removes the lock of a process that is
      gone and no other. */
  lemma WhoGetsTheLock(plan: Plan, s: State, p: Process)
    requires p !in s.phases
    ensures After(plan, s, Enter(p))
            == if s.lock.None? then s.(lock := Some(p), phases := s.phases[p := Entered])
               else s.(phases := s.phases[p := Gone])
    ensures s.lock.Some? ==> (After(plan, s, Unlock).lock.None? <==> PhaseOf(s, s.lock.value).Gone?)
  {
  }

  // ----- a call that goes well -----

  /** A process under way: everything but its phase. */
  function Under(s: State, p: Process, slots: seq<Files>, permission: File<Digest>, phase: Phase,
                 log: seq<nat>): State {
    State(slots, permission, Some(p), s.phases[p := phase], log)
  }

  ghost predicate Reaches(plan: Plan, s: State, t: State) {
    exists moves :: Run(plan, s, moves) == t
  }

  lemma {:induction false} RunsConcatenate(plan: Plan, s: State, moves: seq<Move>, more: seq<Move>)
    ensures Run(plan, s, moves + more) == Run(plan, Run(plan, s, moves), more)
    decreases |moves|
  {
    if moves == [] {
      assert [] + more == more;
    } else {
      assert (moves + more)[1..] == moves[1..] + more;
      RunsConcatenate(plan, After(plan, s, moves[0]), moves[1..], more);
    }
  }

  lemma Onward(plan: Plan, o: State, s: State, move: Move, s': State)
    requires Reaches(plan, o, s)
    requires var t := After(plan, s, move);
             t.slots == s'.slots && t.permission == s'.permission && t.lock == s'.lock && t.phases == s'.phases
             && t.log == s'.log
    ensures Reaches(plan, o, s')
  {
    var moves :| Run(plan, o, moves) == s;
    assert Run(plan, s, [move]) == s';
    RunsConcatenate(plan, o, moves, [move]);
  }

  predicate MayCall(s: State, p: Process, bytes: Digest) {
    s.lock.None? && p !in s.phases && s.permission in {Absent, Whole(bytes)}
  }

  lemma Admits(plan: Plan, s: State, view: View, p: Process, bytes: Digest)
    requires Executable(plan, s, view) && MayCall(s, p, bytes)
    ensures Reaches(plan, s, Under(s, p, s.slots, Whole(bytes), Permitted(view.count, bytes), s.log))
  {
    assert Run(plan, s, []) == s;
    var s1 := Under(s, p, s.slots, s.permission, Entered, s.log);
    Onward(plan, s, s, Enter(p), s1);
    var s2 := s1.(phases := s.phases[p := Checked(view.count)]);
    assert Executable(plan, s1, view);
    forall v | Executable(plan, s1, v) ensures v == view { OneView(plan, s.permission, s.slots, v, view); }
    Onward(plan, s, s1, Check(p), s2);
    Onward(plan, s, s2, Permit(p, bytes, Kept),
           Under(s, p, s.slots, Whole(bytes), Permitted(view.count, bytes), s.log));
  }

  /** The files of a call that went well. */
  function Completed(plan: Plan, bytes: Digest, now: int, text: Text, later: int): Files {
    var reservation := Reservation(bytes, now);
    Files(Whole(reservation), Whole(text),
          Whole(Attempt(reservation, Some(text), None, later,
                        Projection(text.parsed, None, plan.inputBound, plan.outputBound))))
  }

  lemma ReservesAndCalls(plan: Plan, o: State, s: State, p: Process, k: nat, bytes: Digest, now: int, text: Text)
    requires Reaches(plan, o, s) && k < |s.slots| && PhaseOf(s, p) == Permitted(k, bytes) && s.lock == Some(p)
    requires s.slots[k] == Files(Absent, Absent, Absent)
    ensures Reaches(plan, o,
                    State(s.slots[k := Files(Whole(Reservation(bytes, now)), Absent, Absent)], s.permission, Some(p),
                                   s.phases[p := Returned(k, text)], s.log + [k]))
  {
    var s1 := s.(slots := s.slots[k := Files(Whole(Reservation(bytes, now)), Absent, Absent)],
                 phases := s.phases[p := Calling(k, false)]);
    Onward(plan, o, s, Reserve(p, now, Kept), s1);
    var s2 := s1.(phases := s.phases[p := Calling(k, true)], log := s.log + [k]);
    Onward(plan, o, s1, Dispatch(p), s2);
    Onward(plan, o, s2, Return(p, text), s2.(phases := s.phases[p := Returned(k, text)]));
  }

  lemma CallRuns(plan: Plan, s: State, view: View, p: Process, bytes: Digest, now: int, text: Text, later: int)
    requires Executable(plan, s, view) && MayCall(s, p, bytes) && view.count < |s.slots|
             && s.slots[view.count] == Files(Absent, Absent, Absent)
    ensures Reaches(plan, s, State(s.slots[view.count := Completed(plan, bytes, now, text, later)], Whole(bytes), None,
                                   s.phases[p := Gone], s.log + [view.count]))
  {
    var k := view.count;
    Admits(plan, s, view, p, bytes);
    ReservesAndCalls(plan, s, Under(s, p, s.slots, Whole(bytes), Permitted(k, bytes), s.log), p, k, bytes, now, text);
    var reserved := s.slots[k := Files(Whole(Reservation(bytes, now)), Absent, Absent)];
    var s1 := Under(s, p, reserved, Whole(bytes), Returned(k, text), s.log + [k]);
    assert s.phases[p := Permitted(k, bytes)][p := Returned(k, text)] == s1.phases;
    ArchivesAndRecords(plan, s, s1, p, k, text, bytes, now, later);
    assert reserved[k := Completed(plan, bytes, now, text, later)]
        == s.slots[k := Completed(plan, bytes, now, text, later)];
    assert s1.phases[p := Gone] == s.phases[p := Gone];
  }

  // How a call ends: the value is archived, or archiving fails and the process lives on, or the executor throws.
  datatype Ending = Settled(text: Text) | Unarchived(text: Text, left: Left, message: string) | Threw(message: string)

  function EndingMoves(p: Process, ending: Ending, later: int): seq<Move> {
    match ending
    case Settled(text) => [Return(p, text), Archive(p, Kept, ""), Record(p, later, Kept)]
    case Unarchived(text, left, message) =>
      [Return(p, text), Archive(p, Broken(left, false), message), Record(p, later, Kept)]
    case Threw(message) => [Throw(p, message), Record(p, later, Kept)]
  }

  lemma {:induction false} ThreeMoves(plan: Plan, s: State, a: Move, b: Move, c: Move)
    ensures Run(plan, s, [a, b, c]) == After(plan, After(plan, After(plan, s, a), b), c)
  {
    assert [a, b, c][1..] == [b, c];
    TwoMoves(plan, After(plan, s, a), b, c);
  }

  /** The process is gone, the lock released, and slot `k` holds the reservation, this native file and an attempt that
      projects `value`. */
  function Recorded(plan: Plan, s: State, p: Process, k: nat, reservation: Reservation, native: File<Text>,
                    archived: Option<Text>, exception: Option<string>, value: Option<Native>, later: int): State
    requires k < |s.slots|
  {
    var attempt := Attempt(reservation, archived, exception, later,
                           Projection(value, exception, plan.inputBound, plan.outputBound));
    State(s.slots[k := Files(Whole(reservation), native, Whole(attempt))], s.permission, None, s.phases[p := Gone],
          s.log)
  }

  lemma RecordDoes(plan: Plan, s: State, t: State, p: Process, k: nat, reservation: Reservation, native: File<Text>,
                   archived: Option<Text>, exception: Option<string>, value: Option<Native>, later: int)
    requires k < |s.slots|
    requires t == State(s.slots[k := Files(Whole(reservation), native, Absent)], s.permission, s.lock,
                        s.phases[p := Archived(k, value, archived, exception)], s.log)
    ensures After(plan, t, Record(p, later, Kept))
            == Recorded(plan, s, p, k, reservation, native, archived, exception, value, later)
  {
    assert s.phases[p := Archived(k, value, archived, exception)][p := Gone] == s.phases[p := Gone];
  }

  lemma ReturnedIsRecorded(plan: Plan, s: State, p: Process, k: nat, reservation: Reservation, text: Text,
                           publication: Publication, message: string, later: int)
    requires PhaseOf(s, p).Calling? && s.phases[p].slot == k < |s.slots|
    requires s.slots[k] == Files(Whole(reservation), Absent, Absent)
    requires publication.Broken? ==> !publication.dies
    ensures Run(plan, s, [Return(p, text), Archive(p, publication, message), Record(p, later, Kept)])
            == Recorded(plan, s, p, k, reservation, Remains(publication, text),
                        if publication.Kept? then Some(text) else None,
                        if publication.Kept? then None else Some(message), text.parsed, later)
  {
    var archived := if publication.Kept? then Some(text) else None;
    var exception := if publication.Kept? then None else Some(message);
    var s1 := After(plan, s, Return(p, text));
    var s2 := After(plan, s1, Archive(p, publication, message));
    assert s1.phases[p := Archived(k, text.parsed, archived, exception)]
        == s.phases[p := Archived(k, text.parsed, archived, exception)];
    RecordDoes(plan, s, s2, p, k, reservation, Remains(publication, text), archived, exception, text.parsed, later);
    ThreeMoves(plan, s, Return(p, text), Archive(p, publication, message), Record(p, later, Kept));
  }

  function LeftBehind(left: Left, text: Text): File<Text> {
    match left
    case Nothing => Absent
    case Part => Torn
    case All => Whole(text)
  }

  function EndedAs(plan: Plan, s: State, p: Process, k: nat, reservation: Reservation, ending: Ending,
                   later: int): State
    requires k < |s.slots|
  {
    match ending
    case Settled(text) => Recorded(plan, s, p, k, reservation, Whole(text), Some(text), None, text.parsed, later)
    case Unarchived(text, left, message) =>
      Recorded(plan, s, p, k, reservation, LeftBehind(left, text), None, Some(message), text.parsed, later)
    case Threw(message) => Recorded(plan, s, p, k, reservation, Absent, None, Some(message), None, later)
  }

  /** However a call ends, its attempt says so: the text that was archived if it was, the message if archiving failed
      or the executor threw, and the projection of exactly the value that came back and that message; the native file
      holds what the publication left; and the lock is released. */
  lemma EveryCallIsRecorded(plan: Plan, s: State, p: Process, k: nat, reservation: Reservation, ending: Ending,
                            later: int)
    requires PhaseOf(s, p).Calling? && s.phases[p].slot == k < |s.slots|
    requires s.slots[k] == Files(Whole(reservation), Absent, Absent)
    ensures Run(plan, s, EndingMoves(p, ending, later)) == EndedAs(plan, s, p, k, reservation, ending, later)
  {
    match ending
    case Settled(text) => ReturnedIsRecorded(plan, s, p, k, reservation, text, Kept, "", later);
    case Unarchived(text, left, message) =>
      ReturnedIsRecorded(plan, s, p, k, reservation, text, Broken(left, false), message, later);
    case Threw(message) =>
      var s1 := After(plan, s, Throw(p, message));
      assert s.slots[k := s.slots[k]] == s.slots;
      RecordDoes(plan, s, s1, p, k, reservation, Absent, None, Some(message), None, later);
      TwoMoves(plan, s, Throw(p, message), Record(p, later, Kept));
  }

  /** From an executable ledger, a call that goes well leaves the slot reserved, dispatched, archived and recorded
      with the projection of exactly what was archived, releases the lock, and the replay counts it. */
  lemma CallAdvances(plan: Plan, s: State, view: View, p: Process, bytes: Digest, now: int, text: Text, later: int)
    requires Inv(plan, s) && Executable(plan, s, view) && MayCall(s, p, bytes) && now <= later
    ensures var k, files := view.count, Completed(plan, bytes, now, text, later);
            var t := State(s.slots[k := files], Whole(bytes), None, s.phases[p := Gone], s.log + [k]);
            && Reaches(plan, s, t)
            && Describes(plan, t.permission, t.slots,
                         View(k + 1, Projection(text.parsed, None, plan.inputBound, plan.outputBound).blocked))
  {
    assert FilesOk(plan, s.permission, s.slots[view.count]);
    CallRuns(plan, s, view, p, bytes, now, text, later);
    ViewAdvances(plan, s, view, bytes, Completed(plan, bytes, now, text, later));
  }

  lemma ArchivesAndRecords(plan: Plan, o: State, s: State, p: Process, k: nat, text: Text, bytes: Digest, now: int,
                           later: int)
    requires Reaches(plan, o, s) && k < |s.slots| && PhaseOf(s, p) == Returned(k, text) && s.lock == Some(p)
    requires s.slots[k] == Files(Whole(Reservation(bytes, now)), Absent, Absent)
    ensures Reaches(plan, o,
                    State(s.slots[k := Completed(plan, bytes, now, text, later)], s.permission, None,
                          s.phases[p := Gone], s.log))
  {
    var archived := s.slots[k].(native := Whole(text));
    var s1 := s.(slots := s.slots[k := archived], phases := s.phases[p := Archived(k, text.parsed, Some(text), None)]);
    Onward(plan, o, s, Archive(p, Kept, ""), s1);
    Onward(plan, o, s1, Record(p, later, Kept),
           State(s.slots[k := Completed(plan, bytes, now, text, later)], s.permission, None, s.phases[p := Gone],
                 s.log));
  }

  lemma ViewAdvances(plan: Plan, s: State, view: View, bytes: Digest, files: Files)
    requires Inv(plan, s) && Executable(plan, s, view) && s.permission in {Absent, Whole(bytes)}
    requires files.reserved.Whole? && files.reserved.value.permission == bytes && files.native.Whole?
             && files.attempt.Whole?
    requires AttemptFits(plan, files)
    ensures Describes(plan, Whole(bytes), s.slots[view.count := files],
                      View(view.count + 1, files.attempt.value.projected.blocked))
  {
    var k, after := view.count, s.slots[view.count := files];
    forall i: nat | i < |after| && i != k
      ensures Judge(plan, Whole(bytes), after[i]) == Judge(plan, s.permission, s.slots[i])
    {
      assert FilesOk(plan, s.permission, s.slots[i]) && after[i] == s.slots[i];
    }
    assert Judge(plan, Whole(bytes), after[k]) == Open(files.attempt.value.projected.blocked);
    assert k > 0 ==> Judge(plan, s.permission, s.slots[k - 1]) == Open(false);
  }

  lemma TwoMoves(plan: Plan, s: State, a: Move, b: Move)
    ensures Run(plan, s, [a, b]) == After(plan, After(plan, s, a), b)
  {
    var t := After(plan, s, a);
    assert [a, b][1..] == [b] && [b][1..] == [];
    assert Run(plan, s, [a, b]) == Run(plan, t, [b]);
    assert Run(plan, t, [b]) == Run(plan, After(plan, t, b), []);
  }

  /** From a freshly prepared directory: a run without any fault after which a single failed archiving, lived through
      and recorded, has the whole ledger rejected. */
  lemma LostArchiveRun(plan: Plan, n: nat, p: Process, bytes: Digest, now: int, text: Text, message: string, later: int)
    returns (moves: seq<Move>)
    requires n >= 1 && plan.maxCalls >= 1 && ReservationTokens(plan) <= plan.maxTokens && message != ""
    requires Matters(text.parsed, plan.inputBound, plan.outputBound)
    ensures FaultFree(plan, Prepared(n), moves)
    ensures var spoils := [Archive(p, Broken(Nothing, false), message), Record(p, later, Kept)];
            !Accepted(plan, Run(plan, Prepared(n), moves + spoils))
  {
    var o := Prepared(n);
    moves := FirstCallReturns(plan, n, p, bytes, now, text);
    RunKeeps(plan, o, moves);
    var s := Run(plan, o, moves);
    RunFaults(plan, o, moves);
    var archive, record := Archive(p, Broken(Nothing, false), message), Record(p, later, Kept);
    RunsConcatenate(plan, o, moves, [archive, record]);
    TwoMoves(plan, s, archive, record);
    LostArchiveIsRejected(plan, s, p, message, later);
  }

  lemma FirstCallReturns(plan: Plan, n: nat, p: Process, bytes: Digest, now: int, text: Text) returns (moves: seq<Move>)
    requires n >= 1 && plan.maxCalls >= 1 && ReservationTokens(plan) <= plan.maxTokens
    ensures PhaseOf(Run(plan, Prepared(n), moves), p) == Returned(0, text)
    ensures AllFaultless(plan, Run(plan, Prepared(n), moves).slots)
  {
    var o := Prepared(n);
    assert Executable(plan, o, View(0, false));
    Admits(plan, o, View(0, false), p, bytes);
    var s := Under(o, p, o.slots, Whole(bytes), Permitted(0, bytes), o.log);
    ReservesAndCalls(plan, o, s, p, 0, bytes, now, text);
    var t := State(s.slots[0 := Files(Whole(Reservation(bytes, now)), Absent, Absent)], s.permission, Some(p),
                   s.phases[p := Returned(0, text)], s.log + [0]);
    moves :| Run(plan, o, moves) == t;
  }
}
