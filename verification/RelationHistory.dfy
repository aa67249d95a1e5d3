/** The event-sourced history of one relation between two knowledge items, and what a reader selects from it. */
module RelationHistory {
  import opened Options
  import opened Sequences
  import opened Supersession
  import WriteLog

  type Receipt = WriteLog.Receipt

  datatype Actor = Actor(kind: string, id: string, executionRef: string)

  datatype RelationType = Supplements | ConflictsWith
  datatype Scope = Same | Different | Unknown
  datatype Choice = Accept | Reject

  // Of the evidence only its number matters here; `prose` stands for the fields no check looks at.
  datatype Decision =
    | Proposed(parentRevision: Option<Id>, relationType: RelationType, scope: Scope, fromItem: Id, toItem: Id,
               evidence: nat, prose: string)
    | Reviewed(revision: Id, choice: Choice, checked: seq<nat>, supersedes: seq<Id>, prose: string)
    | Withdrawn(revision: Id, prose: string)

  datatype Event = Event(id: Id, parent: Option<Id>, actor: Actor, at: int, decision: Decision)

  datatype History = History(namespace: string, relationId: Id, generation: nat, head: Id, events: seq<Event>,
                             receipts: seq<Receipt>)

  datatype Submission = Submission(relationId: Id, requestId: Id, expectedGeneration: nat, expectedHead: Option<Id>,
                                   decision: Decision, actor: Actor, namespace: string, digest: string, at: int)

  const MAX_EVENTS := 4096

  // ----- what the schemas demand -----

  predicate DecisionParses(d: Decision) {
    && (d.Proposed? ==>
        d.evidence >= 2 && d.fromItem != d.toItem && !(d.relationType.ConflictsWith? && d.scope.Different?))
    && (d.Reviewed? ==> Distinct(d.checked) && Distinct(d.supersedes))
  }

  predicate Parses(h: History) {
    && 1 <= |h.events| <= MAX_EVENTS && 1 <= |h.receipts| <= MAX_EVENTS && h.generation > 0
    && forall e | e in h.events :: DecisionParses(e.decision)
  }

  // ----- one event -----

  function SameActor(a: Actor, b: Actor): bool {
    a.kind == b.kind && a.id == b.id
  }

  function FindProposal(events: seq<Event>, id: Id): (found: Option<Event>)
    ensures found.Some? ==> found.value in events && found.value.decision.Proposed? && found.value.id == id
    ensures found.None? ==> forall e | e in events && e.decision.Proposed? :: e.id != id
  {
    if events == [] then None
    else if events[0].decision.Proposed? && events[0].id == id then Some(events[0])
    else FindProposal(events[1..], id)
  }

  function FindEvent(events: seq<Event>, id: Id): (found: Option<Event>)
    ensures found.Some? ==> found.value in events && found.value.id == id
    ensures found.None? ==> forall e | e in events :: e.id != id
  {
    if events == [] then None else if events[0].id == id then Some(events[0]) else FindEvent(events[1..], id)
  }

  predicate IsLastProposal(events: seq<Event>, k: int) {
    0 <= k < |events| && events[k].decision.Proposed? && forall i | k < i < |events| :: !events[i].decision.Proposed?
  }

  /** The last proposal. */
  function Latest(events: seq<Event>): (found: Option<Event>)
    ensures found.Some? ==> exists k :: IsLastProposal(events, k) && events[k] == found.value
    ensures found.None? ==> forall e | e in events :: !e.decision.Proposed?
  {
    if events == [] then None
    else
      var last := events[|events| - 1];
      if last.decision.Proposed? then
        assert IsLastProposal(events, |events| - 1);
        Some(last)
      else
        assert forall k | IsLastProposal(events[..|events| - 1], k) :: IsLastProposal(events, k);
        Latest(events[..|events| - 1])
  }

  predicate IsWithdrawn(events: seq<Event>, revision: Id) {
    exists e | e in events :: e.decision.Withdrawn? && e.decision.revision == revision
  }

  predicate IsSuperseded(events: seq<Event>, id: Id) {
    exists e | e in events :: e.decision.Reviewed? && id in e.decision.supersedes
  }

  function IdOf(event: Option<Event>): Option<Id> {
    if event.Some? then Some(event.value.id) else None
  }

  /** The opinion that a review of `revision` by `actor` may retire. */
  predicate MayRetire(prior: seq<Event>, actor: Actor, revision: Id, id: Id) {
    var previous := FindEvent(prior, id);
    && previous.Some? && previous.value.decision.Reviewed? && previous.value.decision.revision == revision
    && !IsSuperseded(prior, id) && SameActor(previous.value.actor, actor)
  }

  datatype Verdict = Fine | Invalid | Forbidden

  /** `validateEvent`. */
  function ValidateEvent(prior: seq<Event>, event: Event): Verdict {
    var latest := Latest(prior);
    var d := event.decision;
    if d.Proposed? then
      if d.parentRevision != IdOf(latest) then Invalid
      else if latest.Some?
          && (d.fromItem != latest.value.decision.fromItem || d.toItem != latest.value.decision.toItem) then Invalid
      else Fine
    else
      var target := FindProposal(prior, d.revision);
      if target.None? || IsWithdrawn(prior, d.revision) then Invalid
      else if d.Withdrawn? then
        if IdOf(latest) != Some(d.revision) || !SameActor(event.actor, target.value.actor) then Forbidden else Fine
      else
        var proposal := target.value.decision;
        if exists x | x in d.checked :: x >= proposal.evidence then Invalid
        else if d.choice.Accept? && proposal.relationType.ConflictsWith? && !proposal.scope.Same? then Invalid
        else if d.choice.Accept? && |d.checked| != proposal.evidence then Invalid
        else if exists id | id in d.supersedes :: !MayRetire(prior, event.actor, d.revision, id) then Forbidden
        else Fine
  }

  /** A review, proposal or withdrawal that may stand after `prior`, apart from who makes it. */
  ghost predicate InPlace(prior: seq<Event>, d: Decision) {
    match d
    case Proposed(parent, _, _, fromItem, toItem, _, _) =>
      (parent.None? && forall e | e in prior :: !e.decision.Proposed?)
      || exists k ::
           && IsLastProposal(prior, k) && parent == Some(prior[k].id)
           && fromItem == prior[k].decision.fromItem && toItem == prior[k].decision.toItem
    case Withdrawn(revision, _) => Proposes(prior, revision) && !IsWithdrawn(prior, revision)
    case Reviewed(revision, choice, checked, _, _) =>
      && !IsWithdrawn(prior, revision)
      && exists e :: e in prior && e.decision.Proposed? && e.id == revision && Examined(e.decision, choice, checked)
  }

  predicate Proposes(prior: seq<Event>, revision: Id) {
    exists e | e in prior :: e.decision.Proposed? && e.id == revision
  }

  /** Only evidence of the proposal was checked; for an accept, as many items as there are, and a conflict only if its
      scope is the same. */
  predicate Examined(proposal: Decision, choice: Choice, checked: seq<nat>)
    requires proposal.Proposed?
  {
    && (forall x | x in checked :: x < proposal.evidence)
    && (choice.Accept? ==> |checked| == proposal.evidence
                           && (proposal.relationType.ConflictsWith? ==> proposal.scope.Same?))
  }

  ghost predicate RetiresOwn(prior: seq<Event>, event: Event, id: Id)
    requires event.decision.Reviewed?
  {
    && !IsSuperseded(prior, id)
    && exists e :: e in prior && e.id == id && e.decision.Reviewed? && e.decision.revision == event.decision.revision
                   && e.actor.kind == event.actor.kind && e.actor.id == event.actor.id
  }

  /** The actor may make the event: withdraw the last proposal if it is its own, supersede its own standing reviews. */
  ghost predicate Entitled(prior: seq<Event>, event: Event) {
    match event.decision
    case Proposed(_, _, _, _, _, _, _) => true
    case Withdrawn(revision, _) =>
      exists k :: IsLastProposal(prior, k) && prior[k].id == revision && prior[k].actor.kind == event.actor.kind
                  && prior[k].actor.id == event.actor.id
    case Reviewed(_, _, _, supersedes, _) => forall id | id in supersedes :: RetiresOwn(prior, event, id)
  }

  ghost predicate IdsDiffer(events: seq<Event>) {
    forall a, b | 0 <= a < b < |events| :: events[a].id != events[b].id
  }

  lemma SameId(events: seq<Event>, e: Event, f: Event)
    requires IdsDiffer(events) && e in events && f in events && e.id == f.id
    ensures e == f
  {
    var i :| 0 <= i < |events| && events[i] == e;
    var j :| 0 <= j < |events| && events[j] == f;
    assert i == j;
  }

  lemma LatestExactly(events: seq<Event>, k: int)
    requires IsLastProposal(events, k)
    ensures Latest(events) == Some(events[k])
  {
    assert events[k] in events;
  }

  lemma MayRetireExactly(prior: seq<Event>, actor: Actor, revision: Id, id: Id)
    requires IdsDiffer(prior)
    ensures MayRetire(prior, actor, revision, id) <==>
              && !IsSuperseded(prior, id)
              && exists e :: e in prior && e.id == id && e.decision.Reviewed? && e.decision.revision == revision
                             && e.actor.kind == actor.kind && e.actor.id == actor.id
  {
    if e :| e in prior && e.id == id && e.decision.Reviewed? && e.decision.revision == revision
            && e.actor.kind == actor.kind && e.actor.id == actor.id {
      SameId(prior, e, FindEvent(prior, id).value);
    }
  }

  lemma ProposalExactly(prior: seq<Event>, e: Event)
    requires IdsDiffer(prior) && e in prior && e.decision.Proposed?
    ensures FindProposal(prior, e.id) == Some(e)
  {
    SameId(prior, e, FindProposal(prior, e.id).value);
  }

  /** The check of one event passes exactly if the event is in place and its actor entitled; it is forbidden, and not
      merely invalid, exactly if it is in place but its actor is not entitled. */
  lemma VerdictExactly(prior: seq<Event>, event: Event)
    requires IdsDiffer(prior)
    ensures ValidateEvent(prior, event).Fine? <==> InPlace(prior, event.decision) && Entitled(prior, event)
    ensures ValidateEvent(prior, event).Forbidden? <==> InPlace(prior, event.decision) && !Entitled(prior, event)
  {
    match event.decision
    case Proposed(_, _, _, _, _, _, _) => ProposalVerdict(prior, event);
    case Withdrawn(_, _) => WithdrawalVerdict(prior, event);
    case Reviewed(_, _, _, _, _) => ReviewVerdict(prior, event);
  }

  lemma ProposalVerdict(prior: seq<Event>, event: Event)
    requires event.decision.Proposed?
    ensures ValidateEvent(prior, event).Fine? <==> InPlace(prior, event.decision)
  {
    if k :| IsLastProposal(prior, k) { LatestExactly(prior, k); assert prior[k] in prior; }
  }

  lemma WithdrawalVerdict(prior: seq<Event>, event: Event)
    requires IdsDiffer(prior) && event.decision.Withdrawn?
    ensures ValidateEvent(prior, event).Fine? <==> InPlace(prior, event.decision) && Entitled(prior, event)
    ensures ValidateEvent(prior, event).Forbidden? <==> InPlace(prior, event.decision) && !Entitled(prior, event)
  {
    if k :| IsLastProposal(prior, k) {
      LatestExactly(prior, k);
      ProposalExactly(prior, prior[k]);
    }
  }

  lemma ReviewVerdict(prior: seq<Event>, event: Event)
    requires IdsDiffer(prior) && event.decision.Reviewed?
    ensures ValidateEvent(prior, event).Fine? <==> InPlace(prior, event.decision) && Entitled(prior, event)
    ensures ValidateEvent(prior, event).Forbidden? <==> InPlace(prior, event.decision) && !Entitled(prior, event)
  {
    var d := event.decision;
    forall id ensures MayRetire(prior, event.actor, d.revision, id) <==> RetiresOwn(prior, event, id) {
      MayRetireExactly(prior, event.actor, d.revision, id);
    }
    if e :| e in prior && e.decision.Proposed? && e.id == d.revision { ProposalExactly(prior, e); }
  }

  // ----- the whole history -----

  function LastId(events: seq<Event>): Option<Id> {
    if events == [] then None else Some(events[|events| - 1].id)
  }

  predicate EntryOk(events: seq<Event>, receipts: seq<Receipt>, i: nat)
    requires i < |events| && i < |receipts|
  {
    var prior, event, receipt := events[..i], events[i], receipts[i];
    && FindEvent(prior, event.id).None? && event.parent == LastId(prior)
    && receipt.ref == event.id && receipt.requestId == event.id && receipt.generation == i + 1
    && ValidateEvent(prior, event).Fine?
  }

  predicate EntriesOk(events: seq<Event>, receipts: seq<Receipt>, n: nat)
    requires n <= |events| && n <= |receipts|
  {
    forall i | 0 <= i < n :: EntryOk(events, receipts, i)
  }

  /** What a stored history promises: every event was admissible where it stands. */
  predicate ValidHistory(h: History) {
    && h.generation == |h.events| == |h.receipts| && Some(h.head) == LastId(h.events)
    && EntriesOk(h.events, h.receipts, |h.events|)
  }

  function IdsOf(events: seq<Event>): (ids: set<Id>)
    ensures forall id :: id in ids <==> FindEvent(events, id).Some?
  {
    set e | e in events :: e.id
  }

  /** The checks of one event against what the loop has collected. */
  method CheckEntry(h: History, i: nat, prior: seq<Event>, ids: set<Id>) returns (ok: bool)
    requires i < |h.events| && i < |h.receipts| && prior == h.events[..i] && ids == IdsOf(prior)
    ensures ok <==> EntryOk(h.events, h.receipts, i)
  {
    var event, receipt := h.events[i], h.receipts[i];
    ok := !(event.id in ids || event.parent != LastId(prior) || receipt.ref != event.id || receipt.requestId != event.id
            || receipt.generation != i + 1) && ValidateEvent(prior, event).Fine?;
  }

  lemma IdsGrow(events: seq<Event>, event: Event)
    ensures IdsOf(events + [event]) == IdsOf(events) + {event.id}
  {
  }

  /** `validateKnowledgeRelationHistory`; true where the TypeScript code returns instead of throwing. */
  method ValidateHistory(h: History) returns (ok: bool)
    ensures ok <==> ValidHistory(h)
  {
    if h.generation != |h.events| || h.generation != |h.receipts| || Some(h.head) != LastId(h.events) { return false; }
    var prior, ids := [], {};
    for i := 0 to |h.events|
      invariant prior == h.events[..i] && EntriesOk(h.events, h.receipts, i) && ids == IdsOf(prior)
    {
      var fine := CheckEntry(h, i, prior, ids);
      if !fine { return false; }
      IdsGrow(prior, h.events[i]);
      ids := ids + {h.events[i].id};
      prior := prior + [h.events[i]];
    }
    return true;
  }

  lemma LaterIdDiffers(events: seq<Event>, receipts: seq<Receipt>, a: nat, b: nat)
    requires |events| == |receipts| && EntriesOk(events, receipts, |events|) && a < b < |events|
    ensures events[a].id != events[b].id
  {
    assert EntryOk(events, receipts, b) && events[..b][a] in events[..b];
  }

  lemma IdsAreDistinct(events: seq<Event>, receipts: seq<Receipt>)
    requires |events| == |receipts| && EntriesOk(events, receipts, |events|)
    ensures IdsDiffer(events)
  {
    forall a, b | 0 <= a < b < |events| ensures events[a].id != events[b].id { LaterIdDiffers(events, receipts, a, b); }
  }

  lemma SameIdSameEvent(h: History, e: Event, f: Event)
    requires ValidHistory(h) && e in h.events && f in h.events && e.id == f.id
    ensures e == f
  {
    IdsAreDistinct(h.events, h.receipts);
    var i :| 0 <= i < |h.events| && h.events[i] == e;
    var j :| 0 <= j < |h.events| && h.events[j] == f;
    assert i == j;
  }

  // ----- writing -----

  function Events(s: Option<History>): seq<Event> {
    if s.Some? then s.value.events else []
  }

  function Receipts(s: Option<History>): seq<Receipt> {
    if s.Some? then s.value.receipts else []
  }

  function Generation(s: Option<History>): nat {
    if s.Some? then s.value.generation else 0
  }

  function Head(s: Option<History>): Option<Id> {
    if s.Some? then Some(s.value.head) else None
  }

  function NewEvent(c: Submission): Event {
    Event(c.requestId, c.expectedHead, c.actor, c.at, c.decision)
  }

  function Next(s: Option<History>, c: Submission): History {
    History(c.namespace, c.relationId, c.expectedGeneration + 1, c.requestId, Events(s) + [NewEvent(c)],
            Receipts(s) + [WriteLog.Receipt(c.requestId, c.digest, c.expectedGeneration + 1, c.requestId)])
  }

  /** `applyKnowledgeRelationWrite`; None where it throws. */
  function Apply(s: Option<History>, c: Submission): Option<History> {
    if !DecisionParses(c.decision) then None
    else if s.Some? && !ValidHistory(s.value) then None
    else if s.Some? && (s.value.relationId != c.relationId || s.value.namespace != c.namespace) then None
    else
      var receipt := WriteLog.FindReceipt(Receipts(s), c.requestId);
      if receipt.Some? then if receipt.value.digest == c.digest then s else None
      else if Generation(s) != c.expectedGeneration || Head(s) != c.expectedHead then None
      else if !ValidateEvent(Events(s), NewEvent(c)).Fine? then None
      else
        var next := Next(s, c);
        if Parses(next) && ValidHistory(next) then Some(next) else None
  }

  predicate Stored(s: Option<History>) {
    s.Some? ==> Parses(s.value) && ValidHistory(s.value)
  }

  /** The check of the one new event refines the replay of the whole history: where it passes, the replay cannot fail.
      */
  lemma OneEventCheckRefinesReplay(s: Option<History>, c: Submission)
    requires Stored(s) && WriteLog.FindReceipt(Receipts(s), c.requestId).None?
    requires Generation(s) == c.expectedGeneration && Head(s) == c.expectedHead
    requires ValidateEvent(Events(s), NewEvent(c)).Fine?
    ensures ValidHistory(Next(s, c))
  {
    var before, next := Events(s), Next(s, c);
    forall i: nat | i < |next.events| ensures EntryOk(next.events, next.receipts, i) {
      if i < |before| {
        assert EntryOk(before, Receipts(s), i);
        assert next.events[..i] == before[..i];
      } else {
        assert next.events[..i] == before;
        forall e | e in before ensures e.id != c.requestId {
          var j :| 0 <= j < |before| && before[j] == e;
          assert EntryOk(before, Receipts(s), j) && Receipts(s)[j] in Receipts(s);
        }
      }
    }
  }

  /** So a write is accepted exactly when it is a redelivery, or names the current state, its event is in place and its
      actor entitled, and the history has room. */
  lemma AcceptedExactly(s: Option<History>, c: Submission)
    requires Stored(s) && DecisionParses(c.decision)
    requires s.Some? ==> s.value.relationId == c.relationId && s.value.namespace == c.namespace
    ensures var receipt := WriteLog.FindReceipt(Receipts(s), c.requestId);
            Apply(s, c).Some? <==>
              if receipt.Some? then receipt.value.digest == c.digest
              else
                && Generation(s) == c.expectedGeneration && Head(s) == c.expectedHead && |Events(s)| < 4096
                && InPlace(Events(s), c.decision)
                && Entitled(Events(s), Event(c.requestId, c.expectedHead, c.actor, c.at, c.decision))
  {
    if s.Some? { IdsAreDistinct(s.value.events, s.value.receipts); }
    VerdictExactly(Events(s), NewEvent(c));
    if WriteLog.FindReceipt(Receipts(s), c.requestId).None? && Generation(s) == c.expectedGeneration
       && Head(s) == c.expectedHead && ValidateEvent(Events(s), NewEvent(c)).Fine? {
      OneEventCheckRefinesReplay(s, c);
    }
  }

  /** What an accepted new write stores is what was submitted. */
  lemma AcceptedIsStored(s: Option<History>, c: Submission)
    requires Stored(s) && Apply(s, c).Some? && WriteLog.FindReceipt(Receipts(s), c.requestId).None?
    ensures var h := Apply(s, c).value; var n := |Events(s)|;
            && h.namespace == c.namespace && h.relationId == c.relationId && h.generation == n + 1
            && h.head == c.requestId
            && |h.events| == n + 1 && h.events[..n] == Events(s)
            && h.events[n].id == c.requestId && h.events[n].parent == Head(s) && h.events[n].actor == c.actor
            && h.events[n].at == c.at && h.events[n].decision == c.decision
            && |h.receipts| == n + 1 && h.receipts[..n] == Receipts(s)
            && h.receipts[n].requestId == c.requestId && h.receipts[n].digest == c.digest
            && h.receipts[n].generation == n + 1 && h.receipts[n].ref == c.requestId
  {
  }

  // ----- what admissible events add up to -----

  /** All proposals of a history are about the same two knowledge items. */
  lemma {:induction false} OnePairOfItems(h: History, k: nat)
    requires ValidHistory(h) && k < |h.events| && h.events[k].decision.Proposed?
    ensures h.events[0].decision.Proposed?
    ensures h.events[k].decision.fromItem == h.events[0].decision.fromItem
            && h.events[k].decision.toItem == h.events[0].decision.toItem
  {
    assert EntryOk(h.events, h.receipts, k) && EntryOk(h.events, h.receipts, 0) && h.events[..0] == [];
    var latest := Latest(h.events[..k]);
    assert k > 0 ==> h.events[0] in h.events[..k];
    if latest.Some? {
      var j :| 0 <= j < k && h.events[j] == latest.value;
      OnePairOfItems(h, j);
    }
  }

  /** Only its author withdraws a proposal, and nothing refers to it afterwards. */
  lemma WithdrawalIsFinal(h: History, j: nat)
    requires ValidHistory(h) && j < |h.events| && h.events[j].decision.Withdrawn?
    ensures exists e | e in h.events[..j] ::
              e.decision.Proposed? && e.id == h.events[j].decision.revision && SameActor(e.actor, h.events[j].actor)
    ensures forall k | j < k < |h.events| && !h.events[k].decision.Proposed? ::
              h.events[k].decision.revision != h.events[j].decision.revision
  {
    assert EntryOk(h.events, h.receipts, j);
    assert FindProposal(h.events[..j], h.events[j].decision.revision).value in h.events[..j];
    forall k | j < k < |h.events| && !h.events[k].decision.Proposed?
      ensures h.events[k].decision.revision != h.events[j].decision.revision
    {
      assert EntryOk(h.events, h.receipts, k) && h.events[j] in h.events[..k];
    }
  }

  /** A review retires only earlier opinions of the same actor on the same revision. */
  lemma OnlyOwnOpinionsAreRetired(h: History, k: nat, id: Id)
    requires ValidHistory(h) && k < |h.events| && h.events[k].decision.Reviewed?
             && id in h.events[k].decision.supersedes
    ensures exists e | e in h.events[..k] ::
              && e.id == id && e.decision.Reviewed? && e.decision.revision == h.events[k].decision.revision
              && SameActor(e.actor, h.events[k].actor)
  {
    assert EntryOk(h.events, h.receipts, k);
    assert MayRetire(h.events[..k], h.events[k].actor, h.events[k].decision.revision, id);
  }

  // ----- opinions -----

  /** A review is an opinion about the proposal revision it names. */
  function NodeOf(e: Event): Node<Id> {
    if e.decision.Reviewed? then Node(e.id, Some(e.decision.revision), e.decision.supersedes) else Node(e.id, None, [])
  }

  function Nodes(events: seq<Event>): seq<Node<Id>> {
    seq(|events|, i requires 0 <= i < |events| => NodeOf(events[i]))
  }

  lemma SupersededIsRetired(events: seq<Event>, id: Id)
    ensures IsSuperseded(events, id) <==> Retired(Nodes(events), id)
  {
    if e :| e in events && e.decision.Reviewed? && id in e.decision.supersedes {
      var k :| 0 <= k < |events| && events[k] == e;
      assert Retires(Nodes(events), k, id);
    }
    if k :| Retires(Nodes(events), k, id) { assert events[k] in events; }
  }

  lemma EntryAdmits(h: History, k: nat)
    requires Parses(h) && ValidHistory(h) && k < |h.events|
    ensures Admits(Nodes(h.events)[..k], Nodes(h.events)[k])
  {
    var prior, event := h.events[..k], h.events[k];
    assert EntryOk(h.events, h.receipts, k) && DecisionParses(event.decision);
    assert Nodes(h.events)[..k] == Nodes(prior);
    if event.decision.Reviewed? {
      forall t | t in event.decision.supersedes
        ensures !Retired(Nodes(prior), t)
        ensures exists j :: Holds(Nodes(prior), j, t) && Nodes(prior)[j].subject == Some(event.decision.revision)
      {
        assert MayRetire(prior, event.actor, event.decision.revision, t);
        SupersededIsRetired(prior, t);
        var j :| 0 <= j < |prior| && prior[j] == FindEvent(prior, t).value;
        assert Holds(Nodes(prior), j, t);
      }
    }
  }

  /** A valid history is a forest of supersession. */
  lemma HistoryIsForest(h: History)
    requires Parses(h) && ValidHistory(h)
    ensures WellFormed(Nodes(h.events)) && OnlyOpinions(Nodes(h.events))
  {
    IdsAreDistinct(h.events, h.receipts);
    forall k: nat | k < |h.events| ensures Admits(Nodes(h.events)[..k], Nodes(h.events)[k]) { EntryAdmits(h, k); }
  }

  // ----- selection -----

  function ReviewsOf(events: seq<Event>, revision: Id): (reviews: seq<Event>)
    ensures forall e :: e in reviews <==> e in events && e.decision.Reviewed? && e.decision.revision == revision
  {
    if events == [] then []
    else
      var d := events[0].decision;
      (if d.Reviewed? && d.revision == revision then [events[0]] else []) + ReviewsOf(events[1..], revision)
  }

  function Without(reviews: seq<Event>, ids: set<Id>): (rest: seq<Event>)
    ensures forall e :: e in rest <==> e in reviews && e.id !in ids
  {
    if reviews == [] then [] else (if reviews[0].id in ids then [] else [reviews[0]]) + Without(reviews[1..], ids)
  }

  function SupersededBy(reviews: seq<Event>): (ids: set<Id>)
    ensures forall id :: id in ids <==> exists e | e in reviews :: e.decision.Reviewed? && id in e.decision.supersedes
  {
    set e, id | e in reviews && e.decision.Reviewed? && id in e.decision.supersedes :: id
  }

  lemma {:induction false} ReviewsInOrder(events: seq<Event>, revision: Id)
    ensures IsSubsequence(ReviewsOf(events, revision), events)
  {
    if events != [] {
      ReviewsInOrder(events[1..], revision);
      Selects(events[0], ReviewsOf(events[1..], revision), events);
    }
  }

  lemma {:induction false} WithoutInOrder(reviews: seq<Event>, ids: set<Id>)
    ensures IsSubsequence(Without(reviews, ids), reviews)
  {
    if reviews != [] {
      WithoutInOrder(reviews[1..], ids);
      Selects(reviews[0], Without(reviews[1..], ids), reviews);
    }
  }

  datatype Status = IsPending | IsAccepted | IsRejected | IsDisputed | WasWithdrawn

  datatype Selection = Selection(revision: Event, active: seq<Event>, withdrawn: bool, status: Status)

  predicate Chosen(active: seq<Event>, choice: Choice) {
    exists e | e in active :: e.decision.Reviewed? && e.decision.choice == choice
  }

  /** `selectKnowledgeRelation`; None where it throws. */
  function Select(h: History, revisionId: Option<Id>): Option<Selection> {
    if !ValidHistory(h) then None
    else
      var revision := if revisionId.Some? then FindProposal(h.events, revisionId.value) else Latest(h.events);
      if revision.None? then None
      else
        var reviews := ReviewsOf(h.events, revision.value.id);
        var active := Without(reviews, SupersededBy(reviews));
        var withdrawn := IsWithdrawn(h.events, revision.value.id);
        var status :=
          if withdrawn then WasWithdrawn
          else if Chosen(active, Accept) && Chosen(active, Reject) then IsDisputed
          else if Chosen(active, Accept) then IsAccepted
          else if Chosen(active, Reject) then IsRejected
          else IsPending;
        Some(Selection(revision.value, active, withdrawn, status))
  }

  /** A stored history always has a proposal to select. */
  lemma SomethingIsProposed(h: History)
    requires Parses(h) && ValidHistory(h)
    ensures h.events[0].decision.Proposed? && Select(h, None).Some?
  {
    assert EntryOk(h.events, h.receipts, 0) && h.events[..0] == [];
    assert h.events[0] in h.events;
  }

  /** The reviews shown as active are those that nothing in the whole history supersedes. */
  lemma ActiveIsUnretired(h: History, revisionId: Option<Id>, e: Event)
    requires Parses(h) && ValidHistory(h) && Select(h, revisionId).Some?
    ensures var s := Select(h, revisionId).value;
            var unretired := e.decision.Reviewed? && e.decision.revision == s.revision.id
                && !Retired(Nodes(h.events), e.id);
            e in s.active <==> e in h.events && unretired
  {
    var s := Select(h, revisionId).value;
    var reviews := ReviewsOf(h.events, s.revision.id);
    if e in reviews {
      HistoryIsForest(h);
      var i :| 0 <= i < |h.events| && h.events[i] == e;
      GroupSuffices(Nodes(h.events), subject => subject == s.revision.id, i);
      if k :| Retires(Nodes(h.events), k, e.id) {
        RetiredLater(Nodes(h.events), i, k);
        assert h.events[k] in reviews;
      }
      if e.id in SupersededBy(reviews) { SupersededIsRetired(h.events, e.id); }
    }
  }

  lemma ReviewedIsActive(h: History, revisionId: Option<Id>, e: Event) returns (active: Event)
    requires Parses(h) && ValidHistory(h) && Select(h, revisionId).Some?
    requires e in h.events && e.decision.Reviewed? && e.decision.revision == Select(h, revisionId).value.revision.id
    ensures active in Select(h, revisionId).value.active && active.decision.Reviewed?
  {
    HistoryIsForest(h);
    var nodes := Nodes(h.events);
    var k :| 0 <= k < |h.events| && h.events[k] == e;
    assert IsAbout(nodes, k, e.decision.revision);
    var last := LastIsActive(nodes, e.decision.revision, k);
    active := h.events[last];
    assert nodes[last] == NodeOf(active);
    ActiveIsUnretired(h, revisionId, active);
  }

  lemma SomeChoice(active: seq<Event>, e: Event)
    requires e in active && e.decision.Reviewed?
    ensures Chosen(active, Accept) || Chosen(active, Reject)
  {
    assert e.decision.choice == Accept || e.decision.choice == Reject;
  }

  lemma NoReviewNoChoice(h: History, revision: Id, ids: set<Id>)
    requires ReviewsOf(h.events, revision) == []
    ensures !Chosen(Without(ReviewsOf(h.events, revision), ids), Accept)
            && !Chosen(Without(ReviewsOf(h.events, revision), ids), Reject)
  {
  }

  /** The selection shows the proposal that was asked for, or the last one. */
  lemma SelectsTheRevision(h: History, revisionId: Option<Id>)
    requires Parses(h) && ValidHistory(h)
    ensures Select(h, revisionId).None? <==> revisionId.Some? && !Proposes(h.events, revisionId.value)
    ensures Select(h, revisionId).Some? ==>
              var revision := Select(h, revisionId).value.revision;
              if revisionId.Some? then
                revision in h.events && revision.decision.Proposed? && revision.id == revisionId.value
              else exists k :: IsLastProposal(h.events, k) && h.events[k] == revision
  {
    SomethingIsProposed(h);
  }

  /** Active reviews are shown in the order of the history. */
  lemma ActiveInOrder(h: History, revisionId: Option<Id>)
    requires Select(h, revisionId).Some?
    ensures IsSubsequence(Select(h, revisionId).value.active, h.events)
  {
    var reviews := ReviewsOf(h.events, Select(h, revisionId).value.revision.id);
    ReviewsInOrder(h.events, Select(h, revisionId).value.revision.id);
    WithoutInOrder(reviews, SupersededBy(reviews));
    SubsequenceTransitive(Without(reviews, SupersededBy(reviews)), reviews, h.events);
  }

  /** After an accepted review, that opinion stands in the selection of its revision, the opinions it supersedes are
      gone, and all others are as before. */
  lemma ReviewStands(s: Option<History>, c: Submission)
    requires Stored(s) && Apply(s, c).Some? && WriteLog.FindReceipt(Receipts(s), c.requestId).None?
    requires c.decision.Reviewed?
    ensures s.Some? && Select(s.value, Some(c.decision.revision)).Some?
    ensures var h := Apply(s, c).value; Select(h, Some(c.decision.revision)).Some?
    ensures var before := Select(s.value, Some(c.decision.revision)).value;
            var after := Select(Apply(s, c).value, Some(c.decision.revision)).value;
            && after.revision == before.revision && after.withdrawn == before.withdrawn
            && forall e :: e in after.active <==>
                 || e == Event(c.requestId, c.expectedHead, c.actor, c.at, c.decision)
                 || (e in before.active && e.id !in c.decision.supersedes)
  {
    AcceptedExactly(s, c);
    var h := Apply(s, c).value;
    assert s.Some? && Proposes(s.value.events, c.decision.revision);
    ReviewKeepsRevision(s.value, h, c);
    forall e { ReviewChangesActive(s.value, h, c, e); }
  }

  lemma ReviewChangesActive(g: History, h: History, c: Submission, e: Event)
    requires Parses(g) && ValidHistory(g) && Parses(h) && ValidHistory(h) && c.decision.Reviewed?
    requires h.events == g.events + [NewEvent(c)]
    requires Select(g, Some(c.decision.revision)).Some? && Select(h, Some(c.decision.revision)).Some?
    ensures var before, after := Select(g, Some(c.decision.revision)).value, Select(h, Some(c.decision.revision)).value;
            e in after.active <==> e == NewEvent(c) || (e in before.active && e.id !in c.decision.supersedes)
  {
    var id := Some(c.decision.revision);
    ActiveIsUnretired(g, id, e);
    ActiveIsUnretired(h, id, e);
    RetiredAfter(g, h, NewEvent(c), e);
  }

  lemma RetiredAfter(g: History, h: History, event: Event, e: Event)
    requires Parses(h) && ValidHistory(h) && h.events == g.events + [event] && event.decision.Reviewed?
    ensures Retired(Nodes(h.events), e.id) <==> Retired(Nodes(g.events), e.id) || e.id in event.decision.supersedes
    ensures !Retired(Nodes(h.events), event.id)
  {
    assert Nodes(h.events) == Nodes(g.events) + [NodeOf(event)];
    RetiredAppend(Nodes(g.events), NodeOf(event), e.id);
    HistoryIsForest(h);
    NewestStands(Nodes(h.events));
  }

  lemma ReviewKeepsRevision(g: History, h: History, c: Submission)
    requires Parses(g) && ValidHistory(g) && Parses(h) && ValidHistory(h) && c.decision.Reviewed?
    requires h.events == g.events + [NewEvent(c)] && Proposes(g.events, c.decision.revision)
    ensures Select(g, Some(c.decision.revision)).Some? && Select(h, Some(c.decision.revision)).Some?
    ensures var before, after := Select(g, Some(c.decision.revision)).value, Select(h, Some(c.decision.revision)).value;
            after.revision == before.revision && after.withdrawn == before.withdrawn
  {
    var id := c.decision.revision;
    IdsAreDistinct(h.events, h.receipts);
    SelectsTheRevision(g, Some(id));
    var e := Select(g, Some(id)).value.revision;
    assert e in h.events;
    ProposalExactly(h.events, e);
    forall w ensures w in h.events && w.decision.Withdrawn? <==> w in g.events && w.decision.Withdrawn? {}
  }

  /** Reviews and withdrawals are about proposals of the history. */
  lemma NamesAProposal(h: History, e: Event)
    requires ValidHistory(h) && e in h.events && !e.decision.Proposed?
    ensures Proposes(h.events, e.decision.revision)
  {
    var k :| 0 <= k < |h.events| && h.events[k] == e;
    assert EntryOk(h.events, h.receipts, k);
    assert FindProposal(h.events[..k], e.decision.revision).value in h.events;
  }

  /** A revision shows as withdrawn exactly from its withdrawal on, whatever else is proposed, reviewed or withdrawn. */
  lemma WithdrawalShows(s: Option<History>, c: Submission, revision: Id)
    requires Stored(s) && Apply(s, c).Some? && WriteLog.FindReceipt(Receipts(s), c.requestId).None?
    requires Proposes(Apply(s, c).value.events, revision)
    ensures Select(Apply(s, c).value, Some(revision)).Some?
    ensures Select(Apply(s, c).value, Some(revision)).value.withdrawn <==>
              || (c.decision.Withdrawn? && c.decision.revision == revision)
              || (s.Some? && Select(s.value, Some(revision)).Some? && Select(s.value, Some(revision)).value.withdrawn)
  {
    var h := Apply(s, c).value;
    SelectsTheRevision(h, Some(revision));
    if s.Some? {
      SelectsTheRevision(s.value, Some(revision));
      forall e | e in s.value.events && e.decision.Withdrawn? ensures Proposes(s.value.events, e.decision.revision) {
        NamesAProposal(s.value, e);
      }
    }
    forall e ensures e in h.events <==> e in Events(s) || e == NewEvent(c) {}
  }

  lemma AboutAnEarlierOne(h: History, n: nat, e: Event)
    requires ValidHistory(h) && |h.events| == n + 1 && h.events[n].decision.Proposed?
    requires e in h.events && !e.decision.Proposed?
    ensures e.decision.revision != h.events[n].id
  {
    var k :| 0 <= k < n && h.events[k] == e;
    assert EntryOk(h.events, h.receipts, k) && EntryOk(h.events, h.receipts, n);
    var proposal := FindProposal(h.events[..k], e.decision.revision).value;
    assert proposal in h.events[..n];
  }

  lemma NothingAboutTheNewest(h: History, n: nat)
    requires ValidHistory(h) && |h.events| == n + 1 && h.events[n].decision.Proposed?
    ensures ReviewsOf(h.events, h.events[n].id) == [] && !IsWithdrawn(h.events, h.events[n].id)
  {
    var reviews := ReviewsOf(h.events, h.events[n].id);
    if reviews != [] { AboutAnEarlierOne(h, n, reviews[0]); }
    if e :| e in h.events && e.decision.Withdrawn? && e.decision.revision == h.events[n].id {
      AboutAnEarlierOne(h, n, e);
    }
  }

  /** An accepted proposal is what the relation shows from then on, with no review and not withdrawn. */
  lemma ProposalIsShown(s: Option<History>, c: Submission)
    requires Stored(s) && Apply(s, c).Some? && WriteLog.FindReceipt(Receipts(s), c.requestId).None?
    requires c.decision.Proposed?
    ensures Select(Apply(s, c).value, None)
            == Some(Selection(Event(c.requestId, c.expectedHead, c.actor, c.at, c.decision), [], false, IsPending))
  {
    var h := Apply(s, c).value;
    var n := |h.events| - 1;
    assert h.events[n] == NewEvent(c) && IsLastProposal(h.events, n);
    LatestExactly(h.events, n);
    NothingAboutTheNewest(h, n);
    NoReviewNoChoice(h, c.requestId, {});
  }

  /** A relation is pending exactly when it is not withdrawn and was never reviewed: opinions can be replaced, not
      undone. */
  lemma PendingExactly(h: History, revisionId: Option<Id>)
    requires Parses(h) && ValidHistory(h) && Select(h, revisionId).Some?
    ensures var s := Select(h, revisionId).value;
            s.status.IsPending? <==> !s.withdrawn && ReviewsOf(h.events, s.revision.id) == []
  {
    var s := Select(h, revisionId).value;
    var reviews := ReviewsOf(h.events, s.revision.id);
    if reviews == [] {
      NoReviewNoChoice(h, s.revision.id, SupersededBy(reviews));
    } else {
      assert reviews[0] in reviews;
      var active := ReviewedIsActive(h, revisionId, reviews[0]);
      SomeChoice(s.active, active);
    }
  }

  /** Somebody's opinion of this kind about the revision stands: nothing in the whole history supersedes it. */
  ghost predicate Stands(events: seq<Event>, revision: Id, choice: Choice) {
    exists e :: e in events && e.decision.Reviewed? && e.decision.revision == revision && e.decision.choice == choice
                && !Retired(Nodes(events), e.id)
  }

  lemma StandsExactly(h: History, revisionId: Option<Id>, choice: Choice)
    requires Parses(h) && ValidHistory(h) && Select(h, revisionId).Some?
    ensures var s := Select(h, revisionId).value; Chosen(s.active, choice) <==> Stands(h.events, s.revision.id, choice)
  {
    var s := Select(h, revisionId).value;
    if e :| e in s.active && e.decision.Reviewed? && e.decision.choice == choice {
      ActiveIsUnretired(h, revisionId, e);
    }
    if e :| e in h.events && e.decision.Reviewed? && e.decision.revision == s.revision.id && e.decision.choice == choice
            && !Retired(Nodes(h.events), e.id) { ActiveIsUnretired(h, revisionId, e); }
  }

  /** The status shown is decided by the withdrawal and by the opinions that stand, wherever in the history they are. */
  lemma StatusExactly(h: History, revisionId: Option<Id>)
    requires Parses(h) && ValidHistory(h) && Select(h, revisionId).Some?
    ensures var s := Select(h, revisionId).value;
            var accepted, rejected := Stands(h.events, s.revision.id, Accept), Stands(h.events, s.revision.id, Reject);
            && (s.status.WasWithdrawn? <==> IsWithdrawn(h.events, s.revision.id))
            && (!s.status.WasWithdrawn? ==>
                  && (s.status.IsDisputed? <==> accepted && rejected)
                  && (s.status.IsAccepted? <==> accepted && !rejected)
                  && (s.status.IsRejected? <==> rejected && !accepted)
                  && (s.status.IsPending? <==> !accepted && !rejected))
  {
    StandsExactly(h, revisionId, Accept);
    StandsExactly(h, revisionId, Reject);
  }

  function Below(n: nat): (all: set<nat>)
    ensures |all| == n && forall i: nat :: i in all <==> i < n
  {
    if n == 0 then {} else Below(n - 1) + {n - 1}
  }

  /** Distinct numbers below a bound that are as many as the bound are all of them. */
  lemma Pigeonhole(xs: seq<nat>, n: nat)
    requires Distinct(xs) && |xs| == n && forall x | x in xs :: x < n
    ensures forall i: nat | i < n :: i in xs
  {
    DistinctCount(xs);
    assert Below(n) == Elements(xs) + (Below(n) - Elements(xs));
    assert |Below(n) - Elements(xs)| == 0;
    forall i: nat | i < n ensures i in xs { assert i in Below(n); }
  }

  predicate ChecksEverything(e: Event, proposal: Event) {
    && e.decision.Reviewed? && e.decision.choice.Accept? && proposal.decision.Proposed?
    && forall i: nat | i < proposal.decision.evidence :: i in e.decision.checked
  }

  /** An accepting review checked all evidence of its proposal, and a conflict only with the same scope. */
  lemma AcceptChecksEverything(h: History, k: nat)
    requires Parses(h) && ValidHistory(h) && k < |h.events|
    requires h.events[k].decision.Reviewed? && h.events[k].decision.choice.Accept?
    ensures var proposal := FindProposal(h.events, h.events[k].decision.revision);
            && proposal.Some? && ChecksEverything(h.events[k], proposal.value)
            && (proposal.value.decision.relationType.ConflictsWith? ==> proposal.value.decision.scope.Same?)
  {
    var event, prior := h.events[k], h.events[..k];
    assert EntryOk(h.events, h.receipts, k) && DecisionParses(event.decision);
    var earlier, found := FindProposal(prior, event.decision.revision), FindProposal(h.events, event.decision.revision);
    assert earlier.value in h.events;
    SameIdSameEvent(h, earlier.value, found.value);
    Pigeonhole(event.decision.checked, earlier.value.decision.evidence);
  }

  lemma SelectionIsFound(h: History, revisionId: Option<Id>)
    requires Parses(h) && ValidHistory(h) && Select(h, revisionId).Some?
    ensures var revision := Select(h, revisionId).value.revision; FindProposal(h.events, revision.id) == Some(revision)
  {
    var revision := Select(h, revisionId).value.revision;
    SameIdSameEvent(h, FindProposal(h.events, revision.id).value, revision);
  }

  lemma AcceptInForce(h: History, revisionId: Option<Id>, s: Selection, accept: Event)
    requires Parses(h) && ValidHistory(h) && Select(h, revisionId) == Some(s)
    requires accept in s.active && accept.decision.Reviewed? && accept.decision.choice.Accept?
    ensures ChecksEverything(accept, s.revision)
    ensures s.revision.decision.relationType.ConflictsWith? ==> s.revision.decision.scope.Same?
  {
    var k :| 0 <= k < |h.events| && h.events[k] == accept;
    AcceptChecksEverything(h, k);
    SelectionIsFound(h, revisionId);
  }

  lemma OnlyAccepts(h: History, revisionId: Option<Id>, s: Selection)
    requires Select(h, revisionId) == Some(s) && s.status.IsAccepted?
    ensures Chosen(s.active, Accept) && !Chosen(s.active, Reject) && !IsWithdrawn(h.events, s.revision.id)
    ensures forall e | e in s.active :: e.decision.Reviewed? && e.decision.choice.Accept?
  {
    forall e | e in s.active ensures e.decision.Reviewed? && e.decision.choice.Accept? {
      assert e.decision.Reviewed? && e.decision.choice != Reject;
    }
  }

  /** A relation shown as accepted has an active accept that checked all of its evidence, no active reject, was not
      withdrawn, and is no conflict of anything but the same scope. */
  lemma AcceptedMeans(h: History, revisionId: Option<Id>, s: Selection) returns (accept: Event)
    requires Parses(h) && ValidHistory(h) && Select(h, revisionId) == Some(s) && s.status.IsAccepted?
    ensures accept in s.active && ChecksEverything(accept, s.revision)
    ensures forall e | e in s.active :: e.decision.Reviewed? && e.decision.choice.Accept?
    ensures !IsWithdrawn(h.events, s.revision.id)
    ensures s.revision.decision.relationType.ConflictsWith? ==> s.revision.decision.scope.Same?
  {
    OnlyAccepts(h, revisionId, s);
    accept :| accept in s.active && accept.decision.Reviewed? && accept.decision.choice.Accept?;
    AcceptInForce(h, revisionId, s, accept);
  }

  // ----- the common laws -----

  predicate Fits(h: History, c: Submission) {
    DecisionParses(c.decision) && h.relationId == c.relationId && h.namespace == c.namespace
  }

  const RELATIONS: WriteLog.Family<History, Submission, Event, ()> := WriteLog.Family(
    (s: Option<History>, c: Submission) => Apply(s, c), (h: History) => Parses(h) && ValidHistory(h),
    (h: History, c: Submission) => Fits(h, c),
    (h: History) => h.receipts, (h: History) => h.events, (h: History) => [], (h: History) => h.generation,
    (c: Submission) => c.requestId, (c: Submission) => c.digest, (c: Submission) => c.expectedGeneration,
    (c: Submission) => c.requestId,
    (c: Submission) => Some(Event(c.requestId, c.expectedHead, c.actor, c.at, c.decision)), (c: Submission) => None)

  lemma ReceiptsAreNumbered(h: History)
    requires ValidHistory(h)
    ensures WriteLog.Numbered(h.receipts)
  {
    IdsAreDistinct(h.events, h.receipts);
    forall i | 0 <= i < |h.receipts|
      ensures h.receipts[i].generation == i + 1 && h.receipts[i].requestId == h.events[i].id
    {
      assert EntryOk(h.events, h.receipts, i);
    }
  }

  lemma AppliesLawfully(s: Option<History>, c: Submission)
    requires Stored(s)
    ensures WriteLog.ApplyLaw(RELATIONS, s, c)
  {
  }

  lemma RelationsAreLawful()
    ensures WriteLog.Lawful(RELATIONS)
  {
    forall s, c | WriteLog.Valid(RELATIONS, s) ensures WriteLog.ApplyLaw(RELATIONS, s, c) { AppliesLawfully(s, c); }
    forall h | RELATIONS.valid(h) ensures WriteLog.ReceiptLaw(RELATIONS, h) { ReceiptsAreNumbered(h); }
    forall h, c | RELATIONS.valid(h) ensures WriteLog.ReplayLaw(RELATIONS, h, c) {}
    forall h, c, d | RELATIONS.valid(h) ensures WriteLog.FitsLaw(RELATIONS, h, c, d) {}
  }
}
