/**
 The histories of a source ledger and of a source coverage analysis.  Both record analyses; a coverage history also
 records decisions about one exact analysis, which later decisions supersede and revocations withdraw.
 */
module SourceCoverage {
  import opened Options
  import opened Sequences
  import opened Supersession
  import WriteLog

  type Receipt = WriteLog.Receipt

  datatype LedgerRef = LedgerRef(ledgerId: string, revisionId: string, digest: string)
  datatype BodyRef = BodyRef(knowledgeId: string, revisionId: string, bodyDigest: string)
  datatype CoverageRef = CoverageRef(coverageId: string, revisionId: string, digest: string)

  // `structureOk` is the outcome of the checks on the content of one analysis alone.
  datatype Revision = Revision(revisionId: string, parent: Option<string>, digest: string, revisedBy: string,
                               sourceSetId: string, ledgerRef: LedgerRef, bodyRefs: seq<BodyRef>, structureOk: bool)

  datatype Binding = Binding(coverageRef: CoverageRef, sourceSetId: string, ledgerRef: LedgerRef,
                             bodyRefs: seq<BodyRef>)

  datatype DecisionKind = ProceedWithLimits | NeedsRevision | StopHere
  datatype Disposition = AcceptedLimit | Resolved | Blocks
  datatype Item = Item(unresolvedId: string, disposition: Disposition)

  datatype Detail =
    | Analysis(revision: Revision)
    | Decision(binding: Binding, kind: DecisionKind, items: seq<Item>, supersedes: seq<Id>)
    | Revocation(target: Id)

  datatype Event = Event(id: Id, parent: Option<Id>, actor: string, at: int, detail: Detail)

  // `storeId` is the ledger's or the coverage's own id.
  datatype History = History(namespace: string, storeId: string, generation: nat, head: Id, events: seq<Event>,
                             receipts: seq<Receipt>)

  const MAX_EVENTS := 4096

  predicate Parses(h: History) {
    1 <= |h.events| <= MAX_EVENTS && 1 <= |h.receipts| <= MAX_EVENTS && h.generation > 0
  }

  predicate OnlyAnalyses(events: seq<Event>) {
    forall e | e in events :: e.detail.Analysis?
  }

  // ----- what both kinds of history promise -----

  function LastId(events: seq<Event>): Option<Id> {
    if events == [] then None else Some(events[|events| - 1].id)
  }

  function Ids(events: seq<Event>): seq<Id> {
    seq(|events|, i requires 0 <= i < |events| => events[i].id)
  }

  function Requests(receipts: seq<Receipt>): seq<Id> {
    seq(|receipts|, i requires 0 <= i < |receipts| => receipts[i].requestId)
  }

  function LastRevision(events: seq<Event>): Option<string> {
    if events == [] then None
    else
      var last := events[|events| - 1].detail;
      if last.Analysis? then Some(last.revision.revisionId) else LastRevision(events[..|events| - 1])
  }

  predicate HasRevision(events: seq<Event>, revisionId: string) {
    exists e | e in events :: e.detail.Analysis? && e.detail.revision.revisionId == revisionId
  }

  predicate EntryOk(events: seq<Event>, receipts: seq<Receipt>, i: nat)
    requires i < |events| && i < |receipts|
  {
    var prior, event, receipt := events[..i], events[i], receipts[i];
    && event.parent == LastId(prior) && receipt.ref == event.id && receipt.requestId == event.id
    && receipt.generation == i + 1
    && (event.detail.Analysis? ==>
          var revision := event.detail.revision;
          && !HasRevision(prior, revision.revisionId) && revision.parent == LastRevision(prior)
          && event.actor == revision.revisedBy && revision.structureOk)
  }

  predicate EntriesOk(events: seq<Event>, receipts: seq<Receipt>, n: nat)
    requires n <= |events| && n <= |receipts|
  {
    forall i | 0 <= i < n :: EntryOk(events, receipts, i)
  }

  predicate ValidLedger(h: History) {
    && |h.events| == |h.receipts| == h.generation && Some(h.head) == LastId(h.events)
    && Distinct(Ids(h.events)) && EntriesOk(h.events, h.receipts, |h.events|)
  }

  /** The checks of one event against the collected revisions. */
  method CheckEntry(events: seq<Event>, receipts: seq<Receipt>, i: nat, revisionIds: set<string>,
                    previousRevision: Option<string>)
      returns (ok: bool)
    requires i < |events| && i < |receipts| && previousRevision == LastRevision(events[..i])
    requires forall r :: r in revisionIds <==> HasRevision(events[..i], r)
    ensures ok <==> EntryOk(events, receipts, i)
  {
    var event, receipt := events[i], receipts[i];
    if event.parent != (if i > 0 then Some(events[i - 1].id) else None) || receipt.ref != event.id
        || receipt.requestId != event.id
       || receipt.generation != i + 1 { return false; }
    if event.detail.Analysis? {
      var revision := event.detail.revision;
      if revision.revisionId in revisionIds || revision.parent != previousRevision || event.actor != revision.revisedBy
          || !revision.structureOk {
        return false;
      }
    }
    return true;
  }

  /** `validateHistory`; true where the TypeScript code returns instead of throwing. */
  method ValidateHistory(h: History) returns (ok: bool)
    ensures ok <==> ValidLedger(h)
  {
    if |h.events| != h.generation || |h.receipts| != h.generation || Some(h.head) != LastId(h.events) { return false; }
    DistinctExactly(Ids(h.events));
    DistinctExactly(Requests(h.receipts));
    RequestsAreIds(h);
    if |Elements(Ids(h.events))| != |h.events| || |Elements(Requests(h.receipts))| != |h.receipts| { return false; }
    var revisionIds: set<string>, previousRevision: Option<string> := {}, None;
    for i := 0 to |h.events|
      invariant EntriesOk(h.events, h.receipts, i) && previousRevision == LastRevision(h.events[..i])
      invariant forall r :: r in revisionIds <==> HasRevision(h.events[..i], r)
    {
      var event := h.events[i];
      var fine := CheckEntry(h.events, h.receipts, i, revisionIds, previousRevision);
      if !fine { return false; }
      if event.detail.Analysis? {
        revisionIds := revisionIds + {event.detail.revision.revisionId};
        previousRevision := Some(event.detail.revision.revisionId);
      }
      assert h.events[..i + 1] == h.events[..i] + [event];
    }
    return true;
  }

  /** In a valid history the receipts name the events, so a duplicate among their requests is one among the events. */
  lemma RequestsAreIds(h: History)
    requires |h.events| == |h.receipts|
    ensures ValidLedger(h) ==> Distinct(Requests(h.receipts))
  {
    if ValidLedger(h) {
      forall i | 0 <= i < |h.events| ensures Requests(h.receipts)[i] == Ids(h.events)[i] {
        assert EntryOk(h.events, h.receipts, i);
      }
    }
  }

  // ----- decisions -----

  function FindAnalysis(events: seq<Event>, revisionId: string): (found: Option<Event>)
    ensures found.Some? ==>
              found.value in events && found.value.detail.Analysis?
              && found.value.detail.revision.revisionId == revisionId
  {
    if events == [] then None
    else if events[0].detail.Analysis? && events[0].detail.revision.revisionId == revisionId then Some(events[0])
    else FindAnalysis(events[1..], revisionId)
  }

  function FindEvent(events: seq<Event>, id: Id): (found: Option<Event>)
    ensures found.Some? ==> found.value in events && found.value.id == id
    ensures found.None? ==> forall e | e in events :: e.id != id
  {
    if events == [] then None else if events[0].id == id then Some(events[0]) else FindEvent(events[1..], id)
  }

  /** The decisions that an event takes out of force. */
  function Ended(e: Event): seq<Id> {
    if e.detail.Decision? then e.detail.supersedes else if e.detail.Revocation? then [e.detail.target] else []
  }

  predicate IsInactive(events: seq<Event>, id: Id) {
    exists e | e in events :: id in Ended(e)
  }

  function UnresolvedIds(items: seq<Item>): seq<string> {
    seq(|items|, i requires 0 <= i < |items| => items[i].unresolvedId)
  }

  /** The decision is bound to an analysis of this coverage exactly as it was published. */
  predicate BoundOk(prior: seq<Event>, coverageId: string, binding: Binding) {
    var ref := binding.coverageRef;
    var analysis := FindAnalysis(prior, ref.revisionId);
    && ref.coverageId == coverageId && analysis.Some? && analysis.value.detail.revision.digest == ref.digest
    && binding.sourceSetId == analysis.value.detail.revision.sourceSetId
    && binding.ledgerRef == analysis.value.detail.revision.ledgerRef
    && binding.bodyRefs == analysis.value.detail.revision.bodyRefs
  }

  predicate MaySupersede(prior: seq<Event>, binding: Binding, target: Id) {
    var previous := FindEvent(prior, target);
    previous.Some? && previous.value.detail.Decision? && !IsInactive(prior, target)
    && previous.value.detail.binding == binding
  }

  predicate DecisionOk(prior: seq<Event>, coverageId: string, detail: Detail) {
    match detail
    case Analysis(_) => true
    case Revocation(target) =>
      (exists e | e in prior :: e.id == target && e.detail.Decision?) && !IsInactive(prior, target)
    case Decision(binding, kind, items, supersedes) =>
      && BoundOk(prior, coverageId, binding)
      && Distinct(supersedes) && Distinct(UnresolvedIds(items))
      && (forall t | t in supersedes :: MaySupersede(prior, binding, t))
      && (kind.ProceedWithLimits? ==> forall item | item in items :: !item.disposition.Blocks?)
  }

  predicate DecisionAt(h: History, i: nat)
    requires i < |h.events|
  {
    DecisionOk(h.events[..i], h.storeId, h.events[i].detail)
  }

  predicate DecisionsOk(h: History, n: nat)
    requires n <= |h.events|
  {
    forall i | 0 <= i < n :: DecisionAt(h, i)
  }

  predicate ValidCoverage(h: History) {
    ValidLedger(h) && DecisionsOk(h, |h.events|)
  }

  /** What a selection takes as out of force. */
  function InactiveIds(events: seq<Event>): (ids: set<Id>)
    ensures forall id :: id in ids <==> IsInactive(events, id)
  {
    set e, id | e in events && id in Ended(e) :: id
  }

  /** The loop over the decisions that a decision supersedes; false where the TypeScript code throws. */
  method SupersedeTargets(prior: seq<Event>, inactive: set<Id>, binding: Binding, targets: seq<Id>)
    returns (ok: bool, after: set<Id>)
    requires Distinct(targets) && forall id :: id in inactive <==> IsInactive(prior, id)
    ensures ok <==> forall t | t in targets :: MaySupersede(prior, binding, t)
    ensures ok ==> forall id :: id in after <==> id in inactive || id in targets
  {
    after := inactive;
    for j := 0 to |targets|
      invariant forall t | t in targets[..j] :: MaySupersede(prior, binding, t)
      invariant forall id :: id in after <==> id in inactive || id in targets[..j]
    {
      var previous := FindEvent(prior, targets[j]);
      if previous.None? || !previous.value.detail.Decision? || targets[j] in after
          || previous.value.detail.binding != binding {
        assert !MaySupersede(prior, binding, targets[j]);
        return false, after;
      }
      after := after + {targets[j]};
    }
    ok := true;
  }

  /** The checks of one event against the inactive decisions collected so far; false where the TypeScript code throws.
      */
  method CheckDecision(prior: seq<Event>, coverageId: string, event: Event, inactive: set<Id>)
    returns (ok: bool, after: set<Id>)
    requires forall id :: id in inactive <==> IsInactive(prior, id)
    ensures ok <==> DecisionOk(prior, coverageId, event.detail)
    ensures ok ==> forall id :: id in after <==> id in inactive || id in Ended(event)
  {
    after := inactive;
    if event.detail.Analysis? { return true, after; }
    if event.detail.Revocation? {
      var target := event.detail.target;
      if !(exists e | e in prior :: e.id == target && e.detail.Decision?) || target in inactive { return false, after; }
      return true, inactive + {target};
    }
    var decision := event.detail;
    DistinctExactly(decision.supersedes);
    DistinctExactly(UnresolvedIds(decision.items));
    if !BoundOk(prior, coverageId, decision.binding) || |Elements(decision.supersedes)| != |decision.supersedes|
       || |Elements(UnresolvedIds(decision.items))| != |decision.items| { return false, after; }
    ok, after := SupersedeTargets(prior, inactive, decision.binding, decision.supersedes);
    if !ok { return; }
    ok := !(decision.kind.ProceedWithLimits? && exists item | item in decision.items :: item.disposition.Blocks?);
  }

  method CheckDecisions(h: History) returns (ok: bool, inactive: set<Id>)
    ensures ok <==> DecisionsOk(h, |h.events|)
    ensures ok ==> forall id :: id in inactive <==> IsInactive(h.events, id)
  {
    inactive := {};
    for i := 0 to |h.events|
      invariant DecisionsOk(h, i)
      invariant forall id :: id in inactive <==> IsInactive(h.events[..i], id)
    {
      assert h.events[..i + 1] == h.events[..i] + [h.events[i]];
      var fine, after := CheckDecision(h.events[..i], h.storeId, h.events[i], inactive);
      assert fine <==> DecisionAt(h, i);
      if !fine { return false, inactive; }
      inactive := after;
    }
    assert h.events[..|h.events|] == h.events;
    ok := true;
  }

  /** `validateSourceCoverageHistory`; besides the verdict, the set of inactive decisions it has collected, which is
      what a selection computes for itself. */
  method ValidateCoverage(h: History) returns (ok: bool, inactive: set<Id>)
    ensures ok <==> ValidCoverage(h)
    ensures ok ==> inactive == InactiveIds(h.events)
  {
    inactive := {};
    ok := ValidateHistory(h);
    if ok { ok, inactive := CheckDecisions(h); }
  }

  lemma IdsDiffer(h: History, e: Event, f: Event)
    requires ValidLedger(h) && e in h.events && f in h.events && e.id == f.id
    ensures e == f
  {
    var i :| 0 <= i < |h.events| && h.events[i] == e;
    var j :| 0 <= j < |h.events| && h.events[j] == f;
    assert Ids(h.events)[i] == e.id && Ids(h.events)[j] == f.id;
  }

  // ----- decisions as opinions -----

  function NodeOf(e: Event): Node<Binding> {
    Node(e.id, if e.detail.Decision? then Some(e.detail.binding) else None, Ended(e))
  }

  function Nodes(events: seq<Event>): seq<Node<Binding>> {
    seq(|events|, i requires 0 <= i < |events| => NodeOf(events[i]))
  }

  lemma InactiveIsRetired(events: seq<Event>, id: Id)
    ensures IsInactive(events, id) <==> Retired(Nodes(events), id)
  {
    if e :| e in events && id in Ended(e) {
      var k :| 0 <= k < |events| && events[k] == e;
      assert Retires(Nodes(events), k, id);
    }
    if k :| Retires(Nodes(events), k, id) { assert events[k] in events; }
  }

  lemma EntryAdmits(h: History, k: nat)
    requires ValidCoverage(h) && k < |h.events|
    ensures Admits(Nodes(h.events)[..k], Nodes(h.events)[k])
  {
    var prior, event := h.events[..k], h.events[k];
    var nodes, node := Nodes(prior), NodeOf(event);
    assert DecisionAt(h, k);
    assert Nodes(h.events)[..k] == nodes;
    forall t | t in Ended(event)
      ensures !Retired(nodes, t)
      ensures exists j :: Holds(nodes, j, t) && (node.subject.Some? ==> nodes[j].subject == node.subject)
    {
      InactiveIsRetired(prior, t);
      var previous :| previous in prior && previous.id == t && previous.detail.Decision?
                      && (event.detail.Decision? ==> previous.detail.binding == event.detail.binding);
      var j :| 0 <= j < |prior| && prior[j] == previous;
      assert Holds(nodes, j, t);
    }
  }

  lemma HistoryIsForest(h: History)
    requires ValidCoverage(h)
    ensures WellFormed(Nodes(h.events))
  {
    forall a, b | 0 <= a < b < |h.events| ensures h.events[a].id != h.events[b].id {
      assert Ids(h.events)[a] != Ids(h.events)[b];
    }
    forall k: nat | k < |h.events| ensures Admits(Nodes(h.events)[..k], Nodes(h.events)[k]) { EntryAdmits(h, k); }
  }

  function Decisions(events: seq<Event>): set<Id> {
    set e | e in events && e.detail.Decision? :: e.id
  }

  function DecisionCount(events: seq<Event>): nat {
    if events == [] then 0
    else DecisionCount(events[..|events| - 1]) + if events[|events| - 1].detail.Decision? then 1 else 0
  }

  function SupersededCount(events: seq<Event>): nat {
    if events == [] then 0
    else
      var last := events[|events| - 1].detail;
      SupersededCount(events[..|events| - 1]) + if last.Decision? then |last.supersedes| else 0
  }

  function RevocationCount(events: seq<Event>): nat {
    if events == [] then 0
    else RevocationCount(events[..|events| - 1]) + if events[|events| - 1].detail.Revocation? then 1 else 0
  }

  lemma {:induction false} CountsAgree(events: seq<Event>)
    ensures OpinionCount(Nodes(events)) == DecisionCount(events)
    ensures TargetCount(Nodes(events)) == SupersededCount(events) + RevocationCount(events)
  {
    if events == [] {
    } else {
      var front := events[..|events| - 1];
      CountsAgree(front);
      assert Nodes(events)[..|events| - 1] == Nodes(front);
    }
  }

  lemma SetsAgree(events: seq<Event>)
    ensures Opinions(Nodes(events)) == Decisions(events)
    ensures RetiredIds(Nodes(events)) == InactiveIds(events)
  {
    forall id ensures id in Opinions(Nodes(events)) <==> id in Decisions(events) {
      if id in Opinions(Nodes(events)) {
        var k :| 0 <= k < |events| && Nodes(events)[k].subject.Some? && Nodes(events)[k].id == id;
        assert events[k] in events;
      }
      if id in Decisions(events) {
        var e :| e in events && e.detail.Decision? && e.id == id;
        var k :| 0 <= k < |events| && events[k] == e;
        assert Nodes(events)[k].id == id;
      }
    }
    forall id ensures id in RetiredIds(Nodes(events)) <==> id in InactiveIds(events) {
      RetiredIdsAreRetired(Nodes(events), id);
      InactiveIsRetired(events, id);
    }
  }

  /** The decisions in force number the decisions less those superseded and those revoked: nothing is ended twice. */
  lemma DecisionsInForce(h: History)
    requires ValidCoverage(h)
    ensures |Decisions(h.events) - InactiveIds(h.events)|
         == DecisionCount(h.events) - SupersededCount(h.events) - RevocationCount(h.events)
  {
    HistoryIsForest(h);
    ActiveCount(Nodes(h.events));
    CountsAgree(h.events);
    SetsAgree(h.events);
  }

  // ----- selection -----

  function InForce(events: seq<Event>, ref: CoverageRef, inactive: set<Id>): (found: seq<Event>)
    ensures forall e ::
              e in found
              <==> e in events && e.detail.Decision? && e.detail.binding.coverageRef == ref && e.id !in inactive
  {
    if events == [] then []
    else
      var e := events[0];
      (if e.detail.Decision? && e.detail.binding.coverageRef == ref && e.id !in inactive then [e]
       else []) + InForce(events[1..], ref, inactive)
  }

  datatype Opinion = Opinion(kind: DecisionKind, dispositions: map<string, Disposition>)

  function Dispositions(items: seq<Item>): map<string, Disposition> {
    if items == [] then map[]
    else Dispositions(items[..|items| - 1])[items[|items| - 1].unresolvedId := items[|items| - 1].disposition]
  }

  function OpinionOf(e: Event): Opinion
    requires e.detail.Decision?
  {
    Opinion(e.detail.kind, Dispositions(e.detail.items))
  }

  function OpinionsOf(events: seq<Event>): set<Opinion> {
    set e | e in events && e.detail.Decision? :: OpinionOf(e)
  }

  datatype Status = NotReviewed | Disputed | Decided(kind: DecisionKind)

  datatype Selection = Selection(status: Status, events: seq<Event>)

  /** `selectSourceCoverageDecision`; None where it throws. */
  function Select(s: Option<History>, ref: CoverageRef): (selected: Option<Selection>)
    ensures selected.Some? ==> forall e | e in selected.value.events :: e.detail.Decision?
  {
    if s.None? then Some(Selection(NotReviewed, []))
    else if !ValidCoverage(s.value) || s.value.storeId != ref.coverageId then None
    else
      var events := InForce(s.value.events, ref, InactiveIds(s.value.events));
      assert events != [] ==> events[0] in events;
      Some(Selection(if events == [] then NotReviewed else if |OpinionsOf(events)| > 1 then Disputed
                     else Decided(events[0].detail.kind), events))
  }

  datatype DecisionRef = DecisionRef(binding: Binding, eventId: Id)

  predicate Confirms(e: Event, ref: DecisionRef) {
    e.id == ref.eventId && e.detail.Decision? && e.detail.binding == ref.binding
  }

  /** `assertSourceCoverageDecision` returns instead of throwing. */
  predicate Asserts(h: History, ref: DecisionRef) {
    var selected := Select(Some(h), ref.binding.coverageRef);
    && selected.Some? && selected.value.status == Decided(ProceedWithLimits)
    && exists e | e in selected.value.events :: Confirms(e, ref)
  }

  lemma SameOpinion(events: seq<Event>, e: Event, f: Event)
    requires e in events && f in events && e.detail.Decision? && f.detail.Decision? && |OpinionsOf(events)| <= 1
    ensures OpinionOf(e) == OpinionOf(f)
  {
    var opinions := OpinionsOf(events);
    assert OpinionOf(e) in opinions && OpinionOf(f) in opinions;
    assert opinions == {OpinionOf(e)} + (opinions - {OpinionOf(e)});
  }

  lemma TwoOpinions(events: seq<Event>) returns (e: Event, f: Event)
    requires |OpinionsOf(events)| > 1
    ensures e in events && f in events && e.detail.Decision? && f.detail.Decision? && OpinionOf(e) != OpinionOf(f)
  {
    var a :| a in OpinionsOf(events);
    assert OpinionsOf(events) == {a} + (OpinionsOf(events) - {a});
    assert |OpinionsOf(events) - {a}| > 0;
    var b :| b in OpinionsOf(events) - {a};
    e :| e in events && e.detail.Decision? && OpinionOf(e) == a;
    f :| f in events && f.detail.Decision? && OpinionOf(f) == b;
  }

  /** A decision ends another by superseding it, a revocation by naming it. */
  predicate Ends(e: Event, id: Id) {
    (e.detail.Decision? && id in e.detail.supersedes) || (e.detail.Revocation? && e.detail.target == id)
  }

  /** A decision about this analysis that no event of the history ends. */
  ghost predicate Stands(h: History, e: Event, ref: CoverageRef) {
    && e in h.events && e.detail.Decision? && e.detail.binding.coverageRef == ref
    && forall f | f in h.events :: !Ends(f, e.id)
  }

  lemma StandsExactly(h: History, e: Event, ref: CoverageRef)
    ensures Stands(h, e, ref) <==> e in h.events && e.detail.Decision? && e.detail.binding.coverageRef == ref
                                   && !IsInactive(h.events, e.id)
  {
    if f :| f in h.events && e.id in Ended(f) { assert Ends(f, e.id); }
    if f :| f in h.events && Ends(f, e.id) { assert e.id in Ended(f); }
  }

  lemma {:induction false} InForceInOrder(events: seq<Event>, ref: CoverageRef, inactive: set<Id>)
    ensures IsSubsequence(InForce(events, ref, inactive), events)
  {
    if events != [] {
      InForceInOrder(events[1..], ref, inactive);
      Selects(events[0], InForce(events[1..], ref, inactive), events);
    }
  }

  /** The decisions shown are exactly those that stand, in the order of the history; without a history there are none,
      and an invalid history or that of another coverage is refused. */
  lemma ShowsWhatStands(s: Option<History>, ref: CoverageRef)
    ensures Select(s, ref).None? <==> s.Some? && (!ValidCoverage(s.value) || s.value.storeId != ref.coverageId)
    ensures s.None? ==> Select(s, ref) == Some(Selection(NotReviewed, []))
    ensures s.Some? && Select(s, ref).Some? ==>
              && (forall e :: e in Select(s, ref).value.events <==> Stands(s.value, e, ref))
              && IsSubsequence(Select(s, ref).value.events, s.value.events)
  {
    if s.Some? && Select(s, ref).Some? {
      InForceInOrder(s.value.events, ref, InactiveIds(s.value.events));
      forall e ensures e in Select(s, ref).value.events <==> Stands(s.value, e, ref) { StandsExactly(s.value, e, ref); }
    }
  }

  // ----- opinions -----

  lemma {:induction false} DispositionsHold(items: seq<Item>, id: string, disposition: Disposition)
    requires Distinct(UnresolvedIds(items))
    ensures Item(id, disposition) in items <==> id in Dispositions(items) && Dispositions(items)[id] == disposition
  {
    if items != [] {
      var front, last := items[..|items| - 1], items[|items| - 1];
      assert forall i | 0 <= i < |front| :: UnresolvedIds(front)[i] == UnresolvedIds(items)[i];
      DispositionsHold(front, id, disposition);
      assert items == front + [last];
      forall i | 0 <= i < |front| ensures front[i].unresolvedId != last.unresolvedId {
        assert UnresolvedIds(items)[i] != UnresolvedIds(items)[|items| - 1];
      }
      assert forall item | item in front :: item.unresolvedId != last.unresolvedId;
    }
  }

  /** Two decisions are one opinion exactly if they are of one kind and dispose of the same points in the same way. */
  lemma SameOpinionExactly(e: Event, f: Event)
    requires e.detail.Decision? && Distinct(UnresolvedIds(e.detail.items))
    requires f.detail.Decision? && Distinct(UnresolvedIds(f.detail.items))
    ensures OpinionOf(e) == OpinionOf(f)
            <==> e.detail.kind == f.detail.kind && forall item :: item in e.detail.items <==> item in f.detail.items
  {
    var a, b := Dispositions(e.detail.items), Dispositions(f.detail.items);
    forall id, disposition
      ensures Item(id, disposition) in e.detail.items <==> id in a && a[id] == disposition
      ensures Item(id, disposition) in f.detail.items <==> id in b && b[id] == disposition
    {
      DispositionsHold(e.detail.items, id, disposition);
      DispositionsHold(f.detail.items, id, disposition);
    }
    if OpinionOf(e) == OpinionOf(f) {
      forall item ensures item in e.detail.items <==> item in f.detail.items {
        assert item == Item(item.unresolvedId, item.disposition);
      }
    }
    if e.detail.kind == f.detail.kind && forall item :: item in e.detail.items <==> item in f.detail.items {
      forall id ensures id in a <==> id in b && (id in a ==> id in b && a[id] == b[id]) {
        if id in a { assert Item(id, a[id]) in e.detail.items; }
        if id in b { assert Item(id, b[id]) in f.detail.items; }
      }
      assert a == b;
    }
  }

  /** One kind, and the same disposition of the same points. */
  ghost predicate Agree(e: Event, f: Event)
    requires e.detail.Decision? && f.detail.Decision?
  {
    e.detail.kind == f.detail.kind && forall item :: item in e.detail.items <==> item in f.detail.items
  }

  lemma AgreeExactly(h: History, ref: CoverageRef, e: Event, f: Event)
    requires ValidCoverage(h) && Stands(h, e, ref) && Stands(h, f, ref)
    ensures OpinionOf(e) == OpinionOf(f) <==> Agree(e, f)
  {
    var i :| 0 <= i < |h.events| && h.events[i] == e;
    var j :| 0 <= j < |h.events| && h.events[j] == f;
    assert DecisionAt(h, i) && DecisionAt(h, j);
    SameOpinionExactly(e, f);
  }

  ghost predicate Differ(h: History, ref: CoverageRef) {
    exists e, f :: Stands(h, e, ref) && Stands(h, f, ref) && !Agree(e, f)
  }

  /** An analysis shows as not reviewed exactly when no decision about it stands, as disputed exactly when two such
      decisions differ, and otherwise with the kind they all share. */
  lemma SelectionMeans(h: History, ref: CoverageRef)
    requires Select(Some(h), ref).Some?
    ensures var status := Select(Some(h), ref).value.status;
            && (status.NotReviewed? <==> forall e :: !Stands(h, e, ref))
            && (status.Disputed? <==> Differ(h, ref))
            && (status.Decided? ==> forall e | Stands(h, e, ref) :: e.detail.kind == status.kind)
  {
    var events := Select(Some(h), ref).value.events;
    ShowsWhatStands(Some(h), ref);
    ManyOpinionsExactly(h, ref);
    assert events != [] ==> events[0] in events;
    if |OpinionsOf(events)| <= 1 && events != [] {
      forall e | Stands(h, e, ref) ensures e.detail.kind == events[0].detail.kind { SameOpinion(events, e, events[0]); }
    }
  }

  lemma ManyOpinionsExactly(h: History, ref: CoverageRef)
    requires Select(Some(h), ref).Some?
    ensures |OpinionsOf(Select(Some(h), ref).value.events)| > 1 <==> Differ(h, ref)
  {
    var events := Select(Some(h), ref).value.events;
    ShowsWhatStands(Some(h), ref);
    if |OpinionsOf(events)| > 1 {
      var e, f := TwoOpinions(events);
      AgreeExactly(h, ref, e, f);
    } else {
      forall e, f | Stands(h, e, ref) && Stands(h, f, ref) ensures Agree(e, f) {
        SameOpinion(events, e, f);
        AgreeExactly(h, ref, e, f);
      }
    }
  }

  /** The binding names an analysis of this coverage exactly as it was published. */
  ghost predicate Published(h: History, binding: Binding) {
    && binding.coverageRef.coverageId == h.storeId
    && exists a :: a in h.events && a.detail.Analysis? && Names(binding, a.detail.revision)
  }

  predicate Names(binding: Binding, revision: Revision) {
    && revision.revisionId == binding.coverageRef.revisionId && revision.digest == binding.coverageRef.digest
    && revision.sourceSetId == binding.sourceSetId && revision.ledgerRef == binding.ledgerRef
    && revision.bodyRefs == binding.bodyRefs
  }

  lemma DecisionIsSound(h: History, d: Event)
    requires ValidCoverage(h) && d in h.events && d.detail.Decision?
    ensures Published(h, d.detail.binding)
    ensures d.detail.kind.ProceedWithLimits? ==> forall item | item in d.detail.items :: !item.disposition.Blocks?
  {
    var k :| 0 <= k < |h.events| && h.events[k] == d;
    assert DecisionAt(h, k);
    FindInPrefix(h.events[..k], h.events, d.detail.binding.coverageRef.revisionId);
  }

  /** The assertion passes exactly if the history is valid and of this coverage, the named decision stands with this
      very binding and proceeds with limits, and every decision that stands about the analysis agrees with it. */
  lemma AssertionExactly(h: History, ref: DecisionRef)
    ensures Asserts(h, ref) <==>
              && ValidCoverage(h) && h.storeId == ref.binding.coverageRef.coverageId
              && exists d :: Stands(h, d, ref.binding.coverageRef) && Vouches(h, d, ref)
  {
    ShowsWhatStands(Some(h), ref.binding.coverageRef);
    if Asserts(h, ref) {
      var events := Select(Some(h), ref.binding.coverageRef).value.events;
      var d :| d in events && Confirms(d, ref);
      SelectionMeans(h, ref.binding.coverageRef);
      assert Vouches(h, d, ref);
    } else if ValidCoverage(h) && h.storeId == ref.binding.coverageRef.coverageId {
      if d :| Stands(h, d, ref.binding.coverageRef) && Vouches(h, d, ref) { VouchedIsAsserted(h, ref, d); }
    }
  }

  ghost predicate Vouches(h: History, d: Event, ref: DecisionRef)
    requires d.detail.Decision?
  {
    && d.id == ref.eventId && d.detail.binding == ref.binding && d.detail.kind.ProceedWithLimits?
    && forall e | Stands(h, e, ref.binding.coverageRef) :: Agree(e, d)
  }

  lemma VouchedIsAsserted(h: History, ref: DecisionRef, d: Event)
    requires ValidCoverage(h) && h.storeId == ref.binding.coverageRef.coverageId
    requires Stands(h, d, ref.binding.coverageRef) && Vouches(h, d, ref)
    ensures Asserts(h, ref)
  {
    ShowsWhatStands(Some(h), ref.binding.coverageRef);
    SelectionMeans(h, ref.binding.coverageRef);
    forall e, f | Stands(h, e, ref.binding.coverageRef) && Stands(h, f, ref.binding.coverageRef) ensures Agree(e, f) {
      assert Agree(e, d) && Agree(f, d);
    }
  }

  /** What the assertion vouches for: the named decision stands, is bound to the analysis as published and blocks
      nothing, and every decision that stands about that analysis says the same. */
  lemma AssertionMeans(h: History, ref: DecisionRef) returns (decision: Event)
    requires Asserts(h, ref)
    ensures Stands(h, decision, ref.binding.coverageRef) && Confirms(decision, ref) && Published(h, ref.binding)
    ensures forall item | item in decision.detail.items :: !item.disposition.Blocks?
    ensures forall e | Stands(h, e, ref.binding.coverageRef) :: Agree(e, decision)
  {
    AssertionExactly(h, ref);
    decision :| Stands(h, decision, ref.binding.coverageRef) && Vouches(h, decision, ref);
    DecisionIsSound(h, decision);
  }

  lemma {:induction false} FindInPrefix(events: seq<Event>, more: seq<Event>, revisionId: string)
    requires events <= more && FindAnalysis(events, revisionId).Some?
    ensures FindAnalysis(more, revisionId) == FindAnalysis(events, revisionId)
  {
    assert more[0] == events[0] && events[1..] <= more[1..];
    if !(events[0].detail.Analysis? && events[0].detail.revision.revisionId == revisionId) {
      FindInPrefix(events[1..], more[1..], revisionId);
    }
  }

  // ----- what may follow a passing assertion -----

  /** The event decides about this coverage analysis, or revokes a decision about it. */
  predicate Concerns(events: seq<Event>, e: Event, ref: CoverageRef) {
    || (e.detail.Decision? && e.detail.binding.coverageRef == ref)
    || (e.detail.Revocation?
        && exists d | d in events ::
             d.id == e.detail.target && d.detail.Decision? && d.detail.binding.coverageRef == ref)
  }

  /** An event that does not concern the analysis ends no decision about it. */
  lemma UnconcernedEndsNothing(h: History, k: nat, ref: CoverageRef, d: Event)
    requires ValidCoverage(h) && k < |h.events| && !Concerns(h.events, h.events[k], ref)
    requires d in h.events && d.detail.Decision? && d.detail.binding.coverageRef == ref
    ensures d.id !in Ended(h.events[k])
  {
    var e := h.events[k];
    if d.id in Ended(e) && e.detail.Decision? {
      assert DecisionAt(h, k) && MaySupersede(h.events[..k], e.detail.binding, d.id);
      IdsDiffer(h, FindEvent(h.events[..k], d.id).value, d);
    }
  }

  lemma {:induction false} InForceAppends(events: seq<Event>, more: seq<Event>, ref: CoverageRef, inactive: set<Id>)
    ensures InForce(events + more, ref, inactive) == InForce(events, ref, inactive) + InForce(more, ref, inactive)
  {
    if events == [] {
      assert events + more == more;
    } else {
      assert (events + more)[1..] == events[1..] + more;
      InForceAppends(events[1..], more, ref, inactive);
    }
  }

  lemma {:induction false} InForceDependsOnlyOn(events: seq<Event>, ref: CoverageRef, a: set<Id>, b: set<Id>)
    requires forall e | e in events && e.detail.Decision? && e.detail.binding.coverageRef == ref ::
               e.id in a <==> e.id in b
    ensures InForce(events, ref, a) == InForce(events, ref, b)
  {
    if events != [] { InForceDependsOnlyOn(events[1..], ref, a, b); }
  }

  predicate Unconcerned(h: History, h': History, ref: CoverageRef) {
    && h.events <= h'.events && h'.storeId == h.storeId
    && forall k | |h.events| <= k < |h'.events| :: !Concerns(h'.events, h'.events[k], ref)
  }

  lemma SameInactive(h: History, h': History, ref: CoverageRef, d: Event)
    requires ValidCoverage(h') && Unconcerned(h, h', ref)
    requires d in h.events && d.detail.Decision? && d.detail.binding.coverageRef == ref
    ensures IsInactive(h.events, d.id) <==> IsInactive(h'.events, d.id)
  {
    if e :| e in h.events && d.id in Ended(e) { assert e in h'.events; }
    if e :| e in h'.events && d.id in Ended(e) {
      var k :| 0 <= k < |h'.events| && h'.events[k] == e;
      if k >= |h.events| { UnconcernedEndsNothing(h', k, ref, d); }
      assert h.events[k] == e;
    }
  }

  lemma {:induction false} NoneInForce(events: seq<Event>, ref: CoverageRef, inactive: set<Id>)
    requires forall e | e in events :: !(e.detail.Decision? && e.detail.binding.coverageRef == ref)
    ensures InForce(events, ref, inactive) == []
  {
    if events != [] { NoneInForce(events[1..], ref, inactive); }
  }

  lemma NothingLater(h: History, h': History, ref: CoverageRef, inactive: set<Id>)
    requires Unconcerned(h, h', ref)
    ensures InForce(h'.events[|h.events|..], ref, inactive) == []
  {
    var n := |h.events|;
    forall e | e in h'.events[n..] ensures !(e.detail.Decision? && e.detail.binding.coverageRef == ref) {
      var k :| 0 <= k < |h'.events[n..]| && h'.events[n..][k] == e;
      assert !Concerns(h'.events, h'.events[n + k], ref);
    }
    NoneInForce(h'.events[n..], ref, inactive);
  }

  lemma SelectionIsStable(h: History, h': History, ref: CoverageRef)
    requires ValidCoverage(h') && Unconcerned(h, h', ref)
    ensures InForce(h'.events, ref, InactiveIds(h'.events)) == InForce(h.events, ref, InactiveIds(h.events))
  {
    var inactive, inactive' := InactiveIds(h.events), InactiveIds(h'.events);
    forall d | d in h.events && d.detail.Decision? && d.detail.binding.coverageRef == ref
      ensures d.id in inactive <==> d.id in inactive'
    {
      SameInactive(h, h', ref, d);
    }
    InForceDependsOnlyOn(h.events, ref, inactive, inactive');
    assert h'.events == h.events + h'.events[|h.events|..];
    InForceAppends(h.events, h'.events[|h.events|..], ref, inactive');
    NothingLater(h, h', ref, inactive');
  }

  /** A passing assertion goes on passing whatever valid events follow, unless one of them decides about the same
      coverage analysis or revokes such a decision. */
  lemma AssertionIsStable(h: History, h': History, ref: DecisionRef)
    requires ValidCoverage(h') && Unconcerned(h, h', ref.binding.coverageRef) && Asserts(h, ref)
    ensures Asserts(h', ref)
    ensures Select(Some(h'), ref.binding.coverageRef) == Select(Some(h), ref.binding.coverageRef)
  {
    SelectionIsStable(h, h', ref.binding.coverageRef);
  }

  // ----- writing -----

  datatype Submission = Submission(storeId: string, requestId: Id, expectedGeneration: nat, expectedHead: Option<Id>,
                                   detail: Detail, actor: string, namespace: string, digest: string, at: int)

  function Events(s: Option<History>): seq<Event> {
    if s.Some? then s.value.events else []
  }

  function Receipts(s: Option<History>): seq<Receipt> {
    if s.Some? then s.value.receipts else []
  }

  function Generation(s: Option<History>): nat {
    if s.Some? then s.value.generation else 0
  }

  function Head(s: Option<History>): Option<Id> {
    if s.Some? then Some(s.value.head) else None
  }

  function Next(s: Option<History>, c: Submission): History {
    History(c.namespace, c.storeId, c.expectedGeneration + 1, c.requestId,
            Events(s) + [Event(c.requestId, c.expectedHead, c.actor, c.at, c.detail)],
            Receipts(s) + [WriteLog.Receipt(c.requestId, c.digest, c.expectedGeneration + 1, c.requestId)])
  }

  predicate Accepts(s: Option<History>, c: Submission) {
    Generation(s) == c.expectedGeneration && Head(s) == c.expectedHead
  }

  predicate Belongs(h: History, c: Submission) {
    h.namespace == c.namespace && h.storeId == c.storeId
  }

  /** `applySourceLedgerWrite`; None where it throws.  A ledger command carries an analysis and nothing else. */
  function ApplyLedger(s: Option<History>, c: Submission): Option<History> {
    if !c.detail.Analysis? || (s.Some? && !(ValidLedger(s.value) && Belongs(s.value, c))) then None
    else
      var receipt := WriteLog.FindReceipt(Receipts(s), c.requestId);
      if receipt.Some? then if receipt.value.digest == c.digest then s else None
      else if Accepts(s, c) && Parses(Next(s, c)) && OnlyAnalyses(Next(s, c).events) && ValidLedger(Next(s, c)) then
        Some(Next(s, c))
      else None
  }

  /** `applySourceCoverageWrite`; None where it throws. */
  function ApplyCoverage(s: Option<History>, c: Submission): Option<History> {
    if s.Some? && !(ValidCoverage(s.value) && Belongs(s.value, c)) then None
    else
      var receipt := WriteLog.FindReceipt(Receipts(s), c.requestId);
      if receipt.Some? then if receipt.value.digest == c.digest then s else None
      else if Accepts(s, c) && Parses(Next(s, c)) && ValidCoverage(Next(s, c)) then Some(Next(s, c)) else None
  }

  predicate StoredLedger(s: Option<History>) {
    s.Some? ==> Parses(s.value) && OnlyAnalyses(s.value.events) && ValidLedger(s.value)
  }

  predicate StoredCoverage(s: Option<History>) {
    s.Some? ==> Parses(s.value) && ValidCoverage(s.value)
  }

  /** An analysis has a new id, names the last analysis as its parent, is signed by its author and is well formed. */
  predicate AnalysisFollows(prior: seq<Event>, c: Submission) {
    c.detail.Analysis? ==>
      && !HasRevision(prior, c.detail.revision.revisionId) && c.detail.revision.parent == LastRevision(prior)
      && c.actor == c.detail.revision.revisedBy && c.detail.revision.structureOk
  }

  lemma EarlierEntryStays(s: Option<History>, c: Submission, i: nat)
    requires s.Some? && ValidLedger(s.value) && i < |s.value.events|
    ensures EntryOk(Next(s, c).events, Next(s, c).receipts, i)
  {
    assert EntryOk(s.value.events, s.value.receipts, i) && Next(s, c).events[..i] == s.value.events[..i];
  }

  lemma EarlierDecisionStays(s: Option<History>, c: Submission, i: nat)
    requires s.Some? && ValidCoverage(s.value) && s.value.storeId == c.storeId && i < |s.value.events|
    ensures DecisionAt(Next(s, c), i)
  {
    assert DecisionAt(s.value, i) && Next(s, c).events[..i] == s.value.events[..i];
  }

  lemma NewIdIsFresh(s: Option<History>, c: Submission)
    requires s.Some? ==> ValidLedger(s.value)
    requires WriteLog.FindReceipt(Receipts(s), c.requestId).None?
    ensures Distinct(Ids(Next(s, c).events))
  {
    var ids := Ids(Next(s, c).events);
    forall a, b | 0 <= a < b < |ids| ensures ids[a] != ids[b] {
      assert EntryOk(s.value.events, s.value.receipts, a) && s.value.receipts[a] in s.value.receipts;
      assert ids[a] == Ids(s.value.events)[a] && (b < |s.value.events| ==> ids[b] == Ids(s.value.events)[b]);
    }
  }

  /** The links of the whole next history hold exactly if those of its last event do. */
  lemma NextLedgerExactly(s: Option<History>, c: Submission)
    requires s.Some? ==> ValidLedger(s.value)
    requires Accepts(s, c) && WriteLog.FindReceipt(Receipts(s), c.requestId).None?
    ensures ValidLedger(Next(s, c)) <==> AnalysisFollows(Events(s), c)
  {
    var next, n := Next(s, c), |Events(s)|;
    assert next.events[..n] == Events(s);
    NewIdIsFresh(s, c);
    forall i: nat | i < n ensures EntryOk(next.events, next.receipts, i) { EarlierEntryStays(s, c, i); }
    assert EntryOk(next.events, next.receipts, n) <==> AnalysisFollows(Events(s), c);
    assert EntriesOk(next.events, next.receipts, n + 1) <==> EntryOk(next.events, next.receipts, n);
  }

  lemma NextDecisionsExactly(s: Option<History>, c: Submission)
    requires s.Some? ==> ValidCoverage(s.value) && s.value.storeId == c.storeId
    ensures DecisionsOk(Next(s, c), |Next(s, c).events|) <==> DecisionOk(Events(s), c.storeId, c.detail)
  {
    var next, n := Next(s, c), |Events(s)|;
    assert next.events[..n] == Events(s);
    forall i: nat | i < n ensures DecisionAt(next, i) { EarlierDecisionStays(s, c, i); }
    assert DecisionAt(next, n) <==> DecisionOk(Events(s), c.storeId, c.detail);
  }

  /** A new analysis of a ledger, the first one included, is accepted exactly when it names the current state, follows
      the analyses there are, and there is room. */
  lemma LedgerAcceptedExactly(s: Option<History>, c: Submission)
    requires StoredLedger(s) && c.detail.Analysis? && (s.Some? ==> Belongs(s.value, c))
    requires WriteLog.FindReceipt(Receipts(s), c.requestId).None?
    ensures ApplyLedger(s, c).Some? <==> Accepts(s, c) && |Events(s)| < 4096 && AnalysisFollows(Events(s), c)
  {
    if Accepts(s, c) { NextLedgerExactly(s, c); }
  }

  // What a decision or a revocation needs of the events before it, apart from how the code looks for them.
  ghost predicate Admissible(prior: seq<Event>, coverageId: string, detail: Detail) {
    match detail
    case Analysis(_) => true
    case Revocation(target) =>
      (exists e :: e in prior && e.id == target && e.detail.Decision?) && forall f | f in prior :: !Ends(f, target)
    case Decision(binding, kind, items, supersedes) =>
      && binding.coverageRef.coverageId == coverageId
      && (exists a :: a in prior && a.detail.Analysis? && Names(binding, a.detail.revision))
      && Distinct(supersedes) && (forall t | t in supersedes :: Supersedable(prior, binding, t))
      && (forall i, j | 0 <= i < j < |items| :: items[i].unresolvedId != items[j].unresolvedId)
      && (kind.ProceedWithLimits? ==> forall item | item in items :: !item.disposition.Blocks?)
  }

  /** A decision in force with exactly this binding. */
  ghost predicate Supersedable(prior: seq<Event>, binding: Binding, target: Id) {
    && (exists e :: e in prior && e.id == target && e.detail.Decision? && e.detail.binding == binding)
    && forall f | f in prior :: !Ends(f, target)
  }

  ghost predicate EventsDiffer(events: seq<Event>) {
    forall a, b | 0 <= a < b < |events| :: events[a].id != events[b].id
  }

  ghost predicate RevisionsDiffer(events: seq<Event>) {
    forall a, b | 0 <= a < b < |events| && events[a].detail.Analysis? && events[b].detail.Analysis? ::
      events[a].detail.revision.revisionId != events[b].detail.revision.revisionId
  }

  lemma SameEvent(events: seq<Event>, e: Event, f: Event)
    requires EventsDiffer(events) && e in events && f in events && e.id == f.id
    ensures e == f
  {
    var i :| 0 <= i < |events| && events[i] == e;
    var j :| 0 <= j < |events| && events[j] == f;
    assert i == j;
  }

  lemma {:induction false} AnalysisIsFound(events: seq<Event>, a: Event)
    requires RevisionsDiffer(events) && a in events && a.detail.Analysis?
    ensures FindAnalysis(events, a.detail.revision.revisionId) == Some(a)
  {
    if events[0] != a {
      var i :| 0 < i < |events| && events[i] == a;
      assert events[1..][i - 1] == a;
      AnalysisIsFound(events[1..], a);
    }
  }

  lemma StoredDiffer(h: History)
    requires ValidLedger(h)
    ensures EventsDiffer(h.events) && RevisionsDiffer(h.events)
  {
    forall a, b | 0 <= a < b < |h.events| ensures h.events[a].id != h.events[b].id {
      assert Ids(h.events)[a] != Ids(h.events)[b];
    }
    forall a, b | 0 <= a < b < |h.events| && h.events[a].detail.Analysis? && h.events[b].detail.Analysis?
      ensures h.events[a].detail.revision.revisionId != h.events[b].detail.revision.revisionId
    {
      assert EntryOk(h.events, h.receipts, b) && h.events[a] in h.events[..b];
    }
  }

  lemma InactiveExactly(events: seq<Event>, id: Id)
    ensures IsInactive(events, id) <==> exists f :: f in events && Ends(f, id)
  {
    if f :| f in events && id in Ended(f) { assert Ends(f, id); }
    if f :| f in events && Ends(f, id) { assert id in Ended(f); }
  }

  lemma SupersedeExactly(prior: seq<Event>, binding: Binding, target: Id)
    requires EventsDiffer(prior)
    ensures MaySupersede(prior, binding, target) <==> Supersedable(prior, binding, target)
  {
    InactiveExactly(prior, target);
    if e :| e in prior && e.id == target && e.detail.Decision? && e.detail.binding == binding {
      SameEvent(prior, e, FindEvent(prior, target).value);
    }
  }

  lemma BoundExactly(prior: seq<Event>, coverageId: string, binding: Binding)
    requires RevisionsDiffer(prior)
    ensures BoundOk(prior, coverageId, binding) <==>
              && binding.coverageRef.coverageId == coverageId
              && exists a :: a in prior && a.detail.Analysis? && Names(binding, a.detail.revision)
  {
    var found := FindAnalysis(prior, binding.coverageRef.revisionId);
    if a :| a in prior && a.detail.Analysis? && Names(binding, a.detail.revision) {
      AnalysisIsFound(prior, a);
    }
    assert BoundOk(prior, coverageId, binding) ==> Names(binding, found.value.detail.revision);
  }

  lemma DecisionExactly(prior: seq<Event>, coverageId: string, detail: Detail)
    requires EventsDiffer(prior) && RevisionsDiffer(prior)
    ensures DecisionOk(prior, coverageId, detail) <==> Admissible(prior, coverageId, detail)
  {
    match detail
    case Analysis(_) =>
    case Revocation(target) => InactiveExactly(prior, target);
    case Decision(binding, kind, items, supersedes) =>
      BoundExactly(prior, coverageId, binding);
      forall t ensures MaySupersede(prior, binding, t) <==> Supersedable(prior, binding, t) {
        SupersedeExactly(prior, binding, t);
      }
      var ids := UnresolvedIds(items);
      assert Distinct(ids)
        <==> forall i, j | 0 <= i < j < |items| :: items[i].unresolvedId != items[j].unresolvedId by {
        if Distinct(ids) {
          forall i, j | 0 <= i < j < |items| ensures items[i].unresolvedId != items[j].unresolvedId {
            assert ids[i] != ids[j];
          }
        }
      }
  }

  /** A new analysis, decision or revocation of a coverage, the first one included, is accepted exactly when it names
      the current state, its own checks pass against the history as it stands, and there is room. */
  lemma AcceptedExactly(s: Option<History>, c: Submission)
    requires StoredCoverage(s) && (s.Some? ==> Belongs(s.value, c))
    requires WriteLog.FindReceipt(Receipts(s), c.requestId).None?
    ensures ApplyCoverage(s, c).Some? <==>
              && Accepts(s, c) && |Events(s)| < 4096
              && AnalysisFollows(Events(s), c) && Admissible(Events(s), c.storeId, c.detail)
  {
    if s.Some? { StoredDiffer(s.value); }
    DecisionExactly(Events(s), c.storeId, c.detail);
    if Accepts(s, c) {
      NextLedgerExactly(s, c);
      NextDecisionsExactly(s, c);
    }
  }

  /** What an accepted new write stores is what was submitted, in either kind of history. */
  lemma AcceptedIsStored(s: Option<History>, c: Submission, h: History)
    requires StoredLedger(s) || StoredCoverage(s)
    requires WriteLog.FindReceipt(Receipts(s), c.requestId).None?
    requires ApplyLedger(s, c) == Some(h) || ApplyCoverage(s, c) == Some(h)
    ensures var n := |Events(s)|;
            && h.namespace == c.namespace && h.storeId == c.storeId && h.generation == n + 1 && h.head == c.requestId
            && |h.events| == n + 1 && h.events[..n] == Events(s)
            && h.events[n].id == c.requestId && h.events[n].parent == Head(s) && h.events[n].actor == c.actor
            && h.events[n].at == c.at && h.events[n].detail == c.detail
            && |h.receipts| == n + 1 && h.receipts[..n] == Receipts(s)
            && h.receipts[n].requestId == c.requestId && h.receipts[n].digest == c.digest
            && h.receipts[n].generation == n + 1 && h.receipts[n].ref == c.requestId
  {
  }

  /** After an accepted coverage write, a decision stands if it is the one submitted or stood before, and the write does
      not end it. */
  lemma WriteDecides(s: Option<History>, c: Submission, e: Event, ref: CoverageRef)
    requires StoredCoverage(s) && ApplyCoverage(s, c).Some?
    requires WriteLog.FindReceipt(Receipts(s), c.requestId).None?
    ensures var event := Event(c.requestId, c.expectedHead, c.actor, c.at, c.detail);
            Stands(ApplyCoverage(s, c).value, e, ref) <==>
              || (e == event && e.detail.Decision? && e.detail.binding.coverageRef == ref)
              || (s.Some? && Stands(s.value, e, ref) && !Ends(event, e.id))
  {
    var h := ApplyCoverage(s, c).value;
    var event := Event(c.requestId, c.expectedHead, c.actor, c.at, c.detail);
    assert h.events == Events(s) + [event] && event in h.events;
    StandsExactly(h, e, ref);
    HistoryIsForest(h);
    NewestStands(Nodes(h.events));
    InactiveIsRetired(h.events, event.id);
    if e == event { StandsExactly(h, event, ref); }
  }

  /** The first event of a coverage is an analysis: there is nothing yet to decide about or to revoke. */
  lemma FirstIsAnalysis(c: Submission)
    ensures ApplyCoverage(None, c).Some? ==> c.detail.Analysis? && c.detail.revision.parent.None?
  {
    if ApplyCoverage(None, c).Some? { AcceptedExactly(None, c); }
  }

  // ----- the common laws -----

  const LEDGERS: WriteLog.Family<History, Submission, Event, ()> := WriteLog.Family(
    (s: Option<History>, c: Submission) => ApplyLedger(s, c),
    (h: History) => Parses(h) && OnlyAnalyses(h.events) && ValidLedger(h),
    (h: History, c: Submission) => c.detail.Analysis? && Belongs(h, c),
    (h: History) => h.receipts, (h: History) => h.events, (h: History) => [], (h: History) => h.generation,
    (c: Submission) => c.requestId, (c: Submission) => c.digest, (c: Submission) => c.expectedGeneration,
    (c: Submission) => c.requestId,
    (c: Submission) => Some(Event(c.requestId, c.expectedHead, c.actor, c.at, c.detail)), (c: Submission) => None)

  const COVERAGES: WriteLog.Family<History, Submission, Event, ()> := WriteLog.Family(
    (s: Option<History>, c: Submission) => ApplyCoverage(s, c), (h: History) => Parses(h) && ValidCoverage(h),
    (h: History, c: Submission) => Belongs(h, c),
    (h: History) => h.receipts, (h: History) => h.events, (h: History) => [], (h: History) => h.generation,
    (c: Submission) => c.requestId, (c: Submission) => c.digest, (c: Submission) => c.expectedGeneration,
    (c: Submission) => c.requestId,
    (c: Submission) => Some(Event(c.requestId, c.expectedHead, c.actor, c.at, c.detail)), (c: Submission) => None)

  lemma ReceiptsAreNumbered(h: History)
    requires ValidLedger(h)
    ensures WriteLog.Numbered(h.receipts)
  {
    forall i, j | 0 <= i < j < |h.receipts| ensures h.receipts[i].requestId != h.receipts[j].requestId {
      assert EntryOk(h.events, h.receipts, i) && EntryOk(h.events, h.receipts, j);
      assert Ids(h.events)[i] != Ids(h.events)[j];
    }
    forall i | 0 <= i < |h.receipts| ensures h.receipts[i].generation == i + 1 {
      assert EntryOk(h.events, h.receipts, i);
    }
  }

  lemma LedgersAreLawful()
    ensures WriteLog.Lawful(LEDGERS)
  {
    forall s, c | WriteLog.Valid(LEDGERS, s) ensures WriteLog.ApplyLaw(LEDGERS, s, c) {}
    forall h | LEDGERS.valid(h) ensures WriteLog.ReceiptLaw(LEDGERS, h) { ReceiptsAreNumbered(h); }
    forall h, c | LEDGERS.valid(h) ensures WriteLog.ReplayLaw(LEDGERS, h, c) {}
    forall h, c, d | LEDGERS.valid(h) ensures WriteLog.FitsLaw(LEDGERS, h, c, d) {}
  }

  lemma CoveragesAreLawful()
    ensures WriteLog.Lawful(COVERAGES)
  {
    forall s, c | WriteLog.Valid(COVERAGES, s) ensures WriteLog.ApplyLaw(COVERAGES, s, c) {}
    forall h | COVERAGES.valid(h) ensures WriteLog.ReceiptLaw(COVERAGES, h) { ReceiptsAreNumbered(h); }
    forall h, c | COVERAGES.valid(h) ensures WriteLog.ReplayLaw(COVERAGES, h, c) {}
    forall h, c, d | COVERAGES.valid(h) ensures WriteLog.FitsLaw(COVERAGES, h, c, d) {}
  }
}
