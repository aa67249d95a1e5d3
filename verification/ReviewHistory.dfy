/** The event-sourced reviews of one knowledge item, and what a reader selects from them for one body. */
module ReviewHistory {
  import opened Options
  import opened Sequences
  import opened Supersession
  import WriteLog

  type Receipt = WriteLog.Receipt

  datatype BodyRef = BodyRef(knowledgeId: string, revisionId: string, bodyDigest: string)

  datatype ContentStatus = NeedsRevision | ReviewedWithLimits
  datatype SegmentStatus = Linked | NoReliableObject | Gap | Unknown
  datatype SegmentDecision = SegmentDecision(segmentId: string, status: SegmentStatus)

  datatype Detail =
    | ContentReview(status: ContentStatus)
    | AssociationCoverage(projection: Option<string>, decisions: seq<SegmentDecision>)
    | TaskUse(taskRef: string, signal: string)

  // `prose` stands for the fields no check looks at.
  datatype Event = Event(id: Id, parent: Option<Id>, body: BodyRef, detail: Detail, supersedes: seq<Id>, actor: string,
                         at: int, prose: string)

  datatype History = History(namespace: string, knowledgeId: string, generation: nat, head: Id, events: seq<Event>,
                             receipts: seq<Receipt>)

  datatype Submission = Submission(requestId: Id, expectedGeneration: nat, expectedHead: Option<Id>, body: BodyRef,
                                   detail: Detail, supersedes: seq<Id>, actor: string, namespace: string,
                                   digest: string, at: int, prose: string)

  const MAX_EVENTS := 4096

  predicate Parses(h: History) {
    1 <= |h.events| <= MAX_EVENTS && 1 <= |h.receipts| <= MAX_EVENTS && h.generation > 0
  }

  // ----- contexts -----

  /** `sameContext`. */
  predicate SameContext(a: Event, b: Event) {
    && (a.detail.ContentReview? <==> b.detail.ContentReview?)
    && (a.detail.AssociationCoverage? <==> b.detail.AssociationCoverage?)
    && a.body == b.body
    && (!a.detail.AssociationCoverage? || (b.detail.AssociationCoverage? && a.detail.projection == b.detail.projection))
    && (!a.detail.TaskUse?
        || (b.detail.TaskUse? && a.detail.taskRef == b.detail.taskRef && a.detail.signal == b.detail.signal))
  }

  datatype Subject =
    | OfContent(body: BodyRef)
    | OfCoverage(body: BodyRef, projection: Option<string>)
    | OfUse(body: BodyRef, taskRef: string, signal: string)

  function SubjectOf(e: Event): Subject {
    match e.detail
    case ContentReview(_) => OfContent(e.body)
    case AssociationCoverage(projection, _) => OfCoverage(e.body, projection)
    case TaskUse(taskRef, signal) => OfUse(e.body, taskRef, signal)
  }

  /** Having the same context is having the same subject, and so an equivalence. */
  lemma ContextIsSubject(a: Event, b: Event)
    ensures SameContext(a, b) <==> SubjectOf(a) == SubjectOf(b)
  {
  }

  // ----- the whole history -----

  function LastId(events: seq<Event>): Option<Id> {
    if events == [] then None else Some(events[|events| - 1].id)
  }

  predicate HasId(events: seq<Event>, id: Id) {
    exists e | e in events :: e.id == id
  }

  predicate IsSuperseded(events: seq<Event>, id: Id) {
    exists e | e in events :: id in e.supersedes
  }

  function SupersededBy(events: seq<Event>): (ids: set<Id>)
    ensures forall id :: id in ids <==> IsSuperseded(events, id)
  {
    set e, id | e in events && id in e.supersedes :: id
  }

  /** The target is an earlier, still active opinion of the same context. */
  predicate MayRetire(prior: seq<Event>, event: Event, target: Id) {
    !IsSuperseded(prior, target) && exists e | e in prior :: e.id == target && SameContext(event, e)
  }

  predicate LinksOk(h: History, i: nat)
    requires i < |h.events| && i < |h.receipts|
  {
    var prior, event, receipt := h.events[..i], h.events[i], h.receipts[i];
    && event.body.knowledgeId == h.knowledgeId && event.parent == LastId(prior)
    && !HasId(prior, event.id) && receipt.ref == event.id && receipt.requestId == event.id
    && receipt.generation == i + 1
    && Distinct(event.supersedes)
  }

  predicate TargetsOk(prior: seq<Event>, event: Event) {
    forall t | t in event.supersedes :: MayRetire(prior, event, t)
  }

  predicate EntryOk(h: History, i: nat)
    requires i < |h.events| && i < |h.receipts|
  {
    LinksOk(h, i) && TargetsOk(h.events[..i], h.events[i])
  }

  predicate EntriesOk(h: History, n: nat)
    requires n <= |h.events| && n <= |h.receipts|
  {
    forall i | 0 <= i < n :: EntryOk(h, i)
  }

  predicate ValidHistory(h: History) {
    && h.generation == |h.events| == |h.receipts| && Some(h.head) == LastId(h.events)
    && EntriesOk(h, |h.events|)
  }

  /** The map of earlier events by id. */
  predicate Indexes(prior: map<Id, Event>, events: seq<Event>) {
    && (forall e | e in events :: e.id in prior && prior[e.id] == e)
    && (forall id | id in prior :: prior[id] in events && prior[id].id == id)
  }

  lemma Extends(prior: map<Id, Event>, events: seq<Event>, event: Event)
    requires Indexes(prior, events) && event.id !in prior
    ensures Indexes(prior[event.id := event], events + [event])
    ensures SupersededBy(events + [event]) == SupersededBy(events) + Elements(event.supersedes)
  {
    forall id ensures id in SupersededBy(events + [event])
        <==> id in SupersededBy(events) + Elements(event.supersedes) {
      assert event in events + [event];
    }
  }

  lemma ExtendsHistory(h: History, i: nat, prior: map<Id, Event>)
    requires i < |h.events| && Indexes(prior, h.events[..i]) && h.events[i].id !in prior
    ensures Indexes(prior[h.events[i].id := h.events[i]], h.events[..i + 1])
    ensures SupersededBy(h.events[..i + 1]) == SupersededBy(h.events[..i]) + Elements(h.events[i].supersedes)
  {
    assert h.events[..i + 1] == h.events[..i] + [h.events[i]];
    Extends(prior, h.events[..i], h.events[i]);
  }

  /** The loop over the targets of one event; false where the TypeScript code throws. */
  method RetireTargets(prior: map<Id, Event>, superseded: set<Id>, event: Event, ghost events: seq<Event>)
    returns (ok: bool, after: set<Id>)
    requires Indexes(prior, events) && Distinct(event.supersedes) && superseded == SupersededBy(events)
    ensures ok <==> TargetsOk(events, event)
    ensures ok ==> after == superseded + Elements(event.supersedes)
  {
    after := superseded;
    for j := 0 to |event.supersedes|
      invariant forall t | t in event.supersedes[..j] :: MayRetire(events, event, t)
      invariant after == superseded + Elements(event.supersedes[..j])
    {
      var target := event.supersedes[j];
      assert target !in event.supersedes[..j];
      if target !in prior || target in after || !SameContext(event, prior[target]) {
        assert !MayRetire(events, event, target) && target in event.supersedes;
        return false, after;
      }
      assert prior[target] in events;
      assert event.supersedes[..j + 1] == event.supersedes[..j] + [target];
      after := after + {target};
    }
    assert event.supersedes[..|event.supersedes|] == event.supersedes;
    ok := true;
  }

  /** The checks of one event against the collected ids and requests. */
  method CheckLinks(h: History, i: nat, prior: map<Id, Event>, requests: set<Id>) returns (ok: bool)
    requires i < |h.events| && i < |h.receipts| && Indexes(prior, h.events[..i]) && requests == prior.Keys
    ensures ok <==> LinksOk(h, i)
  {
    var event, receipt := h.events[i], h.receipts[i];
    DistinctExactly(event.supersedes);
    assert event.id in prior <==> HasId(h.events[..i], event.id);
    ok := !(event.body.knowledgeId != h.knowledgeId
            || event.parent != (if i > 0 then Some(h.events[i - 1].id) else None)
            || event.id in prior || receipt.requestId in requests || receipt.ref != event.id
            || receipt.requestId != event.id
            || receipt.generation != i + 1 || |Elements(event.supersedes)| != |event.supersedes|);
  }

  /** `validateKnowledgeReviewHistory`; true where the TypeScript code returns instead of throwing. */
  method ValidateHistory(h: History) returns (ok: bool)
    ensures ok <==> ValidHistory(h)
  {
    if |h.events| != h.generation || |h.receipts| != h.generation || Some(h.head) != LastId(h.events) { return false; }
    var prior: map<Id, Event>, requests: set<Id>, superseded: set<Id> := map[], {}, {};
    for i := 0 to |h.events|
      invariant Indexes(prior, h.events[..i]) && EntriesOk(h, i)
      invariant requests == prior.Keys
      invariant superseded == SupersededBy(h.events[..i])
    {
      var event := h.events[i];
      var linked := CheckLinks(h, i, prior, requests);
      if !linked { assert !EntryOk(h, i); return false; }
      var fine, after := RetireTargets(prior, superseded, event, h.events[..i]);
      if !fine { assert !EntryOk(h, i); return false; }
      assert EntryOk(h, i);
      ExtendsHistory(h, i, prior);
      superseded, prior, requests := after, prior[event.id := event], requests + {h.receipts[i].requestId};
    }
    return true;
  }

  lemma IdsAreDistinct(h: History)
    requires ValidHistory(h)
    ensures forall a, b | 0 <= a < b < |h.events| :: h.events[a].id != h.events[b].id
  {
    forall a, b | 0 <= a < b < |h.events| ensures h.events[a].id != h.events[b].id {
      assert EntryOk(h, b) && h.events[..b][a] in h.events[..b];
    }
  }

  // ----- writing -----

  function Events(s: Option<History>): seq<Event> {
    if s.Some? then s.value.events else []
  }

  function Receipts(s: Option<History>): seq<Receipt> {
    if s.Some? then s.value.receipts else []
  }

  function Generation(s: Option<History>): nat {
    if s.Some? then s.value.generation else 0
  }

  function Head(s: Option<History>): Option<Id> {
    if s.Some? then Some(s.value.head) else None
  }

  function NewEvent(c: Submission): Event {
    Event(c.requestId, c.expectedHead, c.body, c.detail, c.supersedes, c.actor, c.at, c.prose)
  }

  function Next(s: Option<History>, c: Submission): History {
    History(c.namespace, c.body.knowledgeId, c.expectedGeneration + 1, c.requestId, Events(s) + [NewEvent(c)],
            Receipts(s) + [WriteLog.Receipt(c.requestId, c.digest, c.expectedGeneration + 1, c.requestId)])
  }

  /** `applyKnowledgeReviewWrite`; None where it throws. */
  function Apply(s: Option<History>, c: Submission): Option<History> {
    if s.Some? && !ValidHistory(s.value) then None
    else if s.Some? && (s.value.namespace != c.namespace || s.value.knowledgeId != c.body.knowledgeId) then None
    else
      var receipt := WriteLog.FindReceipt(Receipts(s), c.requestId);
      if receipt.Some? then if receipt.value.digest == c.digest then s else None
      else if Generation(s) != c.expectedGeneration || Head(s) != c.expectedHead then None
      else
        var next := Next(s, c);
        if Parses(next) && ValidHistory(next) then Some(next) else None
  }

  predicate Stored(s: Option<History>) {
    s.Some? ==> Parses(s.value) && ValidHistory(s.value)
  }

  /** The opinion with this id is there, about the same subject, and nothing supersedes it. */
  ghost predicate Supersedable(events: seq<Event>, event: Event, target: Id) {
    && (forall e | e in events :: target !in e.supersedes)
    && exists e :: e in events && e.id == target && SubjectOf(e) == SubjectOf(event)
  }

  lemma MayRetireExactly(prior: seq<Event>, event: Event, target: Id)
    ensures MayRetire(prior, event, target) <==> Supersedable(prior, event, target)
  {
    if e :| e in prior && e.id == target && SubjectOf(e) == SubjectOf(event) { ContextIsSubject(event, e); }
    if e :| e in prior && e.id == target && SameContext(event, e) { ContextIsSubject(event, e); }
  }

  /** A new review is accepted exactly when it names the current state, retires distinct active opinions about its own
      subject only, and the history has room. */
  lemma AcceptedExactly(s: Option<History>, c: Submission)
    requires Stored(s) && WriteLog.FindReceipt(Receipts(s), c.requestId).None?
    requires s.Some? ==> s.value.namespace == c.namespace && s.value.knowledgeId == c.body.knowledgeId
    ensures var event := Event(c.requestId, c.expectedHead, c.body, c.detail, c.supersedes, c.actor, c.at, c.prose);
            Apply(s, c).Some? <==>
              && Generation(s) == c.expectedGeneration && Head(s) == c.expectedHead && |Events(s)| < 4096
              && Distinct(c.supersedes) && forall t | t in c.supersedes :: Supersedable(Events(s), event, t)
  {
    forall t ensures MayRetire(Events(s), NewEvent(c), t) <==> Supersedable(Events(s), NewEvent(c), t) {
      MayRetireExactly(Events(s), NewEvent(c), t);
    }
    if Generation(s) == c.expectedGeneration && Head(s) == c.expectedHead { NextIsValidExactly(s, c); }
  }

  lemma NextIsValidExactly(s: Option<History>, c: Submission)
    requires Stored(s) && WriteLog.FindReceipt(Receipts(s), c.requestId).None?
    requires s.Some? ==> s.value.namespace == c.namespace && s.value.knowledgeId == c.body.knowledgeId
    requires Generation(s) == c.expectedGeneration && Head(s) == c.expectedHead
    ensures ValidHistory(Next(s, c))
            <==> Distinct(c.supersedes) && forall t | t in c.supersedes :: MayRetire(Events(s), NewEvent(c), t)
  {
    var before, next := Events(s), Next(s, c);
    assert next.events[..|before|] == before;
    forall i: nat | i < |before| ensures EntryOk(next, i) {
      assert EntryOk(s.value, i);
      assert next.events[..i] == before[..i];
    }
    forall e | e in before ensures e.id != c.requestId {
      var j :| 0 <= j < |before| && before[j] == e;
      assert EntryOk(s.value, j) && Receipts(s)[j] in Receipts(s);
    }
    if ValidHistory(next) { assert EntryOk(next, |before|); }
  }

  /** What an accepted new write stores is what was submitted. */
  lemma AcceptedIsStored(s: Option<History>, c: Submission)
    requires Stored(s) && Apply(s, c).Some? && WriteLog.FindReceipt(Receipts(s), c.requestId).None?
    ensures var h := Apply(s, c).value; var n := |Events(s)|;
            && h.namespace == c.namespace && h.knowledgeId == c.body.knowledgeId && h.generation == n + 1
            && h.head == c.requestId
            && |h.events| == n + 1 && h.events[..n] == Events(s)
            && h.events[n].id == c.requestId && h.events[n].parent == Head(s) && h.events[n].body == c.body
            && h.events[n].detail == c.detail && h.events[n].supersedes == c.supersedes
            && h.events[n].actor == c.actor && h.events[n].at == c.at && h.events[n].prose == c.prose
            && |h.receipts| == n + 1 && h.receipts[..n] == Receipts(s)
            && h.receipts[n].requestId == c.requestId && h.receipts[n].digest == c.digest
            && h.receipts[n].generation == n + 1 && h.receipts[n].ref == c.requestId
  {
  }

  // ----- opinions -----

  function NodeOf(e: Event): Node<Subject> {
    Node(e.id, Some(SubjectOf(e)), e.supersedes)
  }

  function Nodes(events: seq<Event>): seq<Node<Subject>> {
    seq(|events|, i requires 0 <= i < |events| => NodeOf(events[i]))
  }

  lemma SupersededIsRetired(events: seq<Event>, id: Id)
    ensures IsSuperseded(events, id) <==> Retired(Nodes(events), id)
  {
    if e :| e in events && id in e.supersedes {
      var k :| 0 <= k < |events| && events[k] == e;
      assert Retires(Nodes(events), k, id);
    }
    if k :| Retires(Nodes(events), k, id) { assert events[k] in events; }
  }

  lemma EntryAdmits(h: History, k: nat)
    requires ValidHistory(h) && k < |h.events|
    ensures Admits(Nodes(h.events)[..k], Nodes(h.events)[k])
  {
    var prior, event := h.events[..k], h.events[k];
    assert EntryOk(h, k);
    assert Nodes(h.events)[..k] == Nodes(prior);
    forall t | t in event.supersedes
      ensures !Retired(Nodes(prior), t)
      ensures exists j :: Holds(Nodes(prior), j, t) && Nodes(prior)[j].subject == Some(SubjectOf(event))
    {
      assert MayRetire(prior, event, t);
      SupersededIsRetired(prior, t);
      var e :| e in prior && e.id == t && SameContext(event, e);
      var j :| 0 <= j < |prior| && prior[j] == e;
      ContextIsSubject(event, e);
      assert Holds(Nodes(prior), j, t);
    }
  }

  lemma HistoryIsForest(h: History)
    requires ValidHistory(h)
    ensures WellFormed(Nodes(h.events)) && OnlyOpinions(Nodes(h.events))
  {
    IdsAreDistinct(h);
    forall k: nat | k < |h.events| ensures Admits(Nodes(h.events)[..k], Nodes(h.events)[k]) { EntryAdmits(h, k); }
  }

  // ----- selection -----

  function OnBody(events: seq<Event>, body: BodyRef): (matching: seq<Event>)
    ensures forall e :: e in matching <==> e in events && e.body == body
  {
    if events == [] then [] else (if events[0].body == body then [events[0]] else []) + OnBody(events[1..], body)
  }

  function Without(events: seq<Event>, ids: set<Id>): (rest: seq<Event>)
    ensures forall e :: e in rest <==> e in events && e.id !in ids
  {
    if events == [] then [] else (if events[0].id in ids then [] else [events[0]]) + Without(events[1..], ids)
  }

  function ContentOf(events: seq<Event>): (some: seq<Event>)
    ensures forall e :: e in some <==> e in events && e.detail.ContentReview?
  {
    if events == [] then [] else (if events[0].detail.ContentReview? then [events[0]] else []) + ContentOf(events[1..])
  }

  function CoverageOf(events: seq<Event>, projection: Option<string>): (some: seq<Event>)
    ensures forall e :: e in some <==> e in events && e.detail.AssociationCoverage? && e.detail.projection == projection
  {
    if events == [] then []
    else
      (if events[0].detail.AssociationCoverage? && events[0].detail.projection == projection then [events[0]] else [])
         + CoverageOf(events[1..], projection)
  }

  function UsageOf(events: seq<Event>): (some: seq<Event>)
    ensures forall e :: e in some <==> e in events && e.detail.TaskUse?
  {
    if events == [] then [] else (if events[0].detail.TaskUse? then [events[0]] else []) + UsageOf(events[1..])
  }

  lemma {:induction false} BodyInOrder(events: seq<Event>, body: BodyRef, ids: set<Id>)
    ensures IsSubsequence(OnBody(events, body), events) && IsSubsequence(Without(events, ids), events)
  {
    if events != [] {
      BodyInOrder(events[1..], body, ids);
      Selects(events[0], OnBody(events[1..], body), events);
      Selects(events[0], Without(events[1..], ids), events);
    }
  }

  lemma {:induction false} KindsInOrder(events: seq<Event>, projection: Option<string>)
    ensures IsSubsequence(ContentOf(events), events) && IsSubsequence(CoverageOf(events, projection), events)
    ensures IsSubsequence(UsageOf(events), events)
  {
    if events != [] {
      KindsInOrder(events[1..], projection);
      Selects(events[0], ContentOf(events[1..]), events);
      Selects(events[0], CoverageOf(events[1..], projection), events);
      Selects(events[0], UsageOf(events[1..]), events);
    }
  }

  datatype Shown = NotReviewed | NeedsWork | WithLimits

  datatype Selection = Selection(contentStatus: Shown, content: seq<Event>, coverageRecorded: bool,
                                 coverage: seq<Event>, decisions: seq<SegmentDecision>, usage: seq<Event>)

  function Active(s: Option<History>, body: BodyRef): seq<Event> {
    var matching := OnBody(Events(s), body);
    Without(matching, SupersededBy(matching))
  }

  /** What one review says about a segment. */
  function StatusesIn(decisions: seq<SegmentDecision>, segmentId: string): (statuses: seq<SegmentStatus>)
    ensures forall x :: x in statuses <==> SegmentDecision(segmentId, x) in decisions
  {
    if decisions == [] then []
    else
      (if decisions[0].segmentId == segmentId then [decisions[0].status] else [])
      + StatusesIn(decisions[1..], segmentId)
  }

  /** The review says this about the segment. */
  predicate Says(e: Event, segmentId: string, status: SegmentStatus) {
    e.detail.AssociationCoverage? && SegmentDecision(segmentId, status) in e.detail.decisions
  }

  /** What all these reviews say about a segment. */
  function StatusesOf(coverage: seq<Event>, segmentId: string): seq<SegmentStatus> {
    if coverage == [] then []
    else
      (if coverage[0].detail.AssociationCoverage? then StatusesIn(coverage[0].detail.decisions, segmentId) else [])
      + StatusesOf(coverage[1..], segmentId)
  }

  lemma {:induction false} StatusesAreSaid(coverage: seq<Event>, segmentId: string, x: SegmentStatus)
    ensures x in StatusesOf(coverage, segmentId) <==> exists e :: e in coverage && Says(e, segmentId, x)
  {
    if coverage != [] {
      StatusesAreSaid(coverage[1..], segmentId, x);
      if e :| e in coverage && Says(e, segmentId, x) { assert e == coverage[0] || e in coverage[1..]; }
      assert Says(coverage[0], segmentId, x) ==> x in StatusesIn(coverage[0].detail.decisions, segmentId);
    }
  }

  /** The status shown for a segment on which the active coverage reviews say `opinions`. */
  function Combined(opinions: seq<SegmentStatus>): SegmentStatus {
    var states := Elements(opinions);
    if Gap in states then Gap
    else if |states| == 0 || Unknown in states || |states| > 1 then Unknown
    else opinions[0]
  }

  function DecisionsOn(coverage: seq<Event>, segments: seq<string>): seq<SegmentDecision> {
    seq(|segments|,
        i requires 0 <= i < |segments| => SegmentDecision(segments[i], Combined(StatusesOf(coverage, segments[i]))))
  }

  predicate FindsFault(e: Event) {
    e.detail.ContentReview? && e.detail.status.NeedsRevision?
  }

  predicate AnyFault(content: seq<Event>) {
    exists e | e in content :: FindsFault(e)
  }

  /** `selectKnowledgeReviews` for a body with these segments; None where it throws. */
  function Select(s: Option<History>, body: BodyRef, projection: Option<string>,
                  segments: seq<string>): Option<Selection> {
    if s.Some? && s.value.knowledgeId != body.knowledgeId then None
    else
      var content := ContentOf(Active(s, body));
      var coverage := CoverageOf(Active(s, body), projection);
      Some(Selection(if AnyFault(content) then NeedsWork else if content != [] then WithLimits else NotReviewed,
                     content, coverage != [], coverage, DecisionsOn(coverage, segments), UsageOf(Active(s, body))))
  }

  /** What the events about one body show as active is what nothing in the whole history supersedes. */
  lemma ActiveIsUnretired(h: History, body: BodyRef, e: Event)
    requires ValidHistory(h)
    ensures e in Active(Some(h), body) <==> e in h.events && e.body == body && !Retired(Nodes(h.events), e.id)
  {
    var matching := OnBody(h.events, body);
    if e in matching {
      HistoryIsForest(h);
      var i :| 0 <= i < |h.events| && h.events[i] == e;
      if k :| Retires(Nodes(h.events), k, e.id) {
        RetiredLater(Nodes(h.events), i, k);
        assert h.events[k] in matching;
      }
      if e.id in SupersededBy(matching) { SupersededIsRetired(h.events, e.id); }
    }
  }

  /** A body once judged in some respect keeps an active judgement in that respect. */
  lemma JudgedStaysJudged(h: History, e: Event) returns (active: Event)
    requires ValidHistory(h) && e in h.events
    ensures active in Active(Some(h), e.body) && SubjectOf(active) == SubjectOf(e)
  {
    HistoryIsForest(h);
    var nodes := Nodes(h.events);
    var k :| 0 <= k < |h.events| && h.events[k] == e;
    assert IsAbout(nodes, k, SubjectOf(e));
    var last := LastIsActive(nodes, SubjectOf(e), k);
    active := h.events[last];
    assert nodes[last] == NodeOf(active);
    ActiveIsUnretired(h, e.body, active);
  }

  lemma ActiveInOrder(s: Option<History>, body: BodyRef, projection: Option<string>, events: seq<Event>)
    requires events == ContentOf(Active(s, body)) || events == CoverageOf(Active(s, body), projection)
             || events == UsageOf(Active(s, body))
    ensures IsSubsequence(events, Events(s))
  {
    var matching := OnBody(Events(s), body);
    BodyInOrder(Events(s), body, {});
    BodyInOrder(matching, body, SupersededBy(matching));
    KindsInOrder(Active(s, body), projection);
    SubsequenceTransitive(Active(s, body), matching, Events(s));
    SubsequenceTransitive(events, Active(s, body), Events(s));
  }

  /** The review is about this body and nothing in the whole history supersedes it. */
  ghost predicate Stands(h: History, body: BodyRef, e: Event) {
    e in h.events && e.body == body && !Retired(Nodes(h.events), e.id)
  }

  /** The lists shown are exactly the standing reviews of each kind, in the order of the history. */
  lemma ShowsWhatStands(h: History, body: BodyRef, projection: Option<string>, segments: seq<string>)
    requires ValidHistory(h) && h.knowledgeId == body.knowledgeId
    ensures Select(Some(h), body, projection, segments).Some?
    ensures var shown := Select(Some(h), body, projection, segments).value;
            && (forall e :: e in shown.content <==> Stands(h, body, e) && e.detail.ContentReview?)
            && (forall e :: e in shown.coverage <==>
                  Stands(h, body, e) && e.detail.AssociationCoverage? && e.detail.projection == projection)
            && (forall e :: e in shown.usage <==> Stands(h, body, e) && e.detail.TaskUse?)
            && IsSubsequence(shown.content, h.events) && IsSubsequence(shown.coverage, h.events)
            && IsSubsequence(shown.usage, h.events)
  {
    forall e { ActiveIsUnretired(h, body, e); }
    ActiveInOrder(Some(h), body, projection, ContentOf(Active(Some(h), body)));
    ActiveInOrder(Some(h), body, projection, CoverageOf(Active(Some(h), body), projection));
    ActiveInOrder(Some(h), body, projection, UsageOf(Active(Some(h), body)));
  }

  /** Without a history nothing is shown, and every segment is unknown; the history of another item is refused. */
  lemma ShowsNothing(s: Option<History>, body: BodyRef, projection: Option<string>, segments: seq<string>)
    requires s.None? || s.value.knowledgeId != body.knowledgeId
    ensures Select(s, body, projection, segments).None? <==> s.Some?
    ensures s.None? ==>
              var shown := Select(s, body, projection, segments).value;
              && shown.contentStatus == NotReviewed && shown.content == [] && !shown.coverageRecorded
              && shown.coverage == [] && shown.usage == [] && |shown.decisions| == |segments|
              && forall i | 0 <= i < |segments| :: shown.decisions[i] == SegmentDecision(segments[i], Unknown)
  {
  }

  /** After an accepted review, it stands, the reviews it supersedes do not, and all others are as before. */
  lemma ReviewStands(s: Option<History>, c: Submission, e: Event)
    requires Stored(s) && Apply(s, c).Some? && WriteLog.FindReceipt(Receipts(s), c.requestId).None?
    ensures var event := Event(c.requestId, c.expectedHead, c.body, c.detail, c.supersedes, c.actor, c.at, c.prose);
            Stands(Apply(s, c).value, e.body, e)
            <==> e == event || (s.Some? && Stands(s.value, e.body, e) && e.id !in c.supersedes)
  {
    var h := Apply(s, c).value;
    assert Nodes(h.events) == Nodes(Events(s)) + [NodeOf(NewEvent(c))];
    RetiredAppend(Nodes(Events(s)), NodeOf(NewEvent(c)), e.id);
    HistoryIsForest(h);
    NewestStands(Nodes(h.events));
  }

  lemma ContentRemains(h: History, body: BodyRef)
    requires ValidHistory(h)
    ensures ContentOf(Active(Some(h), body)) == [] <==> ContentOf(OnBody(h.events, body)) == []
  {
    var all, content := ContentOf(OnBody(h.events, body)), ContentOf(Active(Some(h), body));
    if all != [] {
      assert all[0] in all;
      var active := JudgedStaysJudged(h, all[0]);
      assert active in content;
    }
    assert content != [] ==> content[0] in all;
  }

  /** Content shows as not reviewed exactly when no content review of that body exists. */
  lemma NotReviewedExactly(h: History, body: BodyRef, projection: Option<string>, segments: seq<string>)
    requires ValidHistory(h) && h.knowledgeId == body.knowledgeId
    ensures var shown := Select(Some(h), body, projection, segments).value.contentStatus;
            shown.NotReviewed? <==> ContentOf(OnBody(h.events, body)) == []
  {
    ContentRemains(h, body);
  }

  /** Some content review of this body that nothing supersedes says it needs revision. */
  ghost predicate Faulted(h: History, body: BodyRef) {
    exists e :: Stands(h, body, e) && e.detail.ContentReview? && e.detail.status.NeedsRevision?
  }

  lemma FaultedExactly(h: History, body: BodyRef)
    requires ValidHistory(h)
    ensures AnyFault(ContentOf(Active(Some(h), body))) <==> Faulted(h, body)
  {
    var content := ContentOf(Active(Some(h), body));
    if e :| e in content && FindsFault(e) { ActiveIsUnretired(h, body, e); }
    if e :| Stands(h, body, e) && e.detail.ContentReview? && e.detail.status.NeedsRevision? {
      ActiveIsUnretired(h, body, e);
    }
  }

  /** It shows as needing revision exactly when some content review of it says so and nothing supersedes that review. */
  lemma NeedsWorkExactly(h: History, body: BodyRef, projection: Option<string>, segments: seq<string>)
    requires ValidHistory(h) && h.knowledgeId == body.knowledgeId
    ensures var shown := Select(Some(h), body, projection, segments).value.contentStatus;
            shown.NeedsWork? <==> Faulted(h, body)
  {
    FaultedExactly(h, body);
  }

  lemma CoverageRemains(h: History, body: BodyRef, projection: Option<string>)
    requires ValidHistory(h)
    ensures CoverageOf(Active(Some(h), body), projection) == []
            <==> CoverageOf(OnBody(h.events, body), projection) == []
  {
    var all, coverage := CoverageOf(OnBody(h.events, body), projection), CoverageOf(Active(Some(h), body), projection);
    if all != [] {
      assert all[0] in all;
      var active := JudgedStaysJudged(h, all[0]);
      assert active in coverage;
    }
    assert coverage != [] ==> coverage[0] in all;
  }

  /** Coverage shows as recorded exactly when a coverage review of that body and projection exists. */
  lemma RecordedExactly(h: History, body: BodyRef, projection: Option<string>, segments: seq<string>)
    requires ValidHistory(h) && h.knowledgeId == body.knowledgeId
    ensures var selection := Select(Some(h), body, projection, segments).value;
            selection.coverageRecorded <==> CoverageOf(OnBody(h.events, body), projection) != []
  {
    CoverageRemains(h, body, projection);
  }

  // ----- coverage of one segment -----

  lemma OneState(opinions: seq<SegmentStatus>)
    requires opinions != []
    ensures |Elements(opinions)| == 1 <==> forall x | x in opinions :: x == opinions[0]
    ensures |Elements(opinions)| >= 1
  {
    var states, first := Elements(opinions), opinions[0];
    assert first in states;
    assert states == {first} + (states - {first});
    if |states| == 1 {
      forall x | x in opinions ensures x == first { assert |states - {first}| == 0 && x in states; }
    }
    if forall x | x in opinions :: x == first { assert states == {first}; }
  }

  /** A gap shows if any opinion sees one; linked, or no reliable object, only if all opinions agree on it. */
  lemma CombinedMeans(opinions: seq<SegmentStatus>)
    ensures Combined(opinions).Gap? <==> Gap in opinions
    ensures Combined(opinions).Linked? <==> opinions != [] && forall x | x in opinions :: x == Linked
    ensures Combined(opinions).NoReliableObject?
            <==> opinions != [] && forall x | x in opinions :: x == NoReliableObject
  {
    if opinions != [] {
      OneState(opinions);
      assert opinions[0] in Elements(opinions);
    }
  }

  /** An unsuperseded coverage review of this body and projection says this about the segment. */
  ghost predicate Claimed(h: History, body: BodyRef, projection: Option<string>, segmentId: string,
                          status: SegmentStatus) {
    exists e :: e in h.events && e.body == body && Says(e, segmentId, status) && e.detail.projection == projection
                && !Retired(Nodes(h.events), e.id)
  }

  lemma ClaimedExactly(h: History, body: BodyRef, projection: Option<string>, segmentId: string, status: SegmentStatus)
    requires ValidHistory(h)
    ensures status in StatusesOf(CoverageOf(Active(Some(h), body), projection), segmentId)
            <==> Claimed(h, body, projection, segmentId, status)
  {
    var coverage := CoverageOf(Active(Some(h), body), projection);
    StatusesAreSaid(coverage, segmentId, status);
    if e :| e in coverage && Says(e, segmentId, status) { ActiveIsUnretired(h, body, e); }
    if e :| e in h.events && e.body == body && Says(e, segmentId, status) && e.detail.projection == projection
            && !Retired(Nodes(h.events), e.id) { ActiveIsUnretired(h, body, e); }
  }

  ghost predicate OnlyClaim(h: History, body: BodyRef, projection: Option<string>, segmentId: string,
                            status: SegmentStatus) {
    && Claimed(h, body, projection, segmentId, status)
    && forall x | Claimed(h, body, projection, segmentId, x) :: x == status
  }

  lemma OnlyStatus(statuses: seq<SegmentStatus>, status: SegmentStatus)
    ensures (statuses != [] && forall x | x in statuses :: x == status)
            <==> status in statuses && forall x | x in statuses :: x == status
  {
    if statuses != [] { assert statuses[0] in statuses; }
  }

  /** A segment shows a gap exactly when some unsuperseded coverage review of the body and projection sees one, and as
      linked, or without a reliable object, exactly when there is such a review and all agree on it. */
  lemma SegmentsShow(h: History, body: BodyRef, projection: Option<string>, segments: seq<string>, i: nat)
    requires ValidHistory(h) && h.knowledgeId == body.knowledgeId && i < |segments|
    ensures var s := Select(Some(h), body, projection, segments).value;
            && |s.decisions| == |segments| && s.decisions[i].segmentId == segments[i]
            && (s.decisions[i].status.Gap? <==> Claimed(h, body, projection, segments[i], Gap))
            && (s.decisions[i].status.Linked? <==> OnlyClaim(h, body, projection, segments[i], Linked))
            && (s.decisions[i].status.NoReliableObject?
                <==> OnlyClaim(h, body, projection, segments[i], NoReliableObject))
  {
    var statuses := StatusesOf(CoverageOf(Active(Some(h), body), projection), segments[i]);
    forall x ensures x in statuses <==> Claimed(h, body, projection, segments[i], x) {
      ClaimedExactly(h, body, projection, segments[i], x);
    }
    CombinedMeans(statuses);
    OnlyStatus(statuses, Linked);
    OnlyStatus(statuses, NoReliableObject);
  }

  // ----- the common laws -----

  predicate Fits(h: History, c: Submission) {
    h.knowledgeId == c.body.knowledgeId && h.namespace == c.namespace
  }

  const REVIEWS: WriteLog.Family<History, Submission, Event, ()> := WriteLog.Family(
    (s: Option<History>, c: Submission) => Apply(s, c), (h: History) => Parses(h) && ValidHistory(h),
    (h: History, c: Submission) => Fits(h, c),
    (h: History) => h.receipts, (h: History) => h.events, (h: History) => [], (h: History) => h.generation,
    (c: Submission) => c.requestId, (c: Submission) => c.digest, (c: Submission) => c.expectedGeneration,
    (c: Submission) => c.requestId,
    (c: Submission) => Some(Event(c.requestId, c.expectedHead, c.body, c.detail, c.supersedes, c.actor, c.at, c.prose)),
    (c: Submission) => None)

  lemma ReceiptsAreNumbered(h: History)
    requires ValidHistory(h)
    ensures WriteLog.Numbered(h.receipts)
  {
    IdsAreDistinct(h);
    forall i | 0 <= i < |h.receipts|
      ensures h.receipts[i].generation == i + 1 && h.receipts[i].requestId == h.events[i].id
    {
      assert EntryOk(h, i);
    }
  }

  lemma AppliesLawfully(s: Option<History>, c: Submission)
    requires Stored(s)
    ensures WriteLog.ApplyLaw(REVIEWS, s, c)
  {
  }

  lemma ReviewsAreLawful()
    ensures WriteLog.Lawful(REVIEWS)
  {
    forall s, c | WriteLog.Valid(REVIEWS, s) ensures WriteLog.ApplyLaw(REVIEWS, s, c) { AppliesLawfully(s, c); }
    forall h | REVIEWS.valid(h) ensures WriteLog.ReceiptLaw(REVIEWS, h) { ReceiptsAreNumbered(h); }
    forall h, c | REVIEWS.valid(h) ensures WriteLog.ReplayLaw(REVIEWS, h, c) {}
    forall h, c, d | REVIEWS.valid(h) ensures WriteLog.FitsLaw(REVIEWS, h, c, d) {}
  }
}
