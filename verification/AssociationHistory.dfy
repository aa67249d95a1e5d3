/** The history of the entity associations derived from one knowledge item, and their reviews. */
module AssociationHistory {
  import opened Options
  import opened Supersession
  import WriteLog

  type Receipt = WriteLog.Receipt

  datatype BodyRef = BodyRef(knowledgeId: string, revisionId: string, bodyDigest: string)

  datatype Revision = Revision(revisionId: Id, parent: Option<Id>, body: BodyRef, available: bool, revisedBy: string,
                               prose: string)

  datatype Review = Review(target: Id, accept: bool, actor: string)

  datatype History = History(namespace: string, knowledgeId: string, generation: nat, head: Id,
                             revisions: seq<Revision>, reviews: seq<Review>, receipts: seq<Receipt>)

  datatype Command =
    | AppendRevision(expectedHead: Option<Id>, revision: Revision)
    | RecordReview(review: Review)

  datatype Submission = Submission(command: Command, requestId: Id, knowledgeId: string, expectedGeneration: nat,
                                   actor: string, namespace: string, digest: string)

  const MAX_SAFE_INTEGER := 0x1F_FFFF_FFFF_FFFF

  predicate Parses(h: History) {
    |h.revisions| >= 1 && |h.receipts| >= 1 && h.generation > 0
  }

  // ----- validity -----

  function FindRevision(revisions: seq<Revision>, id: Id): (found: Option<Revision>)
    ensures found.Some? ==> found.value in revisions && found.value.revisionId == id
    ensures found.None? ==> forall r | r in revisions :: r.revisionId != id
  {
    if revisions == [] then None else if revisions[0].revisionId == id then Some(revisions[0])
    else FindRevision(revisions[1..], id)
  }

  function LastId(revisions: seq<Revision>): Option<Id> {
    if revisions == [] then None else Some(revisions[|revisions| - 1].revisionId)
  }

  predicate Continues(knowledgeId: string, prior: seq<Revision>, revision: Revision) {
    revision.body.knowledgeId == knowledgeId && FindRevision(prior, revision.revisionId).None?
    && revision.parent == LastId(prior)
  }

  predicate RevisionOk(h: History, i: nat)
    requires i < |h.revisions|
  {
    Continues(h.knowledgeId, h.revisions[..i], h.revisions[i])
  }

  predicate LineageOk(h: History, n: nat)
    requires n <= |h.revisions|
  {
    forall i | 0 <= i < n :: RevisionOk(h, i)
  }

  predicate FreshRequest(receipts: seq<Receipt>, i: nat)
    requires i < |receipts|
  {
    forall j | 0 <= j < i :: receipts[j].requestId != receipts[i].requestId
  }

  predicate ReceiptOk(revisions: seq<Revision>, receipts: seq<Receipt>, i: nat)
    requires i < |receipts|
  {
    FreshRequest(receipts, i) && receipts[i].generation == i + 1 && FindRevision(revisions, receipts[i].ref).Some?
  }

  predicate ReceiptsOk(revisions: seq<Revision>, receipts: seq<Receipt>, n: nat)
    requires n <= |receipts|
  {
    forall i | 0 <= i < n :: ReceiptOk(revisions, receipts, i)
  }

  predicate ReviewOk(revisions: seq<Revision>, review: Review) {
    var target := FindRevision(revisions, review.target);
    target.Some? && (review.accept ==> target.value.available)
  }

  predicate ReviewsOk(revisions: seq<Revision>, reviews: seq<Review>) {
    forall r | r in reviews :: ReviewOk(revisions, r)
  }

  predicate ValidHistory(h: History) {
    && h.generation == |h.revisions| + |h.reviews| == |h.receipts| && LastId(h.revisions) == Some(h.head)
    && LineageOk(h, |h.revisions|) && ReceiptsOk(h.revisions, h.receipts, |h.receipts|)
    && ReviewsOk(h.revisions, h.reviews)
  }

  method CheckLineage(h: History) returns (ok: bool, ids: set<Id>)
    ensures ok <==> LineageOk(h, |h.revisions|)
    ensures ok ==> forall id :: id in ids <==> FindRevision(h.revisions, id).Some?
  {
    ids := {};
    for i := 0 to |h.revisions|
      invariant LineageOk(h, i)
      invariant forall id :: id in ids <==> FindRevision(h.revisions[..i], id).Some?
    {
      var revision := h.revisions[i];
      assert RevisionOk(h, i) <==> Continues(h.knowledgeId, h.revisions[..i], revision);
      if revision.body.knowledgeId != h.knowledgeId || revision.revisionId in ids
         || revision.parent != (if i > 0 then Some(h.revisions[i - 1].revisionId) else None) { return false, ids; }
      ids := ids + {revision.revisionId};
      assert h.revisions[..i + 1] == h.revisions[..i] + [revision];
      FindInLonger(h.revisions[..i], [revision]);
    }
    assert h.revisions[..|h.revisions|] == h.revisions;
    ok := true;
  }

  method CheckReceipts(revisions: seq<Revision>, receipts: seq<Receipt>, ids: set<Id>) returns (ok: bool)
    requires forall id :: id in ids <==> FindRevision(revisions, id).Some?
    ensures ok <==> ReceiptsOk(revisions, receipts, |receipts|)
  {
    var requests: set<Id> := {};
    for i := 0 to |receipts|
      invariant ReceiptsOk(revisions, receipts, i)
      invariant forall id :: id in requests <==> exists j :: 0 <= j < i && receipts[j].requestId == id
    {
      assert receipts[i].requestId in requests <==> !FreshRequest(receipts, i);
      if receipts[i].requestId in requests || receipts[i].generation != i + 1 || receipts[i].ref !in ids {
        assert !ReceiptOk(revisions, receipts, i);
        return false;
      }
      requests := requests + {receipts[i].requestId};
    }
    ok := true;
  }

  /** `validateKnowledgeAssociationHistory`; true where the TypeScript code returns instead of throwing. */
  method ValidateHistory(h: History) returns (ok: bool)
    requires h.revisions != []
    ensures ok <==> ValidHistory(h)
  {
    if h.generation != |h.revisions| + |h.reviews| || h.generation != |h.receipts|
        || h.head != h.revisions[|h.revisions| - 1].revisionId {
      return false;
    }
    var lineage, ids := CheckLineage(h);
    if !lineage { return false; }
    var referenced := CheckReceipts(h.revisions, h.receipts, ids);
    if !referenced { return false; }
    for i := 0 to |h.reviews|
      invariant ReviewsOk(h.revisions, h.reviews[..i])
    {
      var target := FindRevision(h.revisions, h.reviews[i].target);
      if target.None? || (h.reviews[i].accept && !target.value.available) {
        assert !ReviewOk(h.revisions, h.reviews[i]);
        return false;
      }
    }
    assert h.reviews[..|h.reviews|] == h.reviews;
    return true;
  }

  lemma {:induction false} FindAppends(revisions: seq<Revision>, more: seq<Revision>, id: Id)
    ensures FindRevision(revisions + more, id)
         == if FindRevision(revisions, id).Some? then FindRevision(revisions, id) else FindRevision(more, id)
  {
    if revisions == [] {
      assert revisions + more == more;
    } else {
      assert (revisions + more)[1..] == revisions[1..] + more;
      FindAppends(revisions[1..], more, id);
    }
  }

  lemma FindInLonger(revisions: seq<Revision>, more: seq<Revision>)
    ensures forall id :: FindRevision(revisions + more, id)
                      == if FindRevision(revisions, id).Some? then FindRevision(revisions, id)
                         else FindRevision(more, id)
  {
    forall id ensures FindRevision(revisions + more, id)
                   == if FindRevision(revisions, id).Some? then FindRevision(revisions, id)
                      else FindRevision(more, id)
    {
      FindAppends(revisions, more, id);
    }
  }

  // ----- selection -----

  /** Entry i is about this body and nothing after it is. */
  predicate IsLastOn(revisions: seq<Revision>, i: int, body: BodyRef) {
    0 <= i < |revisions| && revisions[i].body == body && forall j | i < j < |revisions| :: revisions[j].body != body
  }

  predicate IsLastReview(reviews: seq<Review>, i: int, id: Id) {
    0 <= i < |reviews| && reviews[i].target == id && forall j | i < j < |reviews| :: reviews[j].target != id
  }

  function LastOn(revisions: seq<Revision>, body: BodyRef): (found: Option<Revision>)
    ensures found.Some? ==> exists i :: IsLastOn(revisions, i, body) && revisions[i] == found.value
    ensures found.None? <==> forall r | r in revisions :: r.body != body
  {
    if revisions == [] then None
    else
      var last := revisions[|revisions| - 1];
      assert last.body == body ==> IsLastOn(revisions, |revisions| - 1, body);
      assert forall i ::
            IsLastOn(revisions[..|revisions| - 1], i, body) && last.body != body ==> IsLastOn(revisions, i, body);
      if last.body == body then Some(last) else LastOn(revisions[..|revisions| - 1], body)
  }

  function LastReview(reviews: seq<Review>, id: Id): (found: Option<Review>)
    ensures found.Some? ==> exists i :: IsLastReview(reviews, i, id) && reviews[i] == found.value
    ensures found.None? <==> forall r | r in reviews :: r.target != id
  {
    if reviews == [] then None
    else
      var last := reviews[|reviews| - 1];
      assert last.target == id ==> IsLastReview(reviews, |reviews| - 1, id);
      assert forall i ::
            IsLastReview(reviews[..|reviews| - 1], i, id) && last.target != id ==> IsLastReview(reviews, i, id);
      if last.target == id then Some(last) else LastReview(reviews[..|reviews| - 1], id)
  }

  datatype Status = IsAbsent | IsStale | IsFailed | IsAvailable
  datatype ReviewStatus = IsPending | IsAccepted | IsRejected

  datatype Selection = Selection(status: Status, review: ReviewStatus, revision: Option<Revision>)

  /** `selectKnowledgeAssociation`; None where it throws. */
  function Select(s: Option<History>, body: BodyRef): Option<Selection> {
    if s.None? then Some(Selection(IsAbsent, IsPending, None))
    else if !ValidHistory(s.value) || s.value.knowledgeId != body.knowledgeId then None
    else
      var revision := LastOn(s.value.revisions, body);
      if revision.None? then Some(Selection(IsStale, IsPending, Some(s.value.revisions[|s.value.revisions| - 1])))
      else
        var review := LastReview(s.value.reviews, revision.value.revisionId);
        Some(Selection(if revision.value.available then IsAvailable else IsFailed,
                       if review.None? then IsPending else if review.value.accept then IsAccepted else IsRejected,
                       revision))
  }

  lemma IdsDiffer(h: History, i: nat, j: nat)
    requires ValidHistory(h) && i < j < |h.revisions|
    ensures h.revisions[i].revisionId != h.revisions[j].revisionId
  {
    assert RevisionOk(h, j) && h.revisions[..j][i] in h.revisions[..j];
  }

  lemma FindsItself(h: History, r: Revision)
    requires ValidHistory(h) && r in h.revisions
    ensures FindRevision(h.revisions, r.revisionId) == Some(r)
  {
    var found := FindRevision(h.revisions, r.revisionId);
    var i :| 0 <= i < |h.revisions| && h.revisions[i] == r;
    var j :| 0 <= j < |h.revisions| && h.revisions[j] == found.value;
    if i < j { IdsDiffer(h, i, j); }
    if j < i { IdsDiffer(h, j, i); }
  }

  /** Associations are shown as stale exactly when the history knows nothing of the body; otherwise the last revision
      about that body is shown with its last review, and as accepted only when it was derived successfully. */
  lemma SelectionMeans(h: History, body: BodyRef)
    requires ValidHistory(h) && h.knowledgeId == body.knowledgeId
    ensures var s := Select(Some(h), body).value;
            && (s.status.IsStale? <==> forall r | r in h.revisions :: r.body != body)
            && (!s.status.IsStale? ==> exists i :: IsLastOn(h.revisions, i, body) && Some(h.revisions[i]) == s.revision)
            && (s.review.IsPending?
                <==> s.status.IsStale? || forall r | r in h.reviews :: r.target != s.revision.value.revisionId)
            && (!s.review.IsPending? ==>
                  exists i ::
                    IsLastReview(h.reviews, i, s.revision.value.revisionId)
                    && (h.reviews[i].accept <==> s.review.IsAccepted?))
            && (s.review.IsAccepted? ==> s.status.IsAvailable?)
            && (s.status.IsStale? ==> s.revision == Some(h.revisions[|h.revisions| - 1]))
            && (!s.status.IsStale? ==>
                  && (s.status.IsAvailable? <==> s.revision.value.available)
                  && (s.status.IsFailed? <==> !s.revision.value.available))
  {
    var revision := LastOn(h.revisions, body);
    if revision.Some? {
      FindsItself(h, revision.value);
      var review := LastReview(h.reviews, revision.value.revisionId);
      if review.Some? { assert ReviewOk(h.revisions, review.value); }
    }
  }

  /** Without a history associations are absent; an invalid history or that of another item is refused. */
  lemma SelectsNothing(s: Option<History>, body: BodyRef)
    ensures s.None? ==> Select(s, body) == Some(Selection(IsAbsent, IsPending, None))
    ensures Select(s, body).None? <==> s.Some? && (!ValidHistory(s.value) || s.value.knowledgeId != body.knowledgeId)
  {
  }

  // ----- writing -----

  function Revisions(s: Option<History>): seq<Revision> {
    if s.Some? then s.value.revisions else []
  }

  function Reviews(s: Option<History>): seq<Review> {
    if s.Some? then s.value.reviews else []
  }

  function Receipts(s: Option<History>): seq<Receipt> {
    if s.Some? then s.value.receipts else []
  }

  function Generation(s: Option<History>): nat {
    if s.Some? then s.value.generation else 0
  }

  function Head(s: Option<History>): Option<Id> {
    if s.Some? then Some(s.value.head) else None
  }

  function Author(command: Command): string {
    if command.AppendRevision? then command.revision.revisedBy else command.review.actor
  }

  function Next(s: Option<History>, c: Submission): Option<History> {
    var revisions := Revisions(s) + if c.command.AppendRevision? then [c.command.revision] else [];
    var reviews := Reviews(s) + if c.command.RecordReview? then [c.command.review] else [];
    var ref := if c.command.AppendRevision? then c.command.revision.revisionId else c.command.review.target;
    if revisions == [] then None
    else Some(History(c.namespace, c.knowledgeId, c.expectedGeneration + 1, revisions[|revisions| - 1].revisionId,
                      revisions, reviews,
                      Receipts(s) + [WriteLog.Receipt(c.requestId, c.digest, c.expectedGeneration + 1, ref)]))
  }

  /** `applyKnowledgeAssociationWrite`; None where it throws. */
  function Apply(s: Option<History>, c: Submission): Option<History> {
    if Author(c.command) != c.actor then None
    else if s.Some? && (!ValidHistory(s.value) || s.value.namespace != c.namespace
                        || s.value.knowledgeId != c.knowledgeId) then None
    else
      var receipt := WriteLog.FindReceipt(Receipts(s), c.requestId);
      if receipt.Some? then if receipt.value.digest == c.digest then s else None
      else if c.expectedGeneration >= MAX_SAFE_INTEGER || Generation(s) != c.expectedGeneration then None
      else if c.command.AppendRevision?
          && (Head(s) != c.command.expectedHead || c.command.revision.parent != c.command.expectedHead) then None
      else if c.command.RecordReview? && s.None? then None
      else
        var next := Next(s, c);
        if next.Some? && Parses(next.value) && ValidHistory(next.value) then next else None
  }

  predicate Stored(s: Option<History>) {
    s.Some? ==> Parses(s.value) && ValidHistory(s.value)
  }

  predicate Admissible(s: Option<History>, c: Submission) {
    match c.command
    case AppendRevision(expectedHead, revision) =>
      expectedHead == Head(s) && Continues(c.knowledgeId, Revisions(s), revision)
    case RecordReview(review) => ReviewOk(Revisions(s), review)
  }

  lemma LineageStays(s: Option<History>, c: Submission)
    requires Stored(s) && (s.Some? ==> s.value.knowledgeId == c.knowledgeId) && Next(s, c).Some?
    ensures LineageOk(Next(s, c).value, |Revisions(s)|)
  {
    var before, next := Revisions(s), Next(s, c).value;
    forall i: nat | i < |before| ensures RevisionOk(next, i) {
      assert RevisionOk(s.value, i) && next.revisions[..i] == before[..i];
    }
  }

  lemma ReceiptsStay(revisions: seq<Revision>, more: seq<Revision>, receipts: seq<Receipt>, last: Receipt)
    requires ReceiptsOk(revisions, receipts, |receipts|) && WriteLog.FindReceipt(receipts, last.requestId).None?
    ensures ReceiptsOk(revisions + more, receipts + [last], |receipts|) && FreshRequest(receipts + [last], |receipts|)
  {
    var all := receipts + [last];
    forall i: nat | i < |receipts| ensures ReceiptOk(revisions + more, all, i) {
      assert ReceiptOk(revisions, receipts, i) && FreshRequest(receipts, i);
      FindAppends(revisions, more, receipts[i].ref);
    }
    forall j: nat | j < |receipts| ensures all[j].requestId != last.requestId { assert receipts[j] in receipts; }
  }

  lemma ReviewsStay(revisions: seq<Revision>, more: seq<Revision>, reviews: seq<Review>)
    requires ReviewsOk(revisions, reviews)
    ensures ReviewsOk(revisions + more, reviews)
  {
    forall r | r in reviews ensures ReviewOk(revisions + more, r) {
      assert ReviewOk(revisions, r);
      FindAppends(revisions, more, r.target);
    }
  }

  lemma RevisionIsReferenced(s: Option<History>, c: Submission)
    requires Stored(s) && WriteLog.FindReceipt(Receipts(s), c.requestId).None?
    requires c.command.AppendRevision? && c.expectedGeneration == Generation(s)
    ensures var next := Next(s, c).value;
            ReceiptsOk(next.revisions, next.receipts, |next.receipts|) && ReviewsOk(next.revisions, next.reviews)
    ensures var next := Next(s, c).value; next.generation == |next.revisions| + |next.reviews| == |next.receipts|
  {
    var next := Next(s, c).value;
    ReceiptsStay(Revisions(s), [c.command.revision], Receipts(s), next.receipts[|Receipts(s)|]);
    ReviewsStay(Revisions(s), [c.command.revision], Reviews(s));
    assert next.reviews == Reviews(s);
    assert c.command.revision in next.revisions;
    assert ReceiptOk(next.revisions, next.receipts, |Receipts(s)|);
  }

  lemma RevisionIsValidExactly(s: Option<History>, c: Submission)
    requires Stored(s) && (s.Some? ==> s.value.knowledgeId == c.knowledgeId)
             && WriteLog.FindReceipt(Receipts(s), c.requestId).None?
    requires c.command.AppendRevision? && c.expectedGeneration == Generation(s)
    ensures ValidHistory(Next(s, c).value) <==> Continues(c.knowledgeId, Revisions(s), c.command.revision)
  {
    var n, next := |Revisions(s)|, Next(s, c).value;
    LineageStays(s, c);
    RevisionIsReferenced(s, c);
    assert RevisionOk(next, n) <==> Continues(c.knowledgeId, Revisions(s), c.command.revision) by {
      assert next.revisions[..n] == Revisions(s) && next.revisions[n] == c.command.revision;
    }
    assert LineageOk(next, n + 1) <==> RevisionOk(next, n);
  }

  lemma ReviewIsValidExactly(s: Option<History>, c: Submission)
    requires Stored(s) && s.Some? && s.value.knowledgeId == c.knowledgeId
             && WriteLog.FindReceipt(Receipts(s), c.requestId).None?
    requires c.command.RecordReview? && c.expectedGeneration == Generation(s)
    ensures Next(s, c).Some? && (ValidHistory(Next(s, c).value) <==> ReviewOk(Revisions(s), c.command.review))
  {
    var next := Next(s, c).value;
    LineageStays(s, c);
    ReceiptsStay(Revisions(s), [], Receipts(s), next.receipts[|Receipts(s)|]);
    assert next.revisions == Revisions(s) == Revisions(s) + [];
    assert c.command.review in next.reviews;
    assert ReceiptOk(next.revisions, next.receipts, |Receipts(s)|)
        <==> FindRevision(Revisions(s), c.command.review.target).Some?;
    assert ReviewsOk(next.revisions, next.reviews) <==> ReviewOk(Revisions(s), c.command.review);
  }

  /** A new request is accepted exactly when its actor is its author, it names the current state, and its revision
      continues the lineage or its review concerns a known revision, accepting only what is available. */
  lemma AcceptedExactly(s: Option<History>, c: Submission)
    requires Stored(s) && WriteLog.FindReceipt(Receipts(s), c.requestId).None?
    requires s.Some? ==> s.value.knowledgeId == c.knowledgeId && s.value.namespace == c.namespace
    ensures Apply(s, c).Some? <==>
              && c.expectedGeneration == Generation(s) < 9007199254740991
              && c.actor == (match c.command case AppendRevision(_, r) => r.revisedBy case RecordReview(r) => r.actor)
              && Admissible(s, c)
  {
    if c.expectedGeneration == Generation(s) {
      if c.command.AppendRevision? {
        RevisionIsValidExactly(s, c);
      } else if s.Some? {
        ReviewIsValidExactly(s, c);
      }
    }
  }

  /** What an accepted new write stores is what was submitted. */
  lemma AcceptedIsStored(s: Option<History>, c: Submission)
    requires Stored(s) && Apply(s, c).Some? && WriteLog.FindReceipt(Receipts(s), c.requestId).None?
    ensures var h := Apply(s, c).value; var n := |Receipts(s)|;
            && h.namespace == c.namespace && h.knowledgeId == c.knowledgeId && h.generation == n + 1
            && |h.receipts| == n + 1 && h.receipts[..n] == Receipts(s)
            && h.receipts[n].requestId == c.requestId && h.receipts[n].digest == c.digest
            && h.receipts[n].generation == n + 1
            && match c.command
               case AppendRevision(_, revision) =>
                 && h.revisions == Revisions(s) + [revision] && h.reviews == Reviews(s)
                 && h.head == revision.revisionId && h.receipts[n].ref == revision.revisionId
               case RecordReview(review) =>
                 && h.revisions == Revisions(s) && h.reviews == Reviews(s) + [review]
                 && Head(s) == Some(h.head) && h.receipts[n].ref == review.target
  {
  }

  /** A new revision is what is shown for its body from then on, and nobody has reviewed it. */
  lemma RevisionIsShown(s: Option<History>, c: Submission)
    requires Stored(s) && Apply(s, c).Some? && WriteLog.FindReceipt(Receipts(s), c.requestId).None?
    requires c.command.AppendRevision?
    ensures c.command.revision.body.knowledgeId == c.knowledgeId
    ensures var revision := c.command.revision;
            Select(Apply(s, c), revision.body)
            == Some(Selection(if revision.available then IsAvailable else IsFailed, IsPending, Some(revision)))
  {
    var h, revision := Apply(s, c).value, c.command.revision;
    assert RevisionOk(h, |Revisions(s)|) && h.revisions[..|Revisions(s)|] == Revisions(s);
    assert h.revisions[|h.revisions| - 1] == revision;
    forall r | r in Reviews(s) ensures r.target != revision.revisionId {
      assert ReviewOk(Revisions(s), r) && FindRevision(Revisions(s), r.target).Some?;
    }
  }

  /** A new review is what is shown for the revision it is about, if that is the one shown for its body. */
  lemma ReviewIsShown(s: Option<History>, c: Submission, body: BodyRef)
    requires Stored(s) && Apply(s, c).Some? && WriteLog.FindReceipt(Receipts(s), c.requestId).None?
    requires c.command.RecordReview? && body.knowledgeId == c.knowledgeId
    requires LastOn(Revisions(s), body).Some? && LastOn(Revisions(s), body).value.revisionId == c.command.review.target
    ensures Select(Apply(s, c), body).Some?
    ensures Select(Apply(s, c), body).value.review == if c.command.review.accept then IsAccepted else IsRejected
  {
    AcceptedIsStored(s, c);
    LastReviewIsShown(Apply(s, c).value, c.command.review, body);
  }

  lemma LastReviewIsShown(h: History, review: Review, body: BodyRef)
    requires ValidHistory(h) && h.knowledgeId == body.knowledgeId
    requires h.reviews != [] && h.reviews[|h.reviews| - 1] == review
    requires LastOn(h.revisions, body).Some? && LastOn(h.revisions, body).value.revisionId == review.target
    ensures Select(Some(h), body).Some?
    ensures Select(Some(h), body).value.review == if review.accept then IsAccepted else IsRejected
  {
  }

  // ----- the common laws -----

  predicate Fits(h: History, c: Submission) {
    Author(c.command) == c.actor && h.knowledgeId == c.knowledgeId && h.namespace == c.namespace
  }

  const ASSOCIATIONS: WriteLog.Family<History, Submission, Revision, Review> := WriteLog.Family(
    (s: Option<History>, c: Submission) => Apply(s, c), (h: History) => Parses(h) && ValidHistory(h),
    (h: History, c: Submission) => Fits(h, c),
    (h: History) => h.receipts, (h: History) => h.revisions, (h: History) => h.reviews, (h: History) => h.generation,
    (c: Submission) => c.requestId, (c: Submission) => c.digest, (c: Submission) => c.expectedGeneration,
    (c: Submission) => match c.command case AppendRevision(_, r) => r.revisionId case RecordReview(r) => r.target,
    (c: Submission) => match c.command case AppendRevision(_, r) => Some(r) case RecordReview(_) => None,
    (c: Submission) => match c.command case AppendRevision(_, _) => None case RecordReview(r) => Some(r))

  lemma ReceiptsAreNumbered(h: History)
    requires ValidHistory(h)
    ensures WriteLog.Numbered(h.receipts)
  {
    forall i, j | 0 <= i < j < |h.receipts| ensures h.receipts[i].requestId != h.receipts[j].requestId {
      assert ReceiptOk(h.revisions, h.receipts, j) && FreshRequest(h.receipts, j);
    }
    forall i | 0 <= i < |h.receipts| ensures h.receipts[i].generation == i + 1 {
      assert ReceiptOk(h.revisions, h.receipts, i);
    }
  }

  lemma AssociationsAreLawful()
    ensures WriteLog.Lawful(ASSOCIATIONS)
  {
    forall s, c | WriteLog.Valid(ASSOCIATIONS, s) ensures WriteLog.ApplyLaw(ASSOCIATIONS, s, c) {}
    forall h | ASSOCIATIONS.valid(h) ensures WriteLog.ReceiptLaw(ASSOCIATIONS, h) { ReceiptsAreNumbered(h); }
    forall h, c | ASSOCIATIONS.valid(h) ensures WriteLog.ReplayLaw(ASSOCIATIONS, h, c) {}
    forall h, c, d | ASSOCIATIONS.valid(h) ensures WriteLog.FitsLaw(ASSOCIATIONS, h, c, d) {}
  }
}
