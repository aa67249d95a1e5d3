/** The history of one knowledge item: its revisions and the maintenance choices about them. */
module KnowledgeHistory {
  import opened Options
  import opened Sequences
  import opened Supersession
  import WriteLog

  type Receipt = WriteLog.Receipt

  datatype Actor = Actor(kind: string, id: string, executionRef: string)

  // A timestamp is compared as a text in one place and as an instant in another.
  datatype Time = Time(text: string, instant: int)

  datatype RevisionRef = RevisionRef(knowledgeId: string, revisionId: Id)

  // `draftOk` is the outcome of the checks on title, content and rationale alone.
  datatype Revision = Revision(knowledgeId: string, revisionId: Id, parent: Option<RevisionRef>, createdBy: Actor,
                               createdAt: Time, revisedBy: Actor, revisedAt: Time, draftOk: bool)

  datatype Maintenance = Maintenance(revisionId: Id, retain: bool, actor: Actor)

  datatype History = History(namespace: string, knowledgeId: string, generation: nat, head: Id,
                             revisions: seq<Revision>, maintenance: seq<Maintenance>, receipts: seq<Receipt>)

  datatype Command =
    | AppendRevision(expectedHead: Option<Id>, revision: Revision)
    | RecordMaintenance(choice: Maintenance)

  datatype Submission = Submission(command: Command, requestId: Id, knowledgeId: string, expectedGeneration: nat,
                                   actor: Actor, namespace: string, digest: string)

  const MAX_SAFE_INTEGER := 0x1F_FFFF_FFFF_FFFF

  predicate Parses(h: History) {
    |h.revisions| >= 1 && |h.receipts| >= 1 && h.generation > 0
  }

  // ----- validity -----

  predicate HasRevision(revisions: seq<Revision>, id: Id) {
    exists r | r in revisions :: r.revisionId == id
  }

  /** The revision continues `prior`, the revisions before it, as a new version of the same item by the same creator. */
  predicate Continues(knowledgeId: string, prior: seq<Revision>, revision: Revision) {
    && revision.knowledgeId == knowledgeId && !HasRevision(prior, revision.revisionId)
    && revision.parent == (if prior == [] then None else Some(RevisionRef(knowledgeId, prior[|prior| - 1].revisionId)))
    && revision.revisedAt.instant >= revision.createdAt.instant
    && (if prior == [] then
        revision.createdAt.text == revision.revisedAt.text && revision.createdBy == revision.revisedBy
        else revision.createdBy == prior[0].createdBy && revision.createdAt.text == prior[0].createdAt.text)
    && revision.draftOk
  }

  predicate RevisionOk(h: History, i: nat)
    requires i < |h.revisions|
  {
    Continues(h.knowledgeId, h.revisions[..i], h.revisions[i])
  }

  predicate LineageOk(h: History, n: nat)
    requires n <= |h.revisions|
  {
    forall i | 0 <= i < n :: RevisionOk(h, i)
  }

  function Requests(receipts: seq<Receipt>): seq<Id> {
    seq(|receipts|, i requires 0 <= i < |receipts| => receipts[i].requestId)
  }

  predicate ReceiptsOk(h: History, n: nat)
    requires n <= |h.receipts|
  {
    forall i | 0 <= i < n :: h.receipts[i].generation == i + 1 && HasRevision(h.revisions, h.receipts[i].ref)
  }

  predicate ChoicesOk(h: History) {
    forall m | m in h.maintenance :: HasRevision(h.revisions, m.revisionId)
  }

  predicate ValidHistory(h: History) {
    && h.revisions != [] && h.generation == |h.receipts| && h.head == h.revisions[|h.revisions| - 1].revisionId
    && Distinct(Requests(h.receipts)) && LineageOk(h, |h.revisions|) && ReceiptsOk(h, |h.receipts|)
    && ChoicesOk(h)
  }

  /** The checks of one revision against the ids seen so far. */
  method CheckRevision(h: History, i: nat, seen: set<Id>) returns (ok: bool)
    requires i < |h.revisions| && forall id :: id in seen <==> HasRevision(h.revisions[..i], id)
    ensures ok <==> RevisionOk(h, i)
  {
    var revision := h.revisions[i];
    if revision.knowledgeId != h.knowledgeId || revision.revisionId in seen { return false; }
    if i > 0 {
      if revision.parent.None? || revision.parent.value.knowledgeId != h.knowledgeId
         || revision.parent.value.revisionId != h.revisions[i - 1].revisionId { return false; }
    } else if revision.parent.Some? { return false; }
    if revision.createdBy != h.revisions[0].createdBy || revision.createdAt.text != h.revisions[0].createdAt.text
       || revision.revisedAt.instant < revision.createdAt.instant { return false; }
    if i == 0 && (revision.createdAt.text != revision.revisedAt.text || revision.createdBy != revision.revisedBy) {
      return false;
    }
    return revision.draftOk;
  }

  /** `validateKnowledgeHistory`; true where the TypeScript code returns instead of throwing. */
  method ValidateHistory(h: History) returns (ok: bool)
    requires h.revisions != []
    ensures ok <==> ValidHistory(h)
  {
    DistinctExactly(Requests(h.receipts));
    if h.generation != |h.receipts| || h.head != h.revisions[|h.revisions| - 1].revisionId
       || |Elements(Requests(h.receipts))| != |h.receipts| { return false; }
    var seen: set<Id> := {};
    for i := 0 to |h.revisions|
      invariant LineageOk(h, i) && forall id :: id in seen <==> HasRevision(h.revisions[..i], id)
    {
      var fine := CheckRevision(h, i, seen);
      if !fine { return false; }
      assert h.revisions[..i + 1] == h.revisions[..i] + [h.revisions[i]];
      assert h.revisions[i] in h.revisions[..i + 1];
      seen := seen + {h.revisions[i].revisionId};
    }
    assert h.revisions[..|h.revisions|] == h.revisions;
    for i := 0 to |h.receipts|
      invariant ReceiptsOk(h, i)
    {
      if h.receipts[i].generation != i + 1 || h.receipts[i].ref !in seen { return false; }
    }
    return !(exists m | m in h.maintenance :: m.revisionId !in seen);
  }

  // ----- writing -----

  function Revisions(s: Option<History>): seq<Revision> {
    if s.Some? then s.value.revisions else []
  }

  function Choices(s: Option<History>): seq<Maintenance> {
    if s.Some? then s.value.maintenance else []
  }

  function Receipts(s: Option<History>): seq<Receipt> {
    if s.Some? then s.value.receipts else []
  }

  function Generation(s: Option<History>): nat {
    if s.Some? then s.value.generation else 0
  }

  function Head(s: Option<History>): Option<Id> {
    if s.Some? then Some(s.value.head) else None
  }

  function Author(command: Command): Actor {
    if command.AppendRevision? then command.revision.revisedBy else command.choice.actor
  }

  function SameActor(a: Actor, b: Actor): bool {
    a.kind == b.kind && a.id == b.id
  }

  /** The history after the command, if all checks pass. */
  function Next(s: Option<History>, c: Submission): Option<History> {
    var revisions := Revisions(s) + if c.command.AppendRevision? then [c.command.revision] else [];
    var choices := Choices(s) + if c.command.RecordMaintenance? then [c.command.choice] else [];
    var ref := if c.command.AppendRevision? then c.command.revision.revisionId else c.command.choice.revisionId;
    if revisions == [] then None
    else Some(History(c.namespace, c.knowledgeId, Generation(s) + 1, revisions[|revisions| - 1].revisionId, revisions,
                      choices,
                      Receipts(s) + [WriteLog.Receipt(c.requestId, c.digest, Generation(s) + 1, ref)]))
  }

  /** `applyKnowledgeWrite`; None where it throws. */
  function Apply(s: Option<History>, c: Submission): Option<History> {
    if s.Some? && !ValidHistory(s.value) then None
    else if !SameActor(Author(c.command), c.actor) then None
    else if s.Some? && (s.value.knowledgeId != c.knowledgeId || s.value.namespace != c.namespace) then None
    else
      var receipt := WriteLog.FindReceipt(Receipts(s), c.requestId);
      if receipt.Some? then if receipt.value.digest == c.digest then s else None
      else if c.expectedGeneration != Generation(s) || Generation(s) >= MAX_SAFE_INTEGER then None
      else if c.command.AppendRevision? && c.command.expectedHead != Head(s) then None
      else if Author(c.command) != c.actor then None
      else if c.command.AppendRevision? && s.None? && c.command.revision.createdBy != c.actor then None
      else if c.command.RecordMaintenance? && s.None? then None
      else
        var next := Next(s, c);
        if next.Some? && Parses(next.value) && ValidHistory(next.value) then next else None
  }

  predicate Stored(s: Option<History>) {
    s.Some? ==> Parses(s.value) && ValidHistory(s.value)
  }

  /** What the command itself must satisfy against the history as it stands. */
  predicate Admissible(s: Option<History>, c: Submission) {
    match c.command
    case AppendRevision(expectedHead, revision) =>
      expectedHead == Head(s) && Continues(c.knowledgeId, Revisions(s), revision)
    case RecordMaintenance(choice) => HasRevision(Revisions(s), choice.revisionId)
  }

  lemma {:induction false} FreshRequest(receipts: seq<Receipt>, last: Receipt)
    requires Distinct(Requests(receipts)) && WriteLog.FindReceipt(receipts, last.requestId).None?
    ensures Distinct(Requests(receipts + [last]))
  {
    var all := Requests(receipts + [last]);
    forall a, b | 0 <= a < b < |all| ensures all[a] != all[b] {
      assert receipts[a] in receipts && all[a] == Requests(receipts)[a];
      assert b < |receipts| ==> all[b] == Requests(receipts)[b];
    }
  }

  lemma EarlierStays(s: Option<History>, c: Submission, i: nat)
    requires Stored(s) && (s.Some? ==> s.value.knowledgeId == c.knowledgeId) && i < |Revisions(s)| && Next(s, c).Some?
    ensures RevisionOk(Next(s, c).value, i)
  {
    assert RevisionOk(s.value, i) && Next(s, c).value.revisions[..i] == s.value.revisions[..i];
  }

  lemma KnownStays(revisions: seq<Revision>, more: seq<Revision>, id: Id)
    requires HasRevision(revisions, id)
    ensures HasRevision(revisions + more, id)
  {
  }

  /** Everything the stored part of the next history must satisfy still holds. */
  lemma OldPartStays(s: Option<History>, c: Submission)
    requires Stored(s) && (s.Some? ==> s.value.knowledgeId == c.knowledgeId)
             && WriteLog.FindReceipt(Receipts(s), c.requestId).None?
    requires Next(s, c).Some?
    ensures var next := Next(s, c).value;
            && Distinct(Requests(next.receipts)) && LineageOk(next, |Revisions(s)|) && ReceiptsOk(next, |Receipts(s)|)
            && next.generation == |next.receipts|
            && forall m | m in Choices(s) :: HasRevision(next.revisions, m.revisionId)
  {
    var before, next := Revisions(s), Next(s, c).value;
    FreshRequest(Receipts(s), next.receipts[|Receipts(s)|]);
    forall i: nat | i < |before| ensures RevisionOk(next, i) { EarlierStays(s, c, i); }
    forall id | HasRevision(before, id) ensures HasRevision(next.revisions, id) {
      KnownStays(before, next.revisions[|before|..], id);
    }
    assert next.revisions == before + next.revisions[|before|..];
  }

  lemma RevisionIsReferenced(s: Option<History>, c: Submission)
    requires Stored(s) && (s.Some? ==> s.value.knowledgeId == c.knowledgeId)
             && WriteLog.FindReceipt(Receipts(s), c.requestId).None?
    requires c.command.AppendRevision?
    ensures var next := Next(s, c).value; ReceiptsOk(next, |next.receipts|) && ChoicesOk(next)
  {
  }

  lemma NextEndsWith(s: Option<History>, c: Submission)
    requires c.command.AppendRevision?
    ensures Next(s, c).Some?
    ensures var n, next, revision := |Revisions(s)|, Next(s, c).value, c.command.revision;
            && next.revisions == Revisions(s) + [revision] && next.head == next.revisions[n].revisionId
            && (RevisionOk(next, n) <==> Continues(c.knowledgeId, Revisions(s), revision))
  {
    var n, next := |Revisions(s)|, Next(s, c).value;
    assert next.revisions[..n] == Revisions(s) && next.revisions[n] == c.command.revision;
  }

  lemma LastDecides(h: History, n: nat)
    requires |h.revisions| == n + 1 && LineageOk(h, n) && h.head == h.revisions[n].revisionId
    requires h.generation == |h.receipts| && Distinct(Requests(h.receipts)) && ReceiptsOk(h, |h.receipts|)
    requires ChoicesOk(h)
    ensures ValidHistory(h) <==> RevisionOk(h, n)
  {
  }

  lemma RevisionIsValidExactly(s: Option<History>, c: Submission)
    requires Stored(s) && (s.Some? ==> s.value.knowledgeId == c.knowledgeId)
             && WriteLog.FindReceipt(Receipts(s), c.requestId).None?
    requires c.command.AppendRevision?
    ensures ValidHistory(Next(s, c).value) <==> Continues(c.knowledgeId, Revisions(s), c.command.revision)
  {
    var n, next := |Revisions(s)|, Next(s, c).value;
    NextEndsWith(s, c);
    OldPartStays(s, c);
    RevisionIsReferenced(s, c);
    LastDecides(next, n);
  }

  lemma ChoiceIsValidExactly(s: Option<History>, c: Submission)
    requires Stored(s) && s.Some? && s.value.knowledgeId == c.knowledgeId
             && WriteLog.FindReceipt(Receipts(s), c.requestId).None?
    requires c.command.RecordMaintenance?
    ensures Next(s, c).Some?
            && (ValidHistory(Next(s, c).value) <==> HasRevision(Revisions(s), c.command.choice.revisionId))
  {
    var next := Next(s, c).value;
    OldPartStays(s, c);
    assert next.revisions == Revisions(s) && c.command.choice in next.maintenance;
  }

  /** A new request is accepted exactly when it names the current state, its actor is its author, and its revision
      continues the lineage or its maintenance choice concerns a known revision. */
  lemma AcceptedExactly(s: Option<History>, c: Submission)
    requires Stored(s) && WriteLog.FindReceipt(Receipts(s), c.requestId).None?
    requires s.Some? ==> s.value.knowledgeId == c.knowledgeId && s.value.namespace == c.namespace
    ensures Apply(s, c).Some? <==>
              && c.expectedGeneration == Generation(s) < 9007199254740991
              && c.actor == (match c.command
                             case AppendRevision(_, r) => r.revisedBy
                             case RecordMaintenance(m) => m.actor)
              && Admissible(s, c)
  {
    if c.command.AppendRevision? {
      RevisionIsValidExactly(s, c);
    } else if s.Some? {
      ChoiceIsValidExactly(s, c);
    }
  }

  /** A known request is answered from the history exactly if its digest is the recorded one and it comes, in whatever
      execution, from the actor that is its author. */
  lemma RedeliveredExactly(s: Option<History>, c: Submission)
    requires Stored(s) && WriteLog.FindReceipt(Receipts(s), c.requestId).Some?
    ensures var author := match c.command case AppendRevision(_, r) => r.revisedBy case RecordMaintenance(m) => m.actor;
            var known := WriteLog.FindReceipt(Receipts(s), c.requestId).value.digest == c.digest;
            Apply(s, c) == if known && author.kind == c.actor.kind && author.id == c.actor.id
                              && s.value.knowledgeId == c.knowledgeId && s.value.namespace == c.namespace
                           then s else None
  {
  }

  lemma AppliedIsNext(s: Option<History>, c: Submission)
    requires Apply(s, c).Some? && WriteLog.FindReceipt(Receipts(s), c.requestId).None?
    ensures Apply(s, c) == Next(s, c)
  {
  }

  /** The history is as before but for the submitted revision or choice, and its receipt. */
  predicate Adds(s: Option<History>, c: Submission, h: History) {
    var n := |Receipts(s)|;
    && h.namespace == c.namespace && h.knowledgeId == c.knowledgeId && h.generation == n + 1
    && |h.receipts| == n + 1 && h.receipts[..n] == Receipts(s)
    && h.receipts[n].requestId == c.requestId && h.receipts[n].digest == c.digest && h.receipts[n].generation == n + 1
    && match c.command
       case AppendRevision(_, revision) =>
         && h.revisions == Revisions(s) + [revision] && h.maintenance == Choices(s)
         && h.head == revision.revisionId && h.receipts[n].ref == revision.revisionId
       case RecordMaintenance(choice) =>
         && h.revisions == Revisions(s) && h.maintenance == Choices(s) + [choice]
         && Head(s) == Some(h.head) && h.receipts[n].ref == choice.revisionId
  }

  lemma NextAdds(s: Option<History>, c: Submission, h: History)
    requires Next(s, c) == Some(h) && Generation(s) == |Receipts(s)|
    requires s.Some? && Revisions(s) != [] ==> s.value.head == Revisions(s)[|Revisions(s)| - 1].revisionId
    requires c.command.RecordMaintenance? ==> s.Some? && Revisions(s) != []
    ensures Adds(s, c, h)
  {
  }

  /** What an accepted new write stores is what was submitted. */
  lemma AcceptedIsStored(s: Option<History>, c: Submission)
    requires Stored(s) && Apply(s, c).Some? && WriteLog.FindReceipt(Receipts(s), c.requestId).None?
    ensures Adds(s, c, Apply(s, c).value)
  {
    AppliedIsNext(s, c);
    NextAdds(s, c, Apply(s, c).value);
  }

  /** All revisions of an item form one chain from the first, with one creator and one creation time. */
  lemma OneLineage(h: History, i: nat)
    requires ValidHistory(h) && i < |h.revisions|
    ensures h.revisions[i].createdBy == h.revisions[0].revisedBy
            && h.revisions[i].createdAt.text == h.revisions[0].revisedAt.text
    ensures i > 0 ==> h.revisions[i].parent == Some(RevisionRef(h.knowledgeId, h.revisions[i - 1].revisionId))
    ensures forall j | 0 <= j < |h.revisions| && j != i :: h.revisions[j].revisionId != h.revisions[i].revisionId
  {
    assert RevisionOk(h, 0);
    assert RevisionOk(h, i);
    forall j | 0 <= j < |h.revisions| && j != i ensures h.revisions[j].revisionId != h.revisions[i].revisionId {
      var low, high := if j < i then j else i, if j < i then i else j;
      assert RevisionOk(h, high) && h.revisions[..high][low] in h.revisions[..high];
    }
  }

  // ----- the common laws -----

  predicate Fits(h: History, c: Submission) {
    SameActor(Author(c.command), c.actor) && h.knowledgeId == c.knowledgeId && h.namespace == c.namespace
  }

  const ITEMS: WriteLog.Family<History, Submission, Revision, Maintenance> := WriteLog.Family(
    (s: Option<History>, c: Submission) => Apply(s, c), (h: History) => Parses(h) && ValidHistory(h),
    (h: History, c: Submission) => Fits(h, c),
    (h: History) => h.receipts, (h: History) => h.revisions, (h: History) => h.maintenance,
    (h: History) => h.generation,
    (c: Submission) => c.requestId, (c: Submission) => c.digest, (c: Submission) => c.expectedGeneration,
    (c: Submission) =>
      match c.command
      case AppendRevision(_, r) => r.revisionId
      case RecordMaintenance(m) => m.revisionId,
    (c: Submission) => match c.command case AppendRevision(_, r) => Some(r) case RecordMaintenance(_) => None,
    (c: Submission) => match c.command case AppendRevision(_, _) => None case RecordMaintenance(m) => Some(m))

  lemma ReceiptsAreNumbered(h: History)
    requires ValidHistory(h)
    ensures WriteLog.Numbered(h.receipts)
  {
    forall i, j | 0 <= i < j < |h.receipts| ensures h.receipts[i].requestId != h.receipts[j].requestId {
      assert Requests(h.receipts)[i] != Requests(h.receipts)[j];
    }
  }

  lemma AppliesLawfully(s: Option<History>, c: Submission)
    requires Stored(s)
    ensures WriteLog.ApplyLaw(ITEMS, s, c)
  {
    if Apply(s, c).Some? && WriteLog.FindReceipt(Receipts(s), c.requestId).None? { AcceptedIsStored(s, c); }
  }

  lemma ItemsAreLawful()
    ensures WriteLog.Lawful(ITEMS)
  {
    forall s, c | WriteLog.Valid(ITEMS, s) ensures WriteLog.ApplyLaw(ITEMS, s, c) { AppliesLawfully(s, c); }
    forall h | ITEMS.valid(h) ensures WriteLog.ReceiptLaw(ITEMS, h) { ReceiptsAreNumbered(h); }
    forall h, c | ITEMS.valid(h) ensures WriteLog.ReplayLaw(ITEMS, h, c) {}
    forall h, c, d | ITEMS.valid(h) ensures WriteLog.FitsLaw(ITEMS, h, c, d) {}
  }
}
