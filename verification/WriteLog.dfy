/**
 What the five knowledge histories have in common: a command names its request, the digest of its content and the
 generation it expects; a history remembers a receipt per accepted request.  The laws are stated once here, over runs of
 arbitrary submissions, and each history shows that it obeys them.
 */
module WriteLog {
  import opened Options

  datatype Receipt = Receipt(requestId: string, digest: string, generation: nat, ref: string)

  // E: a stored history, C: a submission (command, actor and host data), X and Y: its two kinds of entries.
  // `apply` gives None where the TypeScript code throws and leaves the store as it is.  `entry` and `extra` say what a
  // submission stands for: the one entry that its acceptance must add, of the one kind or the other.
  datatype Family<!E(!new), !C(!new), X, Y> = Family(
    apply: (Option<E>, C) -> Option<E>, valid: E -> bool, fits: (E, C) -> bool,
    receipts: E -> seq<Receipt>, entries: E -> seq<X>, extras: E -> seq<Y>, generation: E -> nat,
    request: C -> string, digest: C -> string, expected: C -> nat, ref: C -> string,
    entry: C -> Option<X>, extra: C -> Option<Y>)

  function Listed<T>(item: Option<T>): seq<T> {
    if item.Some? then [item.value] else []
  }

  function FindReceipt(receipts: seq<Receipt>, requestId: string): (found: Option<Receipt>)
    ensures found.Some? ==> found.value in receipts && found.value.requestId == requestId
    ensures found.None? ==> forall r | r in receipts :: r.requestId != requestId
  {
    if receipts == [] then None
    else if receipts[0].requestId == requestId then Some(receipts[0])
    else FindReceipt(receipts[1..], requestId)
  }

  predicate Numbered(receipts: seq<Receipt>) {
    && (forall i | 0 <= i < |receipts| :: receipts[i].generation == i + 1)
    && forall i, j | 0 <= i < j < |receipts| :: receipts[i].requestId != receipts[j].requestId
  }

  function Receipts<E(!new), C(!new), X, Y>(f: Family<E, C, X, Y>, s: Option<E>): seq<Receipt> {
    if s.Some? then f.receipts(s.value) else []
  }

  function Entries<E(!new), C(!new), X, Y>(f: Family<E, C, X, Y>, s: Option<E>): seq<X> {
    if s.Some? then f.entries(s.value) else []
  }

  function Extras<E(!new), C(!new), X, Y>(f: Family<E, C, X, Y>, s: Option<E>): seq<Y> {
    if s.Some? then f.extras(s.value) else []
  }

  predicate Valid<E(!new), C(!new), X, Y>(f: Family<E, C, X, Y>, s: Option<E>) {
    s.Some? ==> f.valid(s.value)
  }

  predicate Known<E(!new), C(!new), X, Y>(f: Family<E, C, X, Y>, s: Option<E>, c: C) {
    FindReceipt(Receipts(f, s), f.request(c)).Some?
  }

  ghost predicate Grown<E(!new), C(!new), X, Y>(f: Family<E, C, X, Y>, s: Option<E>, s': Option<E>) {
    && Receipts(f, s) <= Receipts(f, s') && Entries(f, s) <= Entries(f, s') && Extras(f, s) <= Extras(f, s')
    && (s.Some? ==> s'.Some?)
  }

  /** A new request is accepted: one receipt with the next generation, the one entry that was submitted, everything else
      kept. */
  ghost predicate Commits<E(!new), C(!new), X, Y>(f: Family<E, C, X, Y>, s: Option<E>, c: C, e: E) {
    && !Known(f, s, c) && f.expected(c) == |Receipts(f, s)|
    && f.valid(e) && f.fits(e, c)
    && f.receipts(e) == Receipts(f, s) + [Receipt(f.request(c), f.digest(c), |Receipts(f, s)| + 1, f.ref(c))]
    && f.entry(c).Some? != f.extra(c).Some?
    && f.entries(e) == Entries(f, s) + Listed(f.entry(c)) && f.extras(e) == Extras(f, s) + Listed(f.extra(c))
  }

  /** A known request with its own digest is answered from the history. */
  predicate Replays<E(!new), C(!new), X, Y>(f: Family<E, C, X, Y>, s: Option<E>, c: C) {
    Known(f, s, c) && FindReceipt(Receipts(f, s), f.request(c)).value.digest == f.digest(c)
  }

  /** Where a submission does not throw, it either replays a known request and leaves the history alone, or commits. */
  ghost predicate ApplyLaw<E(!new), C(!new), X, Y>(f: Family<E, C, X, Y>, s: Option<E>, c: C) {
    f.apply(s, c).Some? ==>
      if Known(f, s, c) then Replays(f, s, c) && f.apply(s, c) == s && f.fits(s.value, c)
      else Commits(f, s, c, f.apply(s, c).value)
  }

  ghost predicate ReplayLaw<E(!new), C(!new), X, Y>(f: Family<E, C, X, Y>, e: E, c: C) {
    f.fits(e, c) && Replays(f, Some(e), c) ==> f.apply(Some(e), c) == Some(e)
  }

  ghost predicate FitsLaw<E(!new), C(!new), X, Y>(f: Family<E, C, X, Y>, e: E, c: C, d: C) {
    f.fits(e, d) && f.apply(Some(e), c).Some? ==> f.fits(f.apply(Some(e), c).value, d)
  }

  predicate ReceiptLaw<E(!new), C(!new), X, Y>(f: Family<E, C, X, Y>, e: E) {
    f.generation(e) == |f.receipts(e)| && Numbered(f.receipts(e))
  }

  ghost predicate Lawful<E(!new), C(!new), X, Y>(f: Family<E, C, X, Y>) {
    && (forall s, c | Valid(f, s) :: ApplyLaw(f, s, c))
    && (forall e, c | f.valid(e) :: ReplayLaw(f, e, c))
    && (forall e, c, d | f.valid(e) :: FitsLaw(f, e, c, d))
    && (forall e | f.valid(e) :: ReceiptLaw(f, e))
  }

  // ----- runs -----

  function Submit<E(!new), C(!new), X, Y>(f: Family<E, C, X, Y>, s: Option<E>, c: C): Option<E> {
    if f.apply(s, c).Some? then f.apply(s, c) else s
  }

  function Run<E(!new), C(!new), X, Y>(f: Family<E, C, X, Y>, s: Option<E>, cs: seq<C>): Option<E>
    decreases |cs|
  {
    if cs == [] then s else Run(f, Submit(f, s, cs[0]), cs[1..])
  }

  /** How many submissions of a run are accepted as new. */
  function Accepted<E(!new), C(!new), X, Y>(f: Family<E, C, X, Y>, s: Option<E>, cs: seq<C>): nat
    decreases |cs|
  {
    if cs == [] then 0
    else (if f.apply(s, cs[0]).Some? && !Known(f, s, cs[0]) then 1 else 0) + Accepted(f, Submit(f, s, cs[0]), cs[1..])
  }

  lemma SubmitGrows<E(!new), C(!new), X, Y>(f: Family<E, C, X, Y>, s: Option<E>, c: C)
    requires Lawful(f) && Valid(f, s)
    ensures Valid(f, Submit(f, s, c)) && Grown(f, s, Submit(f, s, c))
  {
    assert ApplyLaw(f, s, c);
  }

  /** Old entries and receipts stay where they are. */
  lemma {:induction false} RunGrows<E(!new), C(!new), X, Y>(f: Family<E, C, X, Y>, s: Option<E>, cs: seq<C>)
    requires Lawful(f) && Valid(f, s)
    ensures Valid(f, Run(f, s, cs)) && Grown(f, s, Run(f, s, cs))
    decreases |cs|
  {
    if cs != [] {
      SubmitGrows(f, s, cs[0]);
      RunGrows(f, Submit(f, s, cs[0]), cs[1..]);
    }
  }

  /** The generation is the number of accepted requests, those are distinct, and each left one entry. */
  lemma {:induction false} GenerationCountsRequests<E(!new), C(!new), X,
      Y>(f: Family<E, C, X, Y>, s: Option<E>, cs: seq<C>)
    requires Lawful(f) && Valid(f, s)
    ensures var e := Run(f, s, cs);
            && |Receipts(f, e)| == |Receipts(f, s)| + Accepted(f, s, cs)
            && |Entries(f, e)| + |Extras(f, e)| == |Entries(f, s)| + |Extras(f, s)| + Accepted(f, s, cs)
            && (e.Some? ==> f.generation(e.value) == |Receipts(f, e)| && Numbered(f.receipts(e.value)))
    decreases |cs|
  {
    if cs == [] {
      if s.Some? { assert ReceiptLaw(f, s.value); }
    } else {
      assert ApplyLaw(f, s, cs[0]);
      SubmitGrows(f, s, cs[0]);
      GenerationCountsRequests(f, Submit(f, s, cs[0]), cs[1..]);
    }
  }

  /** What the accepted commands of a run stand for, in the order in which they were accepted. */
  function Submitted<E(!new), C(!new), X, Y>(f: Family<E, C, X, Y>, s: Option<E>, cs: seq<C>): (seq<X>, seq<Y>)
    decreases |cs|
  {
    if cs == [] then ([], [])
    else
      var rest := Submitted(f, Submit(f, s, cs[0]), cs[1..]);
      if f.apply(s, cs[0]).Some? && !Known(f, s, cs[0])
      then (Listed(f.entry(cs[0])) + rest.0, Listed(f.extra(cs[0])) + rest.1)
      else rest
  }

  /** A history is its commands: after any run the entries are those there were and, exactly as submitted and in the
      order of acceptance, those that the accepted commands stand for. */
  lemma {:induction false} HistoryIsItsCommands<E(!new), C(!new), X,
      Y>(f: Family<E, C, X, Y>, s: Option<E>, cs: seq<C>)
    requires Lawful(f) && Valid(f, s)
    ensures Entries(f, Run(f, s, cs)) == Entries(f, s) + Submitted(f, s, cs).0
    ensures Extras(f, Run(f, s, cs)) == Extras(f, s) + Submitted(f, s, cs).1
    decreases |cs|
  {
    if cs != [] {
      assert ApplyLaw(f, s, cs[0]);
      SubmitGrows(f, s, cs[0]);
      HistoryIsItsCommands(f, Submit(f, s, cs[0]), cs[1..]);
    }
  }

  lemma {:induction false} FindInPrefix(receipts: seq<Receipt>, more: seq<Receipt>, requestId: string)
    requires receipts <= more && FindReceipt(receipts, requestId).Some?
    ensures FindReceipt(more, requestId) == FindReceipt(receipts, requestId)
  {
    if receipts[0].requestId != requestId {
      assert more[0] == receipts[0] && receipts[1..] <= more[1..];
      FindInPrefix(receipts[1..], more[1..], requestId);
    }
  }

  /** The receipt of an accepted command is found again after any further run. */
  lemma ReceiptStays<E(!new), C(!new), X, Y>(f: Family<E, C, X, Y>, s: Option<E>, c: C, cs: seq<C>)
    requires Lawful(f) && Valid(f, s) && f.apply(s, c).Some?
    ensures Replays(f, Run(f, f.apply(s, c), cs), c)
  {
    var first := f.apply(s, c);
    assert ApplyLaw(f, s, c);
    RunGrows(f, first, cs);
    if !Known(f, s, c) {
      var r := Receipts(f, first)[|Receipts(f, s)|];
      assert r in Receipts(f, first) && Known(f, first, c);
      var found := FindReceipt(Receipts(f, first), f.request(c)).value;
      assert found in Receipts(f, s) + [r];
    }
    FindInPrefix(Receipts(f, first), Receipts(f, Run(f, first, cs)), f.request(c));
  }

  lemma {:induction false} FitsStays<E(!new), C(!new), X, Y>(f: Family<E, C, X, Y>, s: Option<E>, c: C, cs: seq<C>)
    requires Lawful(f) && Valid(f, s) && s.Some? && f.fits(s.value, c)
    ensures Run(f, s, cs).Some? && f.fits(Run(f, s, cs).value, c)
    decreases |cs|
  {
    if cs != [] {
      SubmitGrows(f, s, cs[0]);
      assert FitsLaw(f, s.value, cs[0], c);
      FitsStays(f, Submit(f, s, cs[0]), c, cs[1..]);
    }
  }

  /** Redelivering an accepted command, whatever happened since, changes nothing. */
  lemma RedeliveryChangesNothing<E(!new), C(!new), X,
      Y>(f: Family<E, C, X, Y>, s: Option<E>, c: C, cs: seq<C>, again: C)
    requires Lawful(f) && Valid(f, s) && f.apply(s, c).Some?
    requires f.request(again) == f.request(c) && f.digest(again) == f.digest(c) && f.fits(f.apply(s, c).value, again)
    ensures var now := Run(f, f.apply(s, c), cs); f.apply(now, again) == now
  {
    assert ApplyLaw(f, s, c);
    ReceiptStays(f, s, c, cs);
    RunGrows(f, f.apply(s, c), cs);
    FitsStays(f, f.apply(s, c), again, cs);
    var now := Run(f, f.apply(s, c), cs);
    assert Replays(f, now, again) && now == Some(now.value) && ReplayLaw(f, now.value, again);
  }

  /** The same request with another digest is refused for ever. */
  lemma ConflictIsRefused<E(!new), C(!new), X, Y>(f: Family<E, C, X, Y>, s: Option<E>, c: C, cs: seq<C>, other: C)
    requires Lawful(f) && Valid(f, s) && f.apply(s, c).Some?
    requires f.request(other) == f.request(c) && f.digest(other) != f.digest(c)
    ensures f.apply(Run(f, f.apply(s, c), cs), other).None?
  {
    assert ApplyLaw(f, s, c);
    ReceiptStays(f, s, c, cs);
    RunGrows(f, f.apply(s, c), cs);
    var now := Run(f, f.apply(s, c), cs);
    assert Known(f, now, other) && !Replays(f, now, other) && ApplyLaw(f, now, other);
  }

  /** Of the commands that expect one generation at most one is ever accepted as new. */
  lemma OneCommandPerGeneration<E(!new), C(!new), X, Y>(f: Family<E, C, X, Y>, s: Option<E>, c: C, cs: seq<C>, d: C)
    requires Lawful(f) && Valid(f, s)
    requires f.apply(s, c).Some? && !Known(f, s, c)
    requires var now := Run(f, f.apply(s, c), cs); f.apply(now, d).Some? && !Known(f, now, d)
    ensures f.expected(c) < f.expected(d)
  {
    assert ApplyLaw(f, s, c);
    RunGrows(f, f.apply(s, c), cs);
    assert ApplyLaw(f, Run(f, f.apply(s, c), cs), d);
  }
}
