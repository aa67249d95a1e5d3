/**
 Session lineage: the root of a session, the group of a root, and the double-collect read of a group
 from a store that other processes keep changing.
 */
module SessionGroup {
  import opened Options
  import opened Sequences

  type Id = string

  // The parent is absent when the header has none, or an empty one.
  datatype Header = Header(subagent: bool, parent: Option<Id>, depth: int)

  datatype Snapshot = Snapshot(header: Header, revision: string)

  type Listing = map<Id, Snapshot>

  /** The parent a session's lineage continues to, if it continues. */
  function Up(s: Listing, id: Id): Option<Id> {
    if id in s && s[id].header.subagent then s[id].header.parent else None
  }

  /** A chain of parents from `p[0]` to the last element, every link taken from a listed session. */
  ghost predicate IsLineage(s: Listing, p: seq<Id>) {
    p != [] && forall i | 0 <= i < |p| - 1 :: Up(s, p[i]) == Some(p[i + 1])
  }

  ghost predicate Leads(s: Listing, from: Id, to: Id) {
    exists p :: IsLineage(s, p) && p[0] == from && p[|p| - 1] == to
  }

  ghost predicate Terminal(s: Listing, id: Id) {
    Up(s, id).None?
  }

  // ---------------------------------------------------------------- the root of a session

  datatype RootResult = Root(id: Id) | Cyclic | MissingParent

  function RootFrom(s: Listing, current: Id, seen: set<Id>): RootResult
    decreases |s.Keys - seen|
  {
    if current in seen then Cyclic
    else match Up(s, current)
      case None => Root(current)
      case Some(parent) =>
        if parent !in s then MissingParent
        else
          FewerUnseen(s.Keys, seen, current);
          RootFrom(s, parent, seen + {current})
  }

  function RootOf(s: Listing, id: Id): RootResult {
    RootFrom(s, id, {})
  }

  lemma Extend(s: Listing, a: Id, b: Id, c: Id)
    requires Up(s, a) == Some(b) && Leads(s, b, c)
    ensures Leads(s, a, c)
  {
    var p :| IsLineage(s, p) && p[0] == b && p[|p| - 1] == c;
    var q := [a] + p;
    forall i | 0 <= i < |q| - 1 ensures Up(s, q[i]) == Some(q[i + 1]) {
      if i > 0 { assert q[i] == p[i - 1] && q[i + 1] == p[i]; }
    }
    assert IsLineage(s, q);
  }

  lemma {:induction false} RootIsTerminal(s: Listing, id: Id, seen: set<Id>)
    requires RootFrom(s, id, seen).Root?
    ensures var r := RootFrom(s, id, seen).id; Leads(s, id, r) && Terminal(s, r) && (r != id ==> r in s)
    decreases |s.Keys - seen|
  {
    match Up(s, id)
    case None => assert IsLineage(s, [id]);
    case Some(parent) =>
      FewerUnseen(s.Keys, seen, id);
      RootIsTerminal(s, parent, seen + {id});
      Extend(s, id, parent, RootFrom(s, id, seen).id);
  }

  /** Parents are unique: from equal sessions, equally long chains end in equal sessions. */
  lemma {:induction false} ChainsAgree(s: Listing, p: seq<Id>, i: nat, j: nat, n: nat)
    requires IsLineage(s, p) && i < j && j + n < |p| && p[i] == p[j]
    ensures p[i + n] == p[j + n] && Up(s, p[i + n]).Some?
  {
    assert Up(s, p[i + n]) == Some(p[i + n + 1]);
    if n > 0 {
      ChainsAgree(s, p, i, j, n - 1);
      assert Up(s, p[i + n - 1]) == Some(p[i + n]) && Up(s, p[j + n - 1]) == Some(p[j + n]);
    }
  }

  /** The lineage `p` starts at `id`. */
  ghost predicate StartsAt(s: Listing, p: seq<Id>, id: Id) {
    IsLineage(s, p) && p[0] == id
  }

  predicate Repeats(p: seq<Id>) {
    exists i, j | 0 <= i < j < |p| :: p[i] == p[j]
  }

  ghost predicate Ends(s: Listing, p: seq<Id>) {
    p != [] && Terminal(s, p[|p| - 1])
  }

  /** Parents are unique: two lineages of one session agree as far as both go. */
  lemma {:induction false} LineagesAgree(s: Listing, p: seq<Id>, q: seq<Id>, n: nat)
    requires IsLineage(s, q) && StartsAt(s, p, q[0]) && n < |p| && n < |q|
    ensures p[n] == q[n]
  {
    if n > 0 {
      LineagesAgree(s, p, q, n - 1);
      assert Up(s, p[n - 1]) == Some(p[n - 1 + 1]) && Up(s, q[n - 1]) == Some(q[n - 1 + 1]);
    }
  }

  /** A lineage that ends is at least as long as any other of the session. */
  lemma EndedIsLongest(s: Listing, p: seq<Id>, q: seq<Id>)
    requires IsLineage(s, q) && StartsAt(s, p, q[0]) && Ends(s, p)
    ensures q <= p
  {
    var last := |p| - 1;
    assert |q| > |p| ==> Up(s, q[last]) == Some(q[last + 1]);
    if |q| > |p| {
      LineagesAgree(s, p, q, last);
    } else {
      forall n | 0 <= n < |q| ensures p[n] == q[n] { LineagesAgree(s, p, q, n); }
    }
  }

  /** If one lineage of a session ends, none repeats a session. */
  lemma EndedNeverRepeats(s: Listing, p: seq<Id>, q: seq<Id>)
    requires IsLineage(s, q) && StartsAt(s, p, q[0]) && Ends(s, p)
    ensures !Repeats(q)
  {
    EndedIsLongest(s, p, q);
    forall i, j | 0 <= i < j < |q| ensures q[i] != q[j] {
      if p[i] == p[j] { ChainsAgree(s, p, i, j, |p| - 1 - j); }
    }
  }

  /** Where the walk up the lineage `p` comes to an end without a root. */
  lemma {:induction false} FailureLineage(s: Listing, p: seq<Id>) returns (q: seq<Id>)
    requires IsLineage(s, p) && !RootFrom(s, p[|p| - 1], Elements(p[..|p| - 1])).Root?
    ensures StartsAt(s, q, p[0])
    ensures if RootFrom(s, p[|p| - 1], Elements(p[..|p| - 1])).Cyclic? then Repeats(q) else |q| > 1 && q[|q| - 1] !in s
    decreases |s.Keys - Elements(p[..|p| - 1])|
  {
    var current, seen := p[|p| - 1], Elements(p[..|p| - 1]);
    if current in seen {
      q := p;
      var i :| 0 <= i < |p| - 1 && p[..|p| - 1][i] == current;
      assert p[i] == p[|p| - 1];
    } else {
      q := p + [Up(s, current).value];
      assert q[..|q| - 1] == p && p == p[..|p| - 1] + [current];
      assert Elements(p) == seen + {current};
      if q[|q| - 1] in s {
        FewerUnseen(s.Keys, seen, current);
        q := FailureLineage(s, q);
      }
    }
  }

  lemma Failure(s: Listing, id: Id) returns (q: seq<Id>)
    requires !RootOf(s, id).Root?
    ensures StartsAt(s, q, id)
    ensures if RootOf(s, id).Cyclic? then Repeats(q) else |q| > 1 && q[|q| - 1] !in s
  {
    assert Elements([id][..0]) == {};
    q := FailureLineage(s, [id]);
  }

  lemma RootLineage(s: Listing, id: Id) returns (p: seq<Id>)
    requires RootOf(s, id).Root?
    ensures StartsAt(s, p, id) && Ends(s, p) && p[|p| - 1] == RootOf(s, id).id
    ensures p[|p| - 1] in s || p[|p| - 1] == id
  {
    RootIsTerminal(s, id, {});
    p :| IsLineage(s, p) && p[0] == id && p[|p| - 1] == RootOf(s, id).id;
  }

  /** A lineage of the session repeats a session. */
  ghost predicate GoesRound(s: Listing, id: Id) {
    exists p :: StartsAt(s, p, id) && Repeats(p)
  }

  /** A lineage of the session goes on to a session that is not listed. */
  ghost predicate LosesParent(s: Listing, id: Id) {
    exists p :: StartsAt(s, p, id) && |p| > 1 && p[|p| - 1] !in s
  }

  /** The lineage of the session ends there, at a listed session or at once. */
  ghost predicate EndsAt(s: Listing, id: Id, root: Id) {
    Leads(s, id, root) && Terminal(s, root) && (root in s || root == id)
  }

  lemma CyclicExactly(s: Listing, id: Id)
    ensures RootOf(s, id).Cyclic? <==> GoesRound(s, id)
  {
    if RootOf(s, id).Cyclic? {
      var q := Failure(s, id);
    } else if p :| StartsAt(s, p, id) && Repeats(p) {
      var ended: seq<Id>;
      if RootOf(s, id).Root? { ended := RootLineage(s, id); } else { ended := Failure(s, id); }
      EndedNeverRepeats(s, ended, p);
    }
  }

  lemma MissingParentExactly(s: Listing, id: Id)
    ensures RootOf(s, id).MissingParent? <==> LosesParent(s, id)
  {
    if RootOf(s, id).MissingParent? {
      var q := Failure(s, id);
    } else if p :| StartsAt(s, p, id) && |p| > 1 && p[|p| - 1] !in s {
      assert Up(s, p[0]) == Some(p[0 + 1]);
      if RootOf(s, id).Cyclic? {
        var q := Failure(s, id);
        EndedNeverRepeats(s, p, q);
      } else {
        var q := RootLineage(s, id);
        EndedIsLongest(s, p, q);
        EndedIsLongest(s, q, p);
      }
    }
  }

  lemma RootExactly(s: Listing, id: Id, r: Id)
    ensures RootOf(s, id) == Root(r) <==> EndsAt(s, id, r)
  {
    if RootOf(s, id) == Root(r) {
      RootIsTerminal(s, id, {});
    } else if EndsAt(s, id, r) {
      var p :| IsLineage(s, p) && p[0] == id && p[|p| - 1] == r;
      if RootOf(s, id).Root? {
        var q := RootLineage(s, id);
        EndedIsLongest(s, p, q);
        EndedIsLongest(s, q, p);
      } else {
        var q := Failure(s, id);
        if RootOf(s, id).Cyclic? {
          EndedNeverRepeats(s, p, q);
        } else {
          assert Up(s, q[0]) == Some(q[0 + 1]);
          EndedIsLongest(s, p, q);
          EndedIsLongest(s, q, p);
        }
      }
    }
  }

  lemma LeadsToRoot(s: Listing, id: Id, r: Id)
    requires r in s && Terminal(s, r)
    ensures Leads(s, id, r) <==> RootOf(s, id) == Root(r)
  {
    RootExactly(s, id, r);
  }

  /** A session is a root, is caught in a cycle or has lost a parent, as its lineages say. */
  method RootSessionId(s: Listing, sessionId: Id) returns (r: RootResult)
    ensures r == RootOf(s, sessionId)
    ensures r.Cyclic? <==> GoesRound(s, sessionId)
    ensures r.MissingParent? <==> LosesParent(s, sessionId)
    ensures forall root :: r == Root(root) <==> EndsAt(s, sessionId, root)
  {
    CyclicExactly(s, sessionId);
    MissingParentExactly(s, sessionId);
    forall root ensures RootOf(s, sessionId) == Root(root) <==> EndsAt(s, sessionId, root) {
      RootExactly(s, sessionId, root);
    }
    var seen: set<Id> := {};
    var current := sessionId;
    while true
      invariant RootFrom(s, current, seen) == RootOf(s, sessionId)
      decreases |s.Keys - seen|
    {
      if current in seen { return Cyclic; }
      if current in s { FewerUnseen(s.Keys, seen, current); }
      seen := seen + {current};
      if current !in s || !s[current].header.subagent { return Root(current); }
      var parent := s[current].header.parent;
      if parent.None? { return Root(current); }
      if parent.value !in s { return MissingParent; }
      current := parent.value;
    }
  }

  // ---------------------------------------------------------------- the group of a root

  ghost predicate ClosedUnder(s: Listing, ids: set<Id>) {
    forall id | id in s && Up(s, id).Some? && Up(s, id).value in ids :: id in ids
  }

  ghost predicate AllLead(s: Listing, ids: set<Id>, rootId: Id) {
    forall id | id in ids :: Leads(s, id, rootId)
  }

  /** The first `n` sessions of the order have no parent in `ids`, or are in it. */
  ghost predicate Settled(s: Listing, order: seq<Id>, n: nat, ids: set<Id>)
    requires n <= |order|
  {
    forall j | 0 <= j < n :: Up(s, order[j]).Some? && Up(s, order[j]).value in ids ==> order[j] in ids
  }

  // ----- the order of a group -----

  // Where `localeCompare` puts an id among the others; ids of equal place are kept in the order in which they came.
  type Collation = Id -> real

  function Depth(s: Listing, id: Id): int {
    if id in s then s[id].header.depth else 0
  }

  /** The comparison sorts `x` before `y`: the root first, then by depth, then by name. */
  predicate Ahead(s: Listing, rootId: Id, place: Collation, x: Id, y: Id) {
    y != rootId && (x == rootId || Depth(s, x) < Depth(s, y) || (Depth(s, x) == Depth(s, y) && place(x) < place(y)))
  }

  predicate Ordered(s: Listing, rootId: Id, place: Collation, ids: seq<Id>) {
    forall i, j | 0 <= i < j < |ids| :: !Ahead(s, rootId, place, ids[j], ids[i])
  }

  function Place(s: Listing, rootId: Id, place: Collation, x: Id, ids: seq<Id>): (r: seq<Id>)
    ensures multiset(r) == multiset{x} + multiset(ids)
  {
    if ids == [] || !Ahead(s, rootId, place, ids[0], x) then [x] + ids
    else
      assert ids == [ids[0]] + ids[1..];
      [ids[0]] + Place(s, rootId, place, x, ids[1..])
  }

  /** The stable sort. */
  function SortIds(s: Listing, rootId: Id, place: Collation, ids: seq<Id>): (r: seq<Id>)
    ensures multiset(r) == multiset(ids)
  {
    if ids == [] then []
    else
      assert ids == [ids[0]] + ids[1..];
      Place(s, rootId, place, ids[0], SortIds(s, rootId, place, ids[1..]))
  }

  lemma {:induction false} PlaceOrdered(s: Listing, rootId: Id, place: Collation, x: Id, ids: seq<Id>)
    requires Ordered(s, rootId, place, ids)
    ensures Ordered(s, rootId, place, Place(s, rootId, place, x, ids))
  {
    if ids != [] && Ahead(s, rootId, place, ids[0], x) {
      var rest := Place(s, rootId, place, x, ids[1..]);
      PlaceOrdered(s, rootId, place, x, ids[1..]);
      forall y | y in rest ensures !Ahead(s, rootId, place, y, ids[0]) {
        assert y in multiset(rest);
        if y != x { var i :| 0 <= i < |ids[1..]| && ids[1..][i] == y; assert ids[i + 1] == y; }
      }
    }
  }

  lemma {:induction false} SortOrders(s: Listing, rootId: Id, place: Collation, ids: seq<Id>)
    ensures Ordered(s, rootId, place, SortIds(s, rootId, place, ids))
  {
    if ids != [] {
      SortOrders(s, rootId, place, ids[1..]);
      PlaceOrdered(s, rootId, place, ids[0], SortIds(s, rootId, place, ids[1..]));
    }
  }

  lemma SortKeeps(s: Listing, rootId: Id, place: Collation, ids: seq<Id>)
    requires Distinct(ids)
    ensures Distinct(SortIds(s, rootId, place, ids))
    ensures forall id :: id in SortIds(s, rootId, place, ids) <==> id in ids
  {
    var sorted := SortIds(s, rootId, place, ids);
    assert forall id :: id in sorted <==> id in multiset(sorted);
    assert forall id :: id in ids <==> id in multiset(ids);
    assert |multiset(sorted)| == |sorted| && |multiset(ids)| == |ids|;
    assert Elements(sorted) == Elements(ids);
    DistinctExactly(ids);
    DistinctExactly(sorted);
  }

  /** No two of the ids have the same place. */
  predicate Distinguishes(place: Collation, ids: seq<Id>) {
    forall x, y | x in ids && y in ids && x != y :: place(x) != place(y)
  }

  /** If names are told apart, the order is determined by the members. */
  lemma {:induction false} OrderIsUnique(s: Listing, rootId: Id, place: Collation, xs: seq<Id>, ys: seq<Id>)
    requires Distinct(xs) && Distinct(ys) && Elements(xs) == Elements(ys) && Distinguishes(place, xs)
    requires Ordered(s, rootId, place, xs) && Ordered(s, rootId, place, ys)
    ensures xs == ys
  {
    DistinctCount(xs);
    DistinctCount(ys);
    if xs != [] {
      assert xs[0] in Elements(xs) && ys[0] in Elements(ys);
      SameHead(s, rootId, place, xs, ys);
      RestElements(xs);
      RestElements(ys);
      OrderIsUnique(s, rootId, place, xs[1..], ys[1..]);
      assert xs == [xs[0]] + xs[1..] && ys == [ys[0]] + ys[1..];
    }
  }

  lemma SameHead(s: Listing, rootId: Id, place: Collation, xs: seq<Id>, ys: seq<Id>)
    requires xs != [] && ys != [] && xs[0] in ys && ys[0] in xs && Distinguishes(place, xs)
    requires Ordered(s, rootId, place, xs) && Ordered(s, rootId, place, ys)
    ensures xs[0] == ys[0]
  {
    var i :| 0 <= i < |xs| && xs[i] == ys[0];
    var j :| 0 <= j < |ys| && ys[j] == xs[0];
    assert !Ahead(s, rootId, place, xs[0], xs[0]);
    assert i > 0 ==> !Ahead(s, rootId, place, xs[i], xs[0]);
    assert j > 0 ==> !Ahead(s, rootId, place, ys[j], ys[0]);
  }

  lemma RestElements(xs: seq<Id>)
    requires Distinct(xs) && xs != []
    ensures Distinct(xs[1..]) && Elements(xs[1..]) == Elements(xs) - {xs[0]}
  {
    forall x | x in Elements(xs) && x != xs[0] ensures x in xs[1..] {
      var i :| 0 <= i < |xs| && xs[i] == x;
      assert xs[1..][i - 1] == x;
    }
    assert forall i | 0 <= i < |xs| - 1 :: xs[1..][i] == xs[i + 1];
  }

  /** The members in some order: that in which a `Set` yields them only decides between names of equal place. */
  method Enumerate(ids: set<Id>) returns (listed: seq<Id>)
    ensures Distinct(listed) && Elements(listed) == ids
  {
    listed := [];
    var rest := ids;
    while rest != {}
      invariant Distinct(listed) && Elements(listed) + rest == ids && Elements(listed) !! rest
      decreases |rest|
    {
      var id :| id in rest;
      Appended(listed, id);
      listed, rest := listed + [id], rest - {id};
    }
  }

  /** The root comes first, and of two other sessions the one of smaller depth; of two of one depth the one whose name
      comes first, if either does. */
  lemma OrderedMeans(s: Listing, rootId: Id, place: Collation, ids: seq<Id>)
    requires Ordered(s, rootId, place, ids) && Distinct(ids) && rootId in ids
    ensures ids[0] == rootId
    ensures forall i, j | 0 < i < j < |ids| ::
              Depth(s, ids[i]) < Depth(s, ids[j])
              || (Depth(s, ids[i]) == Depth(s, ids[j]) && place(ids[i]) <= place(ids[j]))
  {
    var k :| 0 <= k < |ids| && ids[k] == rootId;
    assert k > 0 ==> !Ahead(s, rootId, place, ids[k], ids[0]);
    forall i, j | 0 < i < j < |ids|
      ensures Depth(s, ids[i]) < Depth(s, ids[j])
              || (Depth(s, ids[i]) == Depth(s, ids[j]) && place(ids[i]) <= place(ids[j]))
    {
      assert !Ahead(s, rootId, place, ids[j], ids[i]);
    }
  }

  /** The group of a root: exactly the sessions that lead to it, each once, the root first, then by depth and name. */
  method GroupIds(s: Listing, order: seq<Id>, rootId: Id, place: Collation) returns (sorted: seq<Id>)
    requires forall id :: id in order <==> id in s
    ensures Distinct(sorted) && forall id :: id in sorted <==> Leads(s, id, rootId)
    ensures Ordered(s, rootId, place, sorted) && sorted != [] && sorted[0] == rootId
    ensures forall i, j | 0 < i < j < |sorted| :: sorted[i] in s && sorted[j] in s &&
              (s[sorted[i]].header.depth < s[sorted[j]].header.depth
               || (s[sorted[i]].header.depth == s[sorted[j]].header.depth && place(sorted[i]) <= place(sorted[j])))
  {
    var ids := Closure(s, order, rootId);
    var listed := Enumerate(ids);
    SortOrders(s, rootId, place, listed);
    SortKeeps(s, rootId, place, listed);
    assert forall id :: id in listed <==> id in Elements(listed);
    sorted := SortIds(s, rootId, place, listed);
    assert IsLineage(s, [rootId]);
    OrderedMeans(s, rootId, place, sorted);
    forall i | 0 < i < |sorted| ensures sorted[i] in s { MemberIsListed(s, sorted[i], rootId); }
  }

  lemma MemberIsListed(s: Listing, id: Id, rootId: Id)
    requires Leads(s, id, rootId) && id != rootId
    ensures id in s
  {
    var p :| IsLineage(s, p) && p[0] == id && p[|p| - 1] == rootId;
    assert Up(s, p[0]) == Some(p[0 + 1]);
  }

  /** The fixpoint loop. */
  method Closure(s: Listing, order: seq<Id>, rootId: Id) returns (ids: set<Id>)
    requires forall id :: id in order <==> id in s
    ensures forall id :: id in ids <==> Leads(s, id, rootId)
  {
    ids := {rootId};
    assert IsLineage(s, [rootId]);
    var changed := true;
    while changed
      invariant rootId in ids && AllLead(s, ids, rootId)
      invariant !changed ==> Settled(s, order, |order|, ids)
      decreases |s.Keys - ids|, changed
    {
      ids, changed := Sweep(s, order, rootId, ids);
    }
    FixpointIsGroup(s, order, ids, rootId);
  }

  /** One pass over the listing in its insertion order. */
  method Sweep(s: Listing, order: seq<Id>, rootId: Id, before: set<Id>) returns (ids: set<Id>, changed: bool)
    requires (forall i | 0 <= i < |order| :: order[i] in s) && AllLead(s, before, rootId)
    ensures before <= ids && AllLead(s, ids, rootId)
    ensures if changed then |s.Keys - ids| < |s.Keys - before| else ids == before && Settled(s, order, |order|, ids)
  {
    ids, changed := before, false;
    for i := 0 to |order|
      invariant before <= ids && AllLead(s, ids, rootId)
      invariant if changed then |s.Keys - ids| < |s.Keys - before| else ids == before && Settled(s, order, i, ids)
    {
      var id := order[i];
      var header := s[id].header;
      if !header.subagent || header.parent.None? || header.parent.value !in ids || id in ids { continue; }
      Joins(s, ids, rootId, id);
      ids := ids + {id};
      changed := true;
    }
  }

  lemma Joins(s: Listing, ids: set<Id>, rootId: Id, id: Id)
    requires AllLead(s, ids, rootId) && id in s && id !in ids && Up(s, id).Some? && Up(s, id).value in ids
    ensures AllLead(s, ids + {id}, rootId) && |s.Keys - (ids + {id})| < |s.Keys - ids|
  {
    Extend(s, id, Up(s, id).value, rootId);
    assert s.Keys - ids == (s.Keys - (ids + {id})) + {id};
  }

  lemma FixpointIsGroup(s: Listing, order: seq<Id>, ids: set<Id>, rootId: Id)
    requires forall id :: id in order <==> id in s
    requires rootId in ids && AllLead(s, ids, rootId) && Settled(s, order, |order|, ids)
    ensures forall id :: id in ids <==> Leads(s, id, rootId)
  {
    forall id | id in s && Up(s, id).Some? && Up(s, id).value in ids ensures id in ids {
      assert id in order;
    }
    forall id | Leads(s, id, rootId) ensures id in ids {
      var p :| IsLineage(s, p) && p[0] == id && p[|p| - 1] == rootId;
      ChainInside(s, ids, p, 0);
    }
  }

  lemma {:induction false} ChainInside(s: Listing, ids: set<Id>, p: seq<Id>, k: nat)
    requires IsLineage(s, p) && k < |p| && p[|p| - 1] in ids && ClosedUnder(s, ids)
    ensures p[k] in ids
    decreases |p| - k
  {
    if k < |p| - 1 {
      ChainInside(s, ids, p, k + 1);
      assert Up(s, p[k]) == Some(p[k + 1]);
    }
  }

  lemma LastLink(s: Listing, id: Id, r: Id)
    requires Leads(s, id, r)
    ensures id == r || exists x :: x in s && Up(s, x) == Some(r)
  {
    var p :| IsLineage(s, p) && p[0] == id && p[|p| - 1] == r;
    if |p| > 1 { assert Up(s, p[|p| - 2]) == Some(p[|p| - 2 + 1]); }
  }

  /** Lineage closure: the sessions leading to a terminal session are exactly those whose root it is,
      if and only if that session is listed or nobody names it as parent. */
  lemma ClosureIsExact(s: Listing, r: Id)
    requires Terminal(s, r)
    ensures (forall id :: Leads(s, id, r) <==> RootOf(s, id) == Root(r))
       <==> (r in s || forall id | id in s :: Up(s, id) != Some(r))
  {
    if r in s {
      forall id ensures Leads(s, id, r) <==> RootOf(s, id) == Root(r) { LeadsToRoot(s, id, r); }
    } else if id :| id in s && Up(s, id) == Some(r) {
      // An orphan joins the group of its absent parent, but has no root.
      assert IsLineage(s, [id, r]);
      assert Leads(s, id, r) && RootOf(s, id) == MissingParent;
    } else {
      forall id ensures Leads(s, id, r) <==> RootOf(s, id) == Root(r) {
        if Leads(s, id, r) { LastLink(s, id, r); }
        if RootOf(s, id) == Root(r) { RootIsTerminal(s, id, {}); assert id == r; assert IsLineage(s, [r]); }
      }
    }
  }

  // ---------------------------------------------------------------- the double-collect read

  type Content = string

  datatype Session = Session(header: Header, revision: string, content: Content)

  type Store = map<Id, Session>

  // The store at every instant, whatever its writers do.
  type History = nat -> Store

  function ListingOf(store: Store): Listing {
    map id | id in store :: Snapshot(store[id].header, store[id].revision)
  }

  /** The environment's promise: a session that shows one revision at two instants was the same throughout. */
  ghost predicate RevisionsNeverRepeat(w: History) {
    forall id, i, j, k | i <= j <= k && id in w(i) && id in w(k) && w(i)[id].revision == w(k)[id].revision ::
      id in w(j) && w(j)[id] == w(i)[id]
  }

  /** One attempt of the loop: the instants of the first listing, of each inspection, of the second listing. */
  datatype Attempt = Attempt(before: nat, at: Id -> nat, after: nat)

  ghost predicate InOrder(a: Attempt) {
    forall id :: a.before <= a.at(id) <= a.after
  }

  const MAX_ATTEMPTS := 3

  datatype Read = Group(rootId: Id, contents: map<Id, Content>) | Absent | NoRoot | Vanished | Unstable

  /** The group was, at one instant between the first and the last look at the store, exactly this. */
  ghost predicate HeldAt(w: History, t: nat, selected: Id, r: Read)
    requires r.Group?
  {
    && RootOf(ListingOf(w(t)), selected) == Root(r.rootId)
    && (forall id :: id in r.contents <==> RootOf(ListingOf(w(t)), id) == Root(r.rootId))
    && (forall id | id in r.contents :: id in w(t) && r.contents[id] == w(t)[id].content)
  }

  /** Both listings give the group the same members, each with the same revision. */
  ghost predicate SameGroup(before: Listing, after: Listing, rootId: Id) {
    && (forall id :: Leads(before, id, rootId) <==> Leads(after, id, rootId))
    && (forall id | Leads(before, id, rootId) ::
          id in before && id in after && before[id].revision == after[id].revision)
  }

  /** The members have the same depth in both listings, and names that the locale tells apart. */
  ghost predicate SameOrder(before: Listing, after: Listing, rootId: Id, place: Collation) {
    && (forall id | Leads(before, id, rootId) :: Depth(before, id) == Depth(after, id))
    && forall x, y | Leads(before, x, rootId) && Leads(before, y, rootId) && x != y :: place(x) != place(y)
  }

  /** The lists of members must agree one by one: a group that is the same is stable unless its order changed. */
  method StableGroup(before: Listing, after: Listing, beforeOrder: seq<Id>, afterOrder: seq<Id>, rootId: Id,
                     place: Collation)
    returns (stable: bool)
    requires forall id :: id in beforeOrder <==> id in before
    requires forall id :: id in afterOrder <==> id in after
    ensures stable ==> SameGroup(before, after, rootId)
    ensures SameGroup(before, after, rootId) && SameOrder(before, after, rootId, place) ==> stable
  {
    var beforeIds := GroupIds(before, beforeOrder, rootId, place);
    var afterIds := GroupIds(after, afterOrder, rootId, place);
    if SameGroup(before, after, rootId) && SameOrder(before, after, rootId, place) {
      SameLists(before, after, rootId, place, beforeIds, afterIds);
    }
    if beforeIds != afterIds { return false; }
    stable := forall id | id in beforeIds :: id in before && id in after && before[id].revision == after[id].revision;
  }

  lemma SameLists(before: Listing, after: Listing, rootId: Id, place: Collation, xs: seq<Id>, ys: seq<Id>)
    requires SameGroup(before, after, rootId) && SameOrder(before, after, rootId, place)
    requires Distinct(xs) && Ordered(before, rootId, place, xs) && forall id :: id in xs <==> Leads(before, id, rootId)
    requires Distinct(ys) && Ordered(after, rootId, place, ys) && forall id :: id in ys <==> Leads(after, id, rootId)
    ensures xs == ys
  {
    forall i, j | 0 <= i < j < |ys| ensures !Ahead(before, rootId, place, ys[j], ys[i]) {
      assert ys[i] in ys && ys[j] in ys && !Ahead(after, rootId, place, ys[j], ys[i]);
    }
    OrderIsUnique(before, rootId, place, xs, ys);
  }

  lemma ReadHeld(w: History, a: Attempt, selected: Id, rootId: Id, contents: map<Id, Content>)
    requires RevisionsNeverRepeat(w) && InOrder(a)
    requires var s := ListingOf(w(a.before)); selected in s && RootOf(s, selected) == Root(rootId)
    requires forall id :: id in contents <==> Leads(ListingOf(w(a.before)), id, rootId)
    requires forall id | id in contents :: id in w(a.at(id)) && contents[id] == w(a.at(id))[id].content
    requires forall id | id in contents ::
               id in w(a.before) && id in w(a.after) && w(a.before)[id].revision == w(a.after)[id].revision
    ensures HeldAt(w, a.before, selected, Group(rootId, contents))
  {
    GroupOfSelected(ListingOf(w(a.before)), selected, rootId);
    forall id | id in contents ensures contents[id] == w(a.before)[id].content {
      SameThroughout(w, id, a.before, a.at(id), a.after);
    }
  }

  lemma SameThroughout(w: History, id: Id, i: nat, j: nat, k: nat)
    requires RevisionsNeverRepeat(w) && i <= j <= k && id in w(i) && id in w(k)
             && w(i)[id].revision == w(k)[id].revision
    ensures id in w(j) && w(j)[id] == w(i)[id]
  {
  }

  lemma GroupOfSelected(s: Listing, selected: Id, rootId: Id)
    requires selected in s && RootOf(s, selected) == Root(rootId)
    ensures forall id :: Leads(s, id, rootId) <==> RootOf(s, id) == Root(rootId)
  {
    RootIsTerminal(s, selected, {});
    forall id ensures Leads(s, id, rootId) <==> RootOf(s, id) == Root(rootId) { LeadsToRoot(s, id, rootId); }
  }

  /** Somebody wrote to the store during the attempt. */
  ghost predicate Disturbed(w: History, a: Attempt) {
    exists t :: a.before <= t <= a.after && w(t) != w(a.before)
  }

  /** The locale does not tell two listed names apart. */
  ghost predicate Ambiguous(w: History, a: Attempt, place: Collation) {
    exists x, y :: x in w(a.before) && y in w(a.before) && x != y && place(x) == place(y)
  }

  lemma MembersAreListed(s: Listing, selected: Id, rootId: Id, id: Id)
    requires selected in s && RootOf(s, selected) == Root(rootId) && Leads(s, id, rootId)
    ensures id in s
  {
    RootIsTerminal(s, selected, {});
    var p :| IsLineage(s, p) && p[0] == id && p[|p| - 1] == rootId;
    if |p| > 1 { assert Up(s, p[0]) == Some(p[1]); }
  }

  /** A member of the group was gone when it was to be inspected. */
  ghost predicate LosesMember(w: History, a: Attempt, selected: Id) {
    var s := ListingOf(w(a.before));
    && selected in s && RootOf(s, selected).Root?
    && exists id :: Leads(s, id, RootOf(s, selected).id) && id !in w(a.at(id))
  }

  lemma LossIsDisturbance(w: History, a: Attempt, selected: Id)
    requires InOrder(a) && LosesMember(w, a, selected)
    ensures Disturbed(w, a)
  {
    var s := ListingOf(w(a.before));
    var id :| Leads(s, id, RootOf(s, selected).id) && id !in w(a.at(id));
    MembersAreListed(s, selected, RootOf(s, selected).id, id);
    assert a.before <= a.at(id) <= a.after;
  }

  ghost predicate Justified(w: History, a: Attempt, place: Collation, selected: Id, r: Read) {
    match r
    case Group(_, _) => RevisionsNeverRepeat(w) ==> HeldAt(w, a.before, selected, r)
    case Absent => selected !in w(a.before)
    case NoRoot => selected in w(a.before) && !RootOf(ListingOf(w(a.before)), selected).Root?
    case Vanished => LosesMember(w, a, selected)
    case Unstable => !LosesMember(w, a, selected) && (Disturbed(w, a) || Ambiguous(w, a, place))
  }

  /** A group that nobody wrote to is stable, if the locale tells its names apart. */
  lemma UndisturbedIsStable(w: History, a: Attempt, place: Collation, selected: Id, rootId: Id)
    requires InOrder(a) && !Disturbed(w, a) && !Ambiguous(w, a, place)
    requires var s := ListingOf(w(a.before)); selected in s && RootOf(s, selected) == Root(rootId)
    ensures var before, after := ListingOf(w(a.before)), ListingOf(w(a.after));
            SameGroup(before, after, rootId) && SameOrder(before, after, rootId, place)
  {
    var before := ListingOf(w(a.before));
    assert a.before <= a.at(selected) <= a.after && w(a.after) == w(a.before);
    forall id | Leads(before, id, rootId) ensures id in before { MembersAreListed(before, selected, rootId, id); }
  }

  /** One round of the loop; Unstable where the TypeScript code tries again. */
  method ReadOnce(w: History, a: Attempt, beforeOrder: seq<Id>, afterOrder: seq<Id>, place: Collation, selected: Id)
    returns (r: Read)
    requires InOrder(a)
    requires (forall id :: id in beforeOrder <==> id in w(a.before))
             && (forall id :: id in afterOrder <==> id in w(a.after))
    ensures Justified(w, a, place, selected, r)
  {
    var before, after := ListingOf(w(a.before)), ListingOf(w(a.after));
    if selected !in before { return Absent; }
    var root := RootSessionId(before, selected);
    if !root.Root? { return NoRoot; }
    var ids := GroupIds(before, beforeOrder, root.id, place);
    forall id | id in ids ensures id in before { MembersAreListed(before, selected, root.id, id); }
    if id :| id in ids && id !in w(a.at(id)) { return Vanished; }
    var contents := map id | id in ids :: w(a.at(id))[id].content;
    var stable := StableGroup(before, after, beforeOrder, afterOrder, root.id, place);
    if !stable {
      if !Disturbed(w, a) && !Ambiguous(w, a, place) { UndisturbedIsStable(w, a, place, selected, root.id); }
      return Unstable;
    }
    if RevisionsNeverRepeat(w) { ReadHeld(w, a, selected, root.id, contents); }
    return Group(root.id, contents);
  }

  /** Whatever writers do meanwhile, a returned group is one that all its members formed, with these contents, at a
      single instant: the read is linearizable. It fails only for a session that is missing or has no root, or when
      the store was written to during an attempt, and it gives up only if in every attempt it was, or the locale left
      the order of two names open. */
  method ReadObservedGroup(w: History, attempts: seq<Attempt>, orders: seq<(seq<Id>, seq<Id>)>, place: Collation,
                           selected: Id)
    returns (r: Read)
    requires |attempts| == |orders| == MAX_ATTEMPTS && forall i | 0 <= i < |attempts| :: InOrder(attempts[i])
    requires forall i, id | 0 <= i < |orders| :: id in orders[i].0 <==> id in w(attempts[i].before)
    requires forall i, id | 0 <= i < |orders| :: id in orders[i].1 <==> id in w(attempts[i].after)
    ensures exists i | 0 <= i < |attempts| ::
              && Justified(w, attempts[i], place, selected, r)
              && forall j | 0 <= j < i :: Justified(w, attempts[j], place, selected, Unstable)
    ensures r.Unstable? ==> forall i | 0 <= i < |attempts| :: Justified(w, attempts[i], place, selected, Unstable)
  {
    for i := 0 to |attempts|
      invariant forall j | 0 <= j < i :: Justified(w, attempts[j], place, selected, Unstable)
    {
      r := ReadOnce(w, attempts[i], orders[i].0, orders[i].1, place, selected);
      if !r.Unstable? { return; }
    }
    r := Unstable;
    assert Justified(w, attempts[0], place, selected, r);
  }
}
