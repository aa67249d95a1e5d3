/**
 Explicit supersession, as the relation, review and source histories share it: an entry may carry an opinion about a
 subject and may name earlier opinions that it retires.  Order in the log is all there is; time plays no part.
 */
module Supersession {
  import opened Options
  import opened Sequences

  type Id = string

  // `subject` is None for an entry that is not an opinion.
  datatype Node<S> = Node(id: Id, subject: Option<S>, targets: seq<Id>)

  predicate Retires<S>(nodes: seq<Node<S>>, k: int, id: Id) {
    0 <= k < |nodes| && id in nodes[k].targets
  }

  ghost predicate Retired<S>(nodes: seq<Node<S>>, id: Id) {
    exists k :: Retires(nodes, k, id)
  }

  /** Entry k, of subject s, carries the opinion named id. */
  predicate Holds<S(==)>(nodes: seq<Node<S>>, k: int, id: Id) {
    0 <= k < |nodes| && nodes[k].id == id && nodes[k].subject.Some?
  }

  /** One more entry is admissible after `nodes`: it names only opinions that are there and not yet retired, and if it
      is itself an opinion, only opinions about its own subject. */
  ghost predicate Admits<S>(nodes: seq<Node<S>>, node: Node<S>) {
    && Distinct(node.targets)
    && forall t | t in node.targets ::
         !Retired(nodes, t) && exists k ::
               Holds(nodes, k, t) && (node.subject.Some? ==> nodes[k].subject == node.subject)
  }

  ghost predicate WellFormed<S>(nodes: seq<Node<S>>) {
    && (forall a, b | 0 <= a < b < |nodes| :: nodes[a].id != nodes[b].id)
    && forall k | 0 <= k < |nodes| :: Admits(nodes[..k], nodes[k])
  }

  /** Every entry that retires something is an opinion itself. */
  ghost predicate OnlyOpinions<S>(nodes: seq<Node<S>>) {
    forall k | 0 <= k < |nodes| :: nodes[k].subject.None? ==> nodes[k].targets == []
  }

  lemma NotRetiredAgain<S>(nodes: seq<Node<S>>, j: nat, k: nat, id: Id)
    requires WellFormed(nodes) && Retires(nodes, j, id) && j < k < |nodes|
    ensures !Retires(nodes, k, id)
  {
    assert Admits(nodes[..k], nodes[k]);
    assert Retires(nodes[..k], j, id);
  }

  /** An opinion is retired at most once. */
  lemma RetiredOnce<S>(nodes: seq<Node<S>>, j: nat, k: nat, id: Id)
    requires WellFormed(nodes) && Retires(nodes, j, id) && Retires(nodes, k, id)
    ensures j == k
  {
    if j < k { NotRetiredAgain(nodes, j, k, id); }
    if k < j { NotRetiredAgain(nodes, k, j, id); }
  }

  /** It is retired by a later entry, and if that is an opinion, by one about the same subject. */
  lemma RetiredLater<S>(nodes: seq<Node<S>>, i: nat, k: nat)
    requires WellFormed(nodes) && i < |nodes| && Retires(nodes, k, nodes[i].id)
    ensures i < k && nodes[i].subject.Some? && (nodes[k].subject.Some? ==> nodes[k].subject == nodes[i].subject)
  {
  }

  /** A retired opinion never becomes active again, whatever is appended. */
  lemma NeverRevives<S>(nodes: seq<Node<S>>, more: seq<Node<S>>, id: Id)
    requires Retired(nodes, id)
    ensures Retired(nodes + more, id)
  {
    var k :| Retires(nodes, k, id);
    assert Retires(nodes + more, k, id);
  }

  lemma RetiredAppend<S>(nodes: seq<Node<S>>, node: Node<S>, id: Id)
    ensures Retired(nodes + [node], id) <==> Retired(nodes, id) || id in node.targets
  {
    if Retired(nodes, id) { NeverRevives(nodes, [node], id); }
    if id in node.targets { assert Retires(nodes + [node], |nodes|, id); }
    if k :| Retires(nodes + [node], k, id) { assert k < |nodes| ==> Retires(nodes, k, id); }
  }

  /** The last entry is not retired. */
  lemma NewestStands<S>(nodes: seq<Node<S>>)
    requires WellFormed(nodes) && nodes != []
    ensures !Retired(nodes, nodes[|nodes| - 1].id)
  {
    var last := nodes[|nodes| - 1].id;
    if Retired(nodes, last) {
      var k :| Retires(nodes, k, last);
      RetiredLater(nodes, |nodes| - 1, k);
    }
  }

  /** Where only opinions retire opinions, looking at a group of subjects alone tells which of its opinions are
      retired. */
  lemma GroupSuffices<S(!new)>(nodes: seq<Node<S>>, inGroup: S -> bool, i: nat)
    requires WellFormed(nodes) && OnlyOpinions(nodes)
    requires i < |nodes| && nodes[i].subject.Some? && inGroup(nodes[i].subject.value)
    ensures var local := exists k ::
              Retires(nodes, k, nodes[i].id) && nodes[k].subject.Some? && inGroup(nodes[k].subject.value);
            local <==> Retired(nodes, nodes[i].id)
  {
  }

  predicate IsAbout<S(==)>(nodes: seq<Node<S>>, k: int, s: S) {
    0 <= k < |nodes| && nodes[k].subject == Some(s)
  }

  ghost predicate IsActive<S>(nodes: seq<Node<S>>, k: int, s: S) {
    IsAbout(nodes, k, s) && !Retired(nodes, nodes[k].id)
  }

  /** Where only opinions retire opinions, a subject once judged always has an active opinion: the last one. */
  lemma {:induction false} LastIsActive<S>(nodes: seq<Node<S>>, s: S, k: nat) returns (last: nat)
    requires WellFormed(nodes) && OnlyOpinions(nodes) && IsAbout(nodes, k, s)
    ensures IsActive(nodes, last, s)
    decreases |nodes| - k
  {
    if j :| k < j < |nodes| && IsAbout(nodes, j, s) {
      last := LastIsActive(nodes, s, j);
    } else {
      last := k;
      forall j | Retires(nodes, j, nodes[k].id) ensures false {
        RetiredLater(nodes, k, j); assert IsAbout(nodes, j, s);
      }
    }
  }

  // ----- counting -----

  function Opinions<S>(nodes: seq<Node<S>>): set<Id> {
    set k | 0 <= k < |nodes| && nodes[k].subject.Some? :: nodes[k].id
  }

  function RetiredIds<S>(nodes: seq<Node<S>>): set<Id> {
    if nodes == [] then {} else RetiredIds(nodes[..|nodes| - 1]) + Elements(nodes[|nodes| - 1].targets)
  }

  function TargetCount<S>(nodes: seq<Node<S>>): nat {
    if nodes == [] then 0 else TargetCount(nodes[..|nodes| - 1]) + |nodes[|nodes| - 1].targets|
  }

  function OpinionCount<S>(nodes: seq<Node<S>>): nat {
    if nodes == [] then 0 else OpinionCount(nodes[..|nodes| - 1]) + if nodes[|nodes| - 1].subject.Some? then 1 else 0
  }

  lemma {:induction false} RetiredIdsAreRetired<S>(nodes: seq<Node<S>>, id: Id)
    ensures id in RetiredIds(nodes) <==> Retired(nodes, id)
  {
    if nodes != [] {
      var front, n := nodes[..|nodes| - 1], |nodes| - 1;
      RetiredIdsAreRetired(front, id);
      if k :| Retires(front, k, id) { assert Retires(nodes, k, id); }
      if k :| Retires(nodes, k, id) { assert k < n ==> Retires(front, k, id); }
      assert id in nodes[n].targets ==> Retires(nodes, n, id);
    }
  }

  lemma WellFormedPrefix<S>(nodes: seq<Node<S>>, n: nat)
    requires WellFormed(nodes) && n <= |nodes|
    ensures WellFormed(nodes[..n])
  {
    forall k | 0 <= k < n ensures Admits(nodes[..n][..k], nodes[..n][k]) { assert nodes[..n][..k] == nodes[..k]; }
  }

  lemma {:induction false} RetiredCount<S>(nodes: seq<Node<S>>)
    requires WellFormed(nodes)
    ensures |RetiredIds(nodes)| == TargetCount(nodes)
  {
    if nodes != [] {
      var front, last := nodes[..|nodes| - 1], nodes[|nodes| - 1];
      WellFormedPrefix(nodes, |nodes| - 1);
      RetiredCount(front);
      DistinctCount(last.targets);
      assert Admits(front, last);
      forall t | t in Elements(last.targets) ensures t !in RetiredIds(front) { RetiredIdsAreRetired(front, t); }
    }
  }

  lemma {:induction false} OpinionsAreCounted<S>(nodes: seq<Node<S>>)
    requires WellFormed(nodes)
    ensures |Opinions(nodes)| == OpinionCount(nodes)
  {
    if nodes != [] {
      var n := |nodes| - 1;
      var front := nodes[..n];
      WellFormedPrefix(nodes, n);
      OpinionsAreCounted(front);
      forall k | 0 <= k < n ensures nodes[k] == front[k] {}
      if nodes[n].subject.Some? {
        assert Opinions(nodes) == Opinions(front) + {nodes[n].id};
        assert nodes[n].id !in Opinions(front);
      } else {
        assert Opinions(nodes) == Opinions(front);
      }
    }
  }

  /** The active opinions number the opinions less all that was ever named for retirement. */
  lemma ActiveCount<S>(nodes: seq<Node<S>>)
    requires WellFormed(nodes)
    ensures |Opinions(nodes) - RetiredIds(nodes)| == OpinionCount(nodes) - TargetCount(nodes)
  {
    forall id | id in RetiredIds(nodes) ensures id in Opinions(nodes) {
      RetiredIdsAreRetired(nodes, id);
      var k :| Retires(nodes, k, id);
      assert Admits(nodes[..k], nodes[k]);
      var j :| Holds(nodes[..k], j, id);
      assert nodes[j].id == id;
    }
    RetiredCount(nodes);
    OpinionsAreCounted(nodes);
    assert Opinions(nodes) == (Opinions(nodes) - RetiredIds(nodes)) + RetiredIds(nodes);
  }
}
