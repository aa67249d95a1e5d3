/**
 The depth-first check that the collection membership of an annotated case is acyclic.
 */
module MembershipCheck {
  import opened Sequences

  type Key = string

  // Entity keys with the members of their collection; an entity without a collection has none.
  type Membership = map<Key, seq<Key>>

  /** Established just before the search: every reference names an entity of the case. */
  ghost predicate Closed(g: Membership) {
    forall k, m | k in g && m in g[k] :: m in g
  }

  ghost predicate IsPath(g: Membership, p: seq<Key>) {
    && p != []
    && (forall i | 0 <= i < |p| :: p[i] in g)
    && (forall i | 0 <= i < |p| - 1 :: p[i + 1] in g[p[i]])
  }

  ghost predicate IsCycle(g: Membership, p: seq<Key>) {
    IsPath(g, p) && |p| >= 2 && p[0] == p[|p| - 1]
  }

  /** No entity is, through any number of steps, a member of itself. */
  ghost predicate Acyclic(g: Membership) {
    forall p :: !IsCycle(g, p)
  }

  class Search {
    const byId: Membership
    var visiting: set<Key>
    var visited: set<Key>
    ghost var trail: seq<Key>   // the entities being visited, outermost first

    ghost predicate Valid()
      reads this
    {
      && Closed(byId)
      && visiting == Elements(trail) && visiting <= byId.Keys && visited <= byId.Keys
      && visiting !! visited
      && (trail != [] ==> IsPath(byId, trail))
      && (forall k, m | k in visited && m in byId[k] :: m in visited)
      && (forall p | IsCycle(byId, p) :: p[0] !in visited)
    }

    constructor (byId: Membership)
      requires Closed(byId)
      ensures Valid() && this.byId == byId && trail == [] && visited == {}
    {
      this.byId := byId;
      visiting := {};
      visited := {};
      trail := [];
    }

    /** Returns false where the source throws. */
    method Visit(id: Key) returns (ok: bool)
      requires Valid() && id in byId
      requires trail != [] ==> id in byId[trail[|trail| - 1]]
      modifies this
      ensures ok ==> Valid() && trail == old(trail) && old(visited) + {id} <= visited
      ensures !ok ==> !Acyclic(byId)
      decreases byId.Keys - visiting
    {
      if id in visiting {
        ClosesCycle(byId, trail, id);
        return false;
      }
      if id in visited { return true; }
      visiting := visiting + {id};
      trail := trail + [id];
      var members := byId[id];
      for i := 0 to |members|
        invariant Valid() && trail == old(trail) + [id] && old(visited) <= visited
        invariant forall j | 0 <= j < i :: members[j] in visited
      {
        var deeper := Visit(members[i]);
        if !deeper { return false; }
      }
      FinishedHasNoCycle(byId, visited, id);
      visiting := visiting - {id};
      trail := trail[..|trail| - 1];
      visited := visited + {id};
      ok := true;
    }
  }

  /** Coming back to an entity that is being visited closes a cycle. */
  lemma ClosesCycle(g: Membership, trail: seq<Key>, id: Key)
    requires id in g && id in trail && IsPath(g, trail) && id in g[trail[|trail| - 1]]
    ensures !Acyclic(g)
  {
    var k :| 0 <= k < |trail| && trail[k] == id;
    var p := trail[k..] + [id];
    assert forall i | 0 <= i < |trail| - k :: p[i] == trail[k + i];
    assert IsCycle(g, p);
  }

  lemma {:induction false} PathStaysInside(g: Membership, inside: set<Key>, p: seq<Key>, i: nat)
    requires IsPath(g, p) && 1 <= i < |p| && p[1] in inside && inside <= g.Keys
    requires forall k, m | k in inside && m in g[k] :: m in inside
    ensures p[i] in inside
  {
    if i > 1 { PathStaysInside(g, inside, p, i - 1); }
  }

  /** An entity all of whose members are finished lies on no cycle. */
  lemma FinishedHasNoCycle(g: Membership, finished: set<Key>, id: Key)
    requires id in g && id !in finished && finished <= g.Keys && (forall m | m in g[id] :: m in finished)
    requires forall k, m | k in finished && m in g[k] :: m in finished
    ensures forall p | IsCycle(g, p) :: p[0] != id
  {
    forall p | IsCycle(g, p) ensures p[0] != id {
      if p[0] == id { PathStaysInside(g, finished, p, |p| - 1); }
    }
  }

  /** The search from every key accepts exactly the acyclic memberships. */
  method CheckMembership(byId: Membership, keys: seq<Key>) returns (ok: bool)
    requires Closed(byId) && Elements(keys) == byId.Keys
    ensures ok <==> Acyclic(byId)
  {
    var search := new Search(byId);
    for i := 0 to |keys|
      invariant search.Valid() && search.byId == byId && search.trail == []
      invariant forall j | 0 <= j < i :: keys[j] in search.visited
    {
      assert keys[i] in Elements(keys);
      ok := search.Visit(keys[i]);
      if !ok { return; }
    }
    assert forall k | k in byId.Keys :: k in Elements(keys);
    assert byId.Keys <= search.visited;
    ok := true;
  }
}
