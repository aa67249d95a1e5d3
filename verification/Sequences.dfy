/** Sequences without duplicates, and sets that a search has not exhausted. */
module Sequences {

  predicate Distinct<T(==)>(xs: seq<T>) {
    forall a, b | 0 <= a < b < |xs| :: xs[a] != xs[b]
  }

  function Elements<T(==)>(xs: seq<T>): set<T> {
    set x | x in xs
  }

  /** The elements of `part` occur in `all` in the same order. */
  predicate IsSubsequence<T(==)>(part: seq<T>, all: seq<T>)
    decreases |all|
  {
    part == []
    || (all != [] && ((part[0] == all[0] && IsSubsequence(part[1..], all[1..])) || IsSubsequence(part, all[1..])))
  }

  /** Whether the first element is taken or left. */
  lemma Selects<T>(x: T, part: seq<T>, all: seq<T>)
    requires all != [] && x == all[0] && IsSubsequence(part, all[1..])
    ensures IsSubsequence([x] + part, all) && IsSubsequence([] + part, all)
  {
    assert ([x] + part)[1..] == part && [] + part == part;
  }

  lemma {:induction false} SubsequenceTransitive<T>(a: seq<T>, b: seq<T>, c: seq<T>)
    requires IsSubsequence(a, b) && IsSubsequence(b, c)
    ensures IsSubsequence(a, c)
    decreases |c|
  {
    if a != [] && b != [] {
      if b[0] == c[0] && IsSubsequence(b[1..], c[1..]) {
        if a[0] == b[0] && IsSubsequence(a[1..], b[1..]) {
          SubsequenceTransitive(a[1..], b[1..], c[1..]);
        } else {
          SubsequenceTransitive(a, b[1..], c[1..]);
        }
      } else {
        SubsequenceTransitive(a, b, c[1..]);
      }
    }
  }

  lemma Appended<T>(xs: seq<T>, x: T)
    requires Distinct(xs) && x !in Elements(xs)
    ensures Distinct(xs + [x]) && Elements(xs + [x]) == Elements(xs) + {x}
  {
    assert forall i | 0 <= i < |xs| :: xs[i] in Elements(xs);
  }

  lemma {:induction false} DistinctCount<T>(xs: seq<T>)
    requires Distinct(xs)
    ensures |Elements(xs)| == |xs|
  {
    if xs == [] {
      assert Elements(xs) == {};
    } else {
      var front, last := xs[..|xs| - 1], xs[|xs| - 1];
      DistinctCount(front);
      assert Elements(xs) == Elements(front) + {last};
    }
  }

  lemma {:induction false} CountAtMost<T>(xs: seq<T>)
    ensures |Elements(xs)| <= |xs|
  {
    if xs != [] {
      var front, last := xs[..|xs| - 1], xs[|xs| - 1];
      CountAtMost(front);
      assert Elements(xs) == Elements(front) + {last};
    }
  }

  lemma {:induction false} CountIsDistinct<T>(xs: seq<T>)
    requires |Elements(xs)| == |xs|
    ensures Distinct(xs)
  {
    if xs != [] {
      var front, last := xs[..|xs| - 1], xs[|xs| - 1];
      CountAtMost(front);
      assert Elements(xs) == Elements(front) + {last};
      assert last !in Elements(front);
      CountIsDistinct(front);
    }
  }

  /** Comparing the size of the set with the length is a test for duplicates. */
  lemma DistinctExactly<T>(xs: seq<T>)
    ensures Distinct(xs) <==> |Elements(xs)| == |xs|
  {
    if Distinct(xs) { DistinctCount(xs); }
    if |Elements(xs)| == |xs| { CountIsDistinct(xs); }
  }

  /** Adding a member of `all` that was not seen leaves fewer to see. */
  lemma FewerUnseen<T>(all: set<T>, seen: set<T>, x: T)
    requires x in all && x !in seen
    ensures |all - (seen + {x})| < |all - seen|
  {
    assert all - seen == (all - (seen + {x})) + {x};
  }
}
