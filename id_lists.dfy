/**
 * Lists of row ids, as a query returns them, and the query itself: a scan of the ids of a
 * table from 1 up to (not including) its next id, keeping those that match a filter.
 */
module IdLists {
  /** The ids listed in `s`. */
  function Members(s: seq<int>): set<int> {
    set x | x in s
  }

  predicate Distinct(s: seq<int>) {
    forall i, j | 0 <= i < j < |s| :: s[i] != s[j]
  }

  /** Ids listed in strictly increasing order, as a query ordered by id returns them. */
  predicate Increasing(s: seq<int>) {
    forall i, j | 0 <= i < j < |s| :: s[i] < s[j]
  }

  lemma IncreasingIsDistinct(s: seq<int>)
    requires Increasing(s)
    ensures Distinct(s)
  {
  }

  /** A list without repeats has as many elements as it has members. */
  lemma {:induction false} DistinctCardinality(s: seq<int>)
    requires Distinct(s)
    ensures |Members(s)| == |s|
  {
    if s != [] {
      var init := s[..|s| - 1];
      assert Distinct(init);
      DistinctCardinality(init);
      assert Members(s) == Members(init) + {s[|s| - 1]};
      assert s[|s| - 1] !in init;
    }
  }

  /** Two lists without repeats and without common members make one without repeats. */
  lemma DistinctConcat(a: seq<int>, b: seq<int>)
    requires Distinct(a) && Distinct(b) && Members(a) !! Members(b)
    ensures Distinct(a + b) && Members(a + b) == Members(a) + Members(b)
  {
    forall i, j | 0 <= i < j < |a + b|
      ensures (a + b)[i] != (a + b)[j]
    {
      if i < |a| && j >= |a| {
        assert (a + b)[i] in Members(a) && (a + b)[j] in Members(b);
      }
    }
  }

  /** The elements of `s` that satisfy `p`, in their order in `s`. */
  function Filter(s: seq<int>, p: int -> bool): seq<int> {
    if s == [] then []
    else Filter(s[..|s| - 1], p) + (if p(s[|s| - 1]) then [s[|s| - 1]] else [])
  }

  /** Filtering keeps exactly the members that satisfy the filter. */
  lemma {:induction false} FilterMembers(s: seq<int>, p: int -> bool)
    ensures Members(Filter(s, p)) == set x | x in s && p(x)
  {
    if s != [] {
      var init := s[..|s| - 1];
      FilterMembers(init, p);
      assert s == init + [s[|s| - 1]];
      assert (set x | x in s && p(x)) == (set x | x in init && p(x)) + (if p(s[|s| - 1]) then {s[|s| - 1]} else {});
    }
  }

  /** Filtering an increasing list gives an increasing list. */
  lemma {:induction false} FilterIncreasing(s: seq<int>, p: int -> bool)
    requires Increasing(s)
    ensures Increasing(Filter(s, p))
  {
    if s != [] {
      var init := s[..|s| - 1];
      var last := s[|s| - 1];
      FilterIncreasing(init, p);
      FilterMembers(init, p);
      var f := Filter(init, p);
      forall k | 0 <= k < |f|
        ensures f[k] < last
      {
        assert f[k] in Members(f);
        assert f[k] in init;
      }
    }
  }

  /** A filter and its complement split a list: their lengths add up to its length. */
  lemma {:induction false} FilterSplitsLength(s: seq<int>, p: int -> bool, q: int -> bool)
    requires forall x :: q(x) == !p(x)
    ensures |Filter(s, p)| + |Filter(s, q)| == |s|
  {
    if s != [] {
      FilterSplitsLength(s[..|s| - 1], p, q);
    }
  }

  /** The members of a prefix one element longer. */
  lemma MembersOfLongerPrefix(s: seq<int>, i: int)
    requires 0 <= i < |s|
    ensures Members(s[..i + 1]) == Members(s[..i]) + {s[i]}
  {
    assert s[..i + 1] == s[..i] + [s[i]];
  }

  /** In an increasing list, an element is not among the ones before it. */
  lemma IncreasingPrefixExcludes(s: seq<int>, i: int)
    requires Increasing(s) && 0 <= i < |s|
    ensures s[i] !in Members(s[..i])
  {
  }

  /**
   * The ids from 1 below `limit` that satisfy `matches`, in increasing order: a query of a
   * table whose ids all lie below `limit`.
   */
  method SelectIds(limit: int, matches: int -> bool) returns (ids: seq<int>)
    requires limit >= 1
    ensures Members(ids) == set x | 1 <= x < limit && matches(x)
    ensures Increasing(ids)
  {
    ids := [];
    var x := 1;
    while x < limit
      invariant 1 <= x <= limit
      invariant Members(ids) == set y | 1 <= y < x && matches(y)
      invariant Increasing(ids) && forall k | 0 <= k < |ids| :: ids[k] < x
    {
      ghost var before := set y | 1 <= y < x && matches(y);
      if matches(x) {
        assert Members(ids + [x]) == Members(ids) + {x};
        assert (set y | 1 <= y < x + 1 && matches(y)) == before + {x};
        ids := ids + [x];
      } else {
        assert (set y | 1 <= y < x + 1 && matches(y)) == before;
      }
      x := x + 1;
    }
  }
}
