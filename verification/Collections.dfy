/** Facts about sets and sequences that several modules use. */
module Collections {
  // ---- sizes of sets ---------------------------------------------------------------------

  lemma SplitSize<T>(whole: set<T>, a: set<T>, b: set<T>)
    requires whole == a + b && a !! b
    ensures |whole| == |a| + |b|
  {
  }

  lemma SubsetSize<T>(s: set<T>, t: set<T>)
    requires s <= t
    ensures |s| <= |t|
  {
    SplitSize(t, s, t - s);
  }

  lemma Grown<T>(s: set<T>, t: set<T>, x: T, here: bool)
    requires x !in s && t == if here then s + {x} else s
    ensures |t| == |s| + if here then 1 else 0
  {
  }

  lemma Balance<T>(before: set<T>, after: set<T>, added: set<T>, removed: set<T>)
    requires removed <= before && added !! before && after == (before - removed) + added
    ensures |after| + |removed| == |before| + |added|
  {
    SplitSize(after, before - removed, added);
    SplitSize(before, before - removed, removed);
  }

  // ---- visiting a set ---------------------------------------------------------------------

  /** The elements still to visit and those visited make up the whole. */
  predicate Parts<T(==)>(left: set<T>, visited: set<T>, all: set<T>) {
    left + visited == all && left !! visited
  }

  lemma VisitOne<T>(left: set<T>, visited: set<T>, all: set<T>, x: T)
    requires Parts(left, visited, all) && x in left
    ensures Parts(left - {x}, visited + {x}, all) && x in all && x !in visited
  {
  }

  lemma VisitedAll<T>(visited: set<T>, all: set<T>)
    requires Parts({}, visited, all)
    ensures visited == all
  {
  }

  // ---- sequences ---------------------------------------------------------------------------

  lemma Regroup<T>(a: seq<T>, b: seq<T>, c: seq<T>)
    ensures a + (b + c) == a + b + c
  {
  }

  lemma InConcat<T>(x: T, s: seq<T>, t: seq<T>)
    ensures x in s + t <==> x in s || x in t
  {
  }

  lemma SnocMembers<T>(s: seq<T>, x: T)
    requires s != []
    ensures x in s <==> x in s[..|s| - 1] || x == s[|s| - 1]
  {
    assert s == s[..|s| - 1] + [s[|s| - 1]];
  }
}
