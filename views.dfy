/**
 * The derived-view combinators every page re-runs over its snapshot: an order-preserving
 * `filter`, its `length` (a KPI count) and `slice(0, n)`.
 */
module Views {

  /** `s.filter(p)`: the elements satisfying `p`, in their original order. */
  function Filter<T>(s: seq<T>, p: T -> bool): (r: seq<T>)
    ensures |r| <= |s|
    ensures forall k :: 0 <= k < |r| ==> p(r[k]) && r[k] in s
    ensures forall k :: 0 <= k < |s| && p(s[k]) ==> s[k] in r
    decreases |s|
  {
    if |s| == 0 then []
    else (if p(s[0]) then [s[0]] else []) + Filter(s[1..], p)
  }

  /** `if (active) s = s.filter(p)`: a filter that only applies when its criterion is selected. */
  function FilterIf<T>(s: seq<T>, active: bool, p: T -> bool): seq<T> {
    if active then Filter(s, p) else s
  }

  /** Filters by predicates that agree everywhere give the same result. */
  lemma {:induction false} FilterExtensional<T>(s: seq<T>, p: T -> bool, q: T -> bool)
    requires forall x :: p(x) == q(x)
    ensures Filter(s, p) == Filter(s, q)
    decreases |s|
  {
    if |s| > 0 {
      FilterExtensional(s[1..], p, q);
    }
  }

  /** A guarded filter is the filter by "criterion not selected, or it holds". */
  lemma FilterIfIsFilter<T>(s: seq<T>, active: bool, p: T -> bool, q: T -> bool)
    requires forall x :: q(x) == (!active || p(x))
    ensures FilterIf(s, active, p) == Filter(s, q)
  {
    if active {
      FilterExtensional(s, p, q);
    } else {
      FilterAll(s, q);
    }
  }

  /** `s.filter(p).length`. */
  function Count<T>(s: seq<T>, p: T -> bool): nat {
    |Filter(s, p)|
  }

  /** The positions of `s` whose element satisfies `p`. */
  ghost function Positions<T>(s: seq<T>, p: T -> bool): set<nat> {
    set i: nat | i < |s| && p(s[i])
  }

  /** Every position moved one place on. */
  ghost function Shift(a: set<nat>): set<nat> {
    set i | i in a :: i + 1
  }

  /** Moving every position one place on keeps their number. */
  lemma {:induction false} ShiftSize(a: set<nat>)
    ensures |Shift(a)| == |a|
    decreases a
  {
    if a != {} {
      var x :| x in a;
      var b := a - {x};
      ShiftSize(b);
      ShiftAdd(b, x);
      assert b + {x} == a;
    }
  }

  /** Adding a position the set lacks adds exactly its successor to the shifted set. */
  lemma ShiftAdd(b: set<nat>, x: nat)
    requires x !in b
    ensures Shift(b + {x}) == Shift(b) + {x + 1}
    ensures x + 1 !in Shift(b)
  {
    forall j | j in Shift(b + {x})
      ensures j in Shift(b) + {x + 1}
    {
      var i :| i in b + {x} && j == i + 1;
      if i != x {
        assert i in b;
      }
    }
  }

  /** The positions of a non-empty list: the head's, and those of the tail moved on by one. */
  lemma PositionsSplit<T>(s: seq<T>, p: T -> bool)
    requires |s| > 0
    ensures Positions(s, p) == (if p(s[0]) then {0} else {}) + Shift(Positions(s[1..], p))
    ensures 0 !in Shift(Positions(s[1..], p))
  {
    var rest := Positions(s[1..], p);
    forall i: nat | i in Positions(s, p) && i > 0
      ensures i in Shift(rest)
    {
      assert s[1..][i - 1] == s[i];
      assert i - 1 in rest;
    }
    forall j | j in Shift(rest)
      ensures j in Positions(s, p)
    {
      var i :| i in rest && j == i + 1;
      assert s[1..][i] == s[j];
    }
  }

  /** A count is the number of positions whose element satisfies the predicate. */
  lemma {:induction false} CountIsPositions<T>(s: seq<T>, p: T -> bool)
    ensures Count(s, p) == |Positions(s, p)|
    decreases |s|
  {
    if |s| > 0 {
      var rest := Positions(s[1..], p);
      CountIsPositions(s[1..], p);
      ShiftSize(rest);
      PositionsSplit(s, p);
      assert Filter(s, p) == (if p(s[0]) then [s[0]] else []) + Filter(s[1..], p);
    }
  }

  /**
   * A filter keeps every element that satisfies the predicate as often as it occurs, and
   * no other: together with FilterIsSubsequence this fixes the result.
   */
  lemma {:induction false} FilterKeepsMultiplicity<T>(s: seq<T>, p: T -> bool)
    ensures forall x :: multiset(Filter(s, p))[x] == (if p(x) then multiset(s)[x] else 0)
    decreases |s|
  {
    if |s| > 0 {
      FilterKeepsMultiplicity(s[1..], p);
      assert s == [s[0]] + s[1..];
      var head := if p(s[0]) then [s[0]] else [];
      assert Filter(s, p) == head + Filter(s[1..], p);
      assert multiset(Filter(s, p)) == multiset(head) + multiset(Filter(s[1..], p));
      assert multiset(s) == multiset([s[0]]) + multiset(s[1..]);
    }
  }

  /** `s.slice(0, n)`. */
  function Take<T>(s: seq<T>, n: nat): (r: seq<T>)
    ensures |r| == (if n < |s| then n else |s|)
    ensures r == s[..|r|]
  {
    if n < |s| then s[..n] else s
  }

  /** `r` is `s` with some elements left out and the rest kept in order. */
  ghost predicate IsSubsequence<T>(r: seq<T>, s: seq<T>)
    decreases |s|
  {
    if |r| == 0 then true
    else if |s| == 0 then false
    else if r[0] == s[0] then IsSubsequence(r[1..], s[1..])
    else IsSubsequence(r, s[1..])
  }

  /** Every sequence is a subsequence of itself. */
  lemma {:induction false} SubsequenceReflexive<T>(s: seq<T>)
    ensures IsSubsequence(s, s)
    decreases |s|
  {
    if |s| > 0 {
      SubsequenceReflexive(s[1..]);
    }
  }

  /** A filter keeps the relative order of what it keeps. */
  lemma {:induction false} FilterIsSubsequence<T>(s: seq<T>, p: T -> bool)
    ensures IsSubsequence(Filter(s, p), s)
    decreases |s|
  {
    if |s| > 0 {
      var rest := Filter(s[1..], p);
      FilterIsSubsequence(s[1..], p);
      if p(s[0]) {
        assert Filter(s, p) == [s[0]] + rest;
        assert ([s[0]] + rest)[1..] == rest;
      } else {
        assert Filter(s, p) == rest;
        assert |rest| > 0 ==> p(rest[0]);
      }
    }
  }

  /** A filter whose predicate holds everywhere is the identity, order included. */
  lemma {:induction false} FilterAll<T>(s: seq<T>, p: T -> bool)
    requires forall k :: 0 <= k < |s| ==> p(s[k])
    ensures Filter(s, p) == s
    decreases |s|
  {
    if |s| > 0 {
      FilterAll(s[1..], p);
      assert [s[0]] + s[1..] == s;
    }
  }

  /** Two filters in a row are one filter by the conjunction of their predicates. */
  lemma {:induction false} FilterFuse<T>(s: seq<T>, p: T -> bool, q: T -> bool, both: T -> bool)
    requires forall x :: both(x) == (p(x) && q(x))
    ensures Filter(Filter(s, p), q) == Filter(s, both)
    decreases |s|
  {
    if |s| > 0 {
      FilterFuse(s[1..], p, q, both);
      var rest := Filter(s[1..], p);
      if p(s[0]) {
        assert Filter(s, p) == [s[0]] + rest;
        assert ([s[0]] + rest)[1..] == rest;
      } else {
        assert Filter(s, p) == rest;
      }
    }
  }

  /** Filtering by a weaker predicate keeps at least as many elements. */
  lemma {:induction false} CountMonotone<T>(s: seq<T>, p: T -> bool, q: T -> bool)
    requires forall k :: 0 <= k < |s| && p(s[k]) ==> q(s[k])
    ensures Count(s, p) <= Count(s, q)
    decreases |s|
  {
    if |s| > 0 {
      CountMonotone(s[1..], p, q);
    }
  }

  /** Counts by pairwise exclusive predicates add up to at most the length. */
  lemma {:induction false} CountDisjoint3<T>(s: seq<T>, p: T -> bool, q: T -> bool, r: T -> bool)
    requires forall k :: 0 <= k < |s| ==> !(p(s[k]) && q(s[k])) && !(p(s[k]) && r(s[k])) && !(q(s[k]) && r(s[k]))
    ensures Count(s, p) + Count(s, q) + Count(s, r) <= |s|
    decreases |s|
  {
    if |s| > 0 {
      CountDisjoint3(s[1..], p, q, r);
    }
  }

  /** Counts by two exclusive predicates add up to at most the length. */
  lemma {:induction false} CountDisjoint2<T>(s: seq<T>, p: T -> bool, q: T -> bool)
    requires forall k :: 0 <= k < |s| ==> !(p(s[k]) && q(s[k]))
    ensures Count(s, p) + Count(s, q) <= |s|
    decreases |s|
  {
    if |s| > 0 {
      CountDisjoint2(s[1..], p, q);
    }
  }

  /** `s` in the opposite order. */
  function Reversed<T>(s: seq<T>): (r: seq<T>)
    ensures |r| == |s|
    ensures forall k :: 0 <= k < |s| ==> r[k] == s[|s| - 1 - k]
  {
    if s == [] then [] else Reversed(s[1..]) + [s[0]]
  }

  /** Moving the first element of `s` onto the front of `t` keeps the reversed-then-appended order. */
  lemma ReversedCons<T>(s: seq<T>, t: seq<T>)
    requires s != []
    ensures Reversed(s[1..]) + ([s[0]] + t) == Reversed(s) + t
  {
    var a := Reversed(s[1..]);
    assert Reversed(s) == a + [s[0]];
    ConcatAssoc(a, [s[0]], t);
  }

  lemma ConcatAssoc<T>(a: seq<T>, b: seq<T>, c: seq<T>)
    ensures (a + b) + c == a + (b + c)
  {
  }

  /** The first `n` elements of a subsequence of `s` are a subsequence of `s`. */
  lemma {:induction false} TakeOfSubsequence<T>(r: seq<T>, s: seq<T>, n: nat)
    requires IsSubsequence(r, s)
    ensures IsSubsequence(Take(r, n), s)
    decreases |s|
  {
    var t := Take(r, n);
    if |t| > 0 {
      if r[0] == s[0] {
        assert t[0] == s[0];
        assert t[1..] == Take(r[1..], n - 1);
        TakeOfSubsequence(r[1..], s[1..], n - 1);
      } else {
        assert t[0] != s[0];
        TakeOfSubsequence(r, s[1..], n);
      }
    }
  }
}
