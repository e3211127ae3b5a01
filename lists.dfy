/** Sequence helpers shared by the game model: an optional value, filtering,
    the list operation `remove` (drop the first occurrence) and distinctness. */
module Lists {

  datatype Option<T> = None | Some(value: T)

  /** The elements of `s` that satisfy `keep`, in their original order. */
  function Filter<T>(s: seq<T>, keep: T -> bool): (r: seq<T>)
    ensures |r| <= |s|
    ensures forall x :: x in r ==> x in s && keep(x)
  {
    if s == [] then []
    else Filter(s[..|s| - 1], keep) + (if keep(s[|s| - 1]) then [s[|s| - 1]] else [])
  }

  /** `a` can be obtained from `b` by deleting elements: order is kept. */
  predicate IsSubsequence<T(==)>(a: seq<T>, b: seq<T>)
    decreases |b|
  {
    if a == [] then true
    else if b == [] then false
    else if a[|a| - 1] == b[|b| - 1] then IsSubsequence(a[..|a| - 1], b[..|b| - 1])
    else IsSubsequence(a, b[..|b| - 1])
  }

  /** The element at position `i`; used as the trigger of `Distinct`, so that
      the pairwise fact is only instantiated where a proof asks for it. */
  ghost function At<T>(s: seq<T>, i: int): T
    requires 0 <= i < |s|
  {
    s[i]
  }

  /** No element occurs twice. */
  ghost predicate Distinct<T>(s: seq<T>)
  {
    forall i, j {:trigger At(s, i), At(s, j)} :: 0 <= i < j < |s| ==> At(s, i) != At(s, j)
  }

  /** Positions of a duplicate-free sequence hold different elements. */
  lemma DistinctPairwise<T>(s: seq<T>)
    requires Distinct(s)
    ensures forall i, j :: 0 <= i < j < |s| ==> s[i] != s[j]
  {
    forall i, j | 0 <= i < j < |s|
      ensures s[i] != s[j]
    {
      assert At(s, i) != At(s, j);
    }
  }

  /** In a duplicate-free sequence no element occurs before its position. */
  lemma DistinctNotBefore<T>(s: seq<T>, j: nat)
    requires Distinct(s) && j < |s|
    ensures s[j] !in s[..j]
  {
    DistinctPairwise(s);
  }

  /** A prefix of a duplicate-free sequence is duplicate-free. */
  lemma DistinctPrefix<T>(s: seq<T>, n: nat)
    requires Distinct(s) && n <= |s|
    ensures Distinct(s[..n])
  {
    forall i, j | 0 <= i < j < n
      ensures At(s[..n], i) != At(s[..n], j)
    {
      assert At(s, i) != At(s, j);
    }
  }

  /** Appending an element that does not occur yet keeps a sequence duplicate-free. */
  lemma DistinctSnoc<T>(s: seq<T>, x: T)
    requires Distinct(s) && x !in s
    ensures Distinct(s + [x])
  {
    var t := s + [x];
    forall i, j | 0 <= i < j < |t|
      ensures At(t, i) != At(t, j)
    {
      if j < |s| {
        assert At(s, i) != At(s, j);
      } else {
        assert At(t, i) == s[i];
      }
    }
  }

  /** Python's `list.remove(x)`: drop the first element equal to `x`. */
  function RemoveFirst<T(==)>(s: seq<T>, x: T): (r: seq<T>)
    requires x in s
    ensures |r| == |s| - 1
  {
    if s[0] == x then s[1..] else [s[0]] + RemoveFirst(s[1..], x)
  }

  /** Removing an element that does not occur before position |a| cuts it out there. */
  lemma {:induction false} RemoveFirstAt<T>(a: seq<T>, x: T, b: seq<T>)
    requires x !in a
    ensures RemoveFirst(a + [x] + b, x) == a + b
  {
    if a != [] {
      assert (a + [x] + b)[1..] == a[1..] + [x] + b;
      RemoveFirstAt(a[1..], x, b);
    } else {
      assert (a + [x] + b)[1..] == b;
    }
  }

  /** One step of walking a copy of a duplicate-free list and removing the
      rejected elements from the list itself: after the first `j` elements
      the list is the kept part of them followed by the rest, and removing
      (or keeping) element `j` extends that by one. */
  lemma FilterStep<T>(s: seq<T>, j: nat, keep: T -> bool)
    requires Distinct(s) && j < |s|
    ensures var cur := Filter(s[..j], keep) + s[j..];
      && (keep(s[j]) ==> cur == Filter(s[..j + 1], keep) + s[j + 1..])
      && (!keep(s[j]) ==> s[j] in cur && RemoveFirst(cur, s[j]) == Filter(s[..j + 1], keep) + s[j + 1..])
  {
    var kept := Filter(s[..j], keep);
    assert s[..j + 1] == s[..j] + [s[j]];
    assert s[..j + 1][..j] == s[..j];
    assert s[j..] == [s[j]] + s[j + 1..];
    if !keep(s[j]) {
      DistinctNotBefore(s, j);
      assert Filter(s[..j + 1], keep) == kept;
      assert kept + s[j..] == kept + [s[j]] + s[j + 1..];
      RemoveFirstAt(kept, s[j], s[j + 1..]);
    } else {
      assert Filter(s[..j + 1], keep) == kept + [s[j]];
    }
  }

  /** Filtering by `f` then by `g` is filtering once by their conjunction. */
  lemma {:induction false} FilterFilter<T>(s: seq<T>, f: T -> bool, g: T -> bool, h: T -> bool)
    requires forall x :: h(x) == (f(x) && g(x))
    ensures Filter(Filter(s, f), g) == Filter(s, h)
  {
    if s != [] {
      var init, last := s[..|s| - 1], s[|s| - 1];
      FilterFilter(init, f, g, h);
      var fi := Filter(init, f);
      if f(last) {
        assert Filter(s, f) == fi + [last];
        assert (fi + [last])[..|fi|] == fi;
        assert Filter(fi + [last], g) == Filter(fi, g) + (if g(last) then [last] else []);
      } else {
        assert Filter(s, f) == fi;
        assert !h(last);
      }
    }
  }

  /** A test every element passes filters nothing out. */
  lemma {:induction false} FilterAll<T>(s: seq<T>, keep: T -> bool)
    requires forall x :: keep(x)
    ensures Filter(s, keep) == s
  {
    if s != [] {
      var init, last := s[..|s| - 1], s[|s| - 1];
      FilterAll(init, keep);
      assert s == init + [last];
    }
  }

  /** A filtered sequence is a subsequence of the original. */
  lemma {:induction false} FilterIsSubsequence<T>(s: seq<T>, keep: T -> bool)
    ensures IsSubsequence(Filter(s, keep), s)
  {
    if s != [] {
      var init, last := s[..|s| - 1], s[|s| - 1];
      FilterIsSubsequence(init, keep);
      if keep(last) {
        var fi := Filter(init, keep);
        assert (fi + [last])[..|fi|] == fi;
      } else {
        assert s == init + [last];
        assert Filter(s, keep) == Filter(init, keep);
        DropLastKeepsSubsequence(Filter(init, keep), init, last);
      }
    }
  }

  lemma {:induction false} DropLastKeepsSubsequence<T>(a: seq<T>, b: seq<T>, y: T)
    requires IsSubsequence(a, b)
    ensures IsSubsequence(a, b + [y])
    decreases |b|, 1
  {
    assert (b + [y])[..|b|] == b;
    if a != [] && a[|a| - 1] == y {
      // IsSubsequence(a, b) also holds after shrinking both ends
      SubsequenceDropLast(a, b);
    }
  }

  lemma {:induction false} SubsequenceDropLast<T>(a: seq<T>, b: seq<T>)
    requires a != [] && IsSubsequence(a, b)
    ensures IsSubsequence(a[..|a| - 1], b)
    decreases |b|, 0
  {
    if a[|a| - 1] == b[|b| - 1] {
      DropLastKeepsSubsequence(a[..|a| - 1], b[..|b| - 1], b[|b| - 1]);
      assert b[..|b| - 1] + [b[|b| - 1]] == b;
    } else {
      SubsequenceDropLast(a, b[..|b| - 1]);
      DropLastKeepsSubsequence(a[..|a| - 1], b[..|b| - 1], b[|b| - 1]);
      assert b[..|b| - 1] + [b[|b| - 1]] == b;
    }
  }

  /** Everything in `s` that `keep` accepts survives the filter. */
  lemma {:induction false} FilterKeeps<T>(s: seq<T>, keep: T -> bool, x: T)
    requires x in s && keep(x)
    ensures x in Filter(s, keep)
  {
    var init, last := s[..|s| - 1], s[|s| - 1];
    if x != last {
      assert s == init + [last];
      FilterKeeps(init, keep, x);
    }
  }

  /** Filtering a duplicate-free sequence leaves it duplicate-free. */
  lemma {:induction false} FilterDistinct<T>(s: seq<T>, keep: T -> bool)
    requires Distinct(s)
    ensures Distinct(Filter(s, keep))
  {
    if s != [] {
      var init, last := s[..|s| - 1], s[|s| - 1];
      DistinctPrefix(s, |s| - 1);
      DistinctNotBefore(s, |s| - 1);
      FilterDistinct(init, keep);
      if keep(last) {
        assert last !in Filter(init, keep);
        DistinctSnoc(Filter(init, keep), last);
        assert Filter(s, keep) == Filter(init, keep) + [last];
      } else {
        assert Filter(s, keep) == Filter(init, keep);
      }
    }
  }
}
