/**
 * Generic list operations shared by the kickstart lookups and the tree edit
 * operation: order-preserving filtering, "first match or null" and Java's
 * `String.replaceFirst(literal, "")`.
 */
module Sequences {
  import opened Wrappers

  /** The elements of `s` that satisfy `p`, in their original order. */
  function Filter<T>(s: seq<T>, p: T -> bool): (r: seq<T>)
    ensures |r| <= |s|
    ensures forall i :: 0 <= i < |r| ==> r[i] in s && p(r[i])
    ensures forall i :: 0 <= i < |s| && p(s[i]) ==> s[i] in r
  {
    if s == [] then []
    else (if p(s[0]) then [s[0]] else []) + Filter(s[1..], p)
  }

  /** Filtering a concatenation filters each part: the filter keeps relative order. */
  lemma {:induction false} FilterAppend<T>(a: seq<T>, b: seq<T>, p: T -> bool)
    ensures Filter(a + b, p) == Filter(a, p) + Filter(b, p)
  {
    if a == [] {
      assert a + b == b;
    } else {
      assert (a + b)[0] == a[0];
      assert (a + b)[1..] == a[1..] + b;
      FilterAppend(a[1..], b, p);
    }
  }

  /** An element of `s` is in the filtered list exactly when it satisfies `p`. */
  lemma FilterKeeps<T>(s: seq<T>, p: T -> bool, i: nat)
    requires i < |s|
    ensures s[i] in Filter(s, p) <==> p(s[i])
  {
  }

  /** Filtering one more element appends it exactly when it satisfies `p`. */
  lemma FilterSnoc<T>(s: seq<T>, x: T, p: T -> bool)
    ensures Filter(s + [x], p) == Filter(s, p) + (if p(x) then [x] else [])
  {
    FilterAppend(s, [x], p);
    assert [x][1..] == [];
  }

  /** Every element satisfying `p` is kept exactly as often as it occurs; the others never. */
  lemma {:induction false} FilterCount<T>(s: seq<T>, p: T -> bool, x: T)
    ensures multiset(Filter(s, p))[x] == if p(x) then multiset(s)[x] else 0
  {
    if s != [] {
      FilterCount(s[1..], p, x);
      var head := if p(s[0]) then [s[0]] else [];
      assert Filter(s, p) == head + Filter(s[1..], p);
      assert multiset(Filter(s, p)) == multiset(head) + multiset(Filter(s[1..], p));
      assert s == [s[0]] + s[1..];
      assert multiset(s) == multiset([s[0]]) + multiset(s[1..]);
    }
  }

  /** `sub` can be obtained from `s` by deleting elements. */
  predicate IsSubsequence<T(==)>(sub: seq<T>, s: seq<T>)
  {
    if sub == [] then true
    else if s == [] then false
    else if sub[0] == s[0] then IsSubsequence(sub[1..], s[1..])
    else IsSubsequence(sub, s[1..])
  }

  lemma {:induction false} FilterIsSubsequence<T>(s: seq<T>, p: T -> bool)
    ensures IsSubsequence(Filter(s, p), s)
  {
    if s != [] {
      FilterIsSubsequence(s[1..], p);
      if p(s[0]) {
        assert Filter(s, p) == [s[0]] + Filter(s[1..], p);
        assert Filter(s, p)[1..] == Filter(s[1..], p);
      } else {
        assert Filter(s, p) == Filter(s[1..], p);
      }
    }
  }

  /** The first element of `s` that satisfies `p`, or None. */
  function FirstWhere<T>(s: seq<T>, p: T -> bool): (r: Option<T>)
    ensures r.Some? ==> r.value in s && p(r.value)
    ensures r.None? <==> forall i :: 0 <= i < |s| ==> !p(s[i])
  {
    if s == [] then None
    else if p(s[0]) then Some(s[0])
    else FirstWhere(s[1..], p)
  }

  /** Index `i` holds the first element of `s` that satisfies `p`. */
  ghost predicate IsFirstWhere<T>(s: seq<T>, p: T -> bool, i: int)
  {
    0 <= i < |s| && p(s[i]) && forall j :: 0 <= j < i ==> !p(s[j])
  }

  /** What FirstWhere finds is the head of the filtered list: the first match, in order. */
  lemma {:induction false} FirstWhereIsHeadOfFilter<T>(s: seq<T>, p: T -> bool)
    ensures FirstWhere(s, p) == if Filter(s, p) == [] then None else Some(Filter(s, p)[0])
    ensures FirstWhere(s, p).Some? ==> exists i :: IsFirstWhere(s, p, i) && s[i] == FirstWhere(s, p).value
  {
    if s != [] {
      FirstWhereIsHeadOfFilter(s[1..], p);
      if p(s[0]) {
        assert IsFirstWhere(s, p, 0);
      } else if FirstWhere(s, p).Some? {
        var i :| IsFirstWhere(s[1..], p, i) && s[1..][i] == FirstWhere(s, p).value;
        assert IsFirstWhere(s, p, i + 1);
      }
    }
  }

  /** `pat` occurs in `s` at position `i`. */
  predicate OccursAt<T(==)>(s: seq<T>, pat: seq<T>, i: nat)
  {
    i + |pat| <= |s| && s[i..i + |pat|] == pat
  }

  /** `s` with its first occurrence of `pat` removed; `s` itself when `pat` does not occur. */
  function RemoveFirst<T(==)>(s: seq<T>, pat: seq<T>): (r: seq<T>)
  {
    if OccursAt(s, pat, 0) then s[|pat|..]
    else if s == [] then []
    else [s[0]] + RemoveFirst(s[1..], pat)
  }

  /** An occurrence in the tail is an occurrence one position further in the whole. */
  lemma OccursAtTail<T>(s: seq<T>, pat: seq<T>, j: nat)
    requires s != []
    ensures OccursAt(s[1..], pat, j) <==> OccursAt(s, pat, j + 1)
  {
  }

  /**
   * RemoveFirst cuts out exactly the leftmost occurrence of `pat`, and leaves
   * a string without an occurrence alone.
   */
  lemma {:induction false} RemoveFirstSpec<T>(s: seq<T>, pat: seq<T>, i: nat)
    requires OccursAt(s, pat, i)
    requires forall j :: 0 <= j < i ==> !OccursAt(s, pat, j)
    ensures RemoveFirst(s, pat) == s[..i] + s[i + |pat|..]
  {
    if i > 0 {
      assert !OccursAt(s, pat, 0);
      forall j | 0 <= j < i - 1
        ensures !OccursAt(s[1..], pat, j)
      {
        OccursAtTail(s, pat, j);
      }
      OccursAtTail(s, pat, i - 1);
      RemoveFirstSpec(s[1..], pat, i - 1);
      assert s[..i] == [s[0]] + s[1..][..i - 1];
      assert s[i + |pat|..] == s[1..][i - 1 + |pat|..];
    }
  }

  lemma {:induction false} RemoveFirstAbsent<T>(s: seq<T>, pat: seq<T>)
    requires forall j :: 0 <= j <= |s| ==> !OccursAt(s, pat, j)
    ensures RemoveFirst(s, pat) == s
  {
    assert !OccursAt(s, pat, 0);
    if s != [] {
      forall j | 0 <= j <= |s| - 1
        ensures !OccursAt(s[1..], pat, j)
      {
        OccursAtTail(s, pat, j);
      }
      RemoveFirstAbsent(s[1..], pat);
    }
  }
}
