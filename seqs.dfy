/** Generic sequence operations shared by the scraper and the dashboard:
    order-preserving filtering (a boolean row mask or a comprehension with an
    `if`), the subsequence relation that states "order is kept", and the
    first-match search behind Python's `next(generator, default)`. */
module Seqs {
  import opened Wrappers

  /** The elements of `s` that satisfy `p`, in their original order. */
  function Filter<T>(s: seq<T>, p: T -> bool): (r: seq<T>)
    ensures |r| <= |s|
    ensures forall x :: x in r ==> x in s && p(x)
  {
    if |s| == 0 then []
    else if p(s[0]) then [s[0]] + Filter(s[1..], p)
    else Filter(s[1..], p)
  }

  /** `a` can be obtained from `b` by deleting elements: order is preserved. */
  predicate IsSubsequence<T(==)>(a: seq<T>, b: seq<T>)
    decreases |b|
  {
    |a| == 0 || (|b| > 0 && ((a[0] == b[0] && IsSubsequence(a[1..], b[1..])) || IsSubsequence(a, b[1..])))
  }

  lemma {:induction false} FilterAppend<T>(a: seq<T>, b: seq<T>, p: T -> bool)
    ensures Filter(a + b, p) == Filter(a, p) + Filter(b, p)
    decreases |a|
  {
    if |a| == 0 {
      assert a + b == b;
    } else {
      assert (a + b)[1..] == a[1..] + b;
      FilterAppend(a[1..], b, p);
    }
  }

  /** Every element that satisfies `p` survives the filter. */
  lemma {:induction false} FilterComplete<T>(s: seq<T>, p: T -> bool, x: T)
    requires x in s && p(x)
    ensures x in Filter(s, p)
    decreases |s|
  {
    if s[0] != x {
      FilterComplete(s[1..], p, x);
    }
  }

  /** Membership in the filtered sequence, both directions. */
  lemma FilterMembers<T>(s: seq<T>, p: T -> bool)
    ensures forall x :: x in Filter(s, p) <==> x in s && p(x)
  {
    forall x | x in s && p(x)
      ensures x in Filter(s, p)
    {
      FilterComplete(s, p, x);
    }
  }

  /** The filter keeps every occurrence of a satisfying element and none of
      the others. */
  lemma {:induction false} FilterCount<T>(s: seq<T>, p: T -> bool, x: T)
    ensures multiset(Filter(s, p))[x] == if p(x) then multiset(s)[x] else 0
    decreases |s|
  {
    if |s| > 0 {
      assert s == [s[0]] + s[1..];
      FilterCount(s[1..], p, x);
    }
  }

  /** Filtering two arrangements of the same elements keeps the same elements. */
  lemma FilterPermutation<T>(a: seq<T>, b: seq<T>, p: T -> bool)
    requires multiset(a) == multiset(b)
    ensures multiset(Filter(a, p)) == multiset(Filter(b, p))
  {
    var fa, fb := multiset(Filter(a, p)), multiset(Filter(b, p));
    forall x
      ensures fa[x] == fb[x]
    {
      FilterCount(a, p, x);
      FilterCount(b, p, x);
    }
    MultisetExtensional(fa, fb);
  }

  lemma MultisetExtensional<T>(m1: multiset<T>, m2: multiset<T>)
    requires forall x :: m1[x] == m2[x]
    ensures m1 == m2
  {
  }

  /** The filter keeps the relative order of what it keeps. */
  lemma {:induction false} FilterIsSubsequence<T>(s: seq<T>, p: T -> bool)
    ensures IsSubsequence(Filter(s, p), s)
    decreases |s|
  {
    if |s| > 0 {
      FilterIsSubsequence(s[1..], p);
      if p(s[0]) {
        assert Filter(s, p)[1..] == Filter(s[1..], p);
      }
    }
  }

  /** Some element satisfies the predicate. */
  predicate Any<T>(s: seq<T>, p: T -> bool)
  {
    exists k :: 0 <= k < |s| && p(s[k])
  }

  /** One more element satisfies the predicate for the longer prefix exactly
      when the shorter prefix or the new element does. */
  lemma AnyPrefixExtend<T>(s: seq<T>, k: nat, p: T -> bool)
    requires k < |s|
    ensures Any(s[..k + 1], p) <==> Any(s[..k], p) || p(s[k])
  {
    var before, after := s[..k], s[..k + 1];
    if Any(after, p) {
      var j :| 0 <= j < |after| && p(after[j]);
      if j < k {
        assert after[j] == before[j];
      } else {
        assert after[j] == s[k];
      }
    }
    if Any(before, p) {
      var j :| 0 <= j < |before| && p(before[j]);
      assert after[j] == before[j];
    }
    if p(s[k]) {
      assert after[k] == s[k];
    }
  }

  /** A predicate that holds everywhere leaves the sequence unchanged. */
  lemma {:induction false} FilterAll<T>(s: seq<T>, p: T -> bool)
    requires forall x :: x in s ==> p(x)
    ensures Filter(s, p) == s
    decreases |s|
  {
    if |s| > 0 {
      FilterAll(s[1..], p);
    }
  }

  /** A predicate that holds nowhere leaves nothing. */
  lemma {:induction false} FilterNone<T>(s: seq<T>, p: T -> bool)
    requires forall x :: x in s ==> !p(x)
    ensures Filter(s, p) == []
    decreases |s|
  {
    if |s| > 0 {
      FilterNone(s[1..], p);
    }
  }

  lemma {:induction false} SubsequenceTransitive<T>(a: seq<T>, b: seq<T>, c: seq<T>)
    requires IsSubsequence(a, b) && IsSubsequence(b, c)
    ensures IsSubsequence(a, c)
    decreases |c|
  {
    if |a| > 0 {
      if b[0] == c[0] && IsSubsequence(b[1..], c[1..]) {
        if a[0] == b[0] && IsSubsequence(a[1..], b[1..]) {
          SubsequenceTransitive(a[1..], b[1..], c[1..]);
        } else {
          SubsequenceTransitive(a, b[1..], c[1..]);
        }
      } else {
        SubsequenceTransitive(a, b, c[1..]);
      }
    }
  }

  /** The index of the first element satisfying `p`, if there is one. */
  function FirstIndex<T>(s: seq<T>, p: T -> bool): (r: Option<nat>)
    ensures r.Some? ==> r.value < |s| && p(s[r.value]) && forall j :: 0 <= j < r.value ==> !p(s[j])
    ensures r.None? ==> forall j :: 0 <= j < |s| ==> !p(s[j])
    decreases |s|
  {
    if |s| == 0 then None
    else if p(s[0]) then Some(0)
    else match FirstIndex(s[1..], p)
      case None => None
      case Some(i) => Some(i + 1)
  }

  /** `c` is the first element of `s` that satisfies `p`. */
  ghost predicate IsFirst<T>(s: seq<T>, p: T -> bool, c: T)
  {
    exists i :: 0 <= i < |s| && s[i] == c && p(c) && forall j :: 0 <= j < i ==> !p(s[j])
  }

  /** `next((x for x in s if p(x)), None)`. */
  function First<T>(s: seq<T>, p: T -> bool): (r: Option<T>)
    ensures r.Some? ==> IsFirst(s, p, r.value)
    ensures r.None? <==> forall x :: x in s ==> !p(x)
  {
    match FirstIndex(s, p)
    case None => None
    case Some(i) => Some(s[i])
  }

  /** The first element satisfying `p`, else the first element: the
      sheet and archive-member choice. None only for an empty sequence. */
  function FirstOrHead<T>(s: seq<T>, p: T -> bool): (r: Option<T>)
    ensures r.None? <==> |s| == 0
    ensures (exists x :: x in s && p(x)) ==> r.Some? && IsFirst(s, p, r.value)
    ensures |s| > 0 && (forall x :: x in s ==> !p(x)) ==> r == Some(s[0])
  {
    if |s| == 0 then None
    else match First(s, p)
      case Some(x) => Some(x)
      case None => Some(s[0])
  }

  function Map<T, U>(s: seq<T>, f: T -> U): seq<U>
  {
    seq(|s|, i requires 0 <= i < |s| => f(s[i]))
  }

  lemma MapTwo<T, U>(a: T, b: T, f: T -> U)
    ensures Map([a, b], f) == [f(a), f(b)]
  {
  }

  lemma MapThree<T, U>(a: T, b: T, c: T, f: T -> U)
    ensures Map([a, b, c], f) == [f(a), f(b), f(c)]
  {
  }

  /** `p` after `f`. */
  function Compose<T, U>(f: T -> U, p: U -> bool): T -> bool
  {
    (x: T) => p(f(x))
  }

  /** Filtering the images is filtering the originals by the composed
      predicate and then taking images. */
  lemma {:induction false} FilterMap<T, U>(s: seq<T>, f: T -> U, p: U -> bool)
    ensures Filter(Map(s, f), p) == Map(Filter(s, Compose(f, p)), f)
    decreases |s|
  {
    if |s| > 0 {
      FilterMap(s[1..], f, p);
      assert Map(s, f)[1..] == Map(s[1..], f);
      var rest := Filter(s[1..], Compose(f, p));
      if p(f(s[0])) {
        assert Map([s[0]] + rest, f) == [f(s[0])] + Map(rest, f);
      }
    }
  }

  /** Predicates that agree on the elements filter alike. */
  lemma {:induction false} FilterCongruent<T>(s: seq<T>, p: T -> bool, q: T -> bool)
    requires forall x :: x in s ==> p(x) == q(x)
    ensures Filter(s, p) == Filter(s, q)
    decreases |s|
  {
    if |s| > 0 {
      FilterCongruent(s[1..], p, q);
    }
  }
}
