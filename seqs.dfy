/** Generic sequence helpers: order-preserving filtering and subsequences. */
module Seqs {

  /** `r` can be obtained from `s` by deleting elements, without reordering. */
  ghost predicate IsSubsequence<T>(r: seq<T>, s: seq<T>)
    decreases |s|
  {
    r == [] || (s != [] && ((r[0] == s[0] && IsSubsequence(r[1..], s[1..])) || IsSubsequence(r, s[1..])))
  }

  /** The elements of `s` that satisfy `p`, in their original order. */
  function Filter<T>(s: seq<T>, p: T -> bool): (r: seq<T>)
    ensures |r| <= |s|
    ensures forall x | x in r :: x in s && p(x)
    ensures IsSubsequence(r, s)
  {
    if s == [] then []
    else if p(s[0]) then [s[0]] + Filter(s[1..], p) else Filter(s[1..], p)
  }

  /** An element is kept exactly when it satisfies `p`, as often as it occurs. */
  lemma {:induction false} FilterCounts<T>(s: seq<T>, p: T -> bool)
    ensures forall x | x in s :: multiset(Filter(s, p))[x] == if p(x) then multiset(s)[x] else 0
  {
    if s != [] {
      FilterCounts(s[1..], p);
      assert s == [s[0]] + s[1..];
    }
  }

  /** Every element of a subsequence occurs in the sequence. */
  lemma {:induction false} SubsequenceIn<T>(r: seq<T>, s: seq<T>)
    requires IsSubsequence(r, s)
    ensures forall x | x in r :: x in s
    decreases |s|
  {
    if r != [] {
      if r[0] == s[0] && IsSubsequence(r[1..], s[1..]) {
        SubsequenceIn(r[1..], s[1..]);
        assert r == [r[0]] + r[1..];
      } else {
        SubsequenceIn(r, s[1..]);
      }
    }
  }

  /** A subsequence of a sequence whose keys strictly increase has strictly increasing keys. */
  lemma {:induction false} SubsequenceIncreasing<T>(r: seq<T>, s: seq<T>, key: T -> int)
    requires IsSubsequence(r, s)
    requires forall i, j | 0 <= i < j < |s| :: key(s[i]) < key(s[j])
    ensures forall i, j | 0 <= i < j < |r| :: key(r[i]) < key(r[j])
    decreases |s|
  {
    if r != [] {
      if r[0] == s[0] && IsSubsequence(r[1..], s[1..]) {
        SubsequenceIncreasing(r[1..], s[1..], key);
        SubsequenceIn(r[1..], s[1..]);
        forall j | 0 < j < |r| ensures key(r[0]) < key(r[j]) {
          assert r[j] == r[1..][j - 1];
          assert r[j] in s[1..];
          var k :| 0 <= k < |s[1..]| && s[1..][k] == r[j];
          assert s[k + 1] == r[j];
        }
        forall i, j | 0 < i < j < |r| ensures key(r[i]) < key(r[j]) {
          assert r[i] == r[1..][i - 1] && r[j] == r[1..][j - 1];
        }
      } else {
        SubsequenceIncreasing(r, s[1..], key);
      }
    }
  }

  /** A sequence is a subsequence of itself. */
  lemma {:induction false} SubsequenceRefl<T>(s: seq<T>)
    ensures IsSubsequence(s, s)
  {
    if s != [] {
      SubsequenceRefl(s[1..]);
    }
  }

  /** Every element of `s` that satisfies `p` is kept by the filter. */
  lemma {:induction false} FilterKeeps<T>(s: seq<T>, p: T -> bool)
    ensures forall i | 0 <= i < |s| && p(s[i]) :: s[i] in Filter(s, p)
  {
    if s != [] {
      FilterKeeps(s[1..], p);
      forall i | 0 < i < |s| && p(s[i]) ensures s[i] in Filter(s, p) {
        assert s[i] == s[1..][i - 1];
      }
    }
  }

  /** A value is in the filtered sequence exactly when it is in `s` and satisfies `p`. */
  lemma FilterMembers<T>(s: seq<T>, p: T -> bool)
    ensures forall x :: x in Filter(s, p) <==> x in s && p(x)
  {
    FilterKeeps(s, p);
    forall x | x in s && p(x) ensures x in Filter(s, p) {
      var i :| 0 <= i < |s| && s[i] == x;
    }
  }

  /** A filter that every element passes keeps the whole sequence. */
  lemma {:induction false} FilterAll<T>(s: seq<T>, p: T -> bool)
    requires forall i | 0 <= i < |s| :: p(s[i])
    ensures Filter(s, p) == s
  {
    if s != [] {
      FilterAll(s[1..], p);
      assert s == [s[0]] + s[1..];
    }
  }

  /** Filtering a concatenation filters each part. */
  lemma {:induction false} FilterAppend<T>(a: seq<T>, b: seq<T>, p: T -> bool)
    ensures Filter(a + b, p) == Filter(a, p) + Filter(b, p)
  {
    if a == [] {
      assert a + b == b;
    } else {
      assert (a + b)[1..] == a[1..] + b;
      assert (a + b)[0] == a[0];
      FilterAppend(a[1..], b, p);
    }
  }

  /** Among elements that all pass, one element that fails is the only one dropped. */
  lemma FilterDropsOne<T>(a: seq<T>, x: T, b: seq<T>, p: T -> bool)
    requires forall i | 0 <= i < |a| :: p(a[i])
    requires forall i | 0 <= i < |b| :: p(b[i])
    requires !p(x)
    ensures Filter(a + [x] + b, p) == a + b
  {
    assert a + [x] + b == a + ([x] + b);
    FilterAppend(a, [x] + b, p);
    FilterAll(a, p);
    assert ([x] + b)[1..] == b;
    FilterAll(b, p);
  }

  /** Filtering twice with the same test is filtering once. */
  lemma {:induction false} FilterIdempotent<T>(s: seq<T>, p: T -> bool)
    ensures Filter(Filter(s, p), p) == Filter(s, p)
  {
    if s != [] {
      FilterIdempotent(s[1..], p);
      if p(s[0]) {
        assert (([s[0]] + Filter(s[1..], p))[1..]) == Filter(s[1..], p);
      }
    }
  }

  /** The elements of `s` with `x` put in at position `k`, read at one position. */
  lemma InsertedAt<T>(s: seq<T>, k: nat, x: T, i: nat)
    requires k <= |s| && i <= |s|
    ensures (s[..k] + [x] + s[k..])[i] == if i < k then s[i] else if i == k then x else s[i - 1]
  {
  }
}
