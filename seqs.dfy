/** The JavaScript array operations the emoji pipeline is built from
    (Array.prototype.filter, find, map and includes), stated once over
    Dafny sequences. */
module Seqs {

  datatype Option<+T> = None | Some(value: T)

  /** `a` is obtained from `b` by deleting elements, keeping the order of the rest. */
  ghost predicate Subsequence<T>(a: seq<T>, b: seq<T>)
  {
    a == [] || (b != [] && ((a[0] == b[0] && Subsequence(a[1..], b[1..])) || Subsequence(a, b[1..])))
  }

  /** Array.prototype.filter: the elements of `s` that satisfy `p`, in their
      original order and with their multiplicities (FilterOrder and
      FilterMultiplicity below, which together determine the result). */
  function Filter<T>(p: T -> bool, s: seq<T>): (r: seq<T>)
    ensures forall x :: x in r ==> x in s && p(x)
    ensures forall x :: x in s && p(x) ==> x in r
  {
    if s == [] then []
    else if p(s[0]) then [s[0]] + Filter(p, s[1..]) else Filter(p, s[1..])
  }

  /** The kept elements are in their original order. */
  lemma {:induction false} FilterOrder<T>(p: T -> bool, s: seq<T>)
    ensures Subsequence(Filter(p, s), s)
  {
    if s != [] {
      FilterOrder(p, s[1..]);
      if !p(s[0]) && Filter(p, s) != [] {
        assert Filter(p, s) == Filter(p, s[1..]);
      }
    }
  }

  /** An element that satisfies `p` keeps all its copies, any other loses them all. */
  lemma {:induction false} FilterMultiplicity<T>(p: T -> bool, s: seq<T>)
    ensures multiset(Filter(p, s)) <= multiset(s)
    ensures forall x :: x in s ==> multiset(Filter(p, s))[x] == if p(x) then multiset(s)[x] else 0
  {
    if s != [] {
      FilterMultiplicity(p, s[1..]);
      assert s == [s[0]] + s[1..];
    }
  }

  /** Filtering keeps everything exactly when every element satisfies the predicate. */
  lemma {:induction false} FilterKeepsAll<T>(p: T -> bool, s: seq<T>)
    requires forall x :: x in s ==> p(x)
    ensures Filter(p, s) == s
  {
    if s != [] {
      FilterKeepsAll(p, s[1..]);
    }
  }

  /** Filtering drops everything exactly when no element satisfies the predicate. */
  lemma {:induction false} FilterDropsAll<T>(p: T -> bool, s: seq<T>)
    requires forall j :: 0 <= j < |s| ==> !p(s[j])
    ensures Filter(p, s) == []
  {
    if s != [] {
      assert forall j :: 0 <= j < |s| - 1 ==> s[1..][j] == s[j + 1];
      FilterDropsAll(p, s[1..]);
    }
  }

  /** Filtering a concatenation filters each part. */
  lemma {:induction false} FilterConcat<T>(p: T -> bool, a: seq<T>, b: seq<T>)
    ensures Filter(p, a + b) == Filter(p, a) + Filter(p, b)
  {
    if a == [] {
      assert a + b == b;
    } else {
      assert (a + b)[1..] == a[1..] + b;
      FilterConcat(p, a[1..], b);
    }
  }

  /** The first element that satisfies `p` heads the filter result, followed
      by the filter of what comes after it. */
  lemma {:induction false} FilterFirst<T>(p: T -> bool, s: seq<T>, i: nat)
    requires i < |s| && p(s[i])
    requires forall j :: 0 <= j < i ==> !p(s[j])
    ensures Filter(p, s) == [s[i]] + Filter(p, s[i + 1..])
  {
    if i > 0 {
      assert forall j :: 0 <= j < i - 1 ==> s[1..][j] == s[j + 1];
      FilterFirst(p, s[1..], i - 1);
      assert s[1..][i..] == s[i + 1..];
    }
  }

  /** When exactly the elements at `i` and `k` satisfy `p`, the filter yields those two. */
  lemma FilterTwo<T>(p: T -> bool, s: seq<T>, i: nat, k: nat)
    requires i < k < |s| && p(s[i]) && p(s[k])
    requires forall j :: 0 <= j < |s| && j != i && j != k ==> !p(s[j])
    ensures Filter(p, s) == [s[i], s[k]]
  {
    FilterLastHit(p, s, i, k);
    FilterFirst(p, s, i);
  }

  /** After the first of the two hits, the filter yields only the second. */
  lemma FilterLastHit<T>(p: T -> bool, s: seq<T>, i: nat, k: nat)
    requires i < k < |s| && p(s[k])
    requires forall j :: 0 <= j < |s| && j != i && j != k ==> !p(s[j])
    ensures Filter(p, s[i + 1..]) == [s[k]]
  {
    var rest := s[i + 1..];
    var tail := s[k + 1..];
    assert forall j :: 0 <= j < k - i - 1 ==> rest[j] == s[j + i + 1];
    assert rest[k - i - 1] == s[k];
    assert rest[k - i..] == tail;
    FilterDropsAll(p, tail);
    FilterFirst(p, rest, k - i - 1);
  }

  /** Filtering twice with the same predicate is filtering once. */
  lemma FilterIdempotent<T>(p: T -> bool, s: seq<T>)
    ensures Filter(p, Filter(p, s)) == Filter(p, s)
  {
    FilterKeepsAll(p, Filter(p, s));
  }

  /** Filtering with a predicate that agrees on every element gives the same result. */
  lemma {:induction false} FilterCongruent<T>(p: T -> bool, q: T -> bool, s: seq<T>)
    requires forall x :: x in s ==> (p(x) <==> q(x))
    ensures Filter(p, s) == Filter(q, s)
  {
    if s != [] {
      FilterCongruent(p, q, s[1..]);
    }
  }

  /** Array.prototype.find: the first element of `s` that satisfies `p`, if any. */
  function Find<T>(p: T -> bool, s: seq<T>): (r: Option<T>)
    ensures r.None? <==> forall i :: 0 <= i < |s| ==> !p(s[i])
    ensures r.Some? ==> exists i :: 0 <= i < |s| && s[i] == r.value && p(s[i]) && forall j :: 0 <= j < i ==> !p(s[j])
  {
    if s == [] then None
    else if p(s[0]) then Some(s[0])
    else
      var r := Find(p, s[1..]);
      assert forall i :: 1 <= i < |s| ==> s[i] == s[1..][i - 1];
      r
  }

  /** The first element satisfying `p` is the one `Find` returns. */
  lemma {:induction false} FindFirst<T>(p: T -> bool, s: seq<T>, i: nat)
    requires i < |s| && p(s[i])
    requires forall j :: 0 <= j < i ==> !p(s[j])
    ensures Find(p, s) == Some(s[i])
  {
    if i > 0 {
      assert !p(s[0]);
      forall j | 0 <= j < i - 1 ensures !p(s[1..][j]) {
        assert s[1..][j] == s[j + 1];
      }
      FindFirst(p, s[1..], i - 1);
    }
  }

  /** Searching a concatenation searches the left part first. */
  lemma {:induction false} FindConcat<T>(p: T -> bool, a: seq<T>, b: seq<T>)
    ensures Find(p, a + b) == if Find(p, a).Some? then Find(p, a) else Find(p, b)
  {
    if a != [] {
      assert (a + b)[1..] == a[1..] + b;
      FindConcat(p, a[1..], b);
    } else {
      assert a + b == b;
    }
  }

  /** When every match of `p` satisfies `q`, the elements outside `q` can be
      dropped without changing what `Find` returns. */
  lemma {:induction false} FindIgnoresFiltered<T>(p: T -> bool, q: T -> bool, s: seq<T>)
    requires forall x :: p(x) ==> q(x)
    ensures Find(p, Filter(q, s)) == Find(p, s)
  {
    if s != [] {
      FindIgnoresFiltered(p, q, s[1..]);
    }
  }

  /** Array.prototype.map. */
  function Map<T, U>(f: T -> U, s: seq<T>): (r: seq<U>)
    ensures |r| == |s|
    ensures forall i :: 0 <= i < |s| ==> r[i] == f(s[i])
  {
    seq(|s|, i requires 0 <= i < |s| => f(s[i]))
  }
}
