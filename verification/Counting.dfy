/** Pigeonhole facts about finite sets and repetition-free sequences, and two ways to remove an element. */
module Counting {

  ghost predicate Distinct<T(!new)>(s: seq<T>) {
    forall i, j :: 0 <= i < j < |s| ==> s[i] != s[j]
  }

  function UpTo(n: nat): (s: set<nat>)
    ensures |s| == n
    ensures forall v: nat :: v in s <==> v < n
  {
    if n == 0 then {} else UpTo(n - 1) + {n - 1}
  }

  ghost function Elements<T>(s: seq<T>): set<T> {
    set v | v in s
  }

  lemma {:induction false} DistinctSize<T(!new)>(s: seq<T>)
    requires Distinct(s)
    ensures |Elements(s)| == |s|
  {
    if s == [] {
    } else {
      var last := |s| - 1;
      DistinctSize(s[..last]);
      assert Elements(s) == Elements(s[..last]) + {s[last]};
    }
  }

  lemma SubsetSize<T>(a: set<T>, b: set<T>)
    requires a <= b
    ensures |a| <= |b| && (|a| == |b| ==> a == b)
  {
    assert b == a + (b - a);
    assert |b| == |a| + |b - a|;
  }

  // At most n distinct numbers lie below n, and n of them are all of those numbers.
  lemma Pigeonhole(s: seq<nat>, n: nat)
    requires Distinct(s)
    requires forall i :: 0 <= i < |s| ==> s[i] < n
    ensures |s| <= n && (|s| == n ==> forall v: nat :: v < n ==> v in s)
  {
    DistinctSize(s);
    SubsetSize(Elements(s), UpTo(n));
    if |s| == n {
      forall v: nat | v < n ensures v in s { assert v in Elements(s); }
    }
  }

  // erase(k): the elements after `k` move up by one.
  function Erased<T>(s: seq<T>, k: nat): seq<T>
    requires k < |s|
  {
    s[..k] + s[k + 1..]
  }

  lemma ErasedElements<T(!new)>(s: seq<T>, k: nat)
    requires k < |s| && Distinct(s)
    ensures Distinct(Erased(s, k)) && multiset(Erased(s, k)) == multiset(s) - multiset{s[k]}
    ensures forall v :: v in Erased(s, k) <==> v in s && v != s[k]
  {
    assert s == s[..k] + [s[k]] + s[k + 1..];
    forall v | v in s && v != s[k] ensures v in Erased(s, k) {
      var j :| 0 <= j < |s| && s[j] == v;
      assert Erased(s, k)[if j < k then j else j - 1] == v;
    }
  }

  // The last of `s` takes the place of element `d`.
  function SwapRemoved<T>(s: seq<T>, d: nat): seq<T>
    requires d < |s|
  {
    s[d := s[|s| - 1]][..|s| - 1]
  }

  lemma SwapRemovedElements<T(!new)>(s: seq<T>, i: nat)
    requires i < |s| && Distinct(s)
    ensures Distinct(SwapRemoved(s, i)) && forall x :: x in SwapRemoved(s, i) <==> x in s && x != s[i]
  {
    var r, last := SwapRemoved(s, i), |s| - 1;
    forall x | x in s && x != s[i] ensures x in r {
      var k :| 0 <= k < |s| && s[k] == x;
      assert r[if k == last then i else k] == x;
    }
    forall x | x in r ensures x in s && x != s[i] {
      var k :| 0 <= k < |r| && r[k] == x;
      assert r[k] == if k == i then s[last] else s[k];
    }
  }

  lemma DistinctMultiset<T(!new)>(s: seq<T>, r: seq<T>)
    requires multiset(s) == multiset(r) && Distinct(s)
    ensures Distinct(r) && forall v :: v in s <==> v in r
  {
    forall v ensures v in s <==> v in r { assert v in s <==> v in multiset(s); }
    forall v ensures multiset(s)[v] <= 1 { DistinctCount(s, v); }
    forall i, j | 0 <= i < j < |r| ensures r[i] != r[j] { TwiceCounted(r, i, j); }
  }

  lemma TwiceCounted<T>(r: seq<T>, i: nat, j: nat)
    requires i < j < |r|
    ensures r[i] == r[j] ==> multiset(r)[r[i]] >= 2
  {
    assert r == r[..i] + [r[i]] + r[i + 1..j] + [r[j]] + r[j + 1..];
  }

  lemma {:induction false} DistinctCount<T(!new)>(s: seq<T>, v: T)
    requires Distinct(s)
    ensures multiset(s)[v] <= 1
  {
    if s == [] {
    } else {
      var last := |s| - 1;
      assert s == s[..last] + [s[last]];
      DistinctCount(s[..last], v);
    }
  }
}
