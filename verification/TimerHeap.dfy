/** The heap algorithms behind the active timers. The elements are pool indices; `at` holds the 32-bit
    deadlines that the code compares and `due` the true ones. */
module TimerHeap {
  import opened TimerAsm

  function Parent(j: nat): nat
    requires 0 < j
  {
    (j - 1) / 2
  }

  ghost predicate Edge(k: seq<int>, j: nat) {
    0 < j < |k| ==> k[Parent(j)] <= k[j]
  }

  ghost predicate InRange(h: seq<nat>, n: nat) {
    forall i :: 0 <= i < |h| ==> h[i] < n
  }

  ghost function Keys(h: seq<nat>, due: seq<int>): (k: seq<int>)
    requires InRange(h, |due|)
    ensures |k| == |h|
  {
    seq(|h|, j requires 0 <= j < |h| => due[h[j]])
  }

  // No element is due before its parent.
  ghost predicate HeapOrdered(h: seq<nat>, due: seq<int>) {
    InRange(h, |due|) && forall j :: Edge(Keys(h, due), j)
  }

  lemma {:induction false} TopIsLeast(h: seq<nat>, due: seq<int>, j: nat)
    requires HeapOrdered(h, due) && j < |h|
    ensures due[h[0]] <= due[h[j]]
  {
    if j == 0 {
    } else {
      TopIsLeast(h, due, Parent(j));
      assert Edge(Keys(h, due), j);
    }
  }

  // The 32-bit comparisons among the elements of `h` tell the true order.
  ghost predicate Comparable(h: seq<nat>, at: seq<u32>, due: seq<int>) {
    && |at| == |due| && InRange(h, |due|)
    && (forall i :: 0 <= i < |h| ==> at[h[i]] == Stamp(due[h[i]]))
    && (forall i, j :: 0 <= i < |h| && 0 <= j < |h| ==> due[h[i]] - due[h[j]] < HALF)
  }

  lemma LaterIsTrue(h: seq<nat>, r: seq<nat>, at: seq<u32>, due: seq<int>, i: nat, j: nat)
    requires Comparable(h, at, due) && multiset(r) == multiset(h) && i < |r| && j < |r| && InRange(r, |at|)
    ensures Later(at[r[i]], at[r[j]]) <==> due[r[i]] > due[r[j]]
  {
    assert r[i] in multiset(h) && r[j] in multiset(h);
    var a :| 0 <= a < |h| && h[a] == r[i];
    var b :| 0 <= b < |h| && h[b] == r[j];
    DriftIsTrue(due[r[i]], due[r[j]]);
  }

  lemma SameElements(h: seq<nat>, r: seq<nat>, n: nat)
    requires multiset(h) == multiset(r) && InRange(h, n)
    ensures |h| == |r| && InRange(r, n) && forall v :: v in h <==> v in r
  {
    assert |multiset(h)| == |multiset(r)|;
    forall v ensures v in h <==> v in r { assert v in h <==> v in multiset(h); }
    forall i | 0 <= i < |r| ensures r[i] < n { assert r[i] in r; assert r[i] in h; }
  }

  lemma SameComparable(h: seq<nat>, r: seq<nat>, at: seq<u32>, due: seq<int>)
    requires Comparable(h, at, due) && multiset(r) == multiset(h)
    ensures Comparable(r, at, due)
  {
    SameElements(h, r, |due|);
    forall i | 0 <= i < |r| ensures exists a :: 0 <= a < |h| && h[a] == r[i] { assert r[i] in h; }
  }

  function Swap<T>(h: seq<T>, i: nat, j: nat): (r: seq<T>)
    requires i < |h| && j < |h|
    ensures multiset(r) == multiset(h) && |r| == |h|
  {
    h[i := h[j]][j := h[i]]
  }

  // ----- climbing and sinking, on the keys alone -----

  // A heap but for the element at `i`, which may be due before its parent.
  ghost predicate Climbing(k: seq<int>, i: nat) {
    && i < |k|
    && (forall j :: j != i ==> Edge(k, j))
    && (i > 0 ==> forall j: nat :: 0 < j < |k| && Parent(j) == i ==> k[Parent(i)] <= k[j])
  }

  lemma ClimbStep(k: seq<int>, i: nat)
    requires Climbing(k, i) && i > 0 && k[Parent(i)] > k[i]
    ensures Climbing(Swap(k, i, Parent(i)), Parent(i))
  {
    var p, k' := Parent(i), Swap(k, i, Parent(i));
    forall j: nat | j != p ensures Edge(k', j) { assert j != i ==> Edge(k, j); }
    if p > 0 {
      assert Edge(k, p);
      forall j: nat | 0 < j < |k| && Parent(j) == p ensures k'[Parent(p)] <= k'[j] { assert j != i ==> Edge(k, j); }
    }
  }

  // Heap order of the first `n` elements below position `lo`.
  ghost predicate OrderedFrom(k: seq<int>, lo: nat, n: nat) {
    n <= |k| && forall j :: 0 < j < n && Parent(j) >= lo ==> Edge(k, j)
  }

  // The same but for the element at `i`, which may be due after its children.
  ghost predicate Sinking(k: seq<int>, lo: nat, i: nat, n: nat) {
    && lo <= i && n <= |k|
    && (forall j :: 0 < j < n && Parent(j) >= lo && Parent(j) != i ==> Edge(k, j))
    && (i > lo ==> forall j: nat :: 0 < j < n && Parent(j) == i && Parent(i) >= lo ==> k[Parent(i)] <= k[j])
  }

  lemma SinkStep(k: seq<int>, lo: nat, i: nat, n: nat, c: nat)
    requires Sinking(k, lo, i, n) && i < c < n && Parent(c) == i && k[i] > k[c]
    requires forall j: nat :: 0 < j < n && Parent(j) == i ==> k[c] <= k[j]
    ensures Sinking(Swap(k, i, c), lo, c, n)
  {
    var k' := Swap(k, i, c);
    forall j: nat | 0 < j < n && Parent(j) >= lo && Parent(j) != c ensures Edge(k', j) {
      if Parent(j) != i { assert Edge(k, j); }
    }
    forall j: nat | 0 < j < n && Parent(j) == c ensures k'[Parent(c)] <= k'[j] { assert Edge(k, j); }
  }

  lemma SinkDone(k: seq<int>, lo: nat, i: nat, n: nat)
    requires Sinking(k, lo, i, n)
    requires forall j: nat :: 0 < j < n && Parent(j) == i ==> k[i] <= k[j]
    ensures OrderedFrom(k, lo, n)
  {
    forall j: nat | 0 < j < n && Parent(j) >= lo ensures Edge(k, j) { }
  }

  lemma SinkBottom(k: seq<int>, lo: nat, i: nat, n: nat)
    requires Sinking(k, lo, i, n) && 2 * i + 1 >= n
    ensures OrderedFrom(k, lo, n)
  {
    forall j: nat | 0 < j < n ensures Parent(j) != i { assert 2 * Parent(j) + 1 <= j; }
    SinkDone(k, lo, i, n);
  }

  // ----- the algorithms -----

  // push_heap: the last element climbs to its place.
  method PushHeap(h: seq<nat>, at: seq<u32>, ghost due: seq<int>) returns (r: seq<nat>)
    requires |h| > 0 && InRange(h, |at|) && |at| == |due|
    ensures multiset(r) == multiset(h)
    ensures Comparable(h, at, due) && HeapOrdered(h[..|h| - 1], due) ==> HeapOrdered(r, due)
  {
    r := h;
    var i := |h| - 1;
    ghost var ok := Comparable(h, at, due) && HeapOrdered(h[..|h| - 1], due);
    if ok {
      forall j: nat | j != i ensures Edge(Keys(h, due), j) { assert Edge(Keys(h[..|h| - 1], due), j); }
    }
    while i > 0
      invariant 0 <= i < |r| && multiset(r) == multiset(h) && InRange(r, |at|)
      invariant ok ==> Climbing(Keys(r, due), i)
    {
      var p := Parent(i);
      if ok { LaterIsTrue(h, r, at, due, p, i); }
      if !Later(at[r[p]], at[r[i]]) { break; }
      ghost var k := Keys(r, due);
      if ok { ClimbStep(k, i); }
      SwapKeys(r, due, i, p);
      r := Swap(r, i, p);
      i := p;
    }
    if ok {
      forall j ensures Edge(Keys(r, due), j) { assert j != i ==> Edge(Keys(r, due), j); }
    }
  }

  // The child of `i` that the comparisons take for the one due first.
  function FirstChild(r: seq<nat>, at: seq<u32>, i: nat, n: nat): (c: nat)
    requires 2 * i + 1 < n <= |r| && InRange(r, |at|)
    ensures i < c < n
  {
    var c := 2 * i + 1;
    if c + 1 < n && Later(at[r[c]], at[r[c + 1]]) then c + 1 else c
  }

  lemma FirstChildIsLeast(h: seq<nat>, r: seq<nat>, at: seq<u32>, due: seq<int>, i: nat, n: nat)
    requires Comparable(h, at, due) && multiset(r) == multiset(h) && InRange(r, |at|) && 2 * i + 1 < n <= |r|
    ensures var k, c := Keys(r, due), FirstChild(r, at, i, n);
      && Parent(c) == i && (Later(at[r[i]], at[r[c]]) <==> k[i] > k[c])
      && forall j: nat :: 0 < j < n && Parent(j) == i ==> k[c] <= k[j]
  {
    if 2 * i + 2 < n { LaterIsTrue(h, r, at, due, 2 * i + 1, 2 * i + 2); }
    LaterIsTrue(h, r, at, due, i, FirstChild(r, at, i, n));
    forall j: nat | 0 < j < n && Parent(j) == i ensures j == 2 * i + 1 || j == 2 * i + 2 { }
  }

  lemma SwapKeys(r: seq<nat>, due: seq<int>, i: nat, j: nat)
    requires InRange(r, |due|) && i < |r| && j < |r|
    ensures InRange(Swap(r, i, j), |due|) && Keys(Swap(r, i, j), due) == Swap(Keys(r, due), i, j)
  {
  }

  // One comparison of the sinking loop: either the heap is done or the element sinks one level.
  lemma SinkIteration(h: seq<nat>, r: seq<nat>, at: seq<u32>, due: seq<int>, lo: nat, i: nat, n: nat)
    requires Comparable(h, at, due) && multiset(r) == multiset(h) && InRange(r, |at|)
    requires 2 * i + 1 < n <= |r| && Sinking(Keys(r, due), lo, i, n)
    ensures var c := FirstChild(r, at, i, n);
      if Later(at[r[i]], at[r[c]]) then InRange(Swap(r, i, c), |at|) && Sinking(Keys(Swap(r, i, c), due), lo, c, n)
      else OrderedFrom(Keys(r, due), lo, n)
  {
    var k, c := Keys(r, due), FirstChild(r, at, i, n);
    FirstChildIsLeast(h, r, at, due, i, n);
    SwapKeys(r, due, i, c);
    if k[i] > k[c] { SinkStep(k, lo, i, n, c); } else { SinkDone(k, lo, i, n); }
  }

  // The element at `lo` sinks to its place among the first `n`.
  method SiftDown(h: seq<nat>, at: seq<u32>, lo: nat, n: nat, ghost due: seq<int>) returns (r: seq<nat>)
    requires lo <= n <= |h| && InRange(h, |at|) && |at| == |due|
    ensures multiset(r) == multiset(h) && |r| == |h| && InRange(r, |at|)
    ensures forall j :: n <= j < |h| ==> r[j] == h[j]
    ensures Comparable(h, at, due) && OrderedFrom(Keys(h, due), lo + 1, n) ==> OrderedFrom(Keys(r, due), lo, n)
  {
    r := h;
    var i := lo;
    ghost var ok := Comparable(h, at, due) && OrderedFrom(Keys(h, due), lo + 1, n);
    while 2 * i + 1 < n
      invariant lo <= i <= n && multiset(r) == multiset(h) && |r| == |h| && InRange(r, |at|)
      invariant forall j :: n <= j < |h| ==> r[j] == h[j]
      invariant ok ==> Sinking(Keys(r, due), lo, i, n)
      decreases n - i
    {
      var c := FirstChild(r, at, i, n);
      if ok { SinkIteration(h, r, at, due, lo, i, n); }
      if !Later(at[r[i]], at[r[c]]) { return; }
      r := Swap(r, i, c);
      i := c;
    }
    if ok { SinkBottom(Keys(r, due), lo, i, n); }
  }

  // pop_heap: the top goes to the end, the others form a heap again.
  method PopHeap(h: seq<nat>, at: seq<u32>, ghost due: seq<int>) returns (r: seq<nat>)
    requires |h| > 0 && InRange(h, |at|) && |at| == |due|
    ensures multiset(r) == multiset(h) && |r| == |h| && r[|h| - 1] == h[0]
    ensures Comparable(h, at, due) && HeapOrdered(h, due) ==> HeapOrdered(r[..|h| - 1], due)
  {
    var last := |h| - 1;
    var s := Swap(h, 0, last);
    SameElements(h, s, |at|);
    if Comparable(h, at, due) && HeapOrdered(h, due) {
      SameComparable(h, s, at, due);
      SwappedTop(h, due);
    }
    r := SiftDown(s, at, 0, last, due);
    if Comparable(h, at, due) && HeapOrdered(h, due) { OrderedPrefix(r, due, last); }
  }

  lemma SwappedTop(h: seq<nat>, due: seq<int>)
    requires |h| > 0 && HeapOrdered(h, due)
    ensures var last := |h| - 1; InRange(Swap(h, 0, last), |due|) && OrderedFrom(Keys(Swap(h, 0, last), due), 1, last)
  {
    var last, s := |h| - 1, Swap(h, 0, |h| - 1);
    assert InRange(s, |due|);
    forall j: nat | 0 < j < last && Parent(j) >= 1 ensures Edge(Keys(s, due), j) { assert Edge(Keys(h, due), j); }
  }

  lemma OrderedPrefix(r: seq<nat>, due: seq<int>, n: nat)
    requires InRange(r, |due|) && n <= |r| && OrderedFrom(Keys(r, due), 0, n)
    ensures HeapOrdered(r[..n], due)
  {
    forall j: nat ensures Edge(Keys(r[..n], due), j) { assert 0 < j < n ==> Edge(Keys(r, due), j); }
  }

  // make_heap: all inner positions sink, last first.
  method MakeHeap(h: seq<nat>, at: seq<u32>, ghost due: seq<int>) returns (r: seq<nat>)
    requires InRange(h, |at|) && |at| == |due|
    ensures multiset(r) == multiset(h)
    ensures Comparable(h, at, due) ==> HeapOrdered(r, due)
  {
    r := h;
    var lo := |h| / 2;
    while lo > 0
      invariant 0 <= lo <= |h| / 2 && multiset(r) == multiset(h) && |r| == |h| && InRange(r, |at|)
      invariant Comparable(h, at, due) ==> OrderedFrom(Keys(r, due), lo, |r|)
    {
      lo := lo - 1;
      if Comparable(h, at, due) { SameComparable(h, r, at, due); }
      r := SiftDown(r, at, lo, |r|, due);
    }
    if Comparable(h, at, due) {
      OrderedPrefix(r, due, |r|);
      assert r[..|r|] == r;
    }
  }
}
