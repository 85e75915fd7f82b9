/** The sparse half of the static hash map: a ring of buckets probed linearly.

    A ring is a sequence `b` of buckets. A bucket is EMPTY or holds a dense index;
    `home[d]` is the slot where probing for dense entry `d` starts and `pos[d]` the
    bucket that currently holds `d`.
 */
module HashTable {
  import opened Counting

  const EMPTY := 0xFFFF

  // The slot after `i` on the ring.
  function Next(i: nat, n: nat): (r: nat)
    requires i < n
    ensures r < n
  {
    if i + 1 == n then 0 else i + 1
  }

  // How many steps of Next lead from `a` to `b`.
  function Dist(a: nat, b: nat, n: nat): (r: nat)
    requires a < n && b < n
    ensures r < n
  {
    if a <= b then b - a else b - a + n
  }

  // On a ring whose size is a power of two the code's mask does the same, and it keeps a hash in range; that it
  // then is the remainder, as `Home` has it, is Words.MaskIsRemainder.
  lemma MaskWraps(i: bv16, n: bv16, hash: bv16)
    requires n != 0 && n & (n - 1) == 0 && i < n
    ensures (i + 1) & (n - 1) == if i + 1 == n then 0 else i + 1   // Next(i, n)
    ensures hash & (n - 1) < n
  {
  }

  lemma NextDist(a: nat, b: nat, n: nat)
    requires a < n && b < n
    ensures Dist(a, b, n) + 1 < n ==> Dist(a, Next(b, n), n) == Dist(a, b, n) + 1
    ensures Dist(a, b, n) + 1 == n ==> Next(b, n) == a
    ensures Dist(a, b, n) + 1 < n ==> Next(b, n) != a
  {
  }

  // ----- the invariant -----

  /** Buckets and dense indices are in bijection; dense index `skip` alone has no bucket
      (no index is missing when `skip` is not a dense index). */
  ghost predicate Placed(b: seq<nat>, home: seq<nat>, pos: seq<nat>, skip: int) {
    && 0 < |b| < EMPTY && |pos| == |home| <= |b|
    && (forall d :: 0 <= d < |home| ==> home[d] < |b|)
    && (forall d :: 0 <= d < |home| && d != skip ==> pos[d] < |b| && b[pos[d]] == d)
    && (forall i :: 0 <= i < |b| && b[i] != EMPTY ==> b[i] < |home| && b[i] != skip && pos[b[i]] == i)
  }

  // The probe path of the entry in bucket `i` passes slot `j` before it gets to `i`.
  ghost predicate Passes(b: seq<nat>, home: seq<nat>, i: nat, j: nat)
    requires i < |b| && j < |b|
  {
    && b[i] < |home| && home[b[i]] < |b|
    && Dist(home[b[i]], j, |b|) < Dist(home[b[i]], i, |b|)
  }

  // No entry has an empty bucket between its home slot and its bucket.
  ghost predicate Reachable(b: seq<nat>, home: seq<nat>) {
    forall i, j :: 0 <= i < |b| && 0 <= j < |b| && b[i] != EMPTY && Passes(b, home, i, j) ==> b[j] != EMPTY
  }

  /** The same with one hole in the ring: probe paths may cross the hole, except those of the
      `d - 1` buckets that follow it, which the backward shift has already examined. */
  ghost predicate ReachableButHole(b: seq<nat>, home: seq<nat>, hole: nat, d: nat)
    requires hole < |b|
  {
    && (forall i, j :: 0 <= i < |b| && 0 <= j < |b| && b[i] != EMPTY && Passes(b, home, i, j) ==>
        b[j] != EMPTY || j == hole)
    && (forall i :: 0 <= i < |b| && b[i] != EMPTY && 0 < Dist(hole, i, |b|) < d ==> !Passes(b, home, i, hole))
  }

  // ----- lookup and insertion -----

  // Every bucket within `d` steps of slot `h` is occupied, and none of them holds dense index `e`.
  ghost predicate Avoids(b: seq<nat>, h: nat, d: nat, e: nat)
    requires h < |b|
  {
    forall i :: 0 <= i < |b| && Dist(h, i, |b|) < d ==> b[i] != EMPTY && b[i] != e
  }

  // An entry that was not met before an empty bucket, or on a whole turn, does not have `h` as its home.
  lemma ProbeIsComplete(b: seq<nat>, home: seq<nat>, pos: seq<nat>, h: nat, d: nat, stop: nat, e: nat)
    requires Placed(b, home, pos, -1) && Reachable(b, home) && h < |b| && stop < |b| && e < |home|
    requires d == |b| || (Dist(h, stop, |b|) == d && b[stop] == EMPTY)
    requires Avoids(b, h, d, e)
    ensures home[e] != h
  {
    var p := pos[e];
    assert b[p] == e;
    if d < |b| { assert !Passes(b, home, p, stop); }
  }

  // A new entry goes into the first empty bucket on its probe path.
  lemma FillBucket(b: seq<nat>, home: seq<nat>, pos: seq<nat>, h: nat, r: nat)
    requires Placed(b, home, pos, -1) && Reachable(b, home) && h < |b| && r < |b| && |home| < |b|
    requires b[r] == EMPTY
    requires forall i :: 0 <= i < |b| && Dist(h, i, |b|) < Dist(h, r, |b|) ==> b[i] != EMPTY
    ensures var b', home' := b[r := |home|], home + [h];
      Placed(b', home', pos + [r], -1) && Reachable(b', home')
  {
    var b', home' := b[r := |home|], home + [h];
    forall i, j | 0 <= i < |b'| && 0 <= j < |b'| && b'[i] != EMPTY && Passes(b', home', i, j)
      ensures b'[j] != EMPTY
    {
      if i != r { assert Passes(b, home, i, j); }
    }
  }

  // Every bucket with the number of the last entry gets the erased number.
  ghost function Renumbered(b: seq<nat>, last: nat, erased: nat): (r: seq<nat>)
    ensures |r| == |b|
  {
    seq(|b|, i requires 0 <= i < |b| => if b[i] == last then erased else b[i])
  }

  ghost predicate AtMostOnce(b: seq<nat>, v: nat) {
    forall i, j :: 0 <= i < |b| && 0 <= j < |b| && b[i] == v && b[j] == v ==> i == j
  }

  lemma NumbersOccurOnce(b: seq<nat>, home: seq<nat>, pos: seq<nat>, skip: int, d: nat)
    requires Placed(b, home, pos, skip) && d < |home|
    ensures AtMostOnce(b, d)
  {
  }

  lemma NothingToRenumber(b: seq<nat>, last: nat)
    ensures Renumbered(b, last, last) == b
  {
  }

  // Once a dense index has lost its bucket, the last dense index may take over its number.
  lemma Renumber(b: seq<nat>, home: seq<nat>, pos: seq<nat>, erased: nat)
    requires Placed(b, home, pos, erased) && Reachable(b, home) && erased < |home|
    ensures var b' := Renumbered(b, |home| - 1, erased);
      Placed(b', SwapRemoved(home, erased), SwapRemoved(pos, erased), -1) && Reachable(b', SwapRemoved(home, erased))
  {
    var last, home' := |home| - 1, SwapRemoved(home, erased);
    var b' := Renumbered(b, last, erased);
    forall i, j | 0 <= i < |b'| && 0 <= j < |b'| && b'[i] != EMPTY && Passes(b', home', i, j)
      ensures b'[j] != EMPTY
    {
      assert Passes(b, home, i, j);
    }
  }

  // ----- backward-shift deletion -----

  // The code's test on raw slot numbers: move the entry at `next`, whose home is `ideal`, into the hole.
  predicate ShiftTest(hole: nat, next: nat, ideal: nat) {
    || (hole < next && (ideal <= hole || ideal > next))
    || (hole > next && ideal <= hole && ideal > next)
  }

  // The test says that the hole lies on the probe path, so that a shift brings the entry nearer home.
  lemma ShiftTestIsDistance(hole: nat, next: nat, ideal: nat, n: nat)
    requires hole < n && next < n && ideal < n && hole != next
    ensures ShiftTest(hole, next, ideal) <==> Dist(ideal, hole, n) < Dist(ideal, next, n)
  {
  }

  lemma OpenHole(b: seq<nat>, home: seq<nat>, pos: seq<nat>, idx: nat)
    requires idx < |b| && b[idx] != EMPTY && Placed(b, home, pos, -1) && Reachable(b, home)
    ensures Placed(b[idx := EMPTY], home, pos, b[idx]) && ReachableButHole(b[idx := EMPTY], home, idx, 1)
  {
    var b' := b[idx := EMPTY];
    forall i, j | 0 <= i < |b'| && 0 <= j < |b'| && b'[i] != EMPTY && Passes(b', home, i, j)
      ensures b'[j] != EMPTY || j == idx
    {
      assert Passes(b, home, i, j);
    }
  }

  lemma KeepHole(b: seq<nat>, home: seq<nat>, pos: seq<nat>, skip: int, hole: nat, next: nat, d: nat)
    requires Placed(b, home, pos, skip) && hole < |b| && next < |b| && b[next] != EMPTY
    requires ReachableButHole(b, home, hole, d) && Dist(hole, next, |b|) == d && hole != next
    requires !ShiftTest(hole, next, home[b[next]])
    ensures ReachableButHole(b, home, hole, d + 1)
  {
    ShiftTestIsDistance(hole, next, home[b[next]], |b|);
    forall i | 0 <= i < |b| && b[i] != EMPTY && 0 < Dist(hole, i, |b|) < d + 1
      ensures !Passes(b, home, i, hole)
    {
      if Dist(hole, i, |b|) == d { assert i == next; }
    }
  }

  lemma MoveHole(b: seq<nat>, home: seq<nat>, pos: seq<nat>, skip: int, hole: nat, next: nat, d: nat)
    requires Placed(b, home, pos, skip) && hole < |b| && next < |b| && b[hole] == EMPTY && b[next] != EMPTY
    requires ReachableButHole(b, home, hole, d)
    requires ShiftTest(hole, next, home[b[next]])
    ensures var b' := b[hole := b[next]][next := EMPTY];
      Placed(b', home, pos[b[next] := hole], skip) && ReachableButHole(b', home, next, 1)
  {
    ShiftTestIsDistance(hole, next, home[b[next]], |b|);
    var b' := b[hole := b[next]][next := EMPTY];
    forall i, j | 0 <= i < |b'| && 0 <= j < |b'| && b'[i] != EMPTY && Passes(b', home, i, j)
      ensures b'[j] != EMPTY || j == next
    {
      if i == hole { assert Passes(b, home, next, j); } else { assert Passes(b, home, i, j); }
    }
  }

  lemma CloseHole(b: seq<nat>, home: seq<nat>, pos: seq<nat>, skip: int, hole: nat, next: nat, d: nat)
    requires Placed(b, home, pos, skip) && hole < |b| && next < |b| && b[hole] == EMPTY && b[next] == EMPTY
    requires ReachableButHole(b, home, hole, d)
    requires if next == hole then d == |b| else Dist(hole, next, |b|) == d
    ensures Reachable(b, home)
  {
    forall i | 0 <= i < |b| && b[i] != EMPTY
      ensures !Passes(b, home, i, hole)
    {
      if next != hole { assert !Passes(b, home, i, next); }
    }
  }

  // ----- termination: every shift lowers the total distance of entries from home -----

  function Drift(b: seq<nat>, home: seq<nat>, i: nat): nat
    requires i < |b|
  {
    if b[i] < |home| && home[b[i]] < |b| then Dist(home[b[i]], i, |b|) else 0
  }

  function TotalDrift(b: seq<nat>, home: seq<nat>, k: nat): nat
    requires k <= |b|
  {
    if k == 0 then 0 else TotalDrift(b, home, k - 1) + Drift(b, home, k - 1)
  }

  lemma {:induction false} DriftUpdate(b: seq<nat>, home: seq<nat>, i: nat, v: nat, k: nat)
    requires i < |b| && k <= |b|
    ensures TotalDrift(b[i := v], home, k) ==
            TotalDrift(b, home, k) + if i < k then Drift(b[i := v], home, i) - Drift(b, home, i) else 0
  {
    if k == 0 {
    } else {
      DriftUpdate(b, home, i, v, k - 1);
    }
  }

  lemma ShiftLowersDrift(b: seq<nat>, home: seq<nat>, pos: seq<nat>, skip: int, hole: nat, next: nat)
    requires Placed(b, home, pos, skip) && hole < |b| && next < |b| && b[hole] == EMPTY && b[next] != EMPTY
    requires ShiftTest(hole, next, home[b[next]])
    ensures TotalDrift(b[hole := b[next]][next := EMPTY], home, |b|) < TotalDrift(b, home, |b|)
  {
    ShiftTestIsDistance(hole, next, home[b[next]], |b|);
    DriftUpdate(b, home, hole, b[next], |b|);
    DriftUpdate(b[hole := b[next]], home, next, EMPTY, |b|);
  }

  // ----- the loop of the deletion -----

  /** The scan from the hole has examined d - 1 buckets and stands at `next`, or is back at the hole. */
  ghost predicate Shifting(b: seq<nat>, home: seq<nat>, pos: seq<nat>, skip: int, hole: nat, next: nat, d: nat) {
    && hole < |b| && next < |b| && 1 <= d <= |b| && b[hole] == EMPTY
    && (if next == hole then d == |b| else Dist(hole, next, |b|) == d)
    && Placed(b, home, pos, skip) && ReachableButHole(b, home, hole, d)
  }

  lemma ShiftStarts(b: seq<nat>, home: seq<nat>, pos: seq<nat>, idx: nat)
    requires idx < |b| && b[idx] != EMPTY && Placed(b, home, pos, -1) && Reachable(b, home)
    ensures Shifting(b[idx := EMPTY], home, pos, b[idx], idx, Next(idx, |b|), 1)
  {
    OpenHole(b, home, pos, idx);
    NextDist(idx, idx, |b|);
  }

  lemma ShiftMoves(b: seq<nat>, home: seq<nat>, pos: seq<nat>, skip: int, hole: nat, next: nat, d: nat)
    requires Shifting(b, home, pos, skip, hole, next, d) && b[next] != EMPTY && ShiftTest(hole, next, home[b[next]])
    ensures var b' := b[hole := b[next]][next := EMPTY];
      && Shifting(b', home, pos[b[next] := hole], skip, next, Next(next, |b|), 1)
      && TotalDrift(b', home, |b|) < TotalDrift(b, home, |b|)
  {
    MoveHole(b, home, pos, skip, hole, next, d);
    ShiftLowersDrift(b, home, pos, skip, hole, next);
    NextDist(next, next, |b|);
  }

  lemma ShiftSkips(b: seq<nat>, home: seq<nat>, pos: seq<nat>, skip: int, hole: nat, next: nat, d: nat)
    requires Shifting(b, home, pos, skip, hole, next, d) && b[next] != EMPTY && !ShiftTest(hole, next, home[b[next]])
    ensures Shifting(b, home, pos, skip, hole, Next(next, |b|), d + 1)
  {
    KeepHole(b, home, pos, skip, hole, next, d);
    NextDist(hole, next, |b|);
  }

  // ----- counting -----

  // A ring without empty buckets is a full table, and the other way round.
  lemma FullRing(b: seq<nat>, home: seq<nat>, pos: seq<nat>)
    requires Placed(b, home, pos, -1)
    ensures |home| == |b| <==> forall i :: 0 <= i < |b| ==> b[i] != EMPTY
  {
    if forall i :: 0 <= i < |b| ==> b[i] != EMPTY {
      forall i, j | 0 <= i < j < |b| ensures b[i] != b[j] { assert pos[b[i]] == i && pos[b[j]] == j; }
      Pigeonhole(b, |home|);
    }
    if |home| == |b| {
      forall d, e | 0 <= d < e < |pos| ensures pos[d] != pos[e] { assert b[pos[d]] == d && b[pos[e]] == e; }
      Pigeonhole(pos, |b|);
      forall i | 0 <= i < |b| ensures b[i] != EMPTY { assert i in pos; }
    }
  }
}
