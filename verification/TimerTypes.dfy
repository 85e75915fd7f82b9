/** Timer ids, timer nodes, and the bookkeeping that the proofs attach to a node. */
module TimerTypes {
  import opened TimerAsm

  datatype TimerState = Inactive | Active | Paused | Processing

  datatype TimerNode = TimerNode(
    id: u32, nextCall: u32, interval: u32, state: TimerState, isInterval: bool, repeatCount: int, remaining: u32,
    pauseRequested: bool, removeRequested: bool,
    isUntil: bool, untilTimeout: u32, hasCallback: bool, hasTimeoutCallback: bool)
  {
    predicate Live() {
      state != Inactive
    }

    // What destroying and constructing the node again leaves behind.
    function Cleared(): TimerNode {
      this.(state := Inactive, pauseRequested := false, removeRequested := false, isUntil := false,
            hasCallback := false, hasTimeoutCallback := false)
    }
  }

  /** Proof bookkeeping for one node: the number of its allocation; its true deadline; the delay asked for, and
      whether it is `exempt` from it, parked in its own turn; the unpaused time `credit` it had gathered when it
      last became active, at time `since`; whether since the delay began it was only compared with a clock
      `near` its deadline, not more than 2^31 ms before it, and with a clock going `onward`; the requested number
      of repeats (0: unlimited), the runs so far, and whether a pause has `spared` it: parked it at the end of a
      turn with no repeats left. */
  datatype Track = Track(
    alloc: nat, due: int, delay: nat, exempt: bool, credit: int, since: int, near: bool, onward: bool,
    goal: nat, runs: nat, spared: bool)

  /** One callback run: the unpaused time since the arm, the delay asked for and the exemption from it, what its
      comparisons were, this one with them, which run of how many it is, and whether the timer had been spared
      before it. */
  datatype Firing = Firing(
    alloc: nat, elapsed: int, delay: nat, exempt: bool, near: bool, onward: bool, run: nat, goal: nat, spared: bool)

  // The deadline has passed, unless it is further away than the expiry test can see.
  ghost predicate OnTime(t: Track, now: int) {
    t.due - now <= HALF ==> t.due <= now
  }

  // How many of the logged runs belong to an allocation.
  ghost function RunsOf(log: seq<Firing>, alloc: nat): nat {
    |RunsAt(log, alloc)|
  }

  ghost function RunsAt(log: seq<Firing>, alloc: nat): set<int> {
    set k | 0 <= k < |log| && log[k].alloc == alloc
  }

  lemma RunsAppend(log: seq<Firing>, e: Firing, alloc: nat)
    ensures RunsOf(log + [e], alloc) == RunsOf(log, alloc) + if e.alloc == alloc then 1 else 0
  {
    var a, b := RunsAt(log, alloc), RunsAt(log + [e], alloc);
    if e.alloc == alloc {
      assert b == a + {|log|};
    } else {
      assert b == a;
    }
  }

  ghost function Dues(track: seq<Track>): (due: seq<int>)
    ensures |due| == |track|
  {
    seq(|track|, i requires 0 <= i < |track| => track[i].due)
  }

  function NextCalls(pool: seq<TimerNode>): (at: seq<u32>)
    ensures |at| == |pool|
  {
    seq(|pool|, i requires 0 <= i < |pool| => pool[i].nextCall)
  }

  // ----- ids: [ 16 bits generation | 16 bits pool index ] -----

  function GetIndex(id: u32): nat {
    id % 0x1_0000
  }

  function GetGeneration(id: u32): nat {
    id / 0x1_0000
  }

  function MakeId(generation: nat, index: nat): (id: u32)
    requires generation < 0x1_0000 && index < 0x1_0000
    ensures GetIndex(id) == index && GetGeneration(id) == generation
  {
    generation * 0x1_0000 + index
  }

  // The generation of the k-th allocation: 0 is skipped, so the cycle has 65535 steps.
  function Generation(k: nat): nat {
    k % 0xFFFF + 1
  }

  ghost predicate GenerationsOk(counter: nat, issued: seq<u32>) {
    && counter == (if issued == [] then 0 else Generation(|issued| - 1))
    && forall k :: 0 <= k < |issued| ==> GetGeneration(issued[k]) == Generation(k)
  }

  // Two ids share their generation exactly when a multiple of 65535 allocations lies between them.
  lemma SameGeneration(counter: nat, issued: seq<u32>, j: nat, k: nat)
    requires GenerationsOk(counter, issued) && j < k < |issued|
    ensures GetGeneration(issued[j]) == GetGeneration(issued[k]) <==> (k - j) % 0xFFFF == 0
  {
    assert GetGeneration(issued[j]) == Generation(j) && GetGeneration(issued[k]) == Generation(k);
    RemainderOfDifference(j, k);
  }

  lemma RemainderOfDifference(j: nat, k: nat)
    requires j <= k
    ensures j % 0xFFFF == k % 0xFFFF <==> (k - j) % 0xFFFF == 0
  {
    var q, r := j / 0xFFFF, (k - j) % 0xFFFF;
    var t := (k - j) / 0xFFFF;
    assert k == 0xFFFF * (q + t) + (j % 0xFFFF + r);
    if j % 0xFFFF + r >= 0xFFFF {
      assert k == 0xFFFF * (q + t + 1) + (j % 0xFFFF + r - 0xFFFF);
    }
  }

  // No issued id is the invalid id 0.
  lemma IssuedIdsAreValid(counter: nat, issued: seq<u32>, k: nat)
    requires GenerationsOk(counter, issued) && k < |issued|
    ensures issued[k] != 0
  {
    assert GetGeneration(issued[k]) == Generation(k);
  }

  // An id stays unlike every id of the following 65534 allocations.
  lemma StaleIdIsUnlike(counter: nat, issued: seq<u32>, j: nat, k: nat)
    requires GenerationsOk(counter, issued) && j < k < |issued| && k - j < 0xFFFF
    ensures issued[j] != issued[k]
  {
    SameGeneration(counter, issued, j, k);
  }

  // ----- counting the live nodes of a kind -----

  function CountKind(pool: seq<TimerNode>, isInterval: bool, k: nat): nat
    requires k <= |pool|
  {
    if k == 0 then 0
    else CountKind(pool, isInterval, k - 1) + Count1(pool[k - 1], isInterval)
  }

  function Count1(n: TimerNode, isInterval: bool): nat {
    if n.Live() && n.isInterval == isInterval then 1 else 0
  }

  lemma {:induction false} CountUpdate(pool: seq<TimerNode>, isInterval: bool, i: nat, n: TimerNode, k: nat)
    requires i < |pool| && k <= |pool|
    ensures CountKind(pool[i := n], isInterval, k) ==
            CountKind(pool, isInterval, k) + if i < k then Count1(n, isInterval) - Count1(pool[i], isInterval) else 0
  {
    if k == 0 {
    } else {
      CountUpdate(pool, isInterval, i, n, k - 1);
    }
  }
}
