/** The timer pool: a generational slot map with a free list, a min-heap of active nodes and a list of
    paused ones. */
module TimerStorage {
  import opened Prelude
  import opened Counting
  import opened TimerAsm
  import opened TimerHeap
  import opened TimerTypes
  import opened TimerState

  // HeapSortStrategy::add_sorted for the active timers.
  method AddSorted(active: seq<nat>, node: nat, pool: seq<TimerNode>, ghost track: seq<Track>) returns (r: seq<nat>)
    requires Distinct(active) && InRange(active, |pool|) && node < |pool| && node !in active && |pool| == |track|
    ensures Distinct(r) && InRange(r, |pool|) && multiset(r) == multiset(active) + multiset{node}
    ensures forall v :: v in r <==> v in active || v == node
    ensures Comparable(active + [node], NextCalls(pool), Dues(track)) && HeapOrdered(active, Dues(track)) ==>
        HeapOrdered(r, Dues(track))
  {
    var h := active + [node];
    assert h[..|h| - 1] == active;
    r := PushHeap(h, NextCalls(pool), Dues(track));
    DistinctMultiset(h, r);
    SameElements(h, r, |pool|);
  }

  // erase followed by make_heap.
  method EraseAndHeapify(active: seq<nat>, i: nat, pool: seq<TimerNode>, ghost track: seq<Track>) returns (r: seq<nat>)
    requires Distinct(active) && InRange(active, |pool|) && i < |active| && |pool| == |track|
    ensures Distinct(r) && InRange(r, |pool|) && multiset(r) == multiset(active) - multiset{active[i]}
    ensures forall v :: v in r <==> v in active && v != active[i]
    ensures Comparable(Erased(active, i), NextCalls(pool), Dues(track)) ==> HeapOrdered(r, Dues(track))
  {
    var h := Erased(active, i);
    ErasedElements(active, i);
    r := MakeHeap(h, NextCalls(pool), Dues(track));
    DistinctMultiset(h, r);
    SameElements(h, r, |pool|);
  }

  // pop_heap followed by pop_back.
  method PopTop(active: seq<nat>, pool: seq<TimerNode>, ghost track: seq<Track>) returns (r: seq<nat>)
    requires Distinct(active) && InRange(active, |pool|) && active != [] && |pool| == |track|
    ensures Distinct(r) && InRange(r, |pool|) && multiset(r) == multiset(active) - multiset{active[0]}
    ensures |r| == |active| - 1
    ensures forall v :: v in r <==> v in active && v != active[0]
    ensures Comparable(active, NextCalls(pool), Dues(track)) && HeapOrdered(active, Dues(track)) ==>
        HeapOrdered(r, Dues(track))
  {
    var h := PopHeap(active, NextCalls(pool), Dues(track));
    DistinctMultiset(active, h);
    SameElements(active, h, |pool|);
    ErasedElements(h, |h| - 1);
    assert h[..|h| - 1] == Erased(h, |h| - 1);
    r := h[..|h| - 1];
  }

  class TimerStorage {
    var pool: seq<TimerNode>
    var free: seq<nat>
    var active: seq<nat>
    var paused: seq<nat>
    var generation: nat
    var timeouts: nat
    var intervals: nat

    ghost var pending: seq<nat>
    ghost var track: seq<Track>
    ghost var issued: seq<u32>
    ghost var log: seq<Firing>
    ghost var faithful: bool

    // All fields as one value.
    ghost function S(): State
      reads this
    {
      State(pool, free, active, paused, pending, generation, timeouts, intervals, track, issued, log, faithful)
    }

    constructor (maxTimers: nat)
      requires 0 < maxTimers < 0x1_0000
      ensures Valid(S()) && |pool| == maxTimers && faithful
      ensures forall i :: 0 <= i < maxTimers ==> !pool[i].Live()
      ensures log == [] && issued == [] && pending == []
    {
      var blank := TimerNode(0, 0, 0, Inactive, false, 0, 0, false, false, false, 0, false, false);
      pool := seq(maxTimers, _ => blank);
      free := seq(maxTimers, i requires 0 <= i < maxTimers => i);
      active, paused, generation, timeouts, intervals := [], [], 0, 0, 0;
      track := seq(maxTimers, _ => Track(0, 0, 0, false, 0, 0, true, true, 0, 0, false));
      pending, issued, log, faithful := [], [], [], true;
      new;
      forall i | 0 <= i < maxTimers ensures i in free { assert free[i] == i; }
      CountBlank(pool, false, |pool|);
      CountBlank(pool, true, |pool|);
    }

    static lemma {:induction false} CountBlank(pool: seq<TimerNode>, isInterval: bool, k: nat)
      requires k <= |pool| && forall i :: 0 <= i < |pool| ==> !pool[i].Live()
      ensures CountKind(pool, isInterval, k) == 0
    {
      if k == 0 {
      } else {
        CountBlank(pool, isInterval, k - 1);
      }
    }

    method AllocateNode() returns (found: bool, node: nat, id: u32)
      requires Inv(S(), -1)
      modifies `free, `generation, `issued
      ensures found <==> old(free) != []
      ensures !found ==> id == 0 && S() == old(S())
      ensures found ==> node == old(free)[|old(free)| - 1] && S() == Allocated(old(S()), id)
      ensures found ==> node < |pool| && !pool[node].Live() && id != 0 && GetIndex(id) == node
      ensures found ==> Inv(S(), node) && Nowhere(S(), node) && (Counted(old(S())) ==> Counted(S()))
    {
      if |free| == 0 { return false, 0, 0; }
      found, node := true, free[|free| - 1];
      Open(S(), -1);
      NextGeneration(S());
      AllocatedInv(S(), MakeId(Generation(|issued|), node));
      free := free[..|free| - 1];
      generation := (generation + 1) % 0x1_0000;
      if generation == 0 { generation := (generation + 1) % 0x1_0000; }
      id := MakeId(generation, node);
      issued := issued + [id];
    }

    // Stores new fields in a node that no list holds.
    method Write(node: nat, n: TimerNode, ghost t: Track)
      requires node < |pool| && Inv(S(), node) && (node in active ==> t.due == track[node].due)
      modifies `pool, `track
      ensures S() == Written(old(S()), node, n, t) && Inv(S(), node)
    {
      WrittenInv(S(), node, n, t);
      pool, track := pool[node := n], track[node := t];
    }

    method FreeNode(node: nat)
      requires node < |pool| && Inv(S(), node) && Nowhere(S(), node)
      modifies `free, `pool
      ensures Inv(S(), -1)
      ensures S() == old(S()).(pool := old(pool)[node := old(pool)[node].Cleared()], free := old(free) + [node])
    {
      ghost var t := track;
      WrittenInv(S(), node, pool[node].Cleared(), track[node]);
      assert track[node := track[node]] == track;
      pool := pool[node := pool[node].Cleared()];
      PlacedInv(S(), S().(free := free + [node]), node);
      free := free + [node];
    }

    method AddActiveNode(node: nat, ghost now: int)
      requires node < |pool| && Inv(S(), node) && Nowhere(S(), node)
      requires pool[node].state == Active && NodeOk(pool[node], track[node], node, issued, log)
      modifies `active, `faithful
      ensures Inv(S(), -1)
      ensures S() == Observed(old(S()), now).(active := active)
      ensures multiset(active) == multiset(old(active)) + multiset{node}
    {
      NeverFull(S(), node);
      if |active| == |pool| {
        assert false; // the branch that would free the node is dead
      }
      ghost var s := S();
      Open(s, node);
      faithful := faithful && InWindow(pool, track, now);
      var r := AddSorted(active, node, pool, track);
      if faithful {
        ActiveStampsHold(s, node, active);
        WindowComparable(active + [node], pool, track, now);
      }
      active := r;
      PlacedInv(s, S(), node);
    }

    method RemoveActiveNode(node: nat, ghost now: int) returns (ok: bool)
      requires node < |pool| && Inv(S(), node)
      modifies `active, `faithful
      ensures Inv(S(), node) && node !in active
      ensures ok <==> node in old(active)
      ensures S() == (if ok then Observed(old(S()), now) else old(S())).(active := active)
      ensures multiset(active) == multiset(old(active)) - multiset{node}
    {
      ok := false;
      var i := 0;
      while i < |active|
        invariant 0 <= i <= |active| && node !in active[..i]
      {
        if active[i] == node {
          EraseAt(i, now);
          return true;
        }
        i := i + 1;
      }
    }

    method EraseAt(i: nat, ghost now: int)
      requires i < |active| && active[i] < |pool| && Inv(S(), active[i])
      modifies `active, `faithful
      ensures Inv(S(), old(active)[i]) && old(active)[i] !in active
      ensures S() == Observed(old(S()), now).(active := active)
      ensures multiset(active) == multiset(old(active)) - multiset{old(active)[i]}
    {
      ghost var s, node := S(), active[i];
      Open(s, node);
      faithful := faithful && InWindow(pool, track, now);
      var r := EraseAndHeapify(active, i, pool, track);
      if faithful {
        ErasedElements(active, i);
        ActiveStampsHold(s, node, Erased(active, i));
        WindowComparable(Erased(active, i), pool, track, now);
      }
      active := r;
      ActiveTaken(s, active, node, faithful);
    }

    method RemovePausedNode(node: nat) returns (ok: bool)
      requires node < |pool| && Inv(S(), node)
      modifies `paused
      ensures Inv(S(), node) && node !in paused
      ensures ok <==> node in old(paused)
      ensures S() == old(S()).(paused := paused)
      ensures multiset(paused) == multiset(old(paused)) - multiset{node}
    {
      ok := false;
      var i := 0;
      while i < |paused|
        invariant 0 <= i <= |paused| && node !in paused[..i]
      {
        if paused[i] == node {
          Open(S(), node);
          ErasedElements(paused, i);
          PausedTaken(S(), Erased(paused, i), node);
          paused := Erased(paused, i);
          return true;
        }
        i := i + 1;
      }
    }

    // The live node with this id, if any.
    method Lookup(id: u32) returns (r: Option<nat>)
      requires Inv(S(), -1)
      ensures r == Resolve(pool, id)
      ensures forall i :: 0 <= i < |pool| && pool[i].Live() ==> (pool[i].id == id <==> r == Some(i))
    {
      forall i | 0 <= i < |pool| && pool[i].Live()
        ensures (pool[i].id == id <==> Resolve(pool, id) == Some(i)) && pool[i].id != 0
      {
        ResolveIsComplete(S(), id, i);
      }
      if id == 0 { return None; }
      var index := GetIndex(id);
      if index >= |pool| { return None; }
      if pool[index].id == id && pool[index].state != Inactive { return Some(index); }
      r := None;
    }
  }
}
