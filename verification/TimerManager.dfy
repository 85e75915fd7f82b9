/** The timer manager and its processing loop: every operation, and every callback that re-enters them. */
module TimerManager {
  import opened Prelude
  import opened TimerAsm
  import opened TimerHeap
  import opened TimerTypes
  import opened TimerState
  import opened TimerStorage

  // The time source: `time` is unbounded, the code only ever sees its 32-bit stamp.
  class TimerCore {
    var time: int

    constructor (time: int)
      ensures this.time == time
    {
      this.time := time;
    }

    function Now(): u32
      reads this
    {
      Stamp(time)
    }
  }

  // The time left on a deadline, as pause computes it.
  function Remaining(now: u32, deadline: u32): u32 {
    if IsTimerExpired(now, deadline) then 0 else Sub32(deadline, now)
  }

  lemma RemainingIsTrue(now: int, due: int)
    requires -WINDOW < due - now < WINDOW
    ensures Remaining(Stamp(now), Stamp(due)) == if due <= now then 0 else due - now
  {
    DriftIsTrue(now, due);
    DriftIsTrue(due, now);
  }

  // A pause cuts a delay short exactly when more than 2^31 ms of it are left, and then keeps nothing of it; no
  // remaining time is further than the expiry test can see.
  lemma RemainingIsEnough(now: int, due: int)
    ensures Remaining(Stamp(now), Stamp(due)) <= HALF
    ensures due - now <= HALF ==> Remaining(Stamp(now), Stamp(due)) >= due - now
    ensures HALF < due - now < WRAP ==> Remaining(Stamp(now), Stamp(due)) == 0
  {
    Residue(now - due, 1);
    Residue(due - now, 0);
    SubNegated(now, due);
  }

  // reset: the node as a new timer whose first deadline is `delay` from now.
  function Armed(n: TimerNode, id: u32, now: u32, delay: u32): TimerNode {
    n.(id := id, nextCall := Add32(now, delay), state := Active, remaining := 0,
       pauseRequested := false, removeRequested := false)
  }

  ghost function FirstArm(alloc: nat, time: int, delay: u32, repeats: int): Track {
    Track(alloc, time + delay, delay, false, 0, time, true, true, if repeats > 0 then repeats else 0, 0, false)
  }

  // A node armed with the newest id is as the invariant wants it.
  lemma ArmedOk(n: TimerNode, id: u32, time: int, delay: u32, issued: seq<u32>, log: seq<Firing>)
    requires n.repeatCount != 0 && issued != [] && issued[|issued| - 1] == id && RunsOf(log, |issued| - 1) == 0
    ensures NodeOk(Armed(n, id, Stamp(time), delay), FirstArm(|issued| - 1, time, delay, n.repeatCount),
                   GetIndex(id), issued, log)
  {
    StampAdd(time, delay);
  }

  // One less live node of its kind.
  ghost function Uncounted(s: State, isInterval: bool): State {
    if isInterval then s.(intervals := if s.intervals > 0 then s.intervals - 1 else 0)
    else s.(timeouts := if s.timeouts > 0 then s.timeouts - 1 else 0)
  }

  // One more.
  ghost function CountedIn(s: State, isInterval: bool): State {
    if isInterval then s.(intervals := s.intervals + 1) else s.(timeouts := s.timeouts + 1)
  }

  // A node filled, counted and put on the heap, whose layout this leaves open.
  ghost function Scheduled(s: State, node: nat, n: TimerNode, t: Track, now: int): State
    requires node < |s.pool| == |s.track|
  {
    Observed(CountedIn(Written(s, node, n, t), n.isInterval), now)
  }

  lemma {:induction false} CountPositive(pool: seq<TimerNode>, i: nat, k: nat)
    requires i < k <= |pool| && pool[i].Live()
    ensures CountKind(pool, pool[i].isInterval, k) > 0
  {
    if i + 1 < k { CountPositive(pool, i, k - 1); }
  }

  // The id names an active timer with this deadline, for which nothing is requested.
  ghost predicate IsAdded(pool: seq<TimerNode>, id: u32, due: int) {
    && GetIndex(id) < |pool|
    && var n := pool[GetIndex(id)];
       n.id == id && n.state == Active && n.nextCall == Stamp(due) && !n.pauseRequested && !n.removeRequested
  }

  class TimerManager {
    const core: TimerCore
    const storage: TimerStorage

    constructor (core: TimerCore, maxTimers: nat)
      requires 0 < maxTimers < 0x1_0000
      ensures this.core == core && fresh(storage) && Valid(storage.S())
      ensures |storage.pool| == maxTimers && forall i :: 0 <= i < maxTimers ==> !storage.pool[i].Live()
      ensures storage.faithful && storage.pending == [] && storage.log == [] && storage.issued == []
    {
      this.core := core;
      storage := new TimerStorage(maxTimers);
    }

    // ----- add -----

    // reset and finalizeNode: fills the allocated node, counts it and schedules it.
    method FinalizeNode(node: nat, n: TimerNode, ghost t: Track)
      requires node < |storage.pool| && Inv(storage.S(), node) && Nowhere(storage.S(), node) && Counted(storage.S())
      requires !storage.pool[node].Live()
      requires n.state == Active && NodeOk(n, t, node, storage.issued, storage.log)
      modifies storage`timeouts, storage`intervals, storage`active, storage`faithful, storage`track, storage`pool
      ensures Valid(storage.S())
      ensures storage.S() == Scheduled(old(storage.S()), node, n, t, core.time).(active := storage.active)
      ensures multiset(storage.active) == multiset(old(storage.active)) + multiset{node}
    {
      WrittenCounts(storage.S(), node, n, false);
      WrittenCounts(storage.S(), node, n, true);
      storage.Write(node, n, t);
      if n.isInterval {
        storage.intervals := storage.intervals + 1;
      } else {
        storage.timeouts := storage.timeouts + 1;
      }
      storage.AddActiveNode(node, core.time);
    }

    /** The common part of the four add operations: `n` holds the callback and repeat data of the new node,
        and id 0 is returned exactly when no node is free. */
    method CreateNode(delay: u32, n: TimerNode) returns (id: u32, node: nat)
      requires Valid(storage.S()) && n.repeatCount != 0
      modifies storage
      ensures Valid(storage.S())
      ensures id == 0 <==> old(storage.free) == []
      ensures id == 0 ==> storage.S() == old(storage.S())
      ensures id != 0 ==>
                && node == old(storage.free)[|old(storage.free)| - 1] && GetIndex(id) == node
                && node < |old(storage.pool)| == |old(storage.track)|
      ensures id != 0 ==> storage.S() ==
                          Scheduled(Allocated(old(storage.S()), id), node, Armed(n, id, core.Now(), delay),
                                    FirstArm(|old(storage.issued)|, core.time, delay, n.repeatCount), core.time)
                          .(active := storage.active)
      ensures id != 0 ==> multiset(storage.active) == multiset(old(storage.active)) + multiset{node}
    {
      var found;
      FreshRuns(storage.S(), -1);
      found, node, id := storage.AllocateNode();
      if found {
        ArmedOk(n, id, core.time, delay, storage.issued, storage.log);
        FinalizeNode(node, Armed(n, id, core.Now(), delay),
            FirstArm(|storage.issued| - 1, core.time, delay, n.repeatCount));
      }
    }

    method AddTimeout(timeout: u32, hasCallback: bool) returns (id: u32)
      requires Valid(storage.S())
      modifies storage
      ensures Valid(storage.S())
      ensures Grew(old(storage.S()), storage.S(), id, timeout, TimeoutNode(hasCallback), core.time)
      ensures id != 0 ==>
                && IsAdded(storage.pool, id, core.time + timeout)
                && var n := storage.pool[GetIndex(id)];
                   !n.isInterval && !n.isUntil && n.repeatCount == 1 && n.hasCallback == hasCallback
    {
      var node;
      id, node := CreateNode(timeout, TimeoutNode(hasCallback));
      StampAdd(core.time, timeout);
    }

    method AddInterval(interval: u32, repeats: int, hasCallback: bool) returns (id: u32)
      requires Valid(storage.S())
      modifies storage
      ensures Valid(storage.S())
      ensures Grew(old(storage.S()), storage.S(), id, interval, IntervalNode(interval, repeats, hasCallback), core.time)
      ensures id != 0 ==>
                && IsAdded(storage.pool, id, core.time + interval)
                && var n := storage.pool[GetIndex(id)];
                   && n.isInterval && !n.isUntil && n.interval == interval && n.hasCallback == hasCallback
                   && n.repeatCount == if repeats == 0 then -1 else repeats
    {
      var node;
      id, node := CreateNode(interval, IntervalNode(interval, repeats, hasCallback));
      StampAdd(core.time, interval);
    }

    method AddIntervalUntil(interval: u32, hasCallback: bool) returns (id: u32)
      requires Valid(storage.S())
      modifies storage
      ensures Valid(storage.S())
      ensures Grew(old(storage.S()), storage.S(), id, interval, UntilNode(interval, hasCallback, false, 0), core.time)
      ensures id != 0 ==>
                && IsAdded(storage.pool, id, core.time + interval)
                && var n := storage.pool[GetIndex(id)];
                   && n.isInterval && n.isUntil && n.interval == interval && n.repeatCount == -1
                   && n.hasCallback == hasCallback && !n.hasTimeoutCallback
    {
      var node;
      id, node := CreateNode(interval, UntilNode(interval, hasCallback, false, 0));
      StampAdd(core.time, interval);
    }

    method AddIntervalUntilWithTimeout(interval: u32, hasCallback: bool, hasTimeoutCallback: bool, timeout: u32)
      returns (id: u32)
      requires Valid(storage.S())
      modifies storage
      ensures Valid(storage.S())
      ensures Grew(old(storage.S()), storage.S(), id, interval,
                   UntilNode(interval, hasCallback, hasTimeoutCallback, Add32(core.Now(), timeout)), core.time)
      ensures id != 0 ==>
                && IsAdded(storage.pool, id, core.time + interval)
                && var n := storage.pool[GetIndex(id)];
                   && n.isInterval && n.isUntil && n.interval == interval && n.repeatCount == -1
                   && n.hasCallback == hasCallback && n.hasTimeoutCallback == hasTimeoutCallback
                   && n.untilTimeout == Stamp(core.time + timeout)
    {
      var node;
      id, node := CreateNode(interval,
          UntilNode(interval, hasCallback, hasTimeoutCallback, Add32(core.Now(), timeout)));
      StampAdd(core.time, interval);
      StampAdd(core.time, timeout);
    }

    // ----- remove -----

    // freeFinishedNode: the node is no longer counted and goes back to the free list.
    method FreeFinishedNode(node: nat)
      requires node < |storage.pool| && Inv(storage.S(), node) && Nowhere(storage.S(), node) && Counted(storage.S())
      requires storage.pool[node].Live()
      modifies storage`timeouts, storage`intervals, storage`free, storage`pool
      ensures Valid(storage.S())
      ensures storage.S() == Freed(old(storage.S()), node)
    {
      CountPositive(storage.pool, node, |storage.pool|);
      WrittenCounts(storage.S(), node, storage.pool[node].Cleared(), false);
      WrittenCounts(storage.S(), node, storage.pool[node].Cleared(), true);
      if storage.pool[node].isInterval {
        if storage.intervals > 0 { storage.intervals := storage.intervals - 1; }
      } else {
        if storage.timeouts > 0 { storage.timeouts := storage.timeouts - 1; }
      }
      storage.FreeNode(node);
    }

    // Takes a waiting node out of its list.
    method Detach(node: nat)
      requires node < |storage.pool| && Inv(storage.S(), -1)
      requires storage.pool[node].state == Active || storage.pool[node].state == Paused
      modifies storage`active, storage`paused, storage`faithful
      ensures Inv(storage.S(), node) && Nowhere(storage.S(), node)
      ensures storage.S() ==
              Detached(old(storage.S()), node, core.time).(active := storage.active, paused := storage.paused)
      ensures multiset(storage.active) == multiset(old(storage.active)) - multiset{node}
      ensures multiset(storage.paused) == multiset(old(storage.paused)) - multiset{node}
    {
      WhereIs(storage.S(), node);
      assert node in storage.active <==> node in multiset(storage.active);
      assert node in storage.paused <==> node in multiset(storage.paused);
      if storage.pool[node].state == Active {
        var _ := storage.RemoveActiveNode(node, core.time);
      } else {
        var _ := storage.RemovePausedNode(node);
      }
    }

    method Remove(id: u32) returns (ok: bool)
      requires Valid(storage.S())
      modifies storage
      ensures Valid(storage.S())
      ensures ok <==> Resolve(old(storage.pool), id).Some?
      ensures Removed(old(storage.S()), storage.S(), id, core.time)
      ensures ok ==>
                && GetIndex(id) < |storage.pool|
                && var n := storage.pool[GetIndex(id)];
                   if old(storage.pool)[GetIndex(id)].state == Processing then
                     n.state == Processing && n.removeRequested
                   else
                     n.state == Inactive
    {
      var found := storage.Lookup(id);
      if found.None? { return false; }
      var node := found.value;
      if storage.pool[node].state == Processing {
        FlaggedInv(storage.S(), node, storage.pool[node].pauseRequested, true);
        storage.pool := storage.pool[node := storage.pool[node].(removeRequested := true)];
      } else {
        Detach(node);
        FreeFinishedNode(node);
      }
      ok := true;
    }

    // ----- pause and resume -----

    method Pause(id: u32) returns (ok: bool)
      requires Valid(storage.S())
      modifies storage
      ensures Valid(storage.S())
      ensures PausedBy(old(storage.S()), storage.S(), id, core.time, ok)
      ensures ok ==>
                && GetIndex(id) < |storage.pool|
                && var n, n' := old(storage.pool)[GetIndex(id)], storage.pool[GetIndex(id)];
                   && n'.id == n.id == id
                   && if n.state == Processing then n'.state == Processing && n'.pauseRequested
                      else n.state == Active && n'.state == Paused && n'.remaining == Remaining(core.Now(), n.nextCall)
    {
      var found := storage.Lookup(id);
      if found.None? { return false; }
      var node := found.value;
      WhereIs(storage.S(), node);
      if storage.pool[node].state == Paused { return false; }
      if storage.pool[node].state == Processing {
        FlaggedInv(storage.S(), node, true, storage.pool[node].removeRequested);
        storage.pool := storage.pool[node := storage.pool[node].(pauseRequested := true)];
        return true;
      }
      if storage.pool[node].state != Active { return false; }
      ParkActive(node);
      ok := true;
    }

    // The last part of pause: an active node keeps its remaining time and moves to the paused list.
    method ParkActive(node: nat)
      requires node < |storage.pool| && Valid(storage.S()) && storage.pool[node].state == Active
      modifies storage
      ensures Valid(storage.S())
      ensures storage.S() == Parked(Observed(old(storage.S()), core.time), node, core.time).(active := storage.active)
      ensures multiset(storage.active) == multiset(old(storage.active)) - multiset{node}
    {
      ParkStep(storage.S(), node, core.time);
      ghost var t := storage.track[node];
      ghost var w := Parked(Observed(storage.S(), core.time), node, core.time).(paused := storage.paused);
      storage.faithful := storage.faithful && InWindow(storage.pool, storage.track, core.time);
      var n := storage.pool[node];
      storage.pool := storage.pool[node := n.(remaining := Remaining(core.Now(), n.nextCall), state := Paused)];
      storage.track := storage.track[node := ParkedTrack(t, core.time)];
      assert storage.S() == w;
      MoveToPaused(node);
    }

    // A node already marked Paused changes lists.
    method MoveToPaused(node: nat)
      requires node < |storage.pool| && Inv(storage.S(), node) && storage.pool[node].state == Paused
      requires node in storage.active && node !in storage.free && node !in storage.paused && node !in storage.pending
      requires NodeOk(storage.pool[node], storage.track[node], node, storage.issued, storage.log)
      requires storage.faithful ==> InWindow(storage.pool, storage.track, core.time)
      modifies storage`active, storage`paused, storage`faithful
      ensures Inv(storage.S(), -1)
      ensures storage.S() == old(storage.S()).(active := storage.active, paused := old(storage.paused) + [node])
      ensures multiset(storage.active) == multiset(old(storage.active)) - multiset{node}
    {
      var _ := storage.RemoveActiveNode(node, core.time);
      PlacedInv(storage.S(), storage.S().(paused := storage.paused + [node]), node);
      storage.paused := storage.paused + [node];
    }

    method Resume(id: u32) returns (ok: bool)
      requires Valid(storage.S())
      modifies storage
      ensures Valid(storage.S())
      ensures ok <==> PausedId(old(storage.pool), id)
      ensures ResumedBy(old(storage.S()), storage.S(), id, core.time)
      ensures ok ==>
                && GetIndex(id) < |storage.pool|
                && var n := storage.pool[GetIndex(id)];
                   && n.id == id && n.state == Active
                   && n.nextCall == Stamp(core.time + old(storage.pool)[GetIndex(id)].remaining)
    {
      var found := storage.Lookup(id);
      if found.None? || storage.pool[found.value].state != Paused { return false; }
      StampAdd(core.time, storage.pool[found.value].remaining);
      ResumeNode(found.value);
      ok := true;
    }

    method ResumeNode(node: nat)
      requires node < |storage.pool| && Valid(storage.S()) && storage.pool[node].state == Paused
      modifies storage
      ensures Valid(storage.S())
      ensures storage.S() ==
              Observed(Resumed(old(storage.S()), node, core.time), core.time)
              .(active := storage.active, paused := storage.paused)
      ensures multiset(storage.paused) == multiset(old(storage.paused)) - multiset{node}
      ensures multiset(storage.active) == multiset(old(storage.active)) + multiset{node}
    {
      WhereIs(storage.S(), node);
      ResumedOk(storage.S(), node, core.time);
      ResumedCounts(storage.S(), node, core.time);
      var _ := storage.RemovePausedNode(node);
      ghost var t := storage.track[node].(due := core.time + storage.pool[node].remaining, since := core.time);
      var n := storage.pool[node];
      storage.Write(node, n.(nextCall := Add32(core.Now(), n.remaining), state := Active), t);
      storage.AddActiveNode(node, core.time);
    }

    method IsPaused(id: u32) returns (r: bool)
      requires Valid(storage.S())
      ensures r == PausedId(storage.pool, id)
    {
      var found := storage.Lookup(id);
      r := found.Some? && storage.pool[found.value].state == Paused;
    }

    // getNextExpiry: the deadline on top of the heap; within the window no active timer is due before it.
    method GetNextExpiry() returns (found: bool, expiry: u32)
      requires Valid(storage.S())
      ensures found <==> storage.active != []
      ensures found <==> exists i :: 0 <= i < |storage.pool| && storage.pool[i].state == Active
      ensures found ==> storage.active[0] < |storage.pool| && expiry == storage.pool[storage.active[0]].nextCall
      ensures found && storage.faithful && InWindow(storage.pool, storage.track, core.time) ==>
                (IsTimerExpired(core.Now(), expiry) <==> AnyDue(storage.S(), core.time))
    {
      Open(storage.S(), -1);
      if |storage.active| == 0 {
        assert forall i: nat :: i < |storage.pool| ==> i !in storage.active;
        return false, 0;
      }
      found := true;
      assert storage.active[0] in storage.active;
      expiry := storage.pool[storage.active[0]].nextCall;
      if storage.faithful && InWindow(storage.pool, storage.track, core.time) { TopTells(storage.S(), core.time); }
    }
  }

  // Some active timer is due.
  ghost predicate AnyDue(s: State, now: int) {
    DueSet(s, now) != {}
  }

  ghost function DueSet(s: State, now: int): set<nat> {
    if |s.pool| == |s.track| then
      set i: nat | i < |s.pool| && s.pool[i].state == Active && s.track[i].due <= now
    else {}
  }

  lemma TopTells(s: State, now: int)
    requires Inv(s, -1) && s.active != [] && s.faithful && InWindow(s.pool, s.track, now)
    ensures s.active[0] < |s.pool|
    ensures IsTimerExpired(Stamp(now), s.pool[s.active[0]].nextCall) <==> AnyDue(s, now)
    ensures IsTimerExpired(Stamp(now), s.pool[s.active[0]].nextCall) <==> s.track[s.active[0]].due <= now
    ensures forall i :: i in DueSet(s, now) ==> s.track[s.active[0]].due <= s.track[i].due
  {
    Open(s, -1);
    var top := s.active[0];
    assert top in s.active;
    WhereIs(s, top);
    DriftIsTrue(now, s.track[top].due);
    forall i | i in DueSet(s, now) ensures s.track[top].due <= s.track[i].due {
      assert i in s.active;
      var j :| 0 <= j < |s.active| && s.active[j] == i;
      TopIsLeast(s.active, Dues(s.track), j);
    }
    if s.track[top].due <= now { assert top in DueSet(s, now); }
  }

  predicate PausedId(pool: seq<TimerNode>, id: u32) {
    var r := Resolve(pool, id);
    r.Some? && pool[r.value].state == Paused
  }

  // A pause adds to the credit, and compares the deadline with the clock.
  ghost function ParkedTrack(t: Track, now: int): Track {
    t.(credit := t.credit + now - t.since, near := t.near && t.due - now <= HALF, onward := t.onward && now >= t.since)
  }

  ghost function Parked(s: State, node: nat, now: int): State
    requires node < |s.pool| == |s.track|
  {
    var n, t := s.pool[node], s.track[node];
    s.(pool := s.pool[node := n.(remaining := Remaining(Stamp(now), n.nextCall), state := Paused)],
       track := s.track[node := ParkedTrack(t, now)], paused := s.paused + [node])
  }

  // The node with its remaining time noted, still on the heap.
  lemma ParkStep(s: State, node: nat, now: int)
    requires Valid(s) && node < |s.pool| && s.pool[node].state == Active
    ensures var w := Parked(Observed(s, now), node, now).(paused := s.paused);
      && Inv(w, node) && Counted(w) && (w.faithful ==> InWindow(w.pool, w.track, now))
      && NodeOk(w.pool[node], w.track[node], node, w.issued, w.log)
      && node in w.active && node !in w.free && node !in w.paused && node !in w.pending
  {
    var o := Observed(s, now);
    ObservedInv(s, -1, now);
    WhereIs(o, node);
    RemainingIsEnough(now, o.track[node].due);
    var w := Parked(o, node, now).(paused := s.paused);
    WrittenInv(o, node, w.pool[node], w.track[node]);
    assert w == Written(o, node, w.pool[node], w.track[node]);
    WrittenCounts(s, node, w.pool[node], false);
    WrittenCounts(s, node, w.pool[node], true);
  }

  ghost predicate PausedBy(s: State, s': State, id: u32, now: int, ok: bool) {
    match Resolve(s.pool, id)
    case None => !ok && s' == s
    case Some(node) =>
      match s.pool[node].state
      case Paused => !ok && s' == s
      case Processing => ok && s' == s.(pool := s.pool[node := s.pool[node].(pauseRequested := true)])
      case Active =>
        && ok && |s.pool| == |s.track|
        && multiset(s'.active) == multiset(s.active) - multiset{node}
        && s' == Parked(Observed(s, now), node, now).(active := s'.active)
  }

  ghost function Resumed(s: State, node: nat, now: int): State
    requires node < |s.pool| == |s.track|
  {
    var n, t := s.pool[node], s.track[node];
    s.(pool := s.pool[node := n.(nextCall := Add32(Stamp(now), n.remaining), state := Active)],
       track := s.track[node := t.(due := now + n.remaining, since := now)])
  }

  lemma ResumedOk(s: State, node: nat, now: int)
    requires Inv(s, -1) && node < |s.pool| && s.pool[node].state == Paused
    ensures var s' := Resumed(s, node, now); NodeOk(s'.pool[node], s'.track[node], node, s.issued, s.log)
  {
    WhereIs(s, node);
    StampAdd(now, s.pool[node].remaining);
  }

  lemma ResumedCounts(s: State, node: nat, now: int)
    requires Counted(s) && node < |s.pool| == |s.track| && s.pool[node].state == Paused
    ensures Counted(Resumed(s, node, now))
  {
    WrittenCounts(s, node, Resumed(s, node, now).pool[node], false);
    WrittenCounts(s, node, Resumed(s, node, now).pool[node], true);
  }

  ghost predicate ResumedBy(s: State, s': State, id: u32, now: int) {
    if !PausedId(s.pool, id) then s' == s else
    var node := Resolve(s.pool, id).value;
    && |s.pool| == |s.track|
    && multiset(s'.paused) == multiset(s.paused) - multiset{node}
    && multiset(s'.active) == multiset(s.active) + multiset{node}
    && s' == Observed(Resumed(s, node, now), now).(active := s'.active, paused := s'.paused)
  }

  ghost function Detached(s: State, node: nat, now: int): State
    requires node < |s.pool|
  {
    if s.pool[node].state == Active then Observed(s, now) else s
  }

  /** What an add operation does: nothing if no node is free; otherwise the last free node becomes an
      active timer, due after the delay, under a fresh id. */
  ghost predicate Grew(s: State, s': State, id: u32, delay: u32, n: TimerNode, now: int) {
    && (id == 0 <==> s.free == [])
    && (id == 0 ==> s' == s)
    && (id != 0 ==>
      var node: nat := s.free[|s.free| - 1];
      && node < |s.pool| == |s.track| && GetIndex(id) == node
      && multiset(s'.active) == multiset(s.active) + multiset{node}
      && s' == Scheduled(Allocated(s, id), node, Armed(n, id, Stamp(now), delay),
                         FirstArm(|s.issued|, now, delay, n.repeatCount), now).(active := s'.active))
  }

  function TimeoutNode(hasCallback: bool): TimerNode {
    TimerNode(0, 0, 0, Active, false, 1, 0, false, false, false, 0, hasCallback, false)
  }

  function IntervalNode(interval: u32, repeats: int, hasCallback: bool): TimerNode {
    var repeatCount := if repeats == 0 then -1 else repeats;
    TimerNode(0, 0, interval, Active, true, repeatCount, 0, false, false, false, 0, hasCallback, false)
  }

  function UntilNode(interval: u32, hasCallback: bool, hasTimeoutCallback: bool, until: u32): TimerNode {
    TimerNode(0, 0, interval, Active, true, -1, 0, false, false, true, until, hasCallback, hasTimeoutCallback)
  }

  ghost function Freed(s: State, node: nat): State
    requires node < |s.pool|
  {
    Uncounted(s, s.pool[node].isInterval).(pool := s.pool[node := s.pool[node].Cleared()], free := s.free + [node])
  }

  /** remove: a node that waits, active or paused, is freed at once; a Processing one is only marked, and
      freed when its callback has returned. */
  ghost predicate Removed(s: State, s': State, id: u32, now: int) {
    match Resolve(s.pool, id)
    case None => s' == s
    case Some(node) =>
      if s.pool[node].state == Processing then
        s' == s.(pool := s.pool[node := s.pool[node].(removeRequested := true)])
      else
        && multiset(s'.active) == multiset(s.active) - multiset{node}
        && multiset(s'.paused) == multiset(s.paused) - multiset{node}
        && s' == Freed(Detached(s, node, now), node).(active := s'.active, paused := s'.paused)
  }
}
