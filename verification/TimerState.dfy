/** The state of the timer pool as a value, its invariant, and what each storage step does to it. */
module TimerState {
  import opened Prelude
  import opened Counting
  import opened TimerAsm
  import opened TimerHeap
  import opened TimerTypes

  /** The fields of the pool. Pool indices stand for node pointers; `pending` is the part of the execution
      queue whose turn has not ended. The last four fields are proof bookkeeping: the data attached to each
      node, the ids issued so far in order, the callback runs so far, and whether every comparison so far was
      made with all active deadlines within the window of the clock. */
  datatype State = State(
    pool: seq<TimerNode>, free: seq<nat>, active: seq<nat>, paused: seq<nat>, pending: seq<nat>,
    generation: nat, timeouts: nat, intervals: nat,
    track: seq<Track>, issued: seq<u32>, log: seq<Firing>, faithful: bool)

  // Deadlines this close to the clock, in milliseconds, compare correctly in 32 bits.
  const WINDOW := 0x4000_0000

  // ----- the invariant -----

  // The list holds exactly the nodes in a state, each once; nothing is said about node `loose`.
  ghost predicate Holds(list: seq<nat>, pool: seq<TimerNode>, state: TimerState, loose: int) {
    && Distinct(list) && InRange(list, |pool|)
    && forall i: nat :: i < |pool| && i != loose ==> (i in list <==> pool[i].state == state)
  }

  /** Every node but `loose` is in exactly the list that its state names: free, active, paused, or the
      execution queue that is still pending. */
  ghost predicate Partition(s: State, loose: int) {
    && Holds(s.free, s.pool, Inactive, loose)
    && Holds(s.active, s.pool, Active, loose)
    && Holds(s.paused, s.pool, Paused, loose)
    && Holds(s.pending, s.pool, Processing, loose)
  }

  ghost predicate Nowhere(s: State, node: nat) {
    node !in s.free && node !in s.active && node !in s.paused && node !in s.pending
  }

  // The repeat count tells the runs that are left; a spared timer has had them all.
  ghost predicate Tally(n: TimerNode, t: Track) {
    if t.goal == 0 then n.repeatCount < 0 && !t.spared
    else if t.spared then n.repeatCount == 0 && t.runs >= t.goal
    else n.repeatCount == t.goal - t.runs >= 0
  }

  // A delay of at most 2^31 ms is never compared from further away unless the clock goes back.
  ghost predicate StaysNear(t: Track) {
    t.onward && t.delay <= HALF ==> t.near
  }

  /** With the unpaused time gathered so far, a node only ever compared near its deadline comes due no earlier
      than after its delay; and after a pause its deadline is near. */
  ghost predicate Patient(n: TimerNode, t: Track) {
    && StaysNear(t)
    && if n.state == Paused then
         n.remaining <= HALF && (t.near && !t.exempt ==> t.credit + n.remaining >= t.delay)
       else
         && t.due - t.since <= (if t.delay <= HALF then HALF else t.delay)
         && (t.near && !t.exempt ==> t.credit + t.due - t.since >= t.delay)
  }

  /** What the bookkeeping says about a live node: it is the latest allocation of its slot; its runs are the
      logged ones, and it has runs left unless a pause has spared it; and it is patient. */
  ghost predicate NodeOk(n: TimerNode, t: Track, index: nat, issued: seq<u32>, log: seq<Firing>) {
    n.Live() ==>
      && t.alloc < |issued| && n.id == issued[t.alloc] && GetIndex(n.id) == index
      && (forall j :: t.alloc < j < |issued| ==> GetIndex(issued[j]) != index)
      && t.runs == RunsOf(log, t.alloc) && Tally(n, t) && (n.repeatCount == 0 ==> t.spared)
      && (n.state != Paused ==> n.nextCall == Stamp(t.due))
      && Patient(n, t)
  }

  ghost predicate NodesOk(s: State, loose: int) {
    && |s.track| == |s.pool|
    && forall i: nat :: i < |s.pool| && i != loose ==> NodeOk(s.pool[i], s.track[i], i, s.issued, s.log)
  }

  /** Runs are numbered by their allocation; none came early that was always compared near its deadline; and a
      limited timer runs beyond its limit exactly when it has been spared. */
  ghost predicate LogOk(log: seq<Firing>, issued: nat) {
    forall k :: 0 <= k < |log| ==> log[k].alloc < issued && FiringOk(log[k], RunsOf(log[..k], log[k].alloc))
  }

  ghost predicate FiringOk(e: Firing, before: nat) {
    && e.run == before + 1
    && (e.near && !e.exempt ==> e.elapsed >= e.delay)
    && (e.onward && e.delay <= HALF ==> e.near)
    && (if e.goal == 0 then !e.spared else e.spared <==> e.run > e.goal)
  }

  ghost predicate Consistent(s: State, loose: int) {
    && Partition(s, loose)
    && GenerationsOk(s.generation, s.issued)
    && NodesOk(s, loose)
    && LogOk(s.log, |s.issued|)
    && (s.faithful ==> HeapOrdered(s.active, Dues(s.track)))
  }

  /** Inv is Consistent behind a quantifier that only Shown instantiates. Most proofs hand the invariant on
      without looking into it, and unfolding its many quantifiers at every step would swamp the solver; so it
      stays folded until Open mentions Shown. */
  ghost predicate Shown(k: nat) { true }

  ghost predicate Inv(s: State, loose: int) {
    && 0 < |s.pool| == |s.track| < 0x1_0000
    && forall k: nat {:trigger Shown(k)} :: Shown(k) ==> Consistent(s, loose)
  }

  lemma Open(s: State, loose: int)
    requires Inv(s, loose)
    ensures Consistent(s, loose)
  {
    assert Shown(0);
  }

  ghost predicate Counted(s: State) {
    s.timeouts == CountKind(s.pool, false, |s.pool|) && s.intervals == CountKind(s.pool, true, |s.pool|)
  }

  ghost predicate Valid(s: State) {
    Inv(s, -1) && Counted(s)
  }

  // ----- the window -----

  // The deadlines of all active nodes are within the window of the clock.
  ghost predicate InWindow(pool: seq<TimerNode>, track: seq<Track>, now: int) {
    |pool| == |track| && forall i :: 0 <= i < |pool| && pool[i].state == Active ==>
        -WINDOW < track[i].due - now < WINDOW
  }

  ghost predicate ActiveStamps(h: seq<nat>, pool: seq<TimerNode>, track: seq<Track>) {
    |pool| == |track| && InRange(h, |pool|) && forall v :: v in h ==>
        pool[v].state == Active && pool[v].nextCall == Stamp(track[v].due)
  }

  lemma WindowComparable(h: seq<nat>, pool: seq<TimerNode>, track: seq<Track>, now: int)
    requires ActiveStamps(h, pool, track) && InWindow(pool, track, now)
    ensures Comparable(h, NextCalls(pool), Dues(track))
  {
    forall i | 0 <= i < |h|
      ensures h[i] < |pool| && NextCalls(pool)[h[i]] == Stamp(Dues(track)[h[i]])
      ensures -WINDOW < Dues(track)[h[i]] - now < WINDOW
    {
      assert h[i] in h;
    }
  }

  lemma ActiveStampsHold(s: State, loose: int, h: seq<nat>)
    requires Inv(s, loose) && forall v :: v in h ==> v in s.active && v != loose
    ensures ActiveStamps(h, s.pool, s.track)
  {
    Open(s, loose);
    forall v | v in h ensures v < |s.pool| && s.pool[v].state == Active && s.pool[v].nextCall == Stamp(s.track[v].due) {
      var i :| 0 <= i < |s.active| && s.active[i] == v;
      assert NodeOk(s.pool[v], s.track[v], v, s.issued, s.log);
    }
    forall i | 0 <= i < |h| ensures h[i] < |s.pool| { assert h[i] in h; }
  }

  // What a comparison with the clock does to the bookkeeping.
  ghost function Observed(s: State, now: int): State {
    s.(faithful := s.faithful && InWindow(s.pool, s.track, now))
  }

  lemma ObservedInv(s: State, loose: int, now: int)
    requires Inv(s, loose)
    ensures Inv(Observed(s, now), loose)
  {
    Open(s, loose);
  }

  // ----- lists -----

  // The list without the node still holds the others.
  ghost predicate Without(list: seq<nat>, list': seq<nat>, n: nat, node: nat) {
    Distinct(list') && InRange(list', n) && forall v :: v in list' <==> v in list && v != node
  }

  lemma DropHead(s: seq<nat>, n: nat)
    requires Distinct(s) && InRange(s, n) && s != []
    ensures s[0] < n && s[0] in s && Without(s, s[1..], n, s[0])
  {
    ErasedElements(s, 0);
    assert Erased(s, 0) == s[1..];
  }

  lemma DropLast(s: seq<nat>, n: nat)
    requires Distinct(s) && InRange(s, n) && s != []
    ensures var last := |s| - 1; s[last] < n && s[last] in s && Without(s, s[..last], n, s[last])
  {
    ErasedElements(s, |s| - 1);
    assert Erased(s, |s| - 1) == s[..|s| - 1];
  }

  lemma HoldsWithout(list: seq<nat>, list': seq<nat>, pool: seq<TimerNode>, state: TimerState, node: nat)
    requires Holds(list, pool, state, -1) && Without(list, list', |pool|, node)
    ensures Holds(list', pool, state, node) && node !in list'
  {
  }

  lemma HoldsLoose(list: seq<nat>, pool: seq<TimerNode>, state: TimerState, node: nat)
    requires Holds(list, pool, state, -1) && node < |pool|
    ensures Holds(list, pool, state, node) && (node in list <==> pool[node].state == state)
  {
  }

  // ----- allocation -----

  ghost function Allocated(s: State, id: u32): State
    requires s.free != []
  {
    s.(free := s.free[..|s.free| - 1], generation := Generation(|s.issued|), issued := s.issued + [id])
  }

  lemma NextGeneration(s: State)
    requires GenerationsOk(s.generation, s.issued)
    ensures (s.generation + 1) % 0x1_0000 == if s.generation == 0xFFFF then 0 else s.generation + 1
    ensures Generation(|s.issued|) == if s.generation == 0xFFFF then 1 else s.generation + 1
  {
  }

  lemma AllocatedInv(s: State, id: u32)
    requires Inv(s, -1) && s.free != [] && s.free[|s.free| - 1] < |s.pool|
    requires id == MakeId(Generation(|s.issued|), s.free[|s.free| - 1])
    ensures var node, s' := s.free[|s.free| - 1], Allocated(s, id);
      && node < |s.pool| && !s.pool[node].Live() && id != 0 && GetIndex(id) == node
      && Inv(s', node) && Nowhere(s', node) && (Counted(s) ==> Counted(s'))
  {
    Open(s, -1);
    var node, s' := s.free[|s.free| - 1], Allocated(s, id);
    DropLast(s.free, |s.pool|);
    HoldsWithout(s.free, s'.free, s.pool, Inactive, node);
    HoldsLoose(s.free, s.pool, Inactive, node);
    HoldsLoose(s.active, s.pool, Active, node);
    HoldsLoose(s.paused, s.pool, Paused, node);
    HoldsLoose(s.pending, s.pool, Processing, node);
    IssuedIdsAreValid(s'.generation, s'.issued, |s.issued|);
    NodesIssue(s, id, node);
  }

  lemma NodesIssue(s: State, id: u32, node: nat)
    requires NodesOk(s, -1) && GetIndex(id) == node
    ensures NodesOk(s.(issued := s.issued + [id]), node)
  {
    forall i: nat | i < |s.pool| && i != node ensures NodeOk(s.pool[i], s.track[i], i, s.issued + [id], s.log) {
      assert NodeOk(s.pool[i], s.track[i], i, s.issued, s.log);
    }
  }

  // No run is logged for an allocation to come.
  lemma FreshRuns(s: State, loose: int)
    requires Inv(s, loose)
    ensures RunsOf(s.log, |s.issued|) == 0
  {
    Open(s, loose);
    assert RunsAt(s.log, |s.issued|) == {};
  }

  // ----- logging a run of a node that no list holds -----

  lemma LoggedInv(s: State, node: nat, e: Firing)
    requires Inv(s, node) && node < |s.pool| && e.alloc < |s.issued| && GetIndex(s.issued[e.alloc]) == node
    requires FiringOk(e, RunsOf(s.log, e.alloc))
    ensures Inv(s.(log := s.log + [e]), node)
  {
    Open(s, node);
    var log := s.log + [e];
    forall i: nat | i < |s.pool| && i != node ensures NodeOk(s.pool[i], s.track[i], i, s.issued, log) {
      assert NodeOk(s.pool[i], s.track[i], i, s.issued, s.log);
      RunsAppend(s.log, e, s.track[i].alloc);
    }
    LogAppend(s.log, e, |s.issued|);
  }

  lemma LogAppend(log: seq<Firing>, e: Firing, issued: nat)
    requires LogOk(log, issued) && e.alloc < issued && FiringOk(e, RunsOf(log, e.alloc))
    ensures LogOk(log + [e], issued)
  {
    var l := log + [e];
    forall k | 0 <= k < |l| ensures l[k].alloc < issued && FiringOk(l[k], RunsOf(l[..k], l[k].alloc)) {
      if k < |log| {
        assert l[..k] == log[..k];
      } else {
        assert l[..k] == log;
      }
    }
  }

  // ----- storing into a node that no list holds -----

  ghost function Written(s: State, node: nat, n: TimerNode, t: Track): State
    requires node < |s.pool| == |s.track|
  {
    s.(pool := s.pool[node := n], track := s.track[node := t])
  }

  lemma HeapFrame(h: seq<nat>, due: seq<int>, due': seq<int>)
    requires HeapOrdered(h, due) && |due| == |due'|
    requires forall v :: v in h ==> due'[v] == due[v]
    ensures HeapOrdered(h, due')
  {
    assert Keys(h, due) == Keys(h, due');
  }

  lemma WrittenInv(s: State, node: nat, n: TimerNode, t: Track)
    requires Inv(s, node) && node < |s.pool| && (node in s.active ==> t.due == s.track[node].due)
    ensures Inv(Written(s, node, n, t), node)
  {
    Open(s, node);
    if s.faithful { HeapFrame(s.active, Dues(s.track), Dues(s.track[node := t])); }
    var s' := Written(s, node, n, t);
    forall i: nat | i < |s.pool| && i != node ensures NodeOk(s'.pool[i], s'.track[i], i, s.issued, s.log) {
      assert NodeOk(s.pool[i], s.track[i], i, s.issued, s.log);
    }
  }

  // The counts move by what the node counted before and counts now.
  lemma WrittenCounts(s: State, node: nat, n: TimerNode, isInterval: bool)
    requires node < |s.pool|
    ensures CountKind(s.pool[node := n], isInterval, |s.pool|) ==
            CountKind(s.pool, isInterval, |s.pool|) + Count1(n, isInterval) - Count1(s.pool[node], isInterval)
  {
    CountUpdate(s.pool, isInterval, node, n, |s.pool|);
  }

  // Setting the request flags of a node moves nothing.
  lemma FlaggedInv(s: State, node: nat, pause: bool, remove: bool)
    requires Valid(s) && node < |s.pool|
    ensures Valid(s.(pool := s.pool[node := s.pool[node].(pauseRequested := pause, removeRequested := remove)]))
  {
    Open(s, -1);
    var n := s.pool[node].(pauseRequested := pause, removeRequested := remove);
    WrittenCounts(s, node, n, false);
    WrittenCounts(s, node, n, true);
    var pool := s.pool[node := n];
    assert forall i :: 0 <= i < |pool| ==> pool[i].state == s.pool[i].state;
    SameStates(s.free, s.pool, pool, Inactive);
    SameStates(s.active, s.pool, pool, Active);
    SameStates(s.paused, s.pool, pool, Paused);
    SameStates(s.pending, s.pool, pool, Processing);
    forall i: nat | i < |s.pool| ensures NodeOk(pool[i], s.track[i], i, s.issued, s.log) {
      assert NodeOk(s.pool[i], s.track[i], i, s.issued, s.log);
    }
  }

  lemma SameStates(list: seq<nat>, pool: seq<TimerNode>, pool': seq<TimerNode>, state: TimerState)
    requires Holds(list, pool, state, -1) && |pool'| == |pool|
    requires forall i :: 0 <= i < |pool| ==> pool'[i].state == pool[i].state
    ensures Holds(list, pool', state, -1)
  {
  }

  // ----- putting a loose node into a list -----

  lemma PlacedInv(s: State, s': State, node: nat)
    requires Inv(s, node) && Nowhere(s, node) && node < |s.pool|
    requires NodeOk(s.pool[node], s.track[node], node, s.issued, s.log)
    requires s.faithful || !s'.faithful
    requires match s.pool[node].state
      case Inactive => s' == s.(free := s.free + [node], faithful := s'.faithful)
      case Paused => s' == s.(paused := s.paused + [node], faithful := s'.faithful)
      case Active =>
        && s' == s.(active := s'.active, faithful := s'.faithful)
        && Distinct(s'.active) && (forall v :: v in s'.active <==> v in s.active || v == node)
        && InRange(s'.active, |s.pool|) && (s'.faithful ==> HeapOrdered(s'.active, Dues(s.track)))
      case Processing => s' == s.(pending := s.pending + [node], faithful := s'.faithful)
    ensures Inv(s', -1)
  {
    Open(s, node);
    forall i: nat | i < |s.pool| ensures NodeOk(s.pool[i], s.track[i], i, s.issued, s.log) {
      if i != node { assert NodeOk(s.pool[i], s.track[i], i, s.issued, s.log); }
    }
  }

  // The list of active nodes cannot be full while some node is outside it.
  lemma NeverFull(s: State, node: nat)
    requires Inv(s, node) && Nowhere(s, node) && node < |s.pool|
    ensures |s.active| < |s.pool|
  {
    Open(s, node);
    Pigeonhole(s.active, |s.pool|);
  }

  // ----- taking a node out of a list -----

  lemma PausedTaken(s: State, paused: seq<nat>, node: nat)
    requires Inv(s, node) && Without(s.paused, paused, |s.pool|, node)
    ensures Inv(s.(paused := paused), node)
  {
    Open(s, node);
  }

  lemma ActiveTaken(s: State, active: seq<nat>, node: nat, faithful: bool)
    requires Inv(s, node) && Without(s.active, active, |s.pool|, node)
    requires (s.faithful || !faithful) && (faithful ==> HeapOrdered(active, Dues(s.track)))
    ensures Inv(s.(active := active, faithful := faithful), node)
  {
    Open(s, node);
  }

  lemma PendingTaken(s: State)
    requires Inv(s, -1) && s.pending != []
    ensures var node, s' := s.pending[0], s.(pending := s.pending[1..]);
      && node < |s.pool| && s.pool[node].state == Processing && Inv(s', node) && Nowhere(s', node)
      && NodeOk(s.pool[node], s.track[node], node, s.issued, s.log)
  {
    Open(s, -1);
    var node, s' := s.pending[0], s.(pending := s.pending[1..]);
    DropHead(s.pending, |s.pool|);
    HoldsWithout(s.pending, s'.pending, s.pool, Processing, node);
    HoldsLoose(s.free, s.pool, Inactive, node);
    HoldsLoose(s.active, s.pool, Active, node);
    HoldsLoose(s.paused, s.pool, Paused, node);
    HoldsLoose(s.pending, s.pool, Processing, node);
    assert NodesOk(s', node);
  }

  // A live node is in the list of its state and in no other.
  lemma WhereIs(s: State, node: nat)
    requires Inv(s, -1) && node < |s.pool|
    ensures node in s.free <==> s.pool[node].state == Inactive
    ensures node in s.active <==> s.pool[node].state == Active
    ensures node in s.paused <==> s.pool[node].state == Paused
    ensures node in s.pending <==> s.pool[node].state == Processing
    ensures NodeOk(s.pool[node], s.track[node], node, s.issued, s.log)
    ensures Inv(s, node)
  {
    Open(s, -1);
  }

  // ----- lookup -----

  // The live node that an id names.
  function Resolve(pool: seq<TimerNode>, id: u32): (r: Option<nat>)
    ensures r.Some? ==> r.value < |pool|
  {
    var i := GetIndex(id);
    if i < |pool| && pool[i].Live() && pool[i].id == id then Some(i) else None
  }

  // Only that node has the id, and id 0 names none.
  lemma ResolveIsComplete(s: State, id: u32, i: nat)
    requires Inv(s, -1) && i < |s.pool| && s.pool[i].Live()
    ensures s.pool[i].id == id <==> Resolve(s.pool, id) == Some(i)
    ensures s.pool[i].id != 0
  {
    Open(s, -1);
    WhereIs(s, i);
    IssuedIdsAreValid(s.generation, s.issued, s.track[i].alloc);
  }

  // Used at most 65534 allocations after its own, an id names the timer it was issued for or none at all.
  lemma StaleIdMisses(s: State, j: nat)
    requires Inv(s, -1) && j < |s.issued| && |s.issued| - j <= 0xFFFF
    ensures match Resolve(s.pool, s.issued[j]) case None => true case Some(i) => s.track[i].alloc == j
  {
    Open(s, -1);
    match Resolve(s.pool, s.issued[j])
    case None =>
    case Some(i) =>
      WhereIs(s, i);
      var k := s.track[i].alloc;
      if j < k { StaleIdIsUnlike(s.generation, s.issued, j, k); }
  }
}
