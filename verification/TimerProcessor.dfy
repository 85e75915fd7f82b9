/** One processing step: the expired batch is pulled off the heap, then every callback runs and may re-enter
    the manager; afterwards its node is freed, parked or scheduled again. */
module TimerProcessor {
  import opened Prelude
  import opened Counting
  import opened TimerAsm
  import opened TimerHeap
  import opened TimerTypes
  import opened TimerState
  import opened TimerStorage
  import opened TimerManager

  // What a callback may do to the timers; a nested tick returns at once.
  datatype Action =
    | AddTimeout(timeout: u32, hasCallback: bool)
    | AddInterval(interval: u32, repeats: int, hasCallback: bool)
    | AddIntervalUntil(interval: u32, hasCallback: bool)
    | AddIntervalUntilWithTimeout(interval: u32, hasCallback: bool, hasTimeoutCallback: bool, timeout: u32)
    | Remove(id: u32)
    | Pause(id: u32)
    | Resume(id: u32)
    | Wait(ms: nat)
    | NestedTick

  // One callback run: its actions, the answer of an until-callback, and the actions of its timeout callback.
  datatype Reaction = Reaction(actions: seq<Action>, stop: bool, timeoutActions: seq<Action>)

  // The time that actions take.
  function Waited(actions: seq<Action>): nat {
    if actions == [] then 0 else Waited(actions[..|actions| - 1]) + Waits(actions[|actions| - 1])
  }

  function Waits(a: Action): nat {
    if a.Wait? then a.ms else 0
  }

  lemma {:induction false} WaitedAppend(a: seq<Action>, b: seq<Action>)
    ensures Waited(a + b) == Waited(a) + Waited(b)
  {
    if b == [] {
      assert a + b == a;
    } else {
      WaitedAppend(a, b[..|b| - 1]);
      assert (a + b)[..|a + b| - 1] == a + b[..|b| - 1];
    }
  }

  predicate Quiet(actions: seq<Action>) {
    forall k :: 0 <= k < |actions| ==> actions[k].Remove? || actions[k].Pause? || actions[k].NestedTick?
  }

  // ----- what every callback leaves alone -----

  // A node in the queue changes in nothing but its request flags, raised exactly by the actions that name it.
  function Flagged(n: TimerNode, actions: seq<Action>): TimerNode {
    n.(pauseRequested := n.pauseRequested || Action.Pause(n.id) in actions,
       removeRequested := n.removeRequested || Action.Remove(n.id) in actions)
  }

  ghost predicate CallbackFrame(s: State, s': State, actions: seq<Action>) {
    && s'.pending == s.pending && s'.log == s.log && s.issued <= s'.issued && (s'.faithful ==> s.faithful)
    && |s'.pool| == |s.pool| == |s.track| == |s'.track|
    && forall i: nat :: i in s.pending && i < |s.pool| ==>
        s'.pool[i] == Flagged(s.pool[i], actions) && s'.track[i] == s.track[i]
  }

  // Nothing is added, resumed or rescheduled.
  ghost predicate CalmFrame(s: State, s': State) {
    && |s'.pool| == |s.pool| == |s.track| == |s'.track|
    && (forall i: nat :: i < |s.pool| && s'.pool[i].Live() ==> SameKind(s.pool[i], s'.pool[i]))
    && (forall i: nat :: i < |s.pool| && s'.pool[i].state == Active ==>
        s.pool[i].state == Active && s'.track[i].due == s.track[i].due)
  }

  ghost predicate SameKind(n: TimerNode, n': TimerNode) {
    n.Live() && n'.isInterval == n.isInterval && n'.isUntil == n.isUntil && n'.interval == n.interval
  }

  lemma CalmWindow(s: State, s': State, now: int)
    requires CalmFrame(s, s') && InWindow(s.pool, s.track, now)
    ensures InWindow(s'.pool, s'.track, now) && DueSet(s', now) <= DueSet(s, now)
  {
  }

  datatype Moment = Moment(state: State, time: int)

  // One action is the operation of the manager that it names, or a wait, or nothing.
  ghost predicate Did(a: Moment, b: Moment, x: Action) {
    match x
    case AddTimeout(d, c) => Added(a, b, d, TimeoutNode(c))
    case AddInterval(d, n, c) => Added(a, b, d, IntervalNode(d, n, c))
    case AddIntervalUntil(d, c) => Added(a, b, d, UntilNode(d, c, false, 0))
    case AddIntervalUntilWithTimeout(d, c, tc, t) => Added(a, b, d, UntilNode(d, c, tc, Add32(Stamp(a.time), t)))
    case Remove(id) => Removed(a.state, b.state, id, a.time) && b.time == a.time
    case Pause(id) => (exists ok: bool :: PausedBy(a.state, b.state, id, a.time, ok)) && b.time == a.time
    case Resume(id) => ResumedBy(a.state, b.state, id, a.time) && b.time == a.time
    case Wait(ms) => b == Moment(a.state, a.time + ms)
    case NestedTick => b == a
  }

  ghost predicate Added(a: Moment, b: Moment, delay: u32, n: TimerNode) {
    (exists id :: Grew(a.state, b.state, id, delay, n, a.time)) && b.time == a.time
  }

  // The moments before, between and after the actions.
  ghost predicate IsPath(path: seq<Moment>, a: Moment, b: Moment, actions: seq<Action>) {
    && |path| == |actions| + 1 && path[0] == a && path[|actions|] == b
    && forall k :: 0 <= k < |actions| ==> DidAt(path, actions, k)
  }

  ghost predicate DidAt(path: seq<Moment>, actions: seq<Action>, k: nat)
    requires k < |actions| && |path| == |actions| + 1
  {
    Did(path[k], path[k + 1], actions[k])
  }

  // The actions have been done in order, one operation each.
  ghost predicate DidAll(a: Moment, b: Moment, actions: seq<Action>) {
    exists path :: IsPath(path, a, b, actions)
  }

  lemma DidAllTrans(a: Moment, m: Moment, b: Moment, x: seq<Action>, y: seq<Action>)
    requires DidAll(a, m, x) && DidAll(m, b, y)
    ensures DidAll(a, b, x + y)
  {
    var p :| IsPath(p, a, m, x);
    var q :| IsPath(q, m, b, y);
    var path := p + q[1..];
    forall k | 0 <= k < |x + y| ensures DidAt(path, x + y, k) {
      if k < |x| {
        assert DidAt(p, x, k);
      } else {
        assert DidAt(q, y, k - |x|);
      }
    }
    assert IsPath(path, a, b, x + y);
  }

  lemma DidNothing(a: Moment)
    ensures DidAll(a, a, [])
  {
    assert IsPath([a], a, a, []);
  }

  lemma DidOne(a: Moment, b: Moment, x: Action)
    requires Did(a, b, x)
    ensures DidAll(a, b, [x])
  {
    assert DidAt([a, b], [x], 0);
    assert IsPath([a, b], a, b, [x]);
  }

  // What a run of actions does to the timers and to the clock, and what of it holds for all or for quiet actions.
  ghost predicate Acted(a: Moment, b: Moment, actions: seq<Action>) {
    && DidAll(a, b, actions)
    && CallbackFrame(a.state, b.state, actions) && b.time == a.time + Waited(actions)
    && (Quiet(actions) ==>
          && b.time == a.time && CalmFrame(a.state, b.state)
          && (a.state.faithful && InWindow(a.state.pool, a.state.track, a.time) ==> b.state.faithful))
  }

  lemma ActedTrans(a: Moment, m: Moment, b: Moment, x: seq<Action>, y: seq<Action>)
    requires Acted(a, m, x) && Acted(m, b, y)
    ensures Acted(a, b, x + y)
  {
    DidAllTrans(a, m, b, x, y);
    FrameTrans(a.state, m.state, b.state, x, y);
    WaitedAppend(x, y);
    if Quiet(x + y) {
      QuietParts(x, y);
      CalmTrans(a.state, m.state, b.state);
      if InWindow(a.state.pool, a.state.track, a.time) { CalmWindow(a.state, m.state, a.time); }
    }
  }

  lemma QuietParts(x: seq<Action>, y: seq<Action>)
    requires Quiet(x + y)
    ensures Quiet(x) && Quiet(y)
  {
    forall k | 0 <= k < |x| ensures x[k].Remove? || x[k].Pause? || x[k].NestedTick? { assert (x + y)[k] == x[k]; }
    forall k | 0 <= k < |y| ensures y[k].Remove? || y[k].Pause? || y[k].NestedTick? { assert (x + y)[|x| + k] == y[k]; }
  }

  lemma FrameTrans(s: State, m: State, s': State, a: seq<Action>, b: seq<Action>)
    requires CallbackFrame(s, m, a) && CallbackFrame(m, s', b)
    ensures CallbackFrame(s, s', a + b)
  {
    forall i: nat | i in s.pending && i < |s.pool| ensures s'.pool[i] == Flagged(s.pool[i], a + b) {
      assert s'.pool[i] == Flagged(Flagged(s.pool[i], a), b);
    }
  }

  lemma CalmTrans(s: State, m: State, s': State)
    requires CalmFrame(s, m) && CalmFrame(m, s')
    ensures CalmFrame(s, s')
  {
    forall i: nat | i < |s.pool| && s'.pool[i].Live() ensures SameKind(s.pool[i], s'.pool[i]) {
      assert SameKind(m.pool[i], s'.pool[i]);
      assert SameKind(s.pool[i], m.pool[i]);
    }
  }

  lemma GrewFrame(s: State, s': State, id: u32, delay: u32, n: TimerNode, now: int, a: Action)
    requires Inv(s, -1) && Grew(s, s', id, delay, n, now) && !a.Pause? && !a.Remove?
    ensures CallbackFrame(s, s', [a])
  {
    if id != 0 {
      NewNodeWaitsNowhere(s);
      OtherFrame(s, s', s.free[|s.free| - 1], a);
    } else {
      OtherFrame(s, s', -1, a);
    }
  }

  lemma NewNodeWaitsNowhere(s: State)
    requires Inv(s, -1) && s.free != []
    ensures s.free[|s.free| - 1] < |s.pool| && s.free[|s.free| - 1] !in s.pending
  {
    Open(s, -1);
    assert s.free[|s.free| - 1] in s.free;
    WhereIs(s, s.free[|s.free| - 1]);
  }

  // An action that changes only a node outside the queue, and asks for nothing.
  lemma OtherFrame(s: State, s': State, node: int, a: Action)
    requires !a.Pause? && !a.Remove? && (node >= 0 ==> node !in s.pending)
    requires |s'.pool| == |s.pool| == |s.track| == |s'.track|
    requires s'.pending == s.pending && s'.log == s.log && s.issued <= s'.issued && (s'.faithful ==> s.faithful)
    requires forall i: nat :: i < |s.pool| && i != node ==> s'.pool[i] == s.pool[i] && s'.track[i] == s.track[i]
    ensures CallbackFrame(s, s', [a])
  {
  }

  // A pending node is named by an id exactly when it carries the id.
  lemma PendingResolves(s: State, id: u32, i: nat)
    requires Inv(s, -1) && i in s.pending && i < |s.pool|
    ensures s.pool[i].state == Processing && (s.pool[i].id == id <==> Resolve(s.pool, id) == Some(i))
  {
    WhereIs(s, i);
    ResolveIsComplete(s, id, i);
  }

  // An action that names a node outside the queue, or none, and changes at most that node.
  lemma ElsewhereFrame(s: State, s': State, id: u32, a: Action)
    requires Inv(s, -1) && (a == Action.Remove(id) || a == Action.Pause(id))
    requires Resolve(s.pool, id).Some? ==> s.pool[Resolve(s.pool, id).value].state != Processing
    requires |s'.pool| == |s.pool| == |s.track| == |s'.track|
    requires s'.pending == s.pending && s'.log == s.log && s.issued <= s'.issued && (s'.faithful ==> s.faithful)
    requires forall i: nat :: i < |s.pool| && Resolve(s.pool, id) != Some(i) ==>
        s'.pool[i] == s.pool[i] && s'.track[i] == s.track[i]
    ensures CallbackFrame(s, s', [a])
  {
    forall i: nat | i in s.pending && i < |s.pool|
      ensures s'.pool[i] == Flagged(s.pool[i], [a]) && s'.track[i] == s.track[i]
    {
      PendingResolves(s, id, i);
    }
  }

  // An action that names a node of the queue.
  lemma FlagFrame(s: State, s': State, id: u32, a: Action, node: nat)
    requires Inv(s, -1) && (a == Action.Remove(id) || a == Action.Pause(id))
    requires Resolve(s.pool, id) == Some(node) && s' == s.(pool := s.pool[node := Flagged(s.pool[node], [a])])
    ensures CallbackFrame(s, s', [a])
  {
    forall i: nat | i in s.pending && i < |s.pool| ensures s'.pool[i] == Flagged(s.pool[i], [a]) {
      PendingResolves(s, id, i);
    }
  }

  lemma RemovedFrame(s: State, s': State, id: u32, now: int)
    requires Inv(s, -1) && Removed(s, s', id, now)
    ensures CallbackFrame(s, s', [Action.Remove(id)]) && CalmFrame(s, s')
    ensures s.faithful && InWindow(s.pool, s.track, now) ==> s'.faithful
  {
    match Resolve(s.pool, id)
    case None => ElsewhereFrame(s, s', id, Action.Remove(id));
    case Some(node) =>
      if s.pool[node].state == Processing {
        assert Action.Remove(id) in [Action.Remove(id)] && Action.Pause(id) !in [Action.Remove(id)];
        FlagFrame(s, s', id, Action.Remove(id), node);
      } else {
        ElsewhereFrame(s, s', id, Action.Remove(id));
      }
  }

  lemma PausedFrame(s: State, s': State, id: u32, now: int, ok: bool)
    requires Inv(s, -1) && PausedBy(s, s', id, now, ok)
    ensures CallbackFrame(s, s', [Action.Pause(id)]) && CalmFrame(s, s')
    ensures s.faithful && InWindow(s.pool, s.track, now) ==> s'.faithful
  {
    match Resolve(s.pool, id)
    case None => ElsewhereFrame(s, s', id, Action.Pause(id));
    case Some(node) =>
      if s.pool[node].state == Processing {
        assert Action.Pause(id) in [Action.Pause(id)] && Action.Remove(id) !in [Action.Pause(id)];
        FlagFrame(s, s', id, Action.Pause(id), node);
      } else {
        ElsewhereFrame(s, s', id, Action.Pause(id));
      }
  }

  lemma ResumedFrame(s: State, s': State, id: u32, now: int)
    requires Inv(s, -1) && ResumedBy(s, s', id, now)
    ensures CallbackFrame(s, s', [Action.Resume(id)])
  {
    match Resolve(s.pool, id)
    case None =>
    case Some(node) => WhereIs(s, node);
  }

  // What an operation of the manager does to the queue, and if it is quiet.
  lemma DidActed(a: Moment, b: Moment, x: Action)
    requires Inv(a.state, -1) && Did(a, b, x)
    ensures Acted(a, b, [x])
  {
    DidOne(a, b, x);
    assert [x][..0] == [] && Waited([x]) == Waits(x);
    assert Quiet([x]) ==> [x][0].Remove? || [x][0].Pause? || [x][0].NestedTick?;
    match x
    case AddTimeout(d, c) => AddedFrame(a, b, d, TimeoutNode(c), x);
    case AddInterval(d, n, c) => AddedFrame(a, b, d, IntervalNode(d, n, c), x);
    case AddIntervalUntil(d, c) => AddedFrame(a, b, d, UntilNode(d, c, false, 0), x);
    case AddIntervalUntilWithTimeout(d, c, tc, t) =>
      AddedFrame(a, b, d, UntilNode(d, c, tc, Add32(Stamp(a.time), t)), x);
    case Remove(id) => RemovedFrame(a.state, b.state, id, a.time);
    case Pause(id) =>
      var ok :| PausedBy(a.state, b.state, id, a.time, ok);
      PausedFrame(a.state, b.state, id, a.time, ok);
    case Resume(id) => ResumedFrame(a.state, b.state, id, a.time);
    case Wait(ms) => OtherFrame(a.state, b.state, -1, x);
    case NestedTick => OtherFrame(a.state, b.state, -1, x);
  }

  lemma AddedFrame(a: Moment, b: Moment, delay: u32, n: TimerNode, x: Action)
    requires Inv(a.state, -1) && Added(a, b, delay, n) && !x.Pause? && !x.Remove?
    ensures CallbackFrame(a.state, b.state, [x])
  {
    var id :| Grew(a.state, b.state, id, delay, n, a.time);
    GrewFrame(a.state, b.state, id, delay, n, a.time, x);
  }

  class TimerProcessor {
    const manager: TimerManager
    const core: TimerCore
    const storage: TimerStorage

    constructor (manager: TimerManager)
      ensures this.manager == manager && core == manager.core && storage == manager.storage
    {
      this.manager := manager;
      this.core := manager.core;
      this.storage := manager.storage;
    }

    ghost predicate Wired() {
      core == manager.core && storage == manager.storage
    }

    // ----- the batch -----

    // pop_heap and pop_back on the active timers; the node becomes Processing.
    method PopExpired(ghost now: int) returns (top: nat)
      requires Wired() && Valid(storage.S()) && storage.active != []
      requires storage.faithful ==> InWindow(storage.pool, storage.track, now)
      modifies storage`active, storage`pool, storage`pending
      ensures Valid(storage.S()) && top == old(storage.active)[0] && top < |storage.pool|
      ensures old(storage.pool)[top].state == Active
      ensures storage.S() == Pulled(old(storage.S()), top).(active := storage.active)
      ensures |storage.active| == |old(storage.active)| - 1
    {
      top := TakeTop(now);
      PulledInv(storage.S(), top);
      var n := storage.pool[top].(state := Processing, pauseRequested := false, removeRequested := false);
      storage.pool := storage.pool[top := n];
      storage.pending := storage.pending + [top];
    }

    // The heap loses its top, which is in no list then.
    method TakeTop(ghost now: int) returns (top: nat)
      requires Wired() && Valid(storage.S()) && storage.active != []
      requires storage.faithful ==> InWindow(storage.pool, storage.track, now)
      modifies storage`active
      ensures top == old(storage.active)[0] && top < |storage.pool| && storage.pool[top].state == Active
      ensures Inv(storage.S(), top) && Nowhere(storage.S(), top) && Counted(storage.S())
      ensures NodeOk(storage.pool[top], storage.track[top], top, storage.issued, storage.log)
      ensures |storage.active| == |old(storage.active)| - 1
    {
      ghost var s := storage.S();
      Open(s, -1);
      top := storage.active[0];
      assert top in storage.active;
      WhereIs(s, top);
      if s.faithful {
        ActiveStampsHold(s, -1, s.active);
        WindowComparable(s.active, s.pool, s.track, now);
      }
      storage.active := PopTop(storage.active, storage.pool, storage.track);
      ActiveTaken(s, storage.active, top, s.faithful);
    }

    // One pull of the loop: the top joins the queue.
    method PullTop(ghost s0: State, queue: seq<nat>, ghost t0: int) returns (top: nat)
      requires Wired() && Valid(storage.S()) && storage.active != [] && Pulling(s0, storage.S(), queue, t0)
      requires storage.faithful ==> InWindow(storage.pool, storage.track, t0)
      requires storage.active[0] < |storage.pool| && IsTimerExpired(Stamp(t0), storage.pool[storage.active[0]].nextCall)
      modifies storage`active, storage`pool, storage`pending
      ensures Valid(storage.S()) && Pulling(s0, storage.S(), queue + [top], t0)
      ensures |storage.active| == |old(storage.active)| - 1
    {
      ghost var s := storage.S();
      top := PopExpired(t0);
      PulledStep(s0, s, queue, t0, storage.active);
    }

    // The first loop of process: pulls expired timers while fewer were pulled than remain.
    method PullExpired(cached: u32, ghost t0: int) returns (queue: seq<nat>)
      requires Wired() && Valid(storage.S()) && storage.pending == [] && cached == Stamp(t0)
      modifies storage`active, storage`pool, storage`pending, storage`faithful
      ensures Valid(storage.S()) && IsBatch(Observed(old(storage.S()), t0), queue, t0)
      ensures PulledOut(Observed(old(storage.S()), t0), storage.S(), queue, t0)
    {
      ghost var s0 := Observed(storage.S(), t0);
      ObservedInv(storage.S(), -1, t0);
      storage.faithful := storage.faithful && InWindow(storage.pool, storage.track, t0);
      queue := [];
      while |queue| < |storage.active|
        invariant Valid(storage.S()) && Pulling(s0, storage.S(), queue, t0) && 2 * |queue| <= |s0.active| + 1
        decreases |storage.active|
      {
        TopIsActive(storage.S());
        if !IsTimerExpired(cached, storage.pool[storage.active[0]].nextCall) { break; }
        if s0.faithful { PulledWindow(s0, storage.S(), queue, t0); }
        var top := PullTop(s0, queue, t0);
        queue := queue + [top];
      }
      if s0.faithful { PulledSize(s0, storage.S(), queue, t0); }
    }

    // ----- callbacks -----

    method RunAction(a: Action)
      requires Wired() && Valid(storage.S())
      modifies core, storage
      ensures Valid(storage.S())
      ensures Did(Moment(old(storage.S()), old(core.time)), Moment(storage.S(), core.time), a)
    {
      match a {
        case AddTimeout(d, c) =>
          var _ := manager.AddTimeout(d, c);
        case AddInterval(d, n, c) =>
          var _ := manager.AddInterval(d, n, c);
        case AddIntervalUntil(d, c) =>
          var _ := manager.AddIntervalUntil(d, c);
        case AddIntervalUntilWithTimeout(d, c, tc, t) =>
          var _ := manager.AddIntervalUntilWithTimeout(d, c, tc, t);
        case Remove(id) =>
          var _ := manager.Remove(id);
        case Pause(id) =>
          var _ := manager.Pause(id);
        case Resume(id) =>
          var _ := manager.Resume(id);
        case Wait(ms) =>
          core.time := core.time + ms;
        case NestedTick =>
      }
    }

    method RunActions(actions: seq<Action>)
      requires Wired() && Valid(storage.S())
      modifies core, storage
      ensures Valid(storage.S())
      ensures Acted(Moment(old(storage.S()), old(core.time)), Moment(storage.S(), core.time), actions)
    {
      ghost var start := Moment(storage.S(), core.time);
      DidNothing(start);
      var k := 0;
      while k < |actions|
        invariant 0 <= k <= |actions| && Valid(storage.S())
        invariant Acted(start, Moment(storage.S(), core.time), actions[..k])
      {
        ghost var mid := Moment(storage.S(), core.time);
        RunAction(actions[k]);
        DidActed(mid, Moment(storage.S(), core.time), actions[k]);
        ActedTrans(start, mid, Moment(storage.S(), core.time), actions[..k], [actions[k]]);
        assert actions[..k] + [actions[k]] == actions[..k + 1];
        k := k + 1;
      }
      assert actions[..k] == actions;
    }

    // The callback part of a turn; says whether the timer should stop.
    method RunCallback(node: nat, cached: u32, reaction: Reaction) returns (stop: bool)
      requires Wired() && Valid(storage.S()) && node < |storage.pool| && node in storage.pending
      modifies core, storage
      ensures Valid(storage.S())
      ensures Acted(Moment(old(storage.S()), old(core.time)), Moment(storage.S(), core.time),
                    ActionsOf(old(storage.pool)[node], reaction, cached))
      ensures stop == StopOf(old(storage.pool)[node], reaction, cached)
    {
      DidNothing(Moment(storage.S(), core.time));
      stop := !storage.pool[node].isInterval;
      if storage.pool[node].isUntil {
        if storage.pool[node].hasCallback {
          stop := RunUntilCallback(node, cached, reaction);
        }
      } else if storage.pool[node].hasCallback {
        RunActions(reaction.actions);
      }
    }

    method RunUntilCallback(node: nat, cached: u32, reaction: Reaction) returns (stop: bool)
      requires Wired() && Valid(storage.S()) && node < |storage.pool| && node in storage.pending
      requires storage.pool[node].isUntil && storage.pool[node].hasCallback
      modifies core, storage
      ensures Valid(storage.S())
      ensures Acted(Moment(old(storage.S()), old(core.time)), Moment(storage.S(), core.time),
                    ActionsOf(old(storage.pool)[node], reaction, cached))
      ensures stop == StopOf(old(storage.pool)[node], reaction, cached)
    {
      ghost var start := Moment(storage.S(), core.time);
      RunActions(reaction.actions);
      stop := reaction.stop;
      if !stop && storage.pool[node].hasTimeoutCallback && IsTimerExpired(cached, storage.pool[node].untilTimeout) {
        ghost var mid := Moment(storage.S(), core.time);
        RunActions(reaction.timeoutActions);
        ActedTrans(start, mid, Moment(storage.S(), core.time), reaction.actions, reaction.timeoutActions);
        stop := true;
      }
    }

    // ----- after the callback -----

    /** The rest of a turn: count the run, then honour a removal, a pause, the end of the timer, or schedule
        the next run at the cached time plus the interval. */
    method Settle(node: nat, cached: u32, ghost t0: int, stop: bool)
      requires Wired() && Valid(storage.S()) && storage.pending != [] && storage.pending[0] == node
      requires cached == Stamp(t0)
      requires node < |storage.pool| == |storage.track| && OnTime(storage.track[node], t0)
      modifies storage
      ensures Valid(storage.S())
      ensures Settled(old(storage.S()), storage.S(), t0, core.time, stop)
    {
      ghost var s := storage.S();
      var last := CountRun(node, t0);
      if storage.pool[node].removeRequested {
        manager.FreeFinishedNode(node);
      } else if storage.pool[node].pauseRequested {
        ParkInTurn(node);
      } else if !(stop || last) {
        PendingTaken(s);
        RearmedOk(storage.pool[node], storage.track[node], node, storage.issued, storage.log, t0);
        Rearm(node, cached, t0);
      } else {
        manager.FreeFinishedNode(node);
      }
    }

    // The run is counted, and the node leaves the queue; says whether it was the last of a limited number.
    method CountRun(node: nat, ghost t0: int) returns (last: bool)
      requires Wired() && Valid(storage.S()) && storage.pending != [] && storage.pending[0] == node
      requires node < |storage.pool| == |storage.track| && OnTime(storage.track[node], t0)
      modifies storage`pool, storage`track, storage`pending, storage`log
      ensures storage.S() == Finished(old(storage.S()), t0)
      ensures InTurn(storage.S(), node)
      ensures last == (old(storage.pool)[node].repeatCount == 1)
    {
      ghost var s := storage.S();
      FinishedInTurn(s, t0);
      var n := storage.pool[node];
      last := false;
      if n.repeatCount > 0 {
        n := n.(repeatCount := n.repeatCount - 1);
        if n.repeatCount == 0 { last := true; }
      }
      storage.pending := storage.pending[1..];
      storage.pool := storage.pool[node := n];
      storage.track := storage.track[node := RunTrack(s.track[node])];
      storage.log := storage.log + [FiringOf(s.track[node], t0)];
    }

    method ParkInTurn(node: nat)
      requires Wired() && node < |storage.pool| && InTurn(storage.S(), node)
      modifies storage`pool, storage`track, storage`paused
      ensures Valid(storage.S()) && storage.S() == ParkedInTurn(old(storage.S()), node, core.time)
    {
      var now := core.Now();
      var n := storage.pool[node].(state := Paused, remaining := Remaining(now, storage.pool[node].nextCall));
      WrittenCounts(storage.S(), node, n, false);
      WrittenCounts(storage.S(), node, n, true);
      storage.Write(node, n, Spared(storage.track[node], n.repeatCount));
      PlacedInv(storage.S(), storage.S().(paused := storage.paused + [node]), node);
      storage.paused := storage.paused + [node];
    }

    method Rearm(node: nat, cached: u32, ghost t0: int)
      requires Wired() && node < |storage.pool| && Inv(storage.S(), node) && Nowhere(storage.S(), node)
      requires Counted(storage.S())
      requires cached == Stamp(t0) && storage.pool[node].Live()
      requires NodeOk(RearmedNode(storage.pool[node], t0),
                      RearmedTrack(storage.track[node], storage.pool[node].interval, t0),
                      node, storage.issued, storage.log)
      modifies storage`pool, storage`track, storage`active, storage`faithful
      ensures Valid(storage.S())
      ensures storage.S() == Observed(Rearmed(old(storage.S()), node, t0), core.time).(active := storage.active)
      ensures multiset(storage.active) == multiset(old(storage.active)) + multiset{node}
    {
      var n := storage.pool[node].(nextCall := Add32(cached, storage.pool[node].interval), state := Active);
      WrittenCounts(storage.S(), node, n, false);
      WrittenCounts(storage.S(), node, n, true);
      storage.Write(node, n, RearmedTrack(storage.track[node], n.interval, t0));
      storage.AddActiveNode(node, core.time);
    }

    // ----- a whole turn, a whole step -----

    /** One element of the execution queue has its turn: its callback runs, each of its actions doing to the
        timers what the manager's operation does, and then the node is freed, parked or scheduled again, as its
        request flags and its repeats say. */
    method Turn(node: nat, cached: u32, ghost t0: int, reaction: Reaction)
      requires Wired() && Valid(storage.S()) && storage.pending != [] && storage.pending[0] == node
      requires node < |storage.pool|
      requires cached == Stamp(t0) && OnTime(storage.track[node], t0)
      modifies core, storage
      ensures Valid(storage.S())
      ensures TurnOf(Moment(old(storage.S()), old(core.time)), Moment(storage.S(), core.time), t0, reaction)
    {
      HeadIsPending(storage.S());
      var stop := RunCallback(node, cached, reaction);
      Settle(node, cached, t0, stop);
    }

    // The second loop of process; `trace` is the moment before each turn and the end.
    method ExecuteQueue(queue: seq<nat>, cached: u32, ghost t0: int, reactions: seq<Reaction>)
      returns (ghost trace: seq<Moment>)
      requires Wired() && Valid(storage.S()) && storage.pending == queue && cached == Stamp(t0)
      requires forall k :: 0 <= k < |queue| ==> queue[k] < |storage.pool|
      requires forall k :: 0 <= k < |queue| ==> OnTime(storage.track[queue[k]], t0)
      modifies core, storage
      ensures Valid(storage.S()) && storage.pending == []
      ensures Turns(trace, queue, t0, reactions)
      ensures trace[0] == Moment(old(storage.S()), old(core.time)) && trace[|queue|] == Moment(storage.S(), core.time)
      ensures storage.log == old(storage.log) + Firings(old(storage.track), queue, t0)
      ensures storage.faithful ==> old(storage.faithful)
    {
      trace := [Moment(storage.S(), core.time)];
      var q := 0;
      while q < |queue|
        invariant 0 <= q <= |queue| && Valid(storage.S())
        invariant Running(trace, Moment(storage.S(), core.time), queue, q, t0, reactions)
        invariant trace[0] == Moment(old(storage.S()), old(core.time))
      {
        trace := NextTurn(queue, q, cached, t0, reactions, trace);
        q := q + 1;
      }
      assert queue[..q] == queue;
    }

    // One step of that loop.
    method NextTurn(queue: seq<nat>, q: nat, cached: u32, ghost t0: int, reactions: seq<Reaction>,
        ghost trace: seq<Moment>)
      returns (ghost longer: seq<Moment>)
      requires Wired() && Valid(storage.S()) && cached == Stamp(t0) && q < |queue|
      requires Running(trace, Moment(storage.S(), core.time), queue, q, t0, reactions)
      requires queue[q] < |storage.pool| && OnTime(trace[0].state.track[queue[q]], t0)
      modifies core, storage
      ensures Valid(storage.S()) && |longer| > 0 && longer[0] == trace[0]
      ensures Running(longer, Moment(storage.S(), core.time), queue, q + 1, t0, reactions)
    {
      assert storage.pending[0] == queue[q];
      Turn(queue[q], cached, t0, ReactionAt(reactions, q));
      TurnRuns(trace, Moment(storage.S(), core.time), queue, q, t0, reactions);
      longer := trace + [Moment(storage.S(), core.time)];
    }

    /** process: every node of the batch has exactly one turn, in order, whatever the callbacks do; a node
        removed or paused before its turn still runs once. */
    method Process(cached: u32, reactions: seq<Reaction>) returns (ghost batch: seq<nat>, ghost trace: seq<Moment>)
      requires Wired() && Valid(storage.S()) && storage.pending == [] && cached == core.Now()
      modifies core, storage
      ensures Valid(storage.S()) && storage.pending == [] && core.time >= old(core.time)
      ensures IsBatch(Observed(old(storage.S()), old(core.time)), batch, old(core.time))
      ensures Turns(trace, batch, old(core.time), reactions) && trace[|batch|] == Moment(storage.S(), core.time)
      ensures PulledOut(Observed(old(storage.S()), old(core.time)), trace[0].state, batch, old(core.time))
      ensures trace[0].time == old(core.time)
      ensures storage.log == old(storage.log) + Firings(old(storage.track), batch, old(core.time))
      ensures storage.faithful ==> old(storage.faithful)
      ensures AllQuiet(reactions) ==> core.time == old(core.time)
      ensures AllQuiet(reactions) && Steady(old(storage.S()), core.time) ==>
                && Steady(storage.S(), core.time)
                && DueSet(storage.S(), core.time) <= DueSet(old(storage.S()), core.time) - Elements(batch)
    {
      ghost var t0, s0 := core.time, storage.S();
      var queue := PullExpired(cached, t0);
      batch := queue;
      ObservedInv(s0, -1, t0);
      PulledOnTime(Observed(s0, t0), storage.S(), queue, t0);
      if Steady(s0, t0) { PulledIsSteady(s0, storage.S(), queue, t0); }
      trace := ExecuteQueue(queue, cached, t0, reactions);
      TimeGoesOn(trace, batch, t0, reactions, |batch|);
      if AllQuiet(reactions) { QuietTurns(trace, batch, t0, reactions, |batch|); }
    }
  }

  predicate AllQuiet(reactions: seq<Reaction>) {
    forall k :: 0 <= k < |reactions| ==> QuietReaction(reactions[k])
  }

  // All comparisons are true so far and at time t0, and intervals are positive.
  ghost predicate Steady(s: State, t0: int) {
    s.faithful && InWindow(s.pool, s.track, t0) && PositiveIntervals(s.pool)
  }

  lemma PulledIsSteady(s0: State, s: State, queue: seq<nat>, t0: int)
    requires Steady(s0, t0) && Pulling(Observed(s0, t0), s, queue, t0)
    ensures Steady(s, t0) && DueSet(s, t0) == DueSet(s0, t0) - Elements(queue)
  {
    forall i: nat | i < |s.pool| ensures s.pool[i] == if i in queue then PulledNode(s0.pool[i]) else s0.pool[i] { }
    forall i | i in DueSet(s, t0) ensures i in DueSet(s0, t0) - Elements(queue) { }
    forall i | i in DueSet(s0, t0) - Elements(queue) ensures i in DueSet(s, t0) { }
  }

  // ----- the batch -----

  ghost function PulledNode(n: TimerNode): TimerNode {
    n.(state := Processing, pauseRequested := false, removeRequested := false)
  }

  ghost function Pulled(s: State, node: nat): State
    requires node < |s.pool|
  {
    s.(pool := s.pool[node := PulledNode(s.pool[node])], pending := s.pending + [node])
  }

  lemma PulledInv(s: State, node: nat)
    requires Inv(s, node) && Nowhere(s, node) && node < |s.pool| && s.pool[node].state == Active
    requires NodeOk(s.pool[node], s.track[node], node, s.issued, s.log)
    ensures Inv(Pulled(s, node), -1) && (Counted(s) ==> Counted(Pulled(s, node)))
  {
    var n := PulledNode(s.pool[node]);
    WrittenInv(s, node, n, s.track[node]);
    assert s.track[node := s.track[node]] == s.track;
    WrittenCounts(s, node, n, false);
    WrittenCounts(s, node, n, true);
    PlacedInv(s.(pool := s.pool[node := n]), Pulled(s, node), node);
  }

  /** Part of a batch has been pulled: the nodes of `queue`, in order; every one is due, and none that is
      still active is due before one of them. */
  ghost predicate Pulling(s0: State, s: State, queue: seq<nat>, t0: int) {
    && |s0.pool| == |s0.track| == |s.pool| && Distinct(queue) && InRange(queue, |s0.pool|)
    && s == s0.(pool := s.pool, active := s.active, pending := queue)
    && |queue| + |s.active| == |s0.active|
    && (forall i: nat :: i < |s0.pool| ==> s.pool[i] == if i in queue then PulledNode(s0.pool[i]) else s0.pool[i])
    && (forall k :: 0 <= k < |queue| ==>
          s0.pool[queue[k]].state == Active && IsTimerExpired(Stamp(t0), s0.pool[queue[k]].nextCall))
    && (s0.faithful ==> InOrder(s0, queue, t0))
  }

  // The loop would pull another node.
  ghost predicate TopExpired(s: State, t0: int) {
    s.active != [] && s.active[0] < |s.pool| && IsTimerExpired(Stamp(t0), s.pool[s.active[0]].nextCall)
  }

  // The whole batch has been pulled: as many as remain, or every one that the loop finds expired on top.
  ghost predicate PulledOut(s0: State, s: State, queue: seq<nat>, t0: int) {
    Pulling(s0, s, queue, t0) && (|s.active| <= |queue| || !TopExpired(s, t0))
  }

  // Whatever was pulled is due, unless its deadline is further away than the expiry test can see.
  lemma PulledOnTime(s0: State, s: State, queue: seq<nat>, t0: int)
    requires Valid(s0) && Pulling(s0, s, queue, t0)
    ensures forall k :: 0 <= k < |queue| ==> OnTime(s0.track[queue[k]], t0)
  {
    forall k | 0 <= k < |queue| ensures OnTime(s0.track[queue[k]], t0) {
      WhereIs(s0, queue[k]);
      if s0.track[queue[k]].due - t0 <= HALF { ExpiryIsEarly(t0, s0.track[queue[k]].due); }
    }
  }

  ghost predicate InOrder(s0: State, queue: seq<nat>, t0: int)
    requires |s0.pool| == |s0.track| && InRange(queue, |s0.pool|)
  {
    && (forall k :: 0 <= k < |queue| ==> s0.track[queue[k]].due <= t0)
    && (forall k, l :: 0 <= k < l < |queue| ==> s0.track[queue[k]].due <= s0.track[queue[l]].due)
    && (forall k, i: nat :: 0 <= k < |queue| && i < |s0.pool| && s0.pool[i].state == Active && i !in queue ==>
          s0.track[queue[k]].due <= s0.track[i].due)
  }

  /** The batch of a step that starts in s0: with n active timers of which e are due it has exactly
      min(e, (n + 1) / 2) nodes, in deadline order, and none left behind is due before one of them. */
  ghost predicate IsBatch(s0: State, batch: seq<nat>, t0: int) {
    && |s0.pool| == |s0.track| && Distinct(batch) && InRange(batch, |s0.pool|)
    && (forall k :: 0 <= k < |batch| ==> s0.pool[batch[k]].state == Active)
    && (s0.faithful ==>
      && InOrder(s0, batch, t0)
      && |batch| == Min(|DueSet(s0, t0)|, (|s0.active| + 1) / 2))
  }

  function Min(a: int, b: int): int {
    if a <= b then a else b
  }

  lemma TopIsActive(s: State)
    requires Inv(s, -1) && s.active != []
    ensures s.active[0] < |s.pool| && s.pool[s.active[0]].state == Active
  {
    Open(s, -1);
    assert s.active[0] in s.active;
  }

  // A pulled node is in the queue, no request of earlier runs is left, and nothing else about it has changed.
  lemma PulledAreClean(s0: State, s: State, queue: seq<nat>, t0: int, k: nat)
    requires Pulling(s0, s, queue, t0) && k < |queue|
    ensures var n, n' := s0.pool[queue[k]], s.pool[queue[k]];
      && n'.state == Processing && !n'.pauseRequested && !n'.removeRequested
      && n'.(state := n.state, pauseRequested := n.pauseRequested, removeRequested := n.removeRequested) == n
      && s.track[queue[k]] == s0.track[queue[k]]
  {
    assert queue[k] in queue;
  }

  lemma PulledWindow(s0: State, s: State, queue: seq<nat>, t0: int)
    requires Pulling(s0, s, queue, t0) && InWindow(s0.pool, s0.track, t0)
    ensures InWindow(s.pool, s.track, t0)
  {
  }

  lemma PulledStep(s0: State, s: State, queue: seq<nat>, t0: int, active: seq<nat>)
    requires Valid(s) && Pulling(s0, s, queue, t0) && s.active != [] && s.active[0] < |s.pool|
    requires s.faithful ==> InWindow(s.pool, s.track, t0)
    requires IsTimerExpired(Stamp(t0), s.pool[s.active[0]].nextCall) && |active| == |s.active| - 1
    ensures Pulling(s0, Pulled(s, s.active[0]).(active := active), queue + [s.active[0]], t0)
  {
    var top := s.active[0];
    TopIsActive(s);
    assert top !in queue;
    if s0.faithful { PulledInOrder(s0, s, queue, t0); }
  }

  // The top comes after all that were pulled, and before all that stay.
  lemma PulledInOrder(s0: State, s: State, queue: seq<nat>, t0: int)
    requires Valid(s) && Pulling(s0, s, queue, t0) && s.active != [] && s0.faithful
    requires InWindow(s.pool, s.track, t0) && s.active[0] < |s.pool| && s.pool[s.active[0]].state == Active
    requires s.active[0] !in queue
    requires IsTimerExpired(Stamp(t0), s.pool[s.active[0]].nextCall)
    ensures InOrder(s0, queue + [s.active[0]], t0)
  {
    var top := s.active[0];
    TopIsFirst(s, t0);
    forall i: nat | i < |s0.pool| && s0.pool[i].state == Active && i !in queue + [top]
      ensures s0.track[top].due <= s0.track[i].due
    {
      assert i !in queue && s.pool[i] == s0.pool[i];
    }
  }

  // Of all active timers the top is due first.
  lemma TopIsFirst(s: State, t0: int)
    requires Valid(s) && s.active != [] && s.faithful && InWindow(s.pool, s.track, t0) && TopExpired(s, t0)
    ensures s.track[s.active[0]].due <= t0
    ensures forall i: nat :: i < |s.pool| && s.pool[i].state == Active ==> s.track[s.active[0]].due <= s.track[i].due
  {
    TopTells(s, t0);
    forall i: nat | i < |s.pool| && s.pool[i].state == Active
      ensures s.track[s.active[0]].due <= s.track[i].due
    {
      if s.track[i].due <= t0 { assert i in DueSet(s, t0); }
    }
  }

  lemma PulledSize(s0: State, s: State, queue: seq<nat>, t0: int)
    requires Valid(s) && Pulling(s0, s, queue, t0) && s0.faithful && InWindow(s0.pool, s0.track, t0)
    requires 2 * |queue| <= |s0.active| + 1
    requires |s.active| <= |queue| || !TopExpired(s, t0)
    ensures |queue| == Min(|DueSet(s0, t0)|, (|s0.active| + 1) / 2)
  {
    DistinctSize(queue);
    forall i | i in Elements(queue) ensures i in DueSet(s0, t0) {
      var k :| 0 <= k < |queue| && queue[k] == i;
    }
    SubsetSize(Elements(queue), DueSet(s0, t0));
    forall i | i in DueSet(s0, t0) && i !in queue ensures i in DueSet(s, t0) { assert s.pool[i] == s0.pool[i]; }
    if |s.active| > |queue| {
      TopTells(s, t0);
      assert DueSet(s0, t0) == Elements(queue);
    }
  }

  // Every run of a callback, as the log records it.
  ghost function FiringOf(t: Track, t0: int): Firing {
    Firing(t.alloc, t.credit + t0 - t.since, t.delay, t.exempt, t.near && t.due - t0 <= HALF, t.onward && t0 >= t.since,
           t.runs + 1, t.goal, t.spared)
  }

  ghost function Firings(track: seq<Track>, batch: seq<nat>, t0: int): seq<Firing>
    requires InRange(batch, |track|)
  {
    seq(|batch|, k requires 0 <= k < |batch| => FiringOf(track[batch[k]], t0))
  }

  lemma HeadIsPending(s: State)
    requires Valid(s) && s.pending != []
    ensures s.pending[0] < |s.pool| && s.pending[0] in s.pending && s.pool[s.pending[0]].state == Processing
  {
    PendingTaken(s);
    assert s.pending[0] in s.pending;
  }

  // ----- what a turn is -----

  function NoReaction(): Reaction {
    Reaction([], true, [])
  }

  function ReactionAt(reactions: seq<Reaction>, q: nat): Reaction {
    if q < |reactions| then reactions[q] else NoReaction()
  }

  predicate TimesOut(n: TimerNode, reaction: Reaction, cached: u32) {
    !reaction.stop && n.hasTimeoutCallback && IsTimerExpired(cached, n.untilTimeout)
  }

  // Which actions the callbacks of a node perform.
  function ActionsOf(n: TimerNode, reaction: Reaction, cached: u32): seq<Action> {
    if !n.hasCallback then []
    else if n.isUntil && TimesOut(n, reaction, cached) then reaction.actions + reaction.timeoutActions
    else reaction.actions
  }

  // Whether the callback part ends the timer.
  predicate StopOf(n: TimerNode, reaction: Reaction, cached: u32) {
    if n.isUntil && n.hasCallback then reaction.stop || TimesOut(n, reaction, cached) else !n.isInterval
  }

  /** A turn of the first pending node: its callbacks act, each action as the manager's operation, in a way that
      leaves the queue alone but for request flags, and then the node is settled. */
  ghost predicate TurnOf(a: Moment, b: Moment, t0: int, reaction: Reaction) {
    && a.state.pending != [] && a.state.pending[0] < |a.state.pool|
    && var n := a.state.pool[a.state.pending[0]];
    && var actions := ActionsOf(n, reaction, Stamp(t0));
      exists m ::
        && Acted(a, Moment(m, b.time), actions)
        && Settled(m, b.state, t0, b.time, StopOf(n, reaction, Stamp(t0)))
  }

  // One turn for each node of the batch, in order, and the invariant between any two.
  ghost predicate Turns(trace: seq<Moment>, batch: seq<nat>, t0: int, reactions: seq<Reaction>) {
    && |trace| == |batch| + 1
    && (forall q :: 0 <= q < |trace| ==> Valid(trace[q].state))
    && forall q :: 0 <= q < |batch| ==> TurnAt(trace, batch, q, t0, reactions)
  }

  ghost predicate TurnAt(trace: seq<Moment>, batch: seq<nat>, q: nat, t0: int, reactions: seq<Reaction>)
    requires q < |batch| && |trace| == |batch| + 1
  {
    && trace[q].state.pending != [] && trace[q].state.pending[0] == batch[q]
    && TurnOf(trace[q], trace[q + 1], t0, ReactionAt(reactions, q))
  }

  lemma TurnsAppend(trace: seq<Moment>, queue: seq<nat>, q: nat, t0: int, reactions: seq<Reaction>, b: Moment)
    requires q < |queue| && Turns(trace, queue[..q], t0, reactions) && TurnOf(trace[q], b, t0, ReactionAt(reactions, q))
    requires trace[q].state.pending != [] && trace[q].state.pending[0] == queue[q] && Valid(b.state)
    ensures Turns(trace + [b], queue[..q + 1], t0, reactions)
  {
    var longer, upTo := trace + [b], queue[..q + 1];
    forall k | 0 <= k < |upTo| ensures TurnAt(longer, upTo, k, t0, reactions) {
      if k < q {
        assert TurnAt(trace, queue[..q], k, t0, reactions);
        assert longer[k] == trace[k] && longer[k + 1] == trace[k + 1];
      } else {
        assert longer[k] == trace[k] && longer[k + 1] == b;
      }
    }
  }

  // After q turns the rest of the queue waits as it was, and the log has grown by the q runs.
  ghost predicate Remain(s: State, m: State, queue: seq<nat>, q: nat, t0: int) {
    && q <= |queue| && m.pending == queue[q..] && InRange(queue, |s.track|) && (m.faithful ==> s.faithful)
    && |m.track| == |m.pool| == |s.pool| == |s.track|
    && (forall k :: q <= k < |queue| ==> m.track[queue[k]] == s.track[queue[k]])
    && m.log == s.log + Firings(s.track, queue, t0)[..q]
  }

  lemma TurnAdvances(s: State, a: State, b: State, queue: seq<nat>, q: nat, t0: int)
    requires Remain(s, a, queue, q, t0) && q < |queue| && KeepsQueue(a, b, t0)
    ensures Remain(s, b, queue, q + 1, t0)
  {
    assert b.pending == queue[q + 1..];
    forall k | q + 1 <= k < |queue| ensures b.track[queue[k]] == s.track[queue[k]] {
      assert a.pending[k - q] == queue[k];
    }
    var f := Firings(s.track, queue, t0);
    assert f[..q + 1] == f[..q] + [FiringOf(a.track[queue[q]], t0)];
  }

  // The queue has run up to q, from the first moment of the trace to the last.
  ghost predicate Running(trace: seq<Moment>, now: Moment, queue: seq<nat>, q: nat, t0: int, reactions: seq<Reaction>) {
    && q <= |queue| && Turns(trace, queue[..q], t0, reactions) && trace[q] == now
    && Remain(trace[0].state, now.state, queue, q, t0)
  }

  lemma TurnRuns(trace: seq<Moment>, b: Moment, queue: seq<nat>, q: nat, t0: int, reactions: seq<Reaction>)
    requires q < |queue| && q < |trace| && Running(trace, trace[q], queue, q, t0, reactions)
    requires TurnOf(trace[q], b, t0, ReactionAt(reactions, q)) && Valid(b.state)
    ensures Running(trace + [b], b, queue, q + 1, t0, reactions)
  {
    assert trace[q].state.pending[0] == queue[q];
    TurnKeepsQueue(trace[q], b, t0, ReactionAt(reactions, q));
    TurnAdvances(trace[0].state, trace[q].state, b.state, queue, q, t0);
    TurnsAppend(trace, queue, q, t0, reactions, b);
  }

  // A turn logs its run, takes the node off the queue, and leaves the rest of the queue alone.
  ghost predicate KeepsQueue(s: State, s': State, t0: int) {
    && |s'.pool| == |s.pool| == |s.track| == |s'.track| && (s'.faithful ==> s.faithful)
    && s.pending != [] && s.pending[0] < |s.pool| && s'.pending == s.pending[1..]
    && s'.log == s.log + [FiringOf(s.track[s.pending[0]], t0)]
    && forall k :: 1 <= k < |s.pending| ==> s.pending[k] < |s.pool| && s'.track[s.pending[k]] == s.track[s.pending[k]]
  }

  lemma TurnKeepsQueue(a: Moment, b: Moment, t0: int, reaction: Reaction)
    requires Valid(a.state) && TurnOf(a, b, t0, reaction)
    ensures KeepsQueue(a.state, b.state, t0)
  {
    var s, s' := a.state, b.state;
    var n := s.pool[s.pending[0]];
    var stop := StopOf(n, reaction, Stamp(t0));
    var m :| Acted(a, Moment(m, b.time), ActionsOf(n, reaction, Stamp(t0))) && Settled(m, s', t0, b.time, stop);
    assert s.pending[0] in s.pending;
    SettledKeeps(m, s', t0, b.time, stop);
    forall k | 1 <= k < |s.pending|
      ensures s.pending[k] < |s.pool| && s'.track[s.pending[k]] == s.track[s.pending[k]]
    {
      QueueIsDistinct(s, k);
    }
  }

  lemma QueueIsDistinct(s: State, k: nat)
    requires Valid(s) && 1 <= k < |s.pending|
    ensures s.pending[k] < |s.pool| && s.pending[k] in s.pending && s.pending[k] != s.pending[0]
  {
    Open(s, -1);
  }

  lemma SettledKeeps(s: State, s': State, t0: int, now: int, stop: bool)
    requires Settled(s, s', t0, now, stop)
    ensures |s'.pool| == |s.pool| == |s.track| == |s'.track| && (s'.faithful ==> s.faithful)
    ensures s'.pending == s.pending[1..] && s'.log == s.log + [FiringOf(s.track[s.pending[0]], t0)]
    ensures forall i :: 0 <= i < |s.track| && i != s.pending[0] ==> s'.track[i] == s.track[i] && s'.pool[i] == s.pool[i]
    ensures s.faithful && InWindow(s'.pool, s'.track, now) ==> s'.faithful
  {
  }

  // ----- what becomes of the node -----

  /** What a turn makes of its node: it is free if its removal was asked for, else paused if its pause was, else
      free if its callback or its last repeat ended it, else active and due one interval after the step's time. */
  ghost predicate Fate(n: TimerNode, t: Track, n': TimerNode, t': Track, stop: bool, t0: int, now: int) {
    if n.removeRequested then
      n'.state == Inactive && t' == RunTrack(t)
    else if n.pauseRequested then
      && n' == CountedRun(n).(state := Paused, remaining := Remaining(Stamp(now), n.nextCall))
      && t' == Spared(RunTrack(t), n'.repeatCount)
    else if stop || n.repeatCount == 1 then
      n'.state == Inactive && t' == RunTrack(t)
    else
      n' == RearmedNode(CountedRun(n), t0) && t' == RearmedTrack(RunTrack(t), n.interval, t0)
  }

  lemma SettledFate(s: State, s': State, t0: int, now: int, stop: bool)
    requires Settled(s, s', t0, now, stop)
    ensures |s'.pool| == |s.pool| == |s.track| == |s'.track|
    ensures var node := s.pending[0]; Fate(s.pool[node], s.track[node], s'.pool[node], s'.track[node], stop, t0, now)
  {
  }

  // The node of a turn meets its fate; the requests that count are those made before its turn or in its callbacks.
  lemma TurnEnds(a: Moment, b: Moment, t0: int, reaction: Reaction)
    requires TurnOf(a, b, t0, reaction)
    ensures var node := a.state.pending[0];
      && node < |a.state.pool| == |a.state.track| == |b.state.pool| == |b.state.track|
      && var n := a.state.pool[node];
         Fate(Flagged(n, ActionsOf(n, reaction, Stamp(t0))), a.state.track[node],
              b.state.pool[node], b.state.track[node],
              StopOf(n, reaction, Stamp(t0)), t0, b.time)
  {
    var n := a.state.pool[a.state.pending[0]];
    var stop := StopOf(n, reaction, Stamp(t0));
    assert a.state.pending[0] in a.state.pending;
    var m :| Acted(a, Moment(m, b.time), ActionsOf(n, reaction, Stamp(t0))) && Settled(m, b.state, t0, b.time, stop);
    SettledFate(m, b.state, t0, b.time, stop);
  }

  /** A turn spares a timer that was not spared before exactly when it is the last of a limited number of runs
      and a pause, but no removal, has been asked for. */
  lemma SparedInLastRun(a: Moment, b: Moment, t0: int, reaction: Reaction)
    requires Valid(a.state) && TurnOf(a, b, t0, reaction) && a.state.pending[0] < |a.state.pool| == |a.state.track|
    ensures var node := a.state.pending[0];
      && node < |b.state.track|
      && var n, t, t' := a.state.pool[node], a.state.track[node], b.state.track[node];
      && var asked := Flagged(n, ActionsOf(n, reaction, Stamp(t0)));
      !t.spared ==> (t'.spared <==> t.runs + 1 == t.goal && asked.pauseRequested && !asked.removeRequested)
  {
    HeadIsPending(a.state);
    WhereIs(a.state, a.state.pending[0]);
    TurnEnds(a, b, t0, reaction);
  }

  // ----- what the answers of the callbacks decide -----

  // The callbacks did these actions, and the end of the turn changed nothing of the other nodes.
  ghost predicate TurnDid(a: Moment, b: Moment, actions: seq<Action>) {
    && a.state.pending != []
    && exists m: State :: DidAll(a, Moment(m, b.time), actions) && SameElsewhere(m, b.state, a.state.pending[0])
  }

  ghost predicate SameElsewhere(s: State, s': State, node: nat) {
    && |s'.pool| == |s.pool| == |s.track| == |s'.track|
    && forall i :: 0 <= i < |s.pool| && i != node ==> s'.pool[i] == s.pool[i] && s'.track[i] == s.track[i]
  }

  // The timer is active again, due one interval after the step's time, with one repeat less if they are limited.
  ghost predicate GoesOn(n: TimerNode, n': TimerNode, t': Track, t0: int) {
    && t'.due == t0 + n.interval
    && n' == n.(state := Active, nextCall := Stamp(t0 + n.interval),
                repeatCount := if n.repeatCount > 0 then n.repeatCount - 1 else n.repeatCount)
  }

  /** What the node of the turn becomes: a removal asked for before the turn or in it wins over a pause, a pause over
      the end, which comes with the last of a limited number of runs or when the timer `ends` by itself. */
  ghost predicate LeftAs(a: Moment, b: Moment, actions: seq<Action>, ends: bool, t0: int) {
    && a.state.pending != []
    && var node := a.state.pending[0];
       && node < |a.state.pool| == |b.state.pool| == |b.state.track|
       && var n, n' := a.state.pool[node], b.state.pool[node];
          if n.removeRequested || Action.Remove(n.id) in actions then n'.state == Inactive
          else if n.pauseRequested || Action.Pause(n.id) in actions then
            n'.id == n.id && n'.state == Paused && n'.remaining == Remaining(Stamp(b.time), n.nextCall)
          else if ends || n.repeatCount == 1 then n'.state == Inactive
          else GoesOn(n, n', b.state.track[node], t0)
  }

  /** A timer with an until-callback ends by itself exactly when that answers so, or its time limit has passed on the
      clock of the step and there is a callback for that, which then runs after the other. */
  lemma UntilTurn(a: Moment, b: Moment, t0: int, reaction: Reaction)
    requires Valid(a.state) && TurnOf(a, b, t0, reaction)
    requires a.state.pool[a.state.pending[0]].isUntil && a.state.pool[a.state.pending[0]].hasCallback
    ensures var n := a.state.pool[a.state.pending[0]];
      var late := n.hasTimeoutCallback && IsTimerExpired(Stamp(t0), n.untilTimeout);
      var actions := if late && !reaction.stop then reaction.actions + reaction.timeoutActions else reaction.actions;
      TurnDid(a, b, actions) && LeftAs(a, b, actions, reaction.stop || late, t0)
  {
    TurnActs(a, b, t0, reaction);
    TurnLeaves(a, b, t0, reaction);
  }

  // Any other timer ends by itself exactly if it is a one-shot.
  lemma PlainTurn(a: Moment, b: Moment, t0: int, reaction: Reaction)
    requires Valid(a.state) && TurnOf(a, b, t0, reaction)
    requires !(a.state.pool[a.state.pending[0]].isUntil && a.state.pool[a.state.pending[0]].hasCallback)
    ensures var n := a.state.pool[a.state.pending[0]];
      var actions := if n.hasCallback then reaction.actions else [];
      TurnDid(a, b, actions) && LeftAs(a, b, actions, !n.isInterval, t0)
  {
    TurnActs(a, b, t0, reaction);
    TurnLeaves(a, b, t0, reaction);
  }

  lemma TurnActs(a: Moment, b: Moment, t0: int, reaction: Reaction)
    requires Valid(a.state) && TurnOf(a, b, t0, reaction)
    ensures TurnDid(a, b, ActionsOf(a.state.pool[a.state.pending[0]], reaction, Stamp(t0)))
  {
    var n := a.state.pool[a.state.pending[0]];
    var actions, stop := ActionsOf(n, reaction, Stamp(t0)), StopOf(n, reaction, Stamp(t0));
    var m :| Acted(a, Moment(m, b.time), actions) && Settled(m, b.state, t0, b.time, stop);
    SettledKeeps(m, b.state, t0, b.time, stop);
    assert SameElsewhere(m, b.state, a.state.pending[0]);
  }

  lemma TurnLeaves(a: Moment, b: Moment, t0: int, reaction: Reaction)
    requires Valid(a.state) && TurnOf(a, b, t0, reaction)
    ensures var n := a.state.pool[a.state.pending[0]];
      LeftAs(a, b, ActionsOf(n, reaction, Stamp(t0)), StopOf(n, reaction, Stamp(t0)), t0)
  {
    var node, n := a.state.pending[0], a.state.pool[a.state.pending[0]];
    TurnEnds(a, b, t0, reaction);
    AsLeft(n, a.state.track[node], b.state.pool[node], b.state.track[node], ActionsOf(n, reaction, Stamp(t0)),
           StopOf(n, reaction, Stamp(t0)), t0, b.time);
  }

  lemma AsLeft(n: TimerNode, t: Track, n': TimerNode, t': Track, actions: seq<Action>, stop: bool, t0: int, now: int)
    ensures Fate(Flagged(n, actions), t, n', t', stop, t0, now) ==>
      if n.removeRequested || Action.Remove(n.id) in actions then n'.state == Inactive
      else if n.pauseRequested || Action.Pause(n.id) in actions then
        n'.id == n.id && n'.state == Paused && n'.remaining == Remaining(Stamp(now), n.nextCall)
      else if stop || n.repeatCount == 1 then n'.state == Inactive
      else GoesOn(n, n', t', t0)
  {
    StampAdd(t0, n.interval);
  }

  // ----- quiet steps -----

  // Whatever may run again has a positive interval below the window.
  ghost predicate PositiveIntervals(pool: seq<TimerNode>) {
    forall i :: 0 <= i < |pool| && pool[i].Live() && (pool[i].isInterval || pool[i].isUntil) ==>
        0 < pool[i].interval < WINDOW
  }

  // Nothing becomes due at time t0, and the 32-bit comparisons stay true.
  ghost predicate QuietStep(s: State, s': State, t0: int) {
    && |s'.pool| == |s.pool| == |s.track| == |s'.track|
    && PositiveIntervals(s'.pool) && DueSet(s', t0) <= DueSet(s, t0)
    && (s.faithful && InWindow(s.pool, s.track, t0) ==> s'.faithful && InWindow(s'.pool, s'.track, t0))
  }

  lemma QuietTrans(s: State, m: State, s': State, t0: int)
    requires QuietStep(s, m, t0) && QuietStep(m, s', t0)
    ensures QuietStep(s, s', t0)
  {
  }

  lemma CalmIsQuiet(s: State, s': State, t0: int)
    requires CalmFrame(s, s') && PositiveIntervals(s.pool)
    requires s.faithful && InWindow(s.pool, s.track, t0) ==> s'.faithful
    ensures QuietStep(s, s', t0)
  {
    forall i | 0 <= i < |s'.pool| && s'.pool[i].Live() ensures SameKind(s.pool[i], s'.pool[i]) { }
    if InWindow(s.pool, s.track, t0) { CalmWindow(s, s', t0); }
  }

  // A change to one node is quiet if the node does not become due and stays of its kind.
  lemma OneNodeQuiet(s: State, s': State, node: nat, t0: int)
    requires |s'.pool| == |s.pool| == |s.track| == |s'.track| && PositiveIntervals(s.pool) && node < |s.pool|
    requires forall i :: 0 <= i < |s.pool| && i != node ==> s'.pool[i] == s.pool[i] && s'.track[i] == s.track[i]
    requires s'.pool[node].Live() ==> SameKind(s.pool[node], s'.pool[node])
    requires s'.pool[node].state == Active ==> t0 < s'.track[node].due < t0 + WINDOW
    requires s.faithful && InWindow(s'.pool, s'.track, t0) ==> s'.faithful
    ensures QuietStep(s, s', t0)
  {
  }

  lemma SettledIsQuiet(s: State, s': State, t0: int, stop: bool)
    requires Settled(s, s', t0, t0, stop) && PositiveIntervals(s.pool)
    requires var n := s.pool[s.pending[0]]; n.state == Processing && (!stop ==> n.isInterval || n.isUntil)
    ensures QuietStep(s, s', t0)
  {
    var node := s.pending[0];
    SettledKeeps(s, s', t0, t0, stop);
    SettledFate(s, s', t0, t0, stop);
    FateIsQuiet(s.pool[node], s.track[node], s'.pool[node], s'.track[node], stop, t0);
    OneNodeQuiet(s, s', node, t0);
  }

  lemma FateIsQuiet(n: TimerNode, t: Track, n': TimerNode, t': Track, stop: bool, t0: int)
    requires Fate(n, t, n', t', stop, t0, t0) && n.Live() && (!stop ==> 0 < n.interval < WINDOW)
    ensures n'.Live() ==> SameKind(n, n')
    ensures n'.state == Active ==> t0 < t'.due < t0 + WINDOW
  {
  }

  lemma QuietTurn(a: Moment, b: Moment, t0: int, reaction: Reaction)
    requires Valid(a.state) && TurnOf(a, b, t0, reaction) && QuietReaction(reaction)
    ensures a.time == t0 ==> Still(a, b)
  {
    var n := a.state.pool[a.state.pending[0]];
    var actions, stop := ActionsOf(n, reaction, Stamp(t0)), StopOf(n, reaction, Stamp(t0));
    var m :| Acted(a, Moment(m, b.time), actions) && Settled(m, b.state, t0, b.time, stop);
    assert Quiet(actions);
    if a.time == t0 && PositiveIntervals(a.state.pool) {
      HeadIsPending(a.state);
      CalmIsQuiet(a.state, m, t0);
      SettledIsQuiet(m, b.state, t0, stop);
      QuietTrans(a.state, m, b.state, t0);
    }
  }

  lemma TurnTakesTime(a: Moment, b: Moment, t0: int, reaction: Reaction)
    requires TurnOf(a, b, t0, reaction)
    ensures b.time >= a.time
  {
  }

  lemma {:induction false} TimeGoesOn(trace: seq<Moment>, batch: seq<nat>, t0: int, reactions: seq<Reaction>, q: nat)
    requires Turns(trace, batch, t0, reactions) && q <= |batch|
    ensures trace[q].time >= trace[0].time
  {
    if q == 0 {
    } else {
      TimeGoesOn(trace, batch, t0, reactions, q - 1);
      assert TurnAt(trace, batch, q - 1, t0, reactions);
      TurnTakesTime(trace[q - 1], trace[q], t0, ReactionAt(reactions, q - 1));
    }
  }

  // While nothing is added or resumed, time stands still and nothing becomes due.
  ghost predicate Still(a: Moment, b: Moment) {
    && b.time == a.time
    && (PositiveIntervals(a.state.pool) && |a.state.pool| == |a.state.track| ==> QuietStep(a.state, b.state, a.time))
  }

  lemma StillTrans(a: Moment, m: Moment, b: Moment)
    requires Still(a, m) && Still(m, b)
    ensures Still(a, b)
  {
    if PositiveIntervals(a.state.pool) && |a.state.pool| == |a.state.track| {
      QuietTrans(a.state, m.state, b.state, a.time);
    }
  }

  lemma {:induction false} QuietTurns(trace: seq<Moment>, batch: seq<nat>, t0: int, reactions: seq<Reaction>, q: nat)
    requires Turns(trace, batch, t0, reactions) && q <= |batch| && AllQuiet(reactions) && trace[0].time == t0
    ensures Still(trace[0], trace[q])
  {
    if q == 0 {
    } else {
      QuietTurns(trace, batch, t0, reactions, q - 1);
      assert TurnAt(trace, batch, q - 1, t0, reactions);
      QuietTurn(trace[q - 1], trace[q], t0, ReactionAt(reactions, q - 1));
      StillTrans(trace[0], trace[q - 1], trace[q]);
    }
  }

  predicate QuietReaction(r: Reaction) {
    Quiet(r.actions) && Quiet(r.timeoutActions)
  }

  // ----- the end of a turn -----

  function CountedRun(n: TimerNode): TimerNode {
    if n.repeatCount > 0 then n.(repeatCount := n.repeatCount - 1) else n
  }

  ghost function RunTrack(t: Track): Track {
    t.(runs := t.runs + 1)
  }

  // The run of the first pending node is counted and logged, and the node is in no list.
  ghost function Finished(s: State, t0: int): State
    requires s.pending != [] && s.pending[0] < |s.pool| == |s.track|
  {
    var node := s.pending[0];
    Written(s.(pending := s.pending[1..], log := s.log + [FiringOf(s.track[node], t0)]),
            node, CountedRun(s.pool[node]), RunTrack(s.track[node]))
  }

  // A node in its turn: it is in no list, its latest run is counted and logged.
  ghost predicate InTurn(s: State, node: nat) {
    && node < |s.pool| == |s.track| && Inv(s, node) && Nowhere(s, node) && Counted(s)
    && NodeInTurn(s.pool[node], s.track[node], node, s.issued, s.log)
  }

  ghost predicate NodeInTurn(n: TimerNode, t: Track, index: nat, issued: seq<u32>, log: seq<Firing>) {
    && n.Live() && n.nextCall == Stamp(t.due)
    && t.alloc < |issued| && n.id == issued[t.alloc] && GetIndex(n.id) == index
    && (forall j :: t.alloc < j < |issued| ==> GetIndex(issued[j]) != index)
    && t.runs == RunsOf(log, t.alloc) && Tally(n, t) && StaysNear(t)
  }

  lemma FinishedInTurn(s: State, t0: int)
    requires Valid(s) && s.pending != [] && s.pending[0] < |s.pool| == |s.track|
    requires OnTime(s.track[s.pending[0]], t0)
    ensures InTurn(Finished(s, t0), s.pending[0])
  {
    var node, taken := s.pending[0], s.(pending := s.pending[1..]);
    var n, t := s.pool[node], s.track[node];
    var e := FiringOf(t, t0);
    PendingTaken(s);
    LoggedInv(taken, node, e);
    RunsAppend(s.log, e, t.alloc);
    WrittenInv(taken.(log := s.log + [e]), node, CountedRun(n), RunTrack(t));
    WrittenCounts(s, node, CountedRun(n), false);
    WrittenCounts(s, node, CountedRun(n), true);
  }

  // A pause at the end of a turn with no repeats left spares the timer; and its next run is exempt from the delay.
  ghost function Spared(t: Track, repeatCount: int): Track {
    t.(spared := t.spared || repeatCount == 0, exempt := true, credit := 0)
  }

  // Parked by a pause that arrived while Processing.
  ghost function ParkedInTurn(s: State, node: nat, now: int): State
    requires node < |s.pool| == |s.track|
  {
    var n, t := s.pool[node], s.track[node];
    s.(pool := s.pool[node := n.(state := Paused, remaining := Remaining(Stamp(now), n.nextCall))],
       track := s.track[node := Spared(t, n.repeatCount)], paused := s.paused + [node])
  }

  function RearmedNode(n: TimerNode, t0: int): TimerNode {
    n.(nextCall := Add32(Stamp(t0), n.interval), state := Active)
  }

  ghost function RearmedTrack(t: Track, interval: u32, t0: int): Track {
    t.(due := t0 + interval, delay := interval, exempt := false, credit := 0, since := t0, near := true, onward := true)
  }

  ghost function Rearmed(s: State, node: nat, t0: int): State
    requires node < |s.pool| == |s.track|
  {
    s.(pool := s.pool[node := RearmedNode(s.pool[node], t0)],
       track := s.track[node := RearmedTrack(s.track[node], s.pool[node].interval, t0)])
  }

  // A node with runs left is as the invariant wants it when it is scheduled again.
  lemma RearmedOk(n: TimerNode, t: Track, index: nat, issued: seq<u32>, log: seq<Firing>, t0: int)
    requires NodeInTurn(n, t, index, issued, log) && (n.repeatCount == 0 ==> t.spared)
    ensures NodeOk(RearmedNode(n, t0), RearmedTrack(t, n.interval, t0), index, issued, log)
  {
    StampAdd(t0, n.interval);
  }

  /** How a turn ends. A removal wins over a pause, a pause over the end of the timer; the last of a limited
      number of runs ends the timer. */
  ghost predicate Settled(s: State, s': State, t0: int, now: int, stop: bool) {
    && s.pending != [] && s.pending[0] < |s.pool| == |s.track|
    && var node := s.pending[0];
    && var n, f := s.pool[node], Finished(s, t0);
    if n.removeRequested then s' == Freed(f, node)
    else if n.pauseRequested then s' == ParkedInTurn(f, node, now)
    else if stop || n.repeatCount == 1 then s' == Freed(f, node)
    else
      && multiset(s'.active) == multiset(s.active) + multiset{node}
      && s' == Observed(Rearmed(f, node, t0), now).(active := s'.active)
  }
}
