/** The timer's tick: its fast path, its re-entrancy guard, and how fast repeated ticks drain due timers. */
module Timer {
  import opened Prelude
  import opened Counting
  import opened TimerAsm
  import opened TimerTypes
  import opened TimerState
  import opened TimerManager
  import opened TimerProcessor

  // The largest k with 2^k <= e.
  function FloorLog2(e: nat): (k: nat)
    requires e > 0
    ensures Pow2(k) <= e < Pow2(k + 1)
  {
    if e == 1 then 0 else FloorLog2(e / 2) + 1
  }

  lemma HalfKeepsProduct(e: nat, p: nat, d: nat, d': nat)
    requires d * p <= e && 2 * d' <= d
    ensures d' * (2 * p) <= e
  {
    assert (2 * d') * p <= d * p by { MulMono(2 * d', d, p); }
    assert d' * (2 * p) == (2 * d') * p;
  }

  lemma MulMono(a: nat, b: nat, p: nat)
    requires a <= b
    ensures a * p <= b * p
  {
    assert b * p == a * p + (b - a) * p;
  }

  lemma DueAreActive(s: State, t0: int)
    requires Inv(s, -1)
    ensures |DueSet(s, t0)| <= |s.active|
  {
    Open(s, -1);
    DistinctSize(s.active);
    forall i | i in DueSet(s, t0) ensures i in Elements(s.active) { assert i in s.active; }
    SubsetSize(DueSet(s, t0), Elements(s.active));
  }

  lemma BatchIsDue(s: State, batch: seq<nat>, t0: int)
    requires s.faithful && IsBatch(s, batch, t0)
    ensures Elements(batch) <= DueSet(s, t0) && |Elements(batch)| == |batch|
  {
    DistinctSize(batch);
    forall i | i in Elements(batch) ensures i in DueSet(s, t0) { var k :| 0 <= k < |batch| && batch[k] == i; }
  }

  // A batch leaves at most half of the due timers behind.
  lemma BatchHalves(s: State, batch: seq<nat>, t0: int, rest: set<nat>)
    requires Valid(s) && Steady(s, t0) && IsBatch(Observed(s, t0), batch, t0)
    requires rest <= DueSet(s, t0) - Elements(batch)
    ensures 2 * |rest| <= |DueSet(s, t0)|
  {
    var due, pulled := DueSet(s, t0), Elements(batch);
    assert Observed(s, t0) == s;
    DueAreActive(s, t0);
    BatchIsDue(s, batch, t0);
    SubsetSize(rest, due - pulled);
    assert due == (due - pulled) + pulled;
    assert |due| == |due - pulled| + |pulled|;
  }

  class TimerBase {
    const core: TimerCore
    const manager: TimerManager
    const processor: TimerProcessor
    var tickInProgress: bool

    ghost predicate Good()
      reads this, manager.storage
    {
      && manager.core == core && processor.manager == manager && processor.Wired()
      && Valid(manager.storage.S()) && (!tickInProgress ==> manager.storage.pending == [])
    }

    constructor (core: TimerCore, maxTimers: nat)
      requires 0 < maxTimers < 0x1_0000
      ensures Good() && fresh(manager) && fresh(manager.storage) && !tickInProgress && this.core == core
      ensures |manager.storage.pool| == maxTimers && forall i :: 0 <= i < maxTimers ==> !manager.storage.pool[i].Live()
      ensures manager.storage.faithful && manager.storage.log == [] && manager.storage.issued == []
    {
      this.core := core;
      var m := new TimerManager(core, maxTimers);
      manager := m;
      processor := new TimerProcessor(m);
      tickInProgress := false;
    }

    /** tick. While another tick runs it does nothing; otherwise it processes exactly when the expiry test holds
        of the top of the heap, within the window exactly when some active timer is due. Then every node of the
        batch has one turn, from the state in which the batch has been pulled to the state at the end. */
    method Tick(reactions: seq<Reaction>) returns (ghost ran: bool, ghost batch: seq<nat>, ghost trace: seq<Moment>)
      requires Good()
      modifies this, core, manager.storage
      ensures Good() && tickInProgress == old(tickInProgress) && core.time >= old(core.time)
      ensures ran <==> old(!tickInProgress && TopExpired(manager.storage.S(), core.time))
      ensures !ran ==> manager.storage.S() == old(manager.storage.S()) && core.time == old(core.time)
      ensures old(!tickInProgress && manager.storage.faithful
                  && InWindow(manager.storage.pool, manager.storage.track, core.time)) ==>
                (ran <==> old(AnyDue(manager.storage.S(), core.time)))
      ensures ran ==>
                && IsBatch(Observed(old(manager.storage.S()), old(core.time)), batch, old(core.time))
                && manager.storage.log ==
                   old(manager.storage.log) + Firings(old(manager.storage.track), batch, old(core.time))
                && Turns(trace, batch, old(core.time), reactions)
                && trace[|batch|] == Moment(manager.storage.S(), core.time)
                && PulledOut(Observed(old(manager.storage.S()), old(core.time)), trace[0].state, batch, old(core.time))
                && trace[0].time == old(core.time)
      ensures AllQuiet(reactions) ==> core.time == old(core.time)
      ensures AllQuiet(reactions) && !old(tickInProgress) && Steady(old(manager.storage.S()), core.time) ==>
                && Steady(manager.storage.S(), core.time)
                && 2 * |DueSet(manager.storage.S(), core.time)| <= |DueSet(old(manager.storage.S()), core.time)|
    {
      ran, batch, trace := false, [], [];
      if tickInProgress { return; }
      var found, expiry := manager.GetNextExpiry();
      if !found {
        assert DueSet(manager.storage.S(), core.time) == {};
        return;
      }
      var cached := core.Now();
      if !IsTimerExpired(cached, expiry) { return; }
      ghost var s := manager.storage.S();
      tickInProgress := true;
      batch, trace := processor.Process(cached, reactions);
      tickInProgress := false;
      ran := true;
      if AllQuiet(reactions) && Steady(s, core.time) {
        BatchHalves(s, batch, core.time, DueSet(manager.storage.S(), core.time));
      }
    }

    // A tick whose callbacks add and resume nothing leaves at most half of the due timers behind.
    method QuietTick(script: seq<Reaction>)
      requires Good() && !tickInProgress && Steady(manager.storage.S(), core.time) && AllQuiet(script)
      modifies this, core, manager.storage
      ensures Good() && !tickInProgress && core.time == old(core.time) && Steady(manager.storage.S(), core.time)
      ensures 2 * |DueSet(manager.storage.S(), core.time)| <= |DueSet(old(manager.storage.S()), core.time)|
    {
      var _, _, _ := Tick(script);
    }

    // Ticks at a frozen time: every tick at least halves the number of due timers.
    method TickRepeatedly(scripts: seq<seq<Reaction>>)
      requires Good() && !tickInProgress && Steady(manager.storage.S(), core.time)
      requires forall k :: 0 <= k < |scripts| ==> AllQuiet(scripts[k])
      modifies this, core, manager.storage
      ensures Good() && !tickInProgress && core.time == old(core.time) && Steady(manager.storage.S(), core.time)
      ensures |DueSet(manager.storage.S(), core.time)| * Pow2(|scripts|) <=
              |DueSet(old(manager.storage.S()), core.time)|
    {
      ghost var e := |DueSet(manager.storage.S(), core.time)|;
      ghost var d := e;
      var k := 0;
      while k < |scripts|
        invariant 0 <= k <= |scripts| && Good() && !tickInProgress && core.time == old(core.time)
        invariant Steady(manager.storage.S(), core.time) && d == |DueSet(manager.storage.S(), core.time)|
        invariant d * Pow2(k) <= e
      {
        QuietTick(scripts[k]);
        ghost var half := |DueSet(manager.storage.S(), core.time)|;
        HalfKeepsProduct(e, Pow2(k), d, half);
        d := half;
        k := k + 1;
      }
    }

    // So e due timers are gone after floor(log2 e) + 1 ticks.
    method DrainDue(scripts: seq<seq<Reaction>>)
      requires Good() && !tickInProgress && Steady(manager.storage.S(), core.time)
      requires AnyDue(manager.storage.S(), core.time)
      requires |scripts| == FloorLog2(|DueSet(manager.storage.S(), core.time)|) + 1
      requires forall k :: 0 <= k < |scripts| ==> AllQuiet(scripts[k])
      modifies this, core, manager.storage
      ensures Good() && core.time == old(core.time) && !AnyDue(manager.storage.S(), core.time)
    {
      ghost var e := |DueSet(manager.storage.S(), core.time)|;
      TickRepeatedly(scripts);
      ghost var d := |DueSet(manager.storage.S(), core.time)|;
      if d > 0 { MulMono(1, d, Pow2(|scripts|)); }
    }
  }

  // ----- what the invariant promises about every run so far -----

  /** No timer with a delay of at most 2^31 ms ran before it had passed in unpaused time, over any pauses,
      resumes and clock wraps and whatever the other timers did, unless the clock went back or the timer was
      parked in its own turn. Nor did one with a longer delay that was never compared with the clock more than
      2^31 ms before its deadline. */
  lemma NeverEarly(s: State, k: nat)
    requires Valid(s) && k < |s.log|
    ensures var e := s.log[k];
      (e.delay <= HALF && e.onward) || e.near ==> e.exempt || e.elapsed >= e.delay
  {
    Open(s, -1);
  }

  /** The runs of an allocation are numbered in the order of the log, and one limited to k runs has a run
      beyond the k-th exactly when it had been spared before (which SparedInLastRun ties to a pause in the
      k-th run). */
  lemma RepeatBound(s: State, k: nat)
    requires Valid(s) && k < |s.log|
    ensures s.log[k].run == RunsOf(s.log[..k], s.log[k].alloc) + 1
    ensures if s.log[k].goal == 0 then !s.log[k].spared else s.log[k].spared <==> s.log[k].run > s.log[k].goal
  {
    Open(s, -1);
  }

  // A live limited timer has had all its runs exactly when it has been spared; any other k-th run has freed it.
  lemma LimitedTimersEnd(s: State, i: nat)
    requires Valid(s) && i < |s.pool| == |s.track| && s.pool[i].Live() && s.track[i].goal > 0
    ensures var t := s.track[i];
      && t.runs == RunsOf(s.log, t.alloc) && (t.spared <==> t.runs >= t.goal)
      && s.pool[i].repeatCount == if t.runs < t.goal then t.goal - t.runs else 0
  {
    WhereIs(s, i);
  }

  /** The exemption from the delay is real: parked by a pause inside its own turn, a timer whose deadline has
      passed keeps no remaining time, and on resume it is due at once whatever its interval. */
  lemma PausedInTurnIsDueAtOnce(s: State, node: nat, now: int, later: int)
    requires node < |s.pool| == |s.track| && s.pool[node].nextCall == Stamp(s.track[node].due)
    ensures var r := Resumed(ParkedInTurn(s, node, now), node, later);
      0 <= now - s.track[node].due < HALF ==> r.track[node].due == later
  {
    if 0 <= now - s.track[node].due < HALF { DriftIsTrue(now, s.track[node].due); }
  }

  // ----- runs of a pool of one timer -----

  ghost predicate SoleExpired(s: State, t0: int) {
    && |s.pool| == |s.track| == 1
    && s.pool[0].state == Active && IsTimerExpired(Stamp(t0), s.pool[0].nextCall)
  }

  lemma SoleActive(s: State)
    requires Valid(s) && |s.pool| == 1
    ensures s.active == if s.pool[0].state == Active then [0] else []
  {
    Open(s, -1);
    WhereIs(s, 0);
    DistinctSize(s.active);
    assert Elements(s.active) == if s.pool[0].state == Active then {0} else {};
    if |s.active| > 0 { assert s.active[0] in s.active; }
  }

  // The only timer has run.
  ghost predicate SoleRun(s: State, s': State, t0: int, now: int, reaction: Reaction) {
    && |s.pool| == |s.track| == |s'.pool| == |s'.track| == 1
    && s'.log == s.log + [FiringOf(s.track[0], t0)]
    && var n := PulledNode(s.pool[0]);
      Fate(Flagged(n, ActionsOf(n, reaction, Stamp(t0))), s.track[0], s'.pool[0], s'.track[0],
           StopOf(n, reaction, Stamp(t0)), t0, now)
  }

  // It is the whole batch.
  lemma SoleBatch(s: State, m: State, batch: seq<nat>, t0: int)
    requires Valid(s) && Valid(m) && SoleExpired(s, t0) && PulledOut(s, m, batch, t0)
    ensures batch == [0] && m.pool == [PulledNode(s.pool[0])] && m.track == s.track
  {
    SoleActive(s);
    SoleActive(m);
  }

  lemma SoleTurn(s: State, trace: seq<Moment>, batch: seq<nat>, t0: int, reaction: Reaction)
    requires Valid(s) && SoleExpired(s, t0) && Turns(trace, batch, t0, [reaction])
    requires PulledOut(s, trace[0].state, batch, t0) && trace[|batch|].state.log == s.log + Firings(s.track, batch, t0)
    ensures batch == [0] && SoleRun(s, trace[1].state, t0, trace[1].time, reaction)
  {
    SoleBatch(s, trace[0].state, batch, t0);
    assert TurnAt(trace, batch, 0, t0, [reaction]);
    TurnEnds(trace[0], trace[1], t0, reaction);
  }

  // A tick that finds the only timer expired.
  method SoleTick(timer: TimerBase, reaction: Reaction)
    requires timer.Good() && !timer.tickInProgress && SoleExpired(timer.manager.storage.S(), timer.core.time)
    modifies timer, timer.core, timer.manager.storage
    ensures timer.Good() && !timer.tickInProgress
    ensures QuietReaction(reaction) ==> timer.core.time == old(timer.core.time)
    ensures SoleRun(old(timer.manager.storage.S()), timer.manager.storage.S(),
                    old(timer.core.time), timer.core.time, reaction)
  {
    ghost var s, t0 := timer.manager.storage.S(), timer.core.time;
    SoleActive(s);
    ObservedInv(s, -1, t0);
    ghost var ran, batch, trace := timer.Tick([reaction]);
    SoleTurn(Observed(s, t0), trace, batch, t0, reaction);
  }

  // An added timer is the only one.
  lemma SoleAdded(s: State, s': State, id: u32, delay: u32, n: TimerNode, time: int)
    requires Valid(s) && |s.pool| == 1 && !s.pool[0].Live() && s.issued == [] && Grew(s, s', id, delay, n, time)
    ensures |s'.pool| == |s'.track| == 1 && GetIndex(id) == 0 && s'.log == s.log
    ensures s'.pool[0] == Armed(n, id, Stamp(time), delay) && s'.track[0] == FirstArm(0, time, delay, n.repeatCount)
  {
    WhereIs(s, 0);
  }

  /** The bound on the runs of a limited timer does fail: limited to one run, paused by its callback in that run
      and resumed, the timer runs a second time; and that run does not wait for the interval of 10 ms at all. */
  method RunBeyondTheLimit() returns (timer: TimerBase)
    ensures fresh(timer) && timer.Good()
    ensures var log := timer.manager.storage.log;
      && |log| == 2 && log[0].alloc == log[1].alloc && log[1].goal == 1 && log[1].run == 2 && log[1].spared
      && log[1].delay == 10 && log[1].elapsed == 0
  {
    var core := new TimerCore(0);
    timer := new TimerBase(core, 1);
    ghost var s := timer.manager.storage.S();
    var id := timer.manager.AddInterval(10, 1, true);
    SoleAdded(s, timer.manager.storage.S(), id, 10, IntervalNode(10, 1, true), 0);
    core.time := 10;
    RunAndPause(timer, id);
    ResumeAndRun(timer, id);
  }

  // An interval of 10 ms, limited to one run, at its deadline.
  ghost predicate OneDue(s: State, id: u32) {
    && |s.pool| == |s.track| == 1 && GetIndex(id) == 0 && s.log == []
    && s.pool[0] == Armed(IntervalNode(10, 1, true), id, 0, 10)
    && s.track[0].alloc == 0 && s.track[0].delay == 10 && s.track[0].goal == 1 && s.track[0].runs == 0
  }

  // It has run once, and stays paused with no time left.
  ghost predicate OnePaused(s: State, id: u32) {
    && |s.pool| == |s.track| == 1 && GetIndex(id) == 0 && |s.log| == 1 && s.log[0].alloc == 0
    && s.pool[0].id == id && s.pool[0].state == Paused && s.pool[0].remaining == 0
    && s.track[0].alloc == 0 && s.track[0].delay == 10 && s.track[0].goal == s.track[0].runs == 1
    && s.track[0].spared && s.track[0].credit == 0
  }

  lemma FirstRunPaused(s: State, s': State, id: u32)
    requires OneDue(s, id) && SoleRun(s, s', 10, 10, Reaction([Action.Pause(id)], false, []))
    ensures OnePaused(s', id)
  {
    PausedOnlyRun(PulledNode(s.pool[0]), s.track[0], s'.pool[0], s'.track[0], id);
  }

  lemma PausedOnlyRun(n: TimerNode, t: Track, n': TimerNode, t': Track, id: u32)
    requires n == PulledNode(Armed(IntervalNode(10, 1, true), id, 0, 10))
    requires var reaction := Reaction([Action.Pause(id)], false, []);
      Fate(Flagged(n, ActionsOf(n, reaction, Stamp(10))), t, n', t', StopOf(n, reaction, Stamp(10)), 10, 10)
    ensures n'.id == id && n'.state == Paused && n'.remaining == 0 && t' == Spared(RunTrack(t), 0)
  {
    FlaggedByPause(n, id);
    DriftIsTrue(10, 10);
  }

  lemma FlaggedByPause(n: TimerNode, id: u32)
    requires n.id == id && !n.removeRequested
    ensures Flagged(n, [Action.Pause(id)]) == n.(pauseRequested := true)
  {
    assert Action.Pause(id) in [Action.Pause(id)] && Action.Remove(id) !in [Action.Pause(id)];
  }

  // The first run, whose callback asks for a pause.
  method RunAndPause(timer: TimerBase, id: u32)
    requires timer.Good() && !timer.tickInProgress && timer.core.time == 10 && OneDue(timer.manager.storage.S(), id)
    modifies timer, timer.core, timer.manager.storage
    ensures timer.Good() && !timer.tickInProgress && timer.core.time == 10 && OnePaused(timer.manager.storage.S(), id)
  {
    ghost var s := timer.manager.storage.S();
    SoleTick(timer, Reaction([Action.Pause(id)], false, []));
    FirstRunPaused(s, timer.manager.storage.S(), id);
  }

  // The second, after a resume.
  method ResumeAndRun(timer: TimerBase, id: u32)
    requires timer.Good() && !timer.tickInProgress && timer.core.time == 10 && OnePaused(timer.manager.storage.S(), id)
    modifies timer, timer.core, timer.manager.storage
    ensures timer.Good()
    ensures var log := timer.manager.storage.log;
      && |log| == 2 && log[0].alloc == log[1].alloc && log[1].goal == 1 && log[1].run == 2 && log[1].spared
      && log[1].delay == 10 && log[1].elapsed == 0
  {
    var _ := timer.manager.Resume(id);
    SoleTick(timer, NoReaction());
  }

  /** An interval that ends on its own answer: it runs once, answers that it should stop, and whenever the clock is
      looked at later it does not run again; its node is free. */
  method EndsOnItsAnswer(later: nat) returns (timer: TimerBase)
    ensures fresh(timer) && timer.Good()
    ensures |timer.manager.storage.log| == 1 && |timer.manager.storage.pool| == 1
    ensures timer.manager.storage.pool[0].state == Inactive
  {
    var core := new TimerCore(0);
    timer := new TimerBase(core, 1);
    ghost var s := timer.manager.storage.S();
    var id := timer.manager.AddIntervalUntil(10, true);
    SoleAdded(s, timer.manager.storage.S(), id, 10, UntilNode(10, true, false, 0), 0);
    core.time := 10;
    RunAndStop(timer);
    SoleActive(timer.manager.storage.S());
    core.time := core.time + later;
    IdleTick(timer);
  }

  // The run that answers so.
  method RunAndStop(timer: TimerBase)
    requires timer.Good() && !timer.tickInProgress && timer.core.time == 10 && UntilDue(timer.manager.storage.S())
    modifies timer, timer.core, timer.manager.storage
    ensures timer.Good() && timer.core.time == 10
    ensures var s := timer.manager.storage.S(); |s.pool| == 1 && s.pool[0].state == Inactive && |s.log| == 1
  {
    SoleTick(timer, Reaction([], true, []));
  }

  ghost predicate UntilDue(s: State) {
    && |s.pool| == |s.track| == 1 && s.log == []
    && s.pool[0].state == Active && s.pool[0].nextCall == Stamp(10)
    && s.pool[0].isUntil && s.pool[0].hasCallback && s.pool[0].repeatCount == -1
  }

  /** Which delays are waited for: a timer added at any time of the clock, and looked at `wait` ms later, before
      its delay has passed, has run at once if and only if more than 2^31 ms of the delay were left. */
  method RunBeforeItsTime(time: int, delay: u32, wait: nat) returns (timer: TimerBase)
    requires wait < delay
    ensures fresh(timer) && timer.Good()
    ensures var log := timer.manager.storage.log;
      if delay - wait > HALF then |log| == 1 && log[0].delay == delay && log[0].elapsed == wait else log == []
  {
    timer := AddSole(time, delay);
    timer.core.time := time + wait;
    ExpiryIsEarly(time + wait, time + delay);
    if IsTimerExpired(Stamp(time + wait), Stamp(time + delay)) {
      SoleTick(timer, NoReaction());
    } else {
      IdleTick(timer);
    }
  }

  ghost predicate SoleWaits(s: State, time: int, delay: u32) {
    && s.active == [0] && |s.pool| == |s.track| == 1 && s.log == []
    && s.pool[0].state == Active && s.pool[0].nextCall == Stamp(time + delay)
    && s.track[0].delay == delay && s.track[0].credit == 0 && s.track[0].since == time
  }

  method AddSole(time: int, delay: u32) returns (timer: TimerBase)
    ensures fresh(timer) && fresh(timer.core) && fresh(timer.manager.storage)
    ensures timer.Good() && !timer.tickInProgress && timer.core.time == time
    ensures SoleWaits(timer.manager.storage.S(), time, delay)
  {
    var core := new TimerCore(time);
    timer := new TimerBase(core, 1);
    ghost var s := timer.manager.storage.S();
    var id := timer.manager.AddTimeout(delay, true);
    SoleAdded(s, timer.manager.storage.S(), id, delay, TimeoutNode(true), time);
    SoleActive(timer.manager.storage.S());
    StampAdd(time, delay);
  }

  // A tick that finds no timer expired.
  method IdleTick(timer: TimerBase)
    requires timer.Good() && !TopExpired(timer.manager.storage.S(), timer.core.time)
    modifies timer, timer.core, timer.manager.storage
    ensures timer.Good() && timer.manager.storage.S() == old(timer.manager.storage.S())
  {
    var _, _, _ := timer.Tick([]);
  }
}
