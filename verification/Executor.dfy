/** The executor: a dense set of running futures over a pool of slots.

    A slot is known by its index in the pool; the pointer arrays hold indices. A job is a future with its input and
    error handler: what its n-th poll gives is up to the job.
 */
module Executors {
  import opened Prelude
  import opened Counting

  datatype AsyncState = Pending | Resolved | Rejected

  datatype Job = Job(polls: nat, answers: nat -> AsyncState)

  // One call of a slot's function: the handler for errors runs exactly when it was rejected.
  datatype Polled = Polled(slot: nat, state: AsyncState, onError: bool)

  // ----- the executor as a map from slots to jobs -----

  type Jobs = map<nat, Job>

  // What the poll after i more will give.
  function Answer(j: Job, i: nat): AsyncState {
    j.answers(j.polls + i)
  }

  function Again(j: Job): Job {
    j.(polls := j.polls + 1)
  }

  // What poll() leaves: the jobs whose next answer is still pending, each polled once.
  function Swept(m: Jobs): Jobs {
    map s | s in m && Answer(m[s], 0).Pending? :: Again(m[s])
  }

  function SweptTimes(m: Jobs, n: nat): Jobs {
    if n == 0 then m else SweptTimes(Swept(m), n - 1)
  }

  /** Over n calls of poll() a job stays exactly as long as its answers are pending, from the one to its next poll on;
      every call polls it once. */
  lemma StaysWhilePending(m: Jobs, n: nat, s: nat)
    ensures s in SweptTimes(m, n) <==>
            s in m && forall k: nat :: m[s].polls <= k < m[s].polls + n ==> m[s].answers(k).Pending?
    ensures s in SweptTimes(m, n) ==> SweptTimes(m, n)[s] == m[s].(polls := m[s].polls + n)
  {
    Stays(m, n, s);
    if s in m {
      var j := m[s];
      if forall i: nat :: i < n ==> Answer(j, i).Pending? {
        forall k: nat | j.polls <= k < j.polls + n ensures j.answers(k).Pending? {
          assert Answer(j, k - j.polls).Pending?;
        }
      }
    }
  }

  lemma {:induction false} Stays(m: Jobs, n: nat, s: nat)
    ensures s in SweptTimes(m, n) <==> s in m && forall i: nat :: i < n ==> Answer(m[s], i).Pending?
    ensures s in SweptTimes(m, n) ==> SweptTimes(m, n)[s] == m[s].(polls := m[s].polls + n)
  {
    if n == 0 {
    } else {
      var r := Swept(m);
      Stays(r, n - 1, s);
      if s in r {
        forall i: nat ensures Answer(m[s], i + 1) == Answer(r[s], i) { }
        if forall i: nat :: i < n - 1 ==> Answer(r[s], i).Pending? {
          forall i: nat | i < n ensures Answer(m[s], i).Pending? {
            if i > 0 { assert Answer(r[s], i - 1).Pending?; }
          }
        }
        if forall i: nat :: i < n ==> Answer(m[s], i).Pending? {
          forall i: nat | i < n - 1 ensures Answer(r[s], i).Pending? { assert Answer(m[s], i + 1).Pending?; }
        }
      }
    }
  }

  // ----- the two pointer arrays -----

  // Every slot of the pool is on exactly one of the two lists.
  ghost predicate Partition(active: seq<nat>, free: seq<nat>, capacity: nat) {
    && Distinct(active) && Distinct(free) && |active| + |free| == capacity
    && (forall x :: x in active ==> x < capacity && x !in free)
    && (forall x :: x in free ==> x < capacity)
  }

  lemma PartitionCovers(active: seq<nat>, free: seq<nat>, capacity: nat)
    requires Partition(active, free, capacity)
    ensures forall x: nat :: x < capacity ==> (x in active <==> x !in free)
  {
    var all := active + free;
    assert forall i :: 0 <= i < |active| ==> all[i] == active[i] && all[i] in active;
    assert forall i :: |active| <= i < |all| ==> all[i] == free[i - |active|] && all[i] in free;
    Pigeonhole(all, capacity);
    assert forall x :: x in all <==> x in active || x in free;
  }

  lemma SettleKeepsPartition(active: seq<nat>, free: seq<nat>, capacity: nat, i: nat)
    requires Partition(active, free, capacity) && i < |active|
    ensures Partition(SwapRemoved(active, i), free + [active[i]], capacity)
  {
    SwapRemovedElements(active, i);
    var settled, freed := active[i], free + [active[i]];
    assert settled in active;
    assert forall x :: x in freed <==> x in free || x == settled;
    assert forall j :: 0 <= j < |free| ==> freed[j] == free[j] && freed[j] in free;
  }

  // ----- the object -----

  class Executor {
    const capacity: nat
    const pool: array<Option<Job>>
    const active: array<nat>
    const free: array<nat>
    var activeCount: nat
    var freeCount: nat
    ghost var log: seq<Polled>

    ghost predicate Valid()
      reads this, pool, active, free
    {
      && pool.Length == active.Length == free.Length == capacity && active != free
      && activeCount <= capacity && freeCount <= capacity
      && Partition(active[..activeCount], free[..freeCount], capacity)
      && forall x: nat :: x < capacity ==> (pool[x].Some? <==> x in active[..activeCount])
    }

    ghost function Jobs(): Jobs
      requires pool.Length == capacity
      reads pool
    {
      JobsOf(pool[..])
    }

    constructor (n: nat)
      ensures Valid() && capacity == n && Jobs() == map[] && log == []
      ensures fresh(pool) && fresh(active) && fresh(free)
    {
      capacity := n;
      pool := new Option<Job>[n](_ => None);
      active := new nat[n](_ => 0);
      free := new nat[n](i => i);
      activeCount := 0;
      freeCount := n;
      log := [];
      new;
      assert forall k :: 0 <= k < n ==> free[..n][k] == k;
    }

    // execute: fails exactly when no slot is free.
    method Execute(job: Job) returns (ok: bool)
      requires Valid()
      modifies this`activeCount, this`freeCount, pool, active
      ensures Valid()
      ensures ok <==> |old(Jobs())| < capacity
      ensures !ok ==> Jobs() == old(Jobs())
      ensures ok ==> exists slot: nat :: slot !in old(Jobs()) && Jobs() == old(Jobs())[slot := job]
    {
      ghost var a, f, p := active[..activeCount], free[..freeCount], pool[..];
      SizeOfJobs();
      if freeCount == 0 {
        return false;
      }
      freeCount := freeCount - 1;
      var slot := free[freeCount];
      assert slot == f[|f| - 1] && slot in f;
      TakeKeepsPartition(a, f, capacity);
      JobAdded(p, slot, job);
      pool[slot] := Some(job);
      active[activeCount] := slot;
      activeCount := activeCount + 1;
      assert active[..activeCount] == a + [slot] && free[..freeCount] == f[..|f| - 1];
      assert pool[..] == p[slot := Some(job)];
      assert forall x :: x in a + [slot] <==> x in a || x == slot;
      ok := true;
    }

    // poll: asks every active slot once, and frees those that have settled.
    method Poll()
      requires Valid()
      modifies this`activeCount, this`freeCount, this`log, pool, active, free
      ensures Valid()
      ensures Jobs() == Swept(old(Jobs()))
      ensures |log| >= |old(log)| && log[..|old(log)|] == old(log)
      ensures IsRound(log[|old(log)|..], old(Jobs()))
    {
      ghost var before, start := pool[..], log;
      ghost var round: seq<Polled> := [];
      var i := 0;
      while i < activeCount
        invariant Valid() && 0 <= i <= activeCount && log == start + round
        invariant Asked(before, pool[..], active[..activeCount], round, i)
        decreases activeCount - i
      {
        i, round := Ask(i, before, round);
      }
      AllAsked(before, pool[..], active[..activeCount], round);
    }

    // One slot is asked: it stays and the next one follows, or the last one takes its place.
    method Ask(i: nat, ghost before: seq<Option<Job>>, ghost round: seq<Polled>)
      returns (next: nat, ghost longer: seq<Polled>)
      requires Valid() && i < activeCount && Asked(before, pool[..], active[..activeCount], round, i)
      modifies this`activeCount, this`freeCount, this`log, pool, active, free
      ensures Valid() && next <= activeCount && activeCount - next < old(activeCount) - i
      ensures Asked(before, pool[..], active[..activeCount], longer, next)
      ensures |longer| == |round| + 1 && longer[..|round|] == round && log == old(log) + [longer[|round|]]
    {
      ghost var a, p := active[..activeCount], pool[..];
      var slot := active[i];
      assert slot == a[i] && slot in a;
      var job := pool[slot].value;
      var state := Answer(job, 0);
      log := log + [Polled(slot, state, state.Rejected?)];
      longer := round + [Polled(slot, state, state.Rejected?)];
      next := i;
      if state != Pending {
        SettleKeepsAsked(before, p, a, round, i);
        Settle(i);
      } else {
        ContinueKeepsAsked(before, p, a, round, i);
        pool[slot] := Some(Again(job));
        assert pool[..] == p[slot := Some(Again(job))];
        next := i + 1;
      }
    }

    // The slot gives up its job and its place, and is free again.
    method Settle(i: nat)
      requires Valid() && i < activeCount
      modifies this`activeCount, this`freeCount, pool, active, free
      ensures Valid() && activeCount == old(activeCount) - 1
      ensures old(active[i]) < capacity && pool[..] == old(pool[..])[old(active[i]) := None]
      ensures active[..activeCount] == SwapRemoved(old(active[..activeCount]), i)
    {
      ghost var a, f := active[..activeCount], free[..freeCount];
      var slot := active[i];
      assert slot == a[i] && slot in a;
      pool[slot] := None;
      free[freeCount] := slot;
      freeCount := freeCount + 1;
      activeCount := activeCount - 1;
      active[i] := active[activeCount];
      SettleKeepsPartition(a, f, capacity, i);
      SwapRemovedElements(a, i);
      assert active[..activeCount] == SwapRemoved(a, i) && free[..freeCount] == f + [slot];
    }

    lemma SizeOfJobs()
      requires Valid()
      ensures |Jobs()| == activeCount
    {
      DistinctSize(active[..activeCount]);
      assert Jobs().Keys == Elements(active[..activeCount]);
      assert |Jobs()| == |Jobs().Keys|;
    }
  }

  // ----- one round of polls -----

  // The slots asked in this round.
  ghost predicate In(round: seq<Polled>, slot: nat) {
    exists k :: 0 <= k < |round| && round[k].slot == slot
  }

  // Every job of the start is asked exactly once, nothing else is, and each entry holds the job's answer.
  ghost predicate IsRound(round: seq<Polled>, jobs: Jobs) {
    && (forall k :: 0 <= k < |round| ==>
          round[k].slot in jobs && round[k].state == jobs[round[k].slot].answers(jobs[round[k].slot].polls))
    && (forall k :: 0 <= k < |round| ==> (round[k].onError <==> round[k].state.Rejected?))
    && (forall j, k :: 0 <= j < k < |round| ==> round[j].slot != round[k].slot)
    && (forall s :: s in jobs ==> In(round, s))
  }

  // What one poll makes of a slot.
  function Next(o: Option<Job>): Option<Job> {
    if o.Some? && Answer(o.value, 0).Pending? then Some(Again(o.value)) else None
  }

  // Half-way: the first i active slots have been asked and go on; the others wait; the rest has settled or was free.
  ghost predicate Asked(before: seq<Option<Job>>, pool: seq<Option<Job>>, active: seq<nat>, round: seq<Polled>,
      i: nat) {
    && |before| == |pool| && i <= |active|
    && (forall k :: 0 <= k < |round| ==>
          && round[k].slot < |before| && before[round[k].slot].Some?
          && round[k].state == Answer(before[round[k].slot].value, 0)
          && (round[k].onError <==> round[k].state.Rejected?))
    && (forall j, k :: 0 <= j < k < |round| ==> round[j].slot != round[k].slot)
    && (forall k :: 0 <= k < |active| ==> (In(round, active[k]) <==> k < i))
    && (forall s: nat :: s < |pool| ==> pool[s] == if In(round, s) then Next(before[s]) else before[s])
  }

  lemma InGrows(round: seq<Polled>, e: Polled)
    ensures forall s: nat :: In(round + [e], s) <==> In(round, s) || s == e.slot
  {
    var grown := round + [e];
    forall s: nat | In(round, s) ensures In(grown, s) {
      var k :| 0 <= k < |round| && round[k].slot == s;
      assert grown[k].slot == s;
    }
    assert grown[|round|] == e;
  }

  lemma ContinueKeepsAsked(before: seq<Option<Job>>, pool: seq<Option<Job>>, active: seq<nat>, round: seq<Polled>,
      i: nat)
    requires Asked(before, pool, active, round, i) && i < |active| && active[i] < |pool| && pool[active[i]].Some?
    requires Distinct(active) && Answer(pool[active[i]].value, 0).Pending?
    ensures Asked(before, pool[active[i] := Some(Again(pool[active[i]].value))], active,
                  round + [Polled(active[i], Pending, false)], i + 1)
  {
    InGrows(round, Polled(active[i], Pending, false));
  }

  lemma SettleKeepsAsked(before: seq<Option<Job>>, pool: seq<Option<Job>>, active: seq<nat>, round: seq<Polled>, i: nat)
    requires Asked(before, pool, active, round, i) && i < |active| && active[i] < |pool| && pool[active[i]].Some?
    requires Distinct(active) && !Answer(pool[active[i]].value, 0).Pending?
    ensures var state := Answer(pool[active[i]].value, 0);
      Asked(before, pool[active[i] := None], SwapRemoved(active, i),
            round + [Polled(active[i], state, state.Rejected?)], i)
  {
    var state := Answer(pool[active[i]].value, 0);
    InGrows(round, Polled(active[i], state, state.Rejected?));
  }

  lemma AllAsked(before: seq<Option<Job>>, pool: seq<Option<Job>>, active: seq<nat>, round: seq<Polled>)
    requires Asked(before, pool, active, round, |active|)
    requires forall x: nat :: x < |pool| ==> (pool[x].Some? <==> x in active)
    ensures JobsOf(pool) == Swept(JobsOf(before)) && IsRound(round, JobsOf(before))
  {
    forall s: nat | s in active ensures In(round, s) {
      var k :| 0 <= k < |active| && active[k] == s;
      assert In(round, active[k]);
    }
  }

  // Taking the last free slot into use.
  lemma TakeKeepsPartition(active: seq<nat>, free: seq<nat>, capacity: nat)
    requires Partition(active, free, capacity) && free != []
    ensures Partition(active + [free[|free| - 1]], free[..|free| - 1], capacity)
  {
    var taken := free[|free| - 1];
    var grown := active + [taken];
    var rest := free[..|free| - 1];
    assert taken in free;
    assert forall x :: x in rest ==> x in free && x != taken;
    assert forall x :: x in grown <==> x in active || x == taken;
    assert forall j :: 0 <= j < |active| ==> grown[j] == active[j] && grown[j] in active;
  }

  lemma JobAdded(pool: seq<Option<Job>>, slot: nat, job: Job)
    requires slot < |pool| && pool[slot].None?
    ensures slot !in JobsOf(pool) && JobsOf(pool[slot := Some(job)]) == JobsOf(pool)[slot := job]
  {
  }

  ghost function JobsOf(pool: seq<Option<Job>>): Jobs {
    map s: nat | s < |pool| && pool[s].Some? :: pool[s].value
  }
}
