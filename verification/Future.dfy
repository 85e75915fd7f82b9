/** Futures: polling machines that remember their first settled result, and their sequential composition.

    The callback of a future may keep state, so what it answers is a function of all inputs it has been called
    with. Value and error types are the same along a chain.
 */
module Futures {
  import opened Prelude

  datatype AsyncResult<V, E> = Pending | Resolved(value: V) | Rejected(error: E)

  // A callback's answer to its latest input, given every input so far.
  type Behaviour<!V, E> = (seq<V>, V) -> AsyncResult<V, E>

  // One invocation of the callback with this name.
  datatype Call<V> = Call(name: nat, input: V)

  // ----- the machine as a value -----

  // A callback without a name is not the user's: those that resolve, reject and passing on install.
  datatype Machine<!V, E> =
    | Single(name: Option<nat>, behaviour: Behaviour<V, E>, history: seq<V>, result: AsyncResult<V, E>)
    | Chain(first: Machine<V, E>, next: Machine<V, E>, result: AsyncResult<V, E>)

  datatype Step<!V, E> = Step(machine: Machine<V, E>, result: AsyncResult<V, E>, calls: seq<Call<V>>)

  ghost function Polled<V, E>(m: Machine<V, E>, input: V): Step<V, E> {
    if !m.result.Pending? then
      Step(m, m.result, [])
    else
      match m
      case Single(name, behaviour, history, _) =>
        var r := behaviour(history, input);
        Step(m.(history := history + [input], result := r), r, if name.Some? then [Call(name.value, input)] else [])
      case Chain(first, next, _) =>
        var s := Polled(first, input);
        match s.result
        case Pending => Step(Chain(s.machine, next, Pending), Pending, s.calls)
        case Rejected(e) => Step(Chain(s.machine, next, Rejected(e)), Rejected(e), s.calls)
        case Resolved(v) => Second(s, Polled(next, v))
  }

  // The second stage took a step after the first.
  ghost function Second<V, E>(s: Step<V, E>, t: Step<V, E>): Step<V, E> {
    Step(Chain(s.machine, t.machine, t.result), t.result, s.calls + t.calls)
  }

  ghost function New<V, E>(name: Option<nat>, behaviour: Behaviour<V, E>): Machine<V, E> {
    Single(name, behaviour, [], Pending)
  }

  ghost function Resolve<V, E>(v: V): Machine<V, E> {
    New(None, (_: seq<V>, _: V) => Resolved(v))
  }

  ghost function Reject<V, E>(e: E): Machine<V, E> {
    New(None, (_: seq<V>, _: V) => Rejected(e))
  }

  // The future that and_then wraps around a plain function.
  ghost function Lift<V, E>(name: Option<nat>, fn: V -> V): Machine<V, E> {
    New(name, (_: seq<V>, v: V) => Resolved(fn(v)))
  }

  ghost function AndThen<V, E>(m: Machine<V, E>, next: Machine<V, E>): Machine<V, E> {
    Chain(m, next, Pending)
  }

  // ----- what a caller sees -----

  datatype Seen<V, E> = Seen(result: AsyncResult<V, E>, calls: seq<Call<V>>)

  ghost function Observed<V, E>(m: Machine<V, E>, inputs: seq<V>): (o: seq<Seen<V, E>>)
    ensures |o| == |inputs|
    decreases |inputs|
  {
    if inputs == [] then
      []
    else
      var s := Polled(m, inputs[0]);
      [Seen(s.result, s.calls)] + Observed(s.machine, inputs[1..])
  }

  ghost function After<V, E>(m: Machine<V, E>, inputs: seq<V>): Machine<V, E>
    decreases |inputs|
  {
    if inputs == [] then m else After(Polled(m, inputs[0]).machine, inputs[1..])
  }

  function Repeat<T>(x: T, n: nat): (s: seq<T>)
    ensures |s| == n && forall i :: 0 <= i < n ==> s[i] == x
  {
    if n == 0 then [] else [x] + Repeat(x, n - 1)
  }

  // ----- what a callback is told -----

  // While it has not settled, a future asks its callback with the latest input and exactly the inputs before it.
  lemma {:induction false} CallbackIsTold<V, E>(name: Option<nat>, f: Behaviour<V, E>, before: seq<V>, inputs: seq<V>,
      input: V)
    requires forall k :: 0 <= k < |inputs| ==> f(before + inputs[..k], inputs[k]).Pending?
    ensures After(Single(name, f, before, Pending), inputs) == Single(name, f, before + inputs, Pending)
    ensures var s := Polled(After(Single(name, f, before, Pending), inputs), input);
      s.result == f(before + inputs, input) && s.calls == if name.Some? then [Call(name.value, input)] else []
    decreases |inputs|
  {
    if inputs == [] {
      assert before + inputs == before;
    } else {
      assert before + inputs[..0] == before;
      var longer := before + [inputs[0]];
      forall k | 0 <= k < |inputs| - 1 ensures f(longer + inputs[1..][..k], inputs[1..][k]).Pending? {
        assert longer + inputs[1..][..k] == before + inputs[..k + 1];
        assert f(before + inputs[..k + 1], inputs[k + 1]).Pending?;
      }
      CallbackIsTold(name, f, longer, inputs[1..], input);
      assert longer + inputs[1..] == before + inputs;
    }
  }

  // ----- settled futures -----

  // A poll returns what it remembers.
  lemma PollRemembers<V, E>(m: Machine<V, E>, input: V)
    ensures Polled(m, input).machine.result == Polled(m, input).result
  {
  }

  // A settled future never changes, and calls no callback again.
  lemma {:induction false} SettledStays<V, E>(m: Machine<V, E>, inputs: seq<V>)
    requires !m.result.Pending?
    ensures After(m, inputs) == m && Observed(m, inputs) == Repeat(Seen(m.result, []), |inputs|)
  {
    if inputs == [] {
    } else {
      SettledStays(m, inputs[1..]);
    }
  }

  // ----- a chain is its first stage, then its second on the first's value -----

  ghost function Sequenced<V, E>(m: Machine<V, E>, next: Machine<V, E>, inputs: seq<V>): seq<Seen<V, E>>
    decreases |inputs|
  {
    if inputs == [] then
      []
    else
      var s := Polled(m, inputs[0]);
      match s.result
      case Pending => [Seen(Pending, s.calls)] + Sequenced(s.machine, next, inputs[1..])
      case Rejected(e) => [Seen(Rejected(e), s.calls)] + Repeat(Seen(Rejected(e), []), |inputs| - 1)
      case Resolved(v) =>
        var o := Observed(next, Repeat(v, |inputs|));
        [Seen(o[0].result, s.calls + o[0].calls)] + o[1..]
  }

  lemma {:induction false} ChainIsSequence<V, E>(m: Machine<V, E>, next: Machine<V, E>, inputs: seq<V>)
    ensures Observed(AndThen(m, next), inputs) == Sequenced(m, next, inputs)
    decreases |inputs|
  {
    if inputs == [] {
    } else {
      var s := Polled(m, inputs[0]);
      PollRemembers(m, inputs[0]);
      match s.result
      case Pending => ChainIsSequence(s.machine, next, inputs[1..]);
      case Rejected(e) => SettledStays(Chain(s.machine, next, s.result), inputs[1..]);
      case Resolved(v) => FirstResolves(m, next, v, inputs);
    }
  }

  lemma FirstResolves<V, E>(m: Machine<V, E>, next: Machine<V, E>, v: V, inputs: seq<V>)
    requires inputs != [] && Polled(m, inputs[0]).result == Resolved(v)
    ensures Observed(AndThen(m, next), inputs) == Sequenced(m, next, inputs)
  {
    var s, t := Polled(m, inputs[0]), Polled(next, v);
    PollRemembers(m, inputs[0]);
    SecondStage(s.machine, t.machine, v, inputs[1..]);
    assert Polled(AndThen(m, next), inputs[0]) == Second(s, t);
    assert Repeat(v, |inputs|)[0] == v && Repeat(v, |inputs|)[1..] == Repeat(v, |inputs| - 1);
    var rest := Observed(t.machine, Repeat(v, |inputs| - 1));
    assert Observed(next, Repeat(v, |inputs|)) == [Seen(t.result, t.calls)] + rest;
    PollRemembers(next, v);
  }

  // Once the first stage has resolved, the chain is its second stage.
  lemma {:induction false} SecondStage<V, E>(first: Machine<V, E>, next: Machine<V, E>, v: V, inputs: seq<V>)
    requires first.result == Resolved(v)
    ensures Observed(Chain(first, next, next.result), inputs) == Observed(next, Repeat(v, |inputs|))
    decreases |inputs|
  {
    if inputs == [] {
    } else {
      var t := Polled(next, v);
      PollRemembers(next, v);
      assert Repeat(v, |inputs|)[1..] == Repeat(v, |inputs| - 1) && [] + t.calls == t.calls;
      if next.result.Pending? {
        assert Polled(Chain(first, next, Pending), inputs[0]) ==
            Step(Chain(first, t.machine, t.result), t.result, t.calls);
        SecondStage(first, t.machine, v, inputs[1..]);
      } else {
        SecondStage(first, next, v, inputs[1..]);
      }
    }
  }

  // The second stage is not polled before the first has resolved: till then the chain makes exactly the calls of
  // the first stage alone.
  lemma {:induction false} SecondStageWaits<V, E>(m: Machine<V, E>, next: Machine<V, E>, inputs: seq<V>)
    requires !After(m, inputs).result.Resolved?
    ensures After(AndThen(m, next), inputs) ==
        Chain(After(m, inputs), next, if inputs == [] then Pending else After(m, inputs).result)
    ensures Observed(AndThen(m, next), inputs) == Observed(m, inputs)
    decreases |inputs|
  {
    if inputs == [] {
    } else {
      var s := Polled(m, inputs[0]);
      PollRemembers(m, inputs[0]);
      if s.result.Pending? {
        SecondStageWaits(s.machine, next, inputs[1..]);
      } else {
        SettledStays(s.machine, inputs[1..]);
        SettledStays(Chain(s.machine, next, s.result), inputs[1..]);
      }
    }
  }

  // ----- the laws -----

  // Two chains of the same three stages, grouped to the left and to the right, in step with each other.
  ghost predicate Regrouped<V, E>(l: Machine<V, E>, r: Machine<V, E>) {
    && l.Chain? && r.Chain? && l.first.Chain? && r.next.Chain?
    && l.first.first == r.first && l.first.next == r.next.first && l.next == r.next.next
    && l.result == r.result
    && (l.result.Pending? ==>
          && r.next.result.Pending?
          && (|| l.first.result.Pending?
              || (&& l.first.result.Resolved? && r.first.result.Resolved?
                  && r.next.first.result == l.first.result)))
  }

  lemma RegroupedPoll<V, E>(l: Machine<V, E>, r: Machine<V, E>, input: V)
    requires Regrouped(l, r)
    ensures Regrouped(Polled(l, input).machine, Polled(r, input).machine)
    ensures Polled(l, input).result == Polled(r, input).result && Polled(l, input).calls == Polled(r, input).calls
  {
    if l.result.Pending? {
      PollRemembers(r.first, input);
      if Polled(r.first, input).result.Resolved? {
        PollRemembers(r.next.first, Polled(r.first, input).result.value);
      }
    }
  }

  lemma {:induction false} RegroupedRun<V, E>(l: Machine<V, E>, r: Machine<V, E>, inputs: seq<V>)
    requires Regrouped(l, r)
    ensures Observed(l, inputs) == Observed(r, inputs)
    decreases |inputs|
  {
    if inputs == [] {
    } else {
      RegroupedPoll(l, r, inputs[0]);
      RegroupedRun(Polled(l, inputs[0]).machine, Polled(r, inputs[0]).machine, inputs[1..]);
    }
  }

  // and_then is associative: same results and same callback invocations on every sequence of polls.
  lemma AndThenIsAssociative<V, E>(a: Machine<V, E>, b: Machine<V, E>, c: Machine<V, E>, inputs: seq<V>)
    ensures Observed(AndThen(AndThen(a, b), c), inputs) == Observed(AndThen(a, AndThen(b, c)), inputs)
  {
    RegroupedRun(AndThen(AndThen(a, b), c), AndThen(a, AndThen(b, c)), inputs);
  }

  // resolve(v) in front feeds v to the second stage, whatever the chain itself is polled with.
  lemma ResolveIsLeftIdentity<V, E>(v: V, m: Machine<V, E>, inputs: seq<V>)
    ensures Observed(AndThen(Resolve(v), m), inputs) == Observed(m, Repeat(v, |inputs|))
  {
    ChainIsSequence(Resolve(v), m, inputs);
    var o := Observed(m, Repeat(v, |inputs|));
    if inputs != [] { FirstUnchanged(o); }
  }

  lemma FirstUnchanged<V, E>(o: seq<Seen<V, E>>)
    requires o != []
    ensures [Seen(o[0].result, [] + o[0].calls)] + o[1..] == o
  {
    assert [] + o[0].calls == o[0].calls;
  }

  // reject(e) in front rejects every poll, and the second stage is never called.
  lemma RejectIsLeftZero<V, E>(e: E, m: Machine<V, E>, inputs: seq<V>)
    ensures Observed(AndThen(Reject(e), m), inputs) == Repeat(Seen(Rejected(e), []), |inputs|)
  {
    ChainIsSequence(Reject(e), m, inputs);
  }

  // What and_then with a function shows: errors unchanged, the value mapped, the function called once.
  ghost function MappedRun<V, E>(m: Machine<V, E>, name: Option<nat>, fn: V -> V, inputs: seq<V>): seq<Seen<V, E>>
    decreases |inputs|
  {
    if inputs == [] then
      []
    else
      var s := Polled(m, inputs[0]);
      match s.result
      case Pending => [Seen(Pending, s.calls)] + MappedRun(s.machine, name, fn, inputs[1..])
      case Rejected(e) => [Seen(Rejected(e), s.calls)] + Repeat(Seen(Rejected(e), []), |inputs| - 1)
      case Resolved(v) =>
        [Seen(Resolved(fn(v)), s.calls + if name.Some? then [Call(name.value, v)] else [])]
        + Repeat(Seen(Resolved(fn(v)), []), |inputs| - 1)
  }

  lemma {:induction false} LiftMaps<V, E>(m: Machine<V, E>, name: Option<nat>, fn: V -> V, inputs: seq<V>)
    ensures Observed(AndThen(m, Lift(name, fn)), inputs) == MappedRun(m, name, fn, inputs)
    decreases |inputs|
  {
    if inputs == [] {
    } else {
      var s := Polled(m, inputs[0]);
      var next := Lift(name, fn);
      PollRemembers(m, inputs[0]);
      match s.result
      case Pending => LiftMaps(s.machine, name, fn, inputs[1..]);
      case Rejected(e) => SettledStays(Chain(s.machine, next, s.result), inputs[1..]);
      case Resolved(v) =>
        assert Polled(next, v).result == Resolved(fn(v));
        SettledStays(Polled(AndThen(m, next), inputs[0]).machine, inputs[1..]);
    }
  }

  // A second stage that passes its input on changes nothing.
  lemma {:induction false} PassOnIsRightIdentity<V, E>(m: Machine<V, E>, inputs: seq<V>)
    ensures Observed(AndThen(m, Lift(None, x => x)), inputs) == Observed(m, inputs)
    decreases |inputs|
  {
    LiftMaps(m, None, x => x, inputs);
    if inputs != [] {
      var s := Polled(m, inputs[0]);
      PollRemembers(m, inputs[0]);
      if s.result.Pending? {
        PassOnIsRightIdentity(s.machine, inputs[1..]);
        LiftMaps(s.machine, None, x => x, inputs[1..]);
      } else {
        SettledStays(s.machine, inputs[1..]);
        assert s.calls + [] == s.calls;
      }
    }
  }

  // A first stage that passes its input on remembers the first one: the second stage never sees another.
  lemma PassOnAsFirstStage<V, E>(m: Machine<V, E>, inputs: seq<V>)
    requires inputs != []
    ensures Observed(AndThen(Lift(None, x => x), m), inputs) == Observed(m, Repeat(inputs[0], |inputs|))
  {
    ChainIsSequence(Lift(None, x => x), m, inputs);
    var o := Observed(m, Repeat(inputs[0], |inputs|));
    FirstUnchanged(o);
  }

  // So it is a left identity exactly for polls that all carry the same input.
  lemma PassOnIsLeftIdentity<V, E>(inputs: seq<V>)
    requires inputs != []
    ensures (forall m: Machine<V, E> :: Observed(AndThen(Lift(None, x => x), m), inputs) == Observed(m, inputs))
       <==> (forall i :: 0 <= i < |inputs| ==> inputs[i] == inputs[0])
  {
    var pass: Machine<V, E> := Lift(None, x => x);
    if forall i :: 0 <= i < |inputs| ==> inputs[i] == inputs[0] {
      assert inputs == Repeat(inputs[0], |inputs|);
      forall m: Machine<V, E> ensures Observed(AndThen(pass, m), inputs) == Observed(m, inputs) {
        PassOnAsFirstStage(m, inputs);
      }
    } else {
      var i :| 0 <= i < |inputs| && inputs[i] != inputs[0];
      var m := NotIdentity<V, E>(inputs, i);
    }
  }

  lemma NotIdentity<V, E>(inputs: seq<V>, i: nat) returns (m: Machine<V, E>)
    requires i < |inputs| && inputs[i] != inputs[0]
    ensures Observed(AndThen(Lift(None, x => x), m), inputs) != Observed(m, inputs)
  {
    m := New(Some(0), (_: seq<V>, _: V) => Pending);
    PassOnAsFirstStage(m, inputs);
    EndlessShowsInputs(m, inputs);
    EndlessShowsInputs(m, Repeat(inputs[0], |inputs|));
    assert Observed(m, Repeat(inputs[0], |inputs|))[i].calls == [Call(0, inputs[0])];
  }

  // A future that never settles is called with every input.
  lemma {:induction false} EndlessShowsInputs<V, E>(m: Machine<V, E>, inputs: seq<V>)
    requires m.Single? && m.name == Some(0) && m.result.Pending? && forall h, v :: m.behaviour(h, v) == Pending
    ensures forall i :: 0 <= i < |inputs| ==> Observed(m, inputs)[i].calls == [Call(0, inputs[i])]
    decreases |inputs|
  {
    if inputs == [] {
    } else {
      EndlessShowsInputs(Polled(m, inputs[0]).machine, inputs[1..]);
    }
  }

  function Mapped<V, E>(fn: V -> V, r: AsyncResult<V, E>): AsyncResult<V, E> {
    match r
    case Resolved(v) => Resolved(fn(v))
    case _ => r
  }

  lemma {:induction false} MappedResults<V, E>(m: Machine<V, E>, name: Option<nat>, fn: V -> V, inputs: seq<V>, i: nat)
    requires i < |inputs|
    ensures Observed(AndThen(m, Lift(name, fn)), inputs)[i].result == Mapped(fn, Observed(m, inputs)[i].result)
    decreases |inputs|
  {
    LiftMaps(m, name, fn, inputs);
    var s := Polled(m, inputs[0]);
    PollRemembers(m, inputs[0]);
    if s.result.Pending? {
      LiftMaps(s.machine, name, fn, inputs[1..]);
      if i > 0 { MappedResults(s.machine, name, fn, inputs[1..], i - 1); }
    } else {
      SettledStays(s.machine, inputs[1..]);
    }
  }

  // Chaining two functions is chaining their composition.
  lemma FunctionsCompose<V, E>(m: Machine<V, E>, f: V -> V, g: V -> V, inputs: seq<V>, i: nat)
    requires i < |inputs|
    ensures Observed(AndThen(AndThen(m, Lift(None, f)), Lift(None, g)), inputs)[i].result
         == Observed(AndThen(m, Lift(None, x => g(f(x)))), inputs)[i].result
  {
    MappedResults(m, None, f, inputs, i);
    MappedResults(AndThen(m, Lift(None, f)), None, g, inputs, i);
    MappedResults(m, None, x => g(f(x)), inputs, i);
  }

  // ----- the future as an object -----

  datatype Callback<!V(!new), !E(!new)> =
    | Function(name: Option<nat>, behaviour: Behaviour<V, E>, history: seq<V>)
    | Composed(first: Future<V, E>, next: Future<V, E>)

  class Future<V(!new), E(!new)> {
    var result: AsyncResult<V, E>
    var pollCallback: Callback<V, E>
    ghost var Repr: set<Future<V, E>>

    ghost predicate Valid()
      reads this, Repr
      decreases Repr
    {
      && this in Repr
      && (pollCallback.Composed? ==>
            var first, next := pollCallback.first, pollCallback.next;
            && first in Repr && next in Repr && first.Repr < Repr && next.Repr < Repr
            && this !in first.Repr && this !in next.Repr && first.Repr !! next.Repr
            && first.Valid() && next.Valid())
    }

    ghost function Model(): (m: Machine<V, E>)
      requires Valid()
      reads this, Repr
      ensures m.result == result
      decreases Repr
    {
      match pollCallback
      case Function(name, behaviour, history) => Single(name, behaviour, history, result)
      case Composed(first, next) => Chain(first.Model(), next.Model(), result)
    }

    constructor (name: Option<nat>, behaviour: Behaviour<V, E>)
      ensures Valid() && fresh(Repr) && Model() == New(name, behaviour)
    {
      result := Pending;
      pollCallback := Function(name, behaviour, []);
      Repr := {this};
    }

    // and_then: both futures move into the callback of the new one.
    constructor Chained(first: Future<V, E>, next: Future<V, E>)
      requires first.Valid() && next.Valid() && first.Repr !! next.Repr
      ensures Valid() && fresh(Repr - first.Repr - next.Repr)
      ensures Model() == AndThen(old(first.Model()), old(next.Model()))
    {
      result := Pending;
      pollCallback := Composed(first, next);
      Repr := {this} + first.Repr + next.Repr;
    }

    method Poll(input: V) returns (r: AsyncResult<V, E>, ghost calls: seq<Call<V>>)
      requires Valid()
      modifies Repr
      ensures Valid() && Repr == old(Repr)
      ensures Step(Model(), r, calls) == Polled(old(Model()), input)
      decreases Repr, 0
    {
      calls := [];
      if result.Pending? {
        match pollCallback
        case Function(name, behaviour, history) =>
          result := behaviour(history, input);
          pollCallback := Function(name, behaviour, history + [input]);
          calls := if name.Some? then [Call(name.value, input)] else [];
        case Composed(first, next) =>
          result, calls := PollStages(first, next, input);
      }
      r := result;
    }

    // The lambda that and_then installs.
    static method PollStages(first: Future<V, E>, next: Future<V, E>, input: V)
      returns (r: AsyncResult<V, E>, ghost calls: seq<Call<V>>)
      requires first.Valid() && next.Valid() && first.Repr !! next.Repr
      modifies first.Repr, next.Repr
      ensures first.Valid() && next.Valid() && first.Repr == old(first.Repr) && next.Repr == old(next.Repr)
      ensures Step(Chain(first.Model(), next.Model(), r), r, calls)
           == Polled(Chain(old(first.Model()), old(next.Model()), Pending), input)
      decreases first.Repr + next.Repr, 1
    {
      calls := first.PollIfPending(input);
      match first.result
      case Pending =>
        r := Pending;
      case Rejected(e) =>
        r := Rejected(e);
      case Resolved(v) =>
        ghost var c;
        r, c := next.Poll(v);
        calls := calls + c;
    }

    method PollIfPending(input: V) returns (ghost calls: seq<Call<V>>)
      requires Valid()
      modifies Repr
      ensures Valid() && Repr == old(Repr)
      ensures Step(Model(), result, calls) == Polled(old(Model()), input)
      decreases Repr, 1
    {
      calls := [];
      if result.Pending? {
        var _, c := Poll(input);
        calls := c;
      }
    }
  }
}
