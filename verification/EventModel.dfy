/** What dispatching events means: a list of live listeners from which removal is immediate. Runs are logs
    in which every dispatch carries its callback calls and every call what the callback did. */
module EventModel {

  datatype Listener = Listener(hash: nat, id: nat, once: bool)

  datatype Done =
    | Added(hash: nat, id: nat, once: bool)       // id 0: the listener was refused
    | RemovedId(hash: nat, id: nat)
    | RemovedAll(hash: nat)
    | Dispatched(hash: nat, calls: seq<Call>)

  datatype Call = Call(listener: Listener, body: seq<Done>)

  // ----- the live list -----

  // The listeners of one event, in registration order.
  function Of(live: seq<Listener>, hash: nat): seq<Listener> {
    if live == [] then []
    else if live[0].hash == hash then [live[0]] + Of(live[1..], hash)
    else Of(live[1..], hash)
  }

  function Drop(live: seq<Listener>, hash: nat, id: nat): seq<Listener> {
    if live == [] then []
    else if live[0].hash == hash && live[0].id == id then Drop(live[1..], hash, id)
    else [live[0]] + Drop(live[1..], hash, id)
  }

  function DropAll(live: seq<Listener>, hash: nat): seq<Listener> {
    if live == [] then []
    else if live[0].hash == hash then DropAll(live[1..], hash)
    else [live[0]] + DropAll(live[1..], hash)
  }

  lemma {:induction false} InOf(live: seq<Listener>, hash: nat, l: Listener)
    ensures l in Of(live, hash) <==> l in live && l.hash == hash
  {
    if live == [] {
    } else {
      InOf(live[1..], hash, l);
    }
  }

  lemma {:induction false} InDrop(live: seq<Listener>, hash: nat, id: nat, l: Listener)
    ensures l in Drop(live, hash, id) <==> l in live && !(l.hash == hash && l.id == id)
  {
    if live == [] {
    } else {
      InDrop(live[1..], hash, id, l);
    }
  }

  lemma {:induction false} InDropAll(live: seq<Listener>, hash: nat, l: Listener)
    ensures l in DropAll(live, hash) <==> l in live && l.hash != hash
  {
    if live == [] {
    } else {
      InDropAll(live[1..], hash, l);
    }
  }

  lemma {:induction false} OfAppend(a: seq<Listener>, b: seq<Listener>, hash: nat)
    ensures Of(a + b, hash) == Of(a, hash) + Of(b, hash)
  {
    if a == [] {
      assert a + b == b;
    } else {
      OfAppend(a[1..], b, hash);
      assert (a + b)[1..] == a[1..] + b;
      if a[0].hash == hash {
        assert [a[0]] + (Of(a[1..], hash) + Of(b, hash)) == ([a[0]] + Of(a[1..], hash)) + Of(b, hash);
      }
    }
  }

  lemma {:induction false} OfDrop(live: seq<Listener>, hash: nat, id: nat, h: nat)
    ensures Of(Drop(live, hash, id), h) == if h == hash then Drop(Of(live, h), hash, id) else Of(live, h)
  {
    if live == [] {
    } else {
      OfDrop(live[1..], hash, id, h);
      if !(live[0].hash == hash && live[0].id == id) { OfAppend([live[0]], Drop(live[1..], hash, id), h); }
      if h == hash && live[0].hash == h { DropAppend([live[0]], Of(live[1..], h), hash, id); }
    }
  }

  lemma {:induction false} DropAppend(a: seq<Listener>, b: seq<Listener>, hash: nat, id: nat)
    ensures Drop(a + b, hash, id) == Drop(a, hash, id) + Drop(b, hash, id)
  {
    if a == [] {
      assert a + b == b;
    } else {
      DropAppend(a[1..], b, hash, id);
      assert (a + b)[1..] == a[1..] + b;
      if !(a[0].hash == hash && a[0].id == id) {
        assert [a[0]] + (Drop(a[1..], hash, id) + Drop(b, hash, id)) ==
            ([a[0]] + Drop(a[1..], hash, id)) + Drop(b, hash, id);
      }
    }
  }

  lemma {:induction false} OfDropAll(live: seq<Listener>, hash: nat, h: nat)
    ensures Of(DropAll(live, hash), h) == if h == hash then [] else Of(live, h)
  {
    if live == [] {
    } else {
      OfDropAll(live[1..], hash, h);
      if live[0].hash != hash { OfAppend([live[0]], DropAll(live[1..], hash), h); }
    }
  }

  lemma {:induction false} DropAbsent(live: seq<Listener>, hash: nat, id: nat)
    requires forall l :: l in live ==> !(l.hash == hash && l.id == id)
    ensures Drop(live, hash, id) == live
  {
    if live == [] {
    } else {
      assert live[0] in live;
      DropAbsent(live[1..], hash, id);
    }
  }

  // ----- what a log does to the list, and which logs are right -----

  function After(live: seq<Listener>, log: seq<Done>): seq<Listener>
    decreases log, 1
  {
    if log == [] then live else After(After1(live, log[0]), log[1..])
  }

  function After1(live: seq<Listener>, d: Done): seq<Listener>
    decreases d, 0
  {
    match d
    case Added(h, id, once) => if id == 0 then live else live + [Listener(h, id, once)]
    case RemovedId(h, id) => Drop(live, h, id)
    case RemovedAll(h) => DropAll(live, h)
    case Dispatched(_, calls) => AfterCalls(live, calls)
  }

  function AfterCalls(live: seq<Listener>, calls: seq<Call>): seq<Listener>
    decreases calls, 1
  {
    if calls == [] then live else AfterCalls(AfterCall(live, calls[0]), calls[1..])
  }

  // A callback does what it does; then a once-listener is gone.
  function AfterCall(live: seq<Listener>, c: Call): seq<Listener>
    decreases c, 0
  {
    var mid := After(live, c.body);
    if c.listener.once then Drop(mid, c.listener.hash, c.listener.id) else mid
  }

  /** A log is right if every dispatch calls, in registration order, exactly the listeners that were live at
      its start and have not been removed before their turn. */
  ghost predicate Legal(live: seq<Listener>, log: seq<Done>)
    decreases log, 1
  {
    log != [] ==> Legal1(live, log[0]) && Legal(After1(live, log[0]), log[1..])
  }

  ghost predicate Legal1(live: seq<Listener>, d: Done)
    decreases d, 0
  {
    d.Dispatched? ==> LegalCalls(live, Of(live, d.hash), d.calls)
  }

  ghost predicate LegalCalls(live: seq<Listener>, snapshot: seq<Listener>, calls: seq<Call>)
    decreases calls, 1, |snapshot|
  {
    if snapshot == [] then calls == []
    else if snapshot[0] in live then
      && calls != [] && calls[0].listener == snapshot[0] && LegalCall(live, calls[0])
      && LegalCalls(AfterCall(live, calls[0]), snapshot[1..], calls[1..])
    else LegalCalls(live, snapshot[1..], calls)
  }

  ghost predicate LegalCall(live: seq<Listener>, c: Call)
    decreases c, 0
  {
    Legal(live, c.body)
  }

  // ----- a dispatch under way -----

  // From live0 with snapshot0 ahead, the calls lead to `live` with `snapshot` still ahead.
  ghost predicate Reached(live0: seq<Listener>, snapshot0: seq<Listener>, calls: seq<Call>, live: seq<Listener>,
      snapshot: seq<Listener>)
    decreases |snapshot0|
  {
    if |snapshot| >= |snapshot0| then snapshot == snapshot0 && calls == [] && live == live0
    else if snapshot0[0] in live0 then
      && calls != [] && calls[0].listener == snapshot0[0] && Legal(live0, calls[0].body)
      && Reached(AfterCall(live0, calls[0]), snapshot0[1..], calls[1..], live, snapshot)
    else Reached(live0, snapshot0[1..], calls, live, snapshot)
  }

  lemma {:induction false} ReachedSkip(live0: seq<Listener>, snapshot0: seq<Listener>, calls: seq<Call>,
      live: seq<Listener>, snapshot: seq<Listener>)
    requires Reached(live0, snapshot0, calls, live, snapshot) && snapshot != [] && snapshot[0] !in live
    ensures Reached(live0, snapshot0, calls, live, snapshot[1..])
    decreases |snapshot0|
  {
    if |snapshot| < |snapshot0| {
      if snapshot0[0] in live0 {
        ReachedSkip(AfterCall(live0, calls[0]), snapshot0[1..], calls[1..], live, snapshot);
      } else {
        ReachedSkip(live0, snapshot0[1..], calls, live, snapshot);
      }
    } else {
      assert Reached(live0, snapshot0[1..], [], live, snapshot[1..]);
    }
  }

  lemma {:induction false} ReachedCall(live0: seq<Listener>, snapshot0: seq<Listener>, calls: seq<Call>,
      live: seq<Listener>, snapshot: seq<Listener>, c: Call)
    requires Reached(live0, snapshot0, calls, live, snapshot) && snapshot != [] && snapshot[0] in live
    requires c.listener == snapshot[0] && Legal(live, c.body)
    ensures Reached(live0, snapshot0, calls + [c], AfterCall(live, c), snapshot[1..])
    decreases |snapshot0|
  {
    if |snapshot| < |snapshot0| {
      if snapshot0[0] in live0 {
        ReachedCall(AfterCall(live0, calls[0]), snapshot0[1..], calls[1..], live, snapshot, c);
        assert (calls + [c])[1..] == calls[1..] + [c];
      } else {
        ReachedCall(live0, snapshot0[1..], calls, live, snapshot, c);
      }
    } else {
      assert calls + [c] == [c];
      assert Reached(AfterCall(live, c), snapshot0[1..], [c][1..], AfterCall(live, c), snapshot[1..]);
    }
  }

  lemma {:induction false} ReachedEnd(live0: seq<Listener>, snapshot0: seq<Listener>, calls: seq<Call>,
      live: seq<Listener>)
    requires Reached(live0, snapshot0, calls, live, [])
    ensures LegalCalls(live0, snapshot0, calls) && live == AfterCalls(live0, calls)
    decreases |snapshot0|
  {
    if snapshot0 == [] {
    } else {
      if snapshot0[0] in live0 {
        ReachedEnd(AfterCall(live0, calls[0]), snapshot0[1..], calls[1..], live);
      } else {
        ReachedEnd(live0, snapshot0[1..], calls, live);
      }
    }
  }

  lemma {:induction false} AfterAppend(live: seq<Listener>, log: seq<Done>, d: Done)
    requires Legal(live, log) && Legal1(After(live, log), d)
    ensures Legal(live, log + [d]) && After(live, log + [d]) == After1(After(live, log), d)
    decreases |log|
  {
    if log == [] {
      assert log + [d] == [d];
      assert After(live, [d]) == After(After1(live, d), [d][1..]);
    } else {
      assert (log + [d])[1..] == log[1..] + [d];
      AfterAppend(After1(live, log[0]), log[1..], d);
    }
  }

  // ----- once-listeners -----

  // How often a log calls a listener, at any depth.
  function CallsOf(log: seq<Done>, l: Listener): nat
    decreases log, 1
  {
    if log == [] then 0 else CallsOf1(log[0], l) + CallsOf(log[1..], l)
  }

  function CallsOf1(d: Done, l: Listener): nat
    decreases d, 0
  {
    if d.Dispatched? then CallsOfCalls(d.calls, l) else 0
  }

  function CallsOfCalls(calls: seq<Call>, l: Listener): nat
    decreases calls, 1
  {
    if calls == [] then 0 else CallsOfCall(calls[0], l) + CallsOfCalls(calls[1..], l)
  }

  function CallsOfCall(c: Call, l: Listener): nat
    decreases c, 0
  {
    (if c.listener == l then 1 else 0) + CallsOf(c.body, l)
  }

  // How often a log registers a listener with this event and id, at any depth.
  function AddsOf(log: seq<Done>, l: Listener): nat
    decreases log, 1
  {
    if log == [] then 0 else AddsOf1(log[0], l) + AddsOf(log[1..], l)
  }

  function AddsOf1(d: Done, l: Listener): nat
    decreases d, 0
  {
    match d
    case Added(h, id, _) => if h == l.hash && id == l.id then 1 else 0
    case Dispatched(_, calls) => AddsOfCalls(calls, l)
    case _ => 0
  }

  function AddsOfCalls(calls: seq<Call>, l: Listener): nat
    decreases calls, 1
  {
    if calls == [] then 0 else AddsOfCall(calls[0], l) + AddsOfCalls(calls[1..], l)
  }

  function AddsOfCall(c: Call, l: Listener): nat
    decreases c, 0
  {
    AddsOf(c.body, l)
  }

  lemma {:induction false} AddsAppend(log: seq<Done>, d: Done, l: Listener)
    ensures AddsOf(log + [d], l) == AddsOf(log, l) + AddsOf1(d, l)
    decreases |log|
  {
    if log == [] {
      assert log + [d] == [d] && [d][1..] == [];
    } else {
      assert (log + [d])[1..] == log[1..] + [d];
      AddsAppend(log[1..], d, l);
    }
  }

  lemma {:induction false} AddsCallsAppend(calls: seq<Call>, c: Call, l: Listener)
    ensures AddsOfCalls(calls + [c], l) == AddsOfCalls(calls, l) + AddsOfCall(c, l)
    decreases |calls|
  {
    if calls == [] {
      assert calls + [c] == [c] && [c][1..] == [];
    } else {
      assert (calls + [c])[1..] == calls[1..] + [c];
      AddsCallsAppend(calls[1..], c, l);
    }
  }

  /** Inside a call of the listener, at any depth, a dispatch comes to its turn while it is still live. `inside`
      tells whether the log itself is part of such a call. */
  ghost predicate Hit(live: seq<Listener>, log: seq<Done>, l: Listener, inside: bool)
    decreases log, 1
  {
    log != [] && (Hit1(live, log[0], l, inside) || Hit(After1(live, log[0]), log[1..], l, inside))
  }

  ghost predicate Hit1(live: seq<Listener>, d: Done, l: Listener, inside: bool)
    decreases d, 0
  {
    d.Dispatched? && HitCalls(live, Of(live, d.hash), d.calls, l, inside)
  }

  ghost predicate HitCalls(live: seq<Listener>, snapshot: seq<Listener>, calls: seq<Call>, l: Listener, inside: bool)
    decreases calls, 1, |snapshot|
  {
    if snapshot == [] then false
    else if snapshot[0] in live then
      || (inside && snapshot[0] == l)
      || (calls != [] &&
          (|| HitCall(live, calls[0], l, inside)
           || HitCalls(AfterCall(live, calls[0]), snapshot[1..], calls[1..], l, inside)))
    else HitCalls(live, snapshot[1..], calls, l, inside)
  }

  ghost predicate HitCall(live: seq<Listener>, c: Call, l: Listener, inside: bool)
    decreases c, 0
  {
    Hit(live, c.body, l, inside || c.listener == l)
  }

  // Somewhere in the log the event is dispatched.
  ghost predicate Dispatches(log: seq<Done>, hash: nat)
    decreases log, 1
  {
    log != [] && (Dispatches1(log[0], hash) || Dispatches(log[1..], hash))
  }

  ghost predicate Dispatches1(d: Done, hash: nat)
    decreases d, 0
  {
    d.Dispatched? && (d.hash == hash || DispatchesCalls(d.calls, hash))
  }

  ghost predicate DispatchesCalls(calls: seq<Call>, hash: nat)
    decreases calls, 1
  {
    calls != [] && (DispatchesCall(calls[0], hash) || DispatchesCalls(calls[1..], hash))
  }

  ghost predicate DispatchesCall(c: Call, hash: nat)
    decreases c, 0
  {
    Dispatches(c.body, hash)
  }

  // No call of the listener, at any depth, dispatches its event again.
  ghost predicate NoRedispatch(log: seq<Done>, l: Listener)
    decreases log, 1
  {
    log != [] ==> NoRedispatch1(log[0], l) && NoRedispatch(log[1..], l)
  }

  ghost predicate NoRedispatch1(d: Done, l: Listener)
    decreases d, 0
  {
    d.Dispatched? ==> NoRedispatchCalls(d.calls, l)
  }

  ghost predicate NoRedispatchCalls(calls: seq<Call>, l: Listener)
    decreases calls, 1
  {
    calls != [] ==> NoRedispatchCall(calls[0], l) && NoRedispatchCalls(calls[1..], l)
  }

  ghost predicate NoRedispatchCall(c: Call, l: Listener)
    decreases c, 0
  {
    (c.listener == l ==> !Dispatches(c.body, l.hash)) && NoRedispatch(c.body, l)
  }

  function In(live: seq<Listener>, l: Listener): nat {
    if l in live then 1 else 0
  }

  // What a part of a run does to a listener: it was hit and called more than once, or it has spent what there was
  // of it.
  ghost predicate Spent(live: seq<Listener>, live': seq<Listener>, adds: nat, calls: nat, hit: bool, l: Listener) {
    && In(live', l) <= In(live, l) + adds
    && if hit then calls > 1 else calls + In(live', l) <= In(live, l) + adds
  }

  /** A once-listener, live at the start or registered in the run, is called at most once, however deep the
      dispatches nest, exactly when no dispatch from its own call comes to it while it is still live. */
  lemma {:induction false} OnceFiresOnce(live: seq<Listener>, log: seq<Done>, l: Listener)
    requires l.once && Legal(live, log) && In(live, l) + AddsOf(log, l) <= 1
    ensures CallsOf(log, l) <= 1 <==> !Hit(live, log, l, false)
    ensures Spent(live, After(live, log), AddsOf(log, l), CallsOf(log, l), Hit(live, log, l, false), l)
    decreases log, 1
  {
    if log == [] {
    } else {
      OnceFiresOnce1(live, log[0], l);
      OnceFiresOnce(After1(live, log[0]), log[1..], l);
    }
  }

  lemma {:induction false} OnceFiresOnce1(live: seq<Listener>, d: Done, l: Listener)
    requires l.once && Legal1(live, d) && In(live, l) + AddsOf1(d, l) <= 1
    ensures Spent(live, After1(live, d), AddsOf1(d, l), CallsOf1(d, l), Hit1(live, d, l, false), l)
    decreases d, 0
  {
    match d
    case Added(h, id, once) =>
    case RemovedId(h, id) => InDrop(live, h, id, l);
    case RemovedAll(h) => InDropAll(live, h, l);
    case Dispatched(h, calls) => OnceFiresOnceCalls(live, Of(live, h), calls, l);
  }

  lemma {:induction false} OnceFiresOnceCalls(live: seq<Listener>, snapshot: seq<Listener>, calls: seq<Call>,
      l: Listener)
    requires l.once && LegalCalls(live, snapshot, calls) && In(live, l) + AddsOfCalls(calls, l) <= 1
    ensures Spent(live, AfterCalls(live, calls), AddsOfCalls(calls, l), CallsOfCalls(calls, l),
                  HitCalls(live, snapshot, calls, l, false), l)
    decreases calls, 1, |snapshot|
  {
    if snapshot == [] {
    } else if snapshot[0] in live {
      OnceFiresOnceCall(live, calls[0], l);
      OnceFiresOnceCalls(AfterCall(live, calls[0]), snapshot[1..], calls[1..], l);
    } else {
      OnceFiresOnceCalls(live, snapshot[1..], calls, l);
    }
  }

  lemma {:induction false} OnceFiresOnceCall(live: seq<Listener>, c: Call, l: Listener)
    requires l.once && c.listener in live && LegalCall(live, c) && In(live, l) + AddsOfCall(c, l) <= 1
    ensures Spent(live, AfterCall(live, c), AddsOfCall(c, l), CallsOfCall(c, l), HitCall(live, c, l, false), l)
    decreases c, 0
  {
    OnceFiresOnce(live, c.body, l);
    InsideIsHit(live, c.body, l);
    var mid := After(live, c.body);
    if c.listener.once { InDrop(mid, c.listener.hash, c.listener.id, l); }
  }

  // Inside a call of the listener every further call of it is a hit.
  lemma {:induction false} InsideIsHit(live: seq<Listener>, log: seq<Done>, l: Listener)
    requires Legal(live, log)
    ensures Hit(live, log, l, true) <==> CallsOf(log, l) > 0
    decreases log, 1
  {
    if log == [] {
    } else {
      if log[0].Dispatched? { InsideCallsAreHit(live, Of(live, log[0].hash), log[0].calls, l); }
      InsideIsHit(After1(live, log[0]), log[1..], l);
    }
  }

  lemma {:induction false} InsideCallsAreHit(live: seq<Listener>, snapshot: seq<Listener>, calls: seq<Call>,
      l: Listener)
    requires LegalCalls(live, snapshot, calls)
    ensures HitCalls(live, snapshot, calls, l, true) <==> CallsOfCalls(calls, l) > 0
    decreases calls, 1, |snapshot|
  {
    if snapshot == [] {
    } else if snapshot[0] in live {
      InsideIsHit(live, calls[0].body, l);
      InsideCallsAreHit(AfterCall(live, calls[0]), snapshot[1..], calls[1..], l);
    } else {
      InsideCallsAreHit(live, snapshot[1..], calls, l);
    }
  }

  // A hit needs a dispatch of the event from the listener's own call.
  lemma {:induction false} HitIsRedispatch(live: seq<Listener>, log: seq<Done>, l: Listener, inside: bool)
    requires NoRedispatch(log, l) && (inside ==> !Dispatches(log, l.hash))
    ensures !Hit(live, log, l, inside)
    decreases log, 1
  {
    if log == [] {
    } else {
      if log[0].Dispatched? {
        var h := log[0].hash;
        forall s | s in Of(live, h) ensures s.hash == h { InOf(live, h, s); }
        HitIsRedispatchCalls(live, Of(live, h), h, log[0].calls, l, inside);
      }
      HitIsRedispatch(After1(live, log[0]), log[1..], l, inside);
    }
  }

  lemma {:induction false} HitIsRedispatchCalls(live: seq<Listener>, snapshot: seq<Listener>, h: nat,
      calls: seq<Call>, l: Listener, inside: bool)
    requires forall s :: s in snapshot ==> s.hash == h
    requires NoRedispatchCalls(calls, l) && (inside ==> h != l.hash && !DispatchesCalls(calls, l.hash))
    ensures !HitCalls(live, snapshot, calls, l, inside)
    decreases calls, 1, |snapshot|
  {
    if snapshot == [] {
    } else if snapshot[0] in live {
      assert snapshot[0] in snapshot;
      if calls != [] {
        HitIsRedispatch(live, calls[0].body, l, inside || calls[0].listener == l);
        HitIsRedispatchCalls(AfterCall(live, calls[0]), snapshot[1..], h, calls[1..], l, inside);
      }
    } else {
      HitIsRedispatchCalls(live, snapshot[1..], h, calls, l, inside);
    }
  }
}
