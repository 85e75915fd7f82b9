/** The event dispatcher with deferred removal, proved to behave like a list with immediate removal under
    any nesting of registrations, removals and dispatches made by the callbacks. */
module EventDispatcher {
  import opened Prelude
  import opened Counting
  import opened EventModel
  import opened EventStorage

  // What a callback may do. The k-th callback called by a dispatch does runs[k], or nothing.
  datatype Action =
    | Add(hash: nat, hasCallback: bool, once: bool)
    | RemoveId(hash: nat, id: nat)
    | RemoveAll(hash: nat)
    | Dispatch(hash: nat, runs: seq<Script>)

  datatype Script = Script(actions: seq<Action>)

  function Max(a: nat, b: nat): nat {
    if a >= b then a else b
  }

  // How deep dispatches nest.
  function Nesting(actions: seq<Action>): nat
    decreases actions, 1
  {
    if actions == [] then 0 else Max(Nesting1(actions[0]), Nesting(actions[1..]))
  }

  function Nesting1(a: Action): nat
    decreases a, 0
  {
    if a.Dispatch? then 1 + NestingRuns(a.runs) else 0
  }

  function NestingRuns(runs: seq<Script>): nat
    decreases runs, 1
  {
    if runs == [] then 0 else Max(NestingScript(runs[0]), NestingRuns(runs[1..]))
  }

  function NestingScript(s: Script): nat
    decreases s, 0
  {
    Nesting(s.actions)
  }

  lemma {:induction false} NestingAt(actions: seq<Action>, k: nat)
    requires k < |actions|
    ensures Nesting1(actions[k]) <= Nesting(actions)
  {
    if k == 0 {
    } else {
      NestingAt(actions[1..], k - 1);
    }
  }

  lemma {:induction false} NestingRunsAt(runs: seq<Script>, k: nat)
    requires k < |runs|
    ensures Nesting(runs[k].actions) <= NestingRuns(runs)
  {
    if k == 0 {
    } else {
      NestingRunsAt(runs[1..], k - 1);
    }
  }

  // ----- what the callbacks add at most -----

  function Additions(actions: seq<Action>): nat
    decreases actions, 1
  {
    if actions == [] then 0 else Additions(actions[..|actions| - 1]) + Additions1(actions[|actions| - 1])
  }

  function Additions1(a: Action): nat
    decreases a, 0
  {
    match a
    case Add(_, hasCallback, _) => if hasCallback then 1 else 0
    case Dispatch(_, runs) => AdditionsRuns(runs)
    case _ => 0
  }

  function AdditionsRuns(runs: seq<Script>): nat
    decreases runs, 1
  {
    if runs == [] then 0 else AdditionsRuns(runs[..|runs| - 1]) + AdditionsScript(runs[|runs| - 1])
  }

  function AdditionsScript(s: Script): nat
    decreases s, 0
  {
    Additions(s.actions)
  }

  lemma {:induction false} AdditionsPrefix(runs: seq<Script>, k: nat)
    requires k <= |runs|
    ensures AdditionsRuns(runs[..k]) <= AdditionsRuns(runs)
    decreases |runs| - k
  {
    if k == |runs| {
      assert runs[..k] == runs;
    } else {
      AdditionsPrefix(runs, k + 1);
      assert runs[..k + 1][..k] == runs[..k];
    }
  }

  // What the first k callbacks add at most.
  function AdditionsUpTo(runs: seq<Script>, k: nat): nat {
    AdditionsRuns(runs[..if k < |runs| then k else |runs|])
  }

  lemma AdditionsStep(runs: seq<Script>, k: nat)
    ensures AdditionsUpTo(runs, k + 1) == AdditionsUpTo(runs, k) + AdditionsScript(ScriptAt(runs, k))
  {
    if k < |runs| { assert runs[..k + 1][..k] == runs[..k]; }
  }

  // ----- which logs tell of a run of a script -----

  // Every action has its entry, and the k-th call of a dispatch has a body for the k-th script.
  ghost predicate Follows(actions: seq<Action>, log: seq<Done>)
    decreases log, 1
  {
    |log| == |actions| && forall k :: 0 <= k < |log| ==> Follows1(actions[k], log[k])
  }

  ghost predicate Follows1(a: Action, d: Done)
    decreases d, 0
  {
    match a
    case Add(hash, hasCallback, once) => d.Added? && d.hash == hash && d.once == once && (!hasCallback ==> d.id == 0)
    case RemoveId(hash, id) => d == RemovedId(hash, id)
    case RemoveAll(hash) => d == RemovedAll(hash)
    case Dispatch(hash, runs) => d.Dispatched? && d.hash == hash && FollowsCalls(runs, d.calls)
  }

  ghost predicate FollowsCalls(runs: seq<Script>, calls: seq<Call>)
    decreases calls, 1
  {
    forall i :: 0 <= i < |calls| ==> FollowsCall(ScriptAt(runs, i), calls[i])
  }

  ghost predicate FollowsCall(s: Script, c: Call)
    decreases c, 0
  {
    Follows(s.actions, c.body)
  }

  function ScriptAt(runs: seq<Script>, i: nat): Script {
    if i < |runs| then runs[i] else Script([])
  }

  // ----- the invariant -----

  /** The groups are in order; as long as fewer than 2^32 ids were ever drawn, ids are distinct and the
      unmarked entries are the live listeners. */
  ghost predicate Ok(groups: seq<EventGroup>, live: seq<Listener>, issued: nat, nextId: nat) {
    && GroupsOk(groups) && 0 < nextId < WRAP
    && (issued < WRAP ==>
      && IdsOk(groups, issued) && Mirrors(groups, live)
      && nextId == if issued + 1 < WRAP then issued + 1 else 1)
  }

  lemma OkNewGroup(groups: seq<EventGroup>, live: seq<Listener>, issued: nat, nextId: nat, hash: nat)
    requires Ok(groups, live, issued, nextId) && !HasGroup(groups, hash)
    ensures var groups' := groups + [EventGroup(hash, true, [])];
      Ok(groups', live, issued, nextId) && Grown(groups, groups')
  {
    forall g | 0 <= g < |groups| && groups[g].active ensures groups[g].hash != hash { }
    if issued < WRAP { MirrorsNewGroup(groups, hash, live); }
  }

  // What happens to entries while a dispatch is under way: they stay where they are and are only marked.
  ghost predicate Grown(groups: seq<EventGroup>, groups': seq<EventGroup>) {
    && |groups| <= |groups'|
    && forall g :: 0 <= g < |groups| ==> GroupGrown(groups[g], groups'[g])
  }

  ghost predicate GroupGrown(a: EventGroup, b: EventGroup) {
    && b.hash == a.hash && b.active == a.active && |a.listeners| <= |b.listeners|
    && forall k :: 0 <= k < |a.listeners| ==> EntryMarked(a.listeners[k], b.listeners[k])
  }

  ghost predicate EntryMarked(a: ListenerEntry, b: ListenerEntry) {
    b == a.(marked := b.marked) && (a.marked ==> b.marked)
  }

  lemma GrownTrans(a: seq<EventGroup>, b: seq<EventGroup>, c: seq<EventGroup>)
    requires Grown(a, b) && Grown(b, c)
    ensures Grown(a, c)
  {
    forall g | 0 <= g < |a| ensures GroupGrown(a[g], c[g]) {
      assert GroupGrown(a[g], b[g]) && GroupGrown(b[g], c[g]);
      forall k | 0 <= k < |a[g].listeners| ensures EntryMarked(a[g].listeners[k], c[g].listeners[k]) {
        assert EntryMarked(a[g].listeners[k], b[g].listeners[k]) && EntryMarked(b[g].listeners[k], c[g].listeners[k]);
      }
    }
  }

  lemma GrownEntry(a: seq<EventGroup>, b: seq<EventGroup>, g: nat, k: nat)
    requires Grown(a, b) && g < |a| && a[g].active && k < |a[g].listeners|
    ensures g < |b| && b[g].active && k < |b[g].listeners| && EntryMarked(a[g].listeners[k], b[g].listeners[k])
  {
    assert GroupGrown(a[g], b[g]);
  }

  lemma GrownAt(groups: seq<EventGroup>, g: nat, group: EventGroup)
    requires g < |groups| && GroupGrown(groups[g], group)
    ensures Grown(groups, groups[g := group])
  {
  }

  lemma OneGroup(groups: seq<EventGroup>, hash: nat, g: nat)
    requires GroupsOk(groups) && g < |groups| && groups[g].active && groups[g].hash == hash
    ensures forall i :: 0 <= i < |groups| && groups[i].active && groups[i].hash == hash ==> i == g
  {
  }

  // ----- one step on the groups and on the live list -----

  lemma DrawId(groups: seq<EventGroup>, live: seq<Listener>, issued: nat, nextId: nat)
    requires Ok(groups, live, issued, nextId)
    ensures var next := (nextId + 1) % WRAP; Ok(groups, live, issued + 1, if next == 0 then 1 else next)
    ensures issued + 1 < WRAP ==> IssuedBefore(groups, nextId)
  {
  }

  // All entries have smaller ids.
  ghost predicate IssuedBefore(groups: seq<EventGroup>, id: nat) {
    id > 0 && forall g :: 0 <= g < |groups| ==> IdsUpTo(groups[g].listeners, id - 1)
  }

  lemma PushListener(groups: seq<EventGroup>, live: seq<Listener>, issued: nat, nextId: nat, g: nat, e: ListenerEntry)
    requires Ok(groups, live, issued, nextId) && g < |groups| && groups[g].active && e.hash == groups[g].hash
    requires !e.marked
    requires issued < WRAP ==> e.id == issued && issued > 0 && IssuedBefore(groups, e.id)
    ensures Ok(groups[g := groups[g].(listeners := groups[g].listeners + [e])], live + [Live(e)], issued, nextId)
    ensures Grown(groups, groups[g := groups[g].(listeners := groups[g].listeners + [e])])
  {
    var group := groups[g].(listeners := groups[g].listeners + [e]);
    GrownAt(groups, g, group);
    if issued < WRAP {
      UnmarkedAppend(groups[g].listeners, [e]);
      assert [e][1..] == [] && [Live(e)][1..] == [];
      forall h ensures Of(live + [Live(e)], h) == Of(live, h) + (if h == e.hash then [Live(e)] else []) {
        OfAppend(live, [Live(e)], h);
      }
      MirrorsUpdate(groups, g, group, live, live + [Live(e)]);
    }
  }

  lemma MarkListener(groups: seq<EventGroup>, live: seq<Listener>, issued: nat, nextId: nat, g: nat, k: nat)
    requires Ok(groups, live, issued, nextId) && g < |groups| && groups[g].active && k < |groups[g].listeners|
    ensures var es := groups[g].listeners; var group := groups[g].(listeners := es[k := es[k].(marked := true)]);
      Ok(groups[g := group], Drop(live, groups[g].hash, es[k].id), issued, nextId) && Grown(groups, groups[g := group])
  {
    var es := groups[g].listeners;
    var group := groups[g].(listeners := es[k := es[k].(marked := true)]);
    GrownAt(groups, g, group);
    if issued < WRAP {
      Marking(es, group.hash, k);
      ReplaceAfterDrop(groups, live, g, group, es[k].id);
    }
  }

  lemma ErasedEntries(es: seq<ListenerEntry>, k: nat, hash: nat, n: nat)
    requires k < |es|
    ensures OwnEntries(es, hash) ==> OwnEntries(Erased(es, k), hash)
    ensures DistinctIds(es) ==> DistinctIds(Erased(es, k))
    ensures IdsUpTo(es, n) ==> IdsUpTo(Erased(es, k), n)
  {
    var r := Erased(es, k);
    forall i | 0 <= i < |r| ensures r[i] == es[if i < k then i else i + 1] { }
    if DistinctIds(es) {
      forall i, j | 0 <= i < j < |r| ensures r[i].id != r[j].id {
        assert r[i] == es[if i < k then i else i + 1] && r[j] == es[if j < k then j else j + 1];
      }
    }
  }

  lemma EraseListener(groups: seq<EventGroup>, live: seq<Listener>, issued: nat, nextId: nat, g: nat, k: nat)
    requires Ok(groups, live, issued, nextId) && g < |groups| && groups[g].active && k < |groups[g].listeners|
    ensures var es := groups[g].listeners; var group := groups[g].(listeners := Erased(es, k));
      Ok(groups[g := group], Drop(live, groups[g].hash, es[k].id), issued, nextId)
  {
    var es := groups[g].listeners;
    var group := groups[g].(listeners := Erased(es, k));
    ErasedEntries(es, k, group.hash, issued);
    if issued < WRAP {
      Marking(es, group.hash, k);
      ReplaceAfterDrop(groups, live, g, group, es[k].id);
    }
  }

  lemma ReplaceAfterDrop(groups: seq<EventGroup>, live: seq<Listener>, g: nat, group: EventGroup, id: nat)
    requires GroupsOk(groups) && Mirrors(groups, live) && g < |groups| && groups[g].active
    requires group.hash == groups[g].hash && group.active
    requires Unmarked(group.listeners) == Drop(Unmarked(groups[g].listeners), group.hash, id)
    ensures Mirrors(groups[g := group], Drop(live, group.hash, id))
  {
    forall h
      ensures Of(Drop(live, group.hash, id), h) ==
              if h == group.hash then Drop(Of(live, h), group.hash, id) else Of(live, h)
    {
      OfDrop(live, group.hash, id, h);
    }
    MirrorsUpdate(groups, g, group, live, Drop(live, group.hash, id));
  }

  // An id that no entry of the event has names no live listener.
  lemma NothingToDrop(groups: seq<EventGroup>, live: seq<Listener>, hash: nat, id: nat)
    requires GroupsOk(groups) && Mirrors(groups, live)
    requires forall g, k ::
        0 <= g < |groups| && groups[g].active && groups[g].hash == hash && 0 <= k < |groups[g].listeners| ==>
               groups[g].listeners[k].id != id
    ensures Drop(live, hash, id) == live
  {
    forall l | l in live ensures !(l.hash == hash && l.id == id) {
      if l.hash == hash {
        InOf(live, hash, l);
        if HasGroup(groups, hash) {
          var g :| 0 <= g < |groups| && groups[g].active && groups[g].hash == hash;
          InUnmarked(groups[g].listeners, l);
        }
      }
    }
    DropAbsent(live, hash, id);
  }

  // An entry of the event is unmarked exactly when its listener is live.
  lemma EntryIsLive(groups: seq<EventGroup>, live: seq<Listener>, issued: nat, nextId: nat, g: nat, k: nat)
    requires Ok(groups, live, issued, nextId) && issued < WRAP && g < |groups| && groups[g].active
    requires k < |groups[g].listeners|
    ensures Live(groups[g].listeners[k]) in live <==> !groups[g].listeners[k].marked
  {
    var l := Live(groups[g].listeners[k]);
    InOf(live, groups[g].hash, l);
    InUnmarked(groups[g].listeners, l);
  }

  lemma LiveIds(groups: seq<EventGroup>, live: seq<Listener>, issued: nat, nextId: nat, l: Listener)
    requires Ok(groups, live, issued, nextId) && issued < WRAP && l in live
    ensures 0 < l.id <= issued
  {
    InOf(live, l.hash, l);
    assert Of(live, l.hash) != [];
    var g :| 0 <= g < |groups| && groups[g].active && groups[g].hash == l.hash;
    InUnmarked(groups[g].listeners, l);
  }

  lemma EmptyGroup(groups: seq<EventGroup>, live: seq<Listener>, issued: nat, nextId: nat, g: nat, group: EventGroup)
    requires Ok(groups, live, issued, nextId) && g < |groups| && groups[g].active && group.hash == groups[g].hash
    requires OwnEntries(group.listeners, group.hash) && Unmarked(group.listeners) == []
    requires issued < WRAP ==> DistinctIds(group.listeners) && IdsUpTo(group.listeners, issued)
    ensures Ok(groups[g := group], DropAll(live, group.hash), issued, nextId)
  {
    if issued < WRAP {
      forall h ensures Of(DropAll(live, group.hash), h) == if h == group.hash then [] else Of(live, h) {
        OfDropAll(live, group.hash, h);
      }
      MirrorsUpdate(groups, g, group, live, DropAll(live, group.hash));
    }
  }

  lemma {:induction false} NothingToDropAll(live: seq<Listener>, hash: nat)
    requires Of(live, hash) == []
    ensures DropAll(live, hash) == live
  {
    if live == [] {
    } else {
      NothingToDropAll(live[1..], hash);
    }
  }

  // cleanup keeps the unmarked entries in order; a group left empty is closed.
  function Compacted(es: seq<ListenerEntry>): (r: seq<ListenerEntry>)
    ensures |r| <= |es|
  {
    if es == [] then []
    else if es[|es| - 1].marked then Compacted(es[..|es| - 1])
    else Compacted(es[..|es| - 1]) + [es[|es| - 1]]
  }

  lemma {:induction false} CompactedUnmarked(es: seq<ListenerEntry>)
    ensures Unmarked(Compacted(es)) == Unmarked(es)
  {
    if es == [] {
    } else {
      var last := |es| - 1;
      CompactedUnmarked(es[..last]);
      assert es == es[..last] + [es[last]] && [es[last]][1..] == [];
      UnmarkedAppend(es[..last], [es[last]]);
      UnmarkedAppend(Compacted(es[..last]), [es[last]]);
    }
  }

  // The entries of an event, marked ones included.
  ghost function Entries(groups: seq<EventGroup>, hash: nat): seq<ListenerEntry> {
    if groups == [] then []
    else
      var last := groups[|groups| - 1];
      if last.active && last.hash == hash then last.listeners else Entries(groups[..|groups| - 1], hash)
  }

  ghost predicate HasId(es: seq<ListenerEntry>, id: nat) {
    exists k :: 0 <= k < |es| && es[k].id == id
  }

  lemma {:induction false} EntriesAt(groups: seq<EventGroup>, g: nat, hash: nat)
    requires GroupsOk(groups) && g < |groups| && groups[g].active && groups[g].hash == hash
    ensures Entries(groups, hash) == groups[g].listeners
  {
    if g < |groups| - 1 {
      assert groups[..|groups| - 1][g] == groups[g];
      EntriesAt(groups[..|groups| - 1], g, hash);
    }
  }

  lemma {:induction false} NoEntries(groups: seq<EventGroup>, hash: nat)
    requires !HasGroup(groups, hash)
    ensures Entries(groups, hash) == []
  {
    if groups == [] {
    } else {
      var rest := groups[..|groups| - 1];
      assert forall g :: 0 <= g < |rest| ==> rest[g] == groups[g];
      NoEntries(rest, hash);
    }
  }

  lemma UnmarkedNext(es: seq<ListenerEntry>, k: nat)
    requires k < |es|
    ensures |Unmarked(es[..k + 1])| == |Unmarked(es[..k])| + if es[k].marked then 0 else 1
  {
    assert es[..k + 1] == es[..k] + [es[k]] && [es[k]][1..] == [];
    UnmarkedAppend(es[..k], [es[k]]);
  }

  ghost predicate NoMarks(es: seq<ListenerEntry>) {
    forall k :: 0 <= k < |es| ==> !es[k].marked
  }

  // The event's entries are all live.
  ghost predicate NoneMarked(groups: seq<EventGroup>, hash: nat) {
    forall g :: 0 <= g < |groups| && groups[g].active && groups[g].hash == hash ==> NoMarks(groups[g].listeners)
  }

  // A once-listener was called.
  ghost predicate CalledOnce(calls: seq<Call>) {
    exists k :: 0 <= k < |calls| && calls[k].listener.once
  }

  lemma {:induction false} CompactedNoMarks(es: seq<ListenerEntry>)
    ensures NoMarks(Compacted(es))
  {
    if es == [] {
    } else {
      CompactedNoMarks(es[..|es| - 1]);
    }
  }

  // The kept entries are some of the entries, in the same order.
  ghost predicate Keeps(es: seq<ListenerEntry>, kept: seq<ListenerEntry>, at: seq<nat>) {
    && |at| == |kept| && (forall k :: 0 <= k < |at| ==> at[k] < |es| && kept[k] == es[at[k]])
    && forall j, k :: 0 <= j < k < |at| ==> at[j] < at[k]
  }

  lemma {:induction false} CompactedKeeps(es: seq<ListenerEntry>) returns (at: seq<nat>)
    ensures Keeps(es, Compacted(es), at)
  {
    if es == [] {
      at := [];
    } else {
      var last := |es| - 1;
      at := CompactedKeeps(es[..last]);
      assert forall k :: 0 <= k < |at| ==> es[..last][at[k]] == es[at[k]];
      if !es[last].marked { at := at + [last]; }
    }
  }

  lemma CompactGroup(groups: seq<EventGroup>, live: seq<Listener>, issued: nat, nextId: nat, g: nat)
    requires Ok(groups, live, issued, nextId) && g < |groups| && groups[g].active
    ensures var es := Compacted(groups[g].listeners);
      Ok(groups[g := groups[g].(listeners := es, active := es != [])], live, issued, nextId)
  {
    var es := Compacted(groups[g].listeners);
    CompactedUnmarked(groups[g].listeners);
    var at := CompactedKeeps(groups[g].listeners);
    if issued < WRAP { MirrorsUpdate(groups, g, groups[g].(listeners := es, active := es != []), live, live); }
  }

  // ----- a dispatch at its k-th entry -----

  ghost predicate ReachedAt(live0: seq<Listener>, es: seq<ListenerEntry>, k: nat, calls: seq<Call>,
      live: seq<Listener>) {
    k <= |es| && Reached(live0, Unmarked(es), calls, live, Unmarked(es[k..]))
  }

  lemma CalledAt(live0: seq<Listener>, es: seq<ListenerEntry>, k: nat, calls: seq<Call>, live: seq<Listener>, c: Call)
    requires k < |es| && ReachedAt(live0, es, k, calls, live) && !es[k].marked
    requires c.listener == Live(es[k]) && c.listener in live && Legal(live, c.body)
    ensures ReachedAt(live0, es, k + 1, calls + [c], AfterCall(live, c))
  {
    assert es[k..][0] == es[k] && es[k..][1..] == es[k + 1..];
    ReachedCall(live0, Unmarked(es), calls, live, Unmarked(es[k..]), c);
  }

  lemma SkippedAt(live0: seq<Listener>, es: seq<ListenerEntry>, k: nat, calls: seq<Call>, live: seq<Listener>)
    requires k < |es| && ReachedAt(live0, es, k, calls, live) && (es[k].marked || Live(es[k]) !in live)
    ensures ReachedAt(live0, es, k + 1, calls, live)
  {
    assert es[k..][0] == es[k] && es[k..][1..] == es[k + 1..];
    if !es[k].marked { ReachedSkip(live0, Unmarked(es), calls, live, Unmarked(es[k..])); }
  }

  // How often an id may have been registered while the count of drawn ids went up.
  function Drawn(before: nat, after: nat, id: nat): nat {
    if before < id <= after then 1 else 0
  }

  // Every id the log registers was drawn in the log, and is registered once.
  ghost predicate NewIds(log: seq<Done>, before: nat, after: nat) {
    forall l: Listener :: l.id > 0 ==> AddsOf(log, l) <= Drawn(before, after, l.id)
  }

  ghost predicate NewIdsInCalls(calls: seq<Call>, before: nat, after: nat) {
    forall l: Listener :: l.id > 0 ==> AddsOfCalls(calls, l) <= Drawn(before, after, l.id)
  }

  // The calls so far do what their scripts say, and register every id they draw at most once.
  ghost predicate CallsSoFar(runs: seq<Script>, calls: seq<Call>, issued0: nat, issued: nat) {
    && FollowsCalls(runs, calls) && issued0 <= issued <= issued0 + AdditionsUpTo(runs, |calls|)
    && (issued < WRAP ==> NewIdsInCalls(calls, issued0, issued))
  }

  lemma CallAppended(runs: seq<Script>, calls: seq<Call>, call: Call, issued0: nat, issued1: nat, issued2: nat)
    requires CallsSoFar(runs, calls, issued0, issued1) && FollowsCall(ScriptAt(runs, |calls|), call)
    requires issued1 <= issued2 <= issued1 + AdditionsScript(ScriptAt(runs, |calls|))
    requires issued2 < WRAP ==> NewIds(call.body, issued1, issued2)
    ensures CallsSoFar(runs, calls + [call], issued0, issued2)
  {
    AdditionsStep(runs, |calls|);
    if issued2 < WRAP {
      forall l: Listener | l.id > 0 ensures AddsOfCalls(calls + [call], l) <= Drawn(issued0, issued2, l.id) {
        AddsCallsAppend(calls, call, l);
      }
    }
  }

  // The loop of a dispatch before its k-th entry.
  ghost predicate Underway(live0: seq<Listener>, es: seq<ListenerEntry>, k: nat, runs: seq<Script>, calls: seq<Call>,
      live: seq<Listener>, issued0: nat, issued: nat) {
    && (issued < WRAP ==> ReachedAt(live0, es, k, calls, live))
    && CallsSoFar(runs, calls, issued0, issued)
  }

  // The entry was marked since, or it is called.
  ghost predicate EntryNow(e: ListenerEntry, now: ListenerEntry, live: seq<Listener>) {
    EntryMarked(e, now) && (Live(now) in live <==> !now.marked)
  }

  lemma UnderwayCalled(live0: seq<Listener>, es: seq<ListenerEntry>, k: nat, runs: seq<Script>, calls: seq<Call>,
      live: seq<Listener>, live': seq<Listener>, issued0: nat, issued1: nat, issued2: nat, now: ListenerEntry,
      call: Call)
    requires Underway(live0, es, k, runs, calls, live, issued0, issued1) && k < |es| && !now.marked
    requires EntryMarked(es[k], now) && (issued1 < WRAP ==> EntryNow(es[k], now, live))
    requires call.listener == Live(now) && (issued2 < WRAP ==> Legal(live, call.body) && live' == AfterCall(live, call))
    requires FollowsCall(ScriptAt(runs, |calls|), call)
    requires issued1 <= issued2 <= issued1 + AdditionsScript(ScriptAt(runs, |calls|))
    requires issued2 < WRAP ==> NewIds(call.body, issued1, issued2)
    ensures Underway(live0, es, k + 1, runs, calls + [call], live', issued0, issued2)
  {
    if issued2 < WRAP { CalledAt(live0, es, k, calls, live, call); }
    CallAppended(runs, calls, call, issued0, issued1, issued2);
  }

  lemma UnderwaySkipped(live0: seq<Listener>, es: seq<ListenerEntry>, k: nat, runs: seq<Script>, calls: seq<Call>,
      live: seq<Listener>, issued0: nat, issued: nat, now: ListenerEntry)
    requires Underway(live0, es, k, runs, calls, live, issued0, issued) && k < |es| && now.marked
    requires issued < WRAP ==> EntryNow(es[k], now, live)
    ensures Underway(live0, es, k + 1, runs, calls, live, issued0, issued)
  {
    if issued < WRAP { SkippedAt(live0, es, k, calls, live); }
  }

  lemma UnderwayEnds(live0: seq<Listener>, es: seq<ListenerEntry>, runs: seq<Script>, calls: seq<Call>,
      live: seq<Listener>, issued0: nat, issued: nat)
    requires Underway(live0, es, |es|, runs, calls, live, issued0, issued)
    ensures issued < WRAP ==> LegalCalls(live0, Unmarked(es), calls) && live == AfterCalls(live0, calls)
    ensures issued < WRAP ==> NewIdsInCalls(calls, issued0, issued)
    ensures FollowsCalls(runs, calls) && issued0 <= issued <= issued0 + AdditionsRuns(runs)
  {
    assert es[|es|..] == [];
    AdditionsPrefix(runs, if |calls| < |runs| then |calls| else |runs|);
    if issued < WRAP { ReachedEnd(live0, Unmarked(es), calls, live); }
  }

  class BaseEventDispatcher {
    const storage: EventStorage
    var dispatchDepth: nat
    var nextListenerId: nat
    ghost var live: seq<Listener>
    ghost var issued: nat

    ghost predicate Valid()
      reads this, storage
    {
      && |storage.groups| <= storage.maxEvents && dispatchDepth < 256
      && Ok(storage.groups, live, issued, nextListenerId)
    }

    constructor (maxEvents: nat, maxListeners: nat)
      ensures Valid() && fresh(storage) && storage.groups == [] && live == [] && issued == 0 && dispatchDepth == 0
      ensures storage.maxEvents == maxEvents && storage.maxListeners == maxListeners
    {
      storage := new EventStorage(maxEvents, maxListeners);
      dispatchDepth, nextListenerId, live, issued := 0, 1, [], 0;
    }

    // The event has no room for another entry, marked ones included.
    ghost predicate Refuses(hash: nat)
      reads storage
    {
      if HasGroup(storage.groups, hash) then
        exists g :: 0 <= g < |storage.groups| && storage.groups[g].active && storage.groups[g].hash == hash
          && |storage.groups[g].listeners| == storage.maxListeners
      else |storage.groups| == storage.maxEvents || storage.maxListeners == 0
    }

    // addListener. An id is drawn even when the listener is then refused.
    method AddListener(hash: nat, hasCallback: bool, once: bool) returns (id: nat)
      requires Valid()
      modifies this, storage
      ensures Valid() && dispatchDepth == old(dispatchDepth) && issued == old(issued) + if hasCallback then 1 else 0
      ensures live == After1(old(live), Added(hash, id, once)) && Grown(old(storage.groups), storage.groups)
      ensures id != 0 <==> hasCallback && !old(Refuses(hash))
      ensures issued < WRAP ==> id == 0 || id == issued
    {
      if !hasCallback { return 0; }
      id := NextId();
      ghost var before := storage.groups;
      var found := OpenGroup(hash);
      if found.None? { return 0; }
      var g := found.value;
      OneGroup(storage.groups, hash, g);
      if |storage.groups[g].listeners| == storage.maxListeners { return 0; }
      ghost var ready := storage.groups;
      Register(g, ListenerEntry(hash, id, once, false));
      GrownTrans(before, ready, storage.groups);
    }

    // next_listener_id_++, skipping 0.
    method NextId() returns (id: nat)
      requires Valid()
      modifies `nextListenerId, `issued
      ensures Valid() && id > 0 && issued == old(issued) + 1
      ensures issued < WRAP ==> id == issued && IssuedBefore(storage.groups, id)
    {
      DrawId(storage.groups, live, issued, nextListenerId);
      id := nextListenerId;
      nextListenerId := (nextListenerId + 1) % WRAP;
      if nextListenerId == 0 { nextListenerId := 1; }
      issued := issued + 1;
    }

    // push_back of a new entry.
    method Register(g: nat, e: ListenerEntry)
      requires Valid() && g < |storage.groups| && storage.groups[g].active && e.hash == storage.groups[g].hash
      requires !e.marked
      requires issued < WRAP ==> e.id == issued && issued > 0 && IssuedBefore(storage.groups, e.id)
      modifies `live, storage
      ensures Valid() && live == old(live) + [Live(e)] && Grown(old(storage.groups), storage.groups)
    {
      PushListener(storage.groups, live, issued, nextListenerId, g, e);
      storage.groups := storage.groups[g := storage.groups[g].(listeners := storage.groups[g].listeners + [e])];
      live := live + [Live(e)];
    }

    method OpenGroup(hash: nat) returns (found: Option<nat>)
      requires Valid()
      modifies storage
      ensures Valid() && Grown(old(storage.groups), storage.groups)
      ensures found.None? <==> !old(HasGroup(storage.groups, hash)) && old(|storage.groups|) == storage.maxEvents
      ensures found.Some? ==>
                && found.value < |storage.groups|
                && storage.groups[found.value].active && storage.groups[found.value].hash == hash
      ensures found.Some? ==>
                storage.groups ==
                if old(HasGroup(storage.groups, hash)) then old(storage.groups)
                else old(storage.groups) + [EventGroup(hash, true, [])]
      ensures forall id {:trigger IssuedBefore(storage.groups, id)} :: IssuedBefore(old(storage.groups), id) ==>
          IssuedBefore(storage.groups, id)
    {
      if !HasGroup(storage.groups, hash) { OkNewGroup(storage.groups, live, issued, nextListenerId, hash); }
      found := storage.GetOrCreateGroup(hash);
    }

    // removeListenerById: marks the entry while a dispatch is under way, erases it otherwise. It also finds an entry
    // that is already marked.
    method RemoveListenerById(hash: nat, id: nat) returns (found: bool)
      requires Valid()
      modifies this`live, storage
      ensures Valid()
      ensures old(issued) < WRAP ==> live == After1(old(live), RemovedId(hash, id))
      ensures dispatchDepth > 0 ==> Grown(old(storage.groups), storage.groups)
      ensures found <==> HasId(Entries(old(storage.groups), hash), id)
      ensures dispatchDepth == 0 ==>
                |Entries(storage.groups, hash)| == |Entries(old(storage.groups), hash)| - if found then 1 else 0
    {
      ghost var groups := storage.groups;
      var group := storage.FindGroup(hash);
      if group.None? {
        NoEntries(groups, hash);
        if issued < WRAP { NothingToDrop(groups, live, hash, id); }
        return false;
      }
      var g := group.value;
      EntriesAt(groups, g, hash);
      var es := storage.groups[g].listeners;
      var current := 0;
      while current < |es|
        invariant 0 <= current <= |es| && forall k :: 0 <= k < current ==> es[k].id != id
      {
        if es[current].id == id {
          RemoveEntry(g, current);
          return true;
        }
        current := current + 1;
      }
      OneGroup(groups, hash, g);
      if issued < WRAP { NothingToDrop(groups, live, hash, id); }
      found := false;
    }

    method RemoveEntry(g: nat, k: nat)
      requires Valid() && g < |storage.groups| && storage.groups[g].active && k < |storage.groups[g].listeners|
      modifies this`live, storage
      ensures Valid()
      ensures live == Drop(old(live), old(storage.groups)[g].hash, old(storage.groups)[g].listeners[k].id)
      ensures dispatchDepth > 0 ==> Grown(old(storage.groups), storage.groups)
      ensures dispatchDepth == 0 ==>
                |Entries(storage.groups, old(storage.groups)[g].hash)| == |old(storage.groups)[g].listeners| - 1
    {
      ghost var groups := storage.groups;
      var es := storage.groups[g].listeners;
      live := Drop(live, storage.groups[g].hash, es[k].id);
      if dispatchDepth > 0 {
        MarkListener(groups, old(live), issued, nextListenerId, g, k);
        es := es[k := es[k].(marked := true)];
      } else {
        EraseListener(groups, old(live), issued, nextListenerId, g, k);
        es := Erased(es, k);
      }
      storage.groups := storage.groups[g := storage.groups[g].(listeners := es)];
      EntriesAt(storage.groups, g, storage.groups[g].hash);
    }

    // removeListener: all entries of the event are marked, or dropped with their group. It counts the live listeners
    // or, outside a dispatch, all entries.
    method RemoveListener(hash: nat) returns (removed: nat)
      requires Valid()
      modifies this`live, storage
      ensures Valid()
      ensures old(issued) < WRAP ==> live == After1(old(live), RemovedAll(hash))
      ensures dispatchDepth > 0 ==> Grown(old(storage.groups), storage.groups)
      ensures var es := Entries(old(storage.groups), hash);
              removed == if dispatchDepth > 0 then |Unmarked(es)| else |es|
      ensures dispatchDepth == 0 ==> Entries(storage.groups, hash) == []
    {
      var found := storage.FindGroup(hash);
      if found.None? {
        NoEntries(storage.groups, hash);
        if issued < WRAP { NothingToDropAll(live, hash); }
        return 0;
      }
      var g := found.value;
      EntriesAt(storage.groups, g, hash);
      if dispatchDepth > 0 {
        removed := MarkAll(g);
      } else {
        removed := |storage.groups[g].listeners|;
        DropGroup(g);
      }
      live := DropAll(live, hash);
    }

    // The marking loop of removeListener.
    method MarkAll(g: nat) returns (removed: nat)
      requires Valid() && g < |storage.groups| && storage.groups[g].active
      modifies storage
      ensures |storage.groups| <= storage.maxEvents
      ensures Ok(storage.groups, DropAll(live, old(storage.groups)[g].hash), issued, nextListenerId)
      ensures Grown(old(storage.groups), storage.groups) && removed == |Unmarked(old(storage.groups)[g].listeners)|
    {
      ghost var groups := storage.groups;
      var es := storage.groups[g].listeners;
      removed := 0;
      var k := 0;
      while k < |es|
        invariant storage.groups == groups && 0 <= k <= |es| == |groups[g].listeners|
        invariant removed == |Unmarked(groups[g].listeners[..k])|
        invariant forall j :: 0 <= j < |es| ==>
            es[j] == groups[g].listeners[j].(marked := if j < k then true else groups[g].listeners[j].marked)
      {
        UnmarkedNext(groups[g].listeners, k);
        if !es[k].marked {
          es := es[k := es[k].(marked := true)];
          removed := removed + 1;
        }
        k := k + 1;
      }
      assert groups[g].listeners[..k] == groups[g].listeners;
      AllMarked(es);
      GrownAt(groups, g, groups[g].(listeners := es));
      EmptyGroup(groups, live, issued, nextListenerId, g, groups[g].(listeners := es));
      storage.groups := storage.groups[g := storage.groups[g].(listeners := es)];
    }

    method DropGroup(g: nat)
      requires Valid() && g < |storage.groups| && storage.groups[g].active
      modifies storage
      ensures |storage.groups| <= storage.maxEvents && Entries(storage.groups, old(storage.groups)[g].hash) == []
      ensures Ok(storage.groups, DropAll(live, old(storage.groups)[g].hash), issued, nextListenerId)
    {
      ghost var groups := storage.groups;
      OneGroup(groups, groups[g].hash, g);
      EmptyGroup(groups, live, issued, nextListenerId, g, groups[g].(listeners := [], active := false));
      storage.groups := storage.groups[g := storage.groups[g].(listeners := [], active := false)];
      NoEntries(storage.groups, groups[g].hash);
    }

    method CleanupMarkedListeners(g: nat)
      requires Valid() && g < |storage.groups| && storage.groups[g].active
      modifies storage
      ensures Valid() && |storage.groups| == |old(storage.groups)|
      ensures storage.groups[g].hash == old(storage.groups)[g].hash && NoMarks(storage.groups[g].listeners)
      ensures forall i :: 0 <= i < |storage.groups| && i != g ==> storage.groups[i] == old(storage.groups)[i]
    {
      CompactedNoMarks(storage.groups[g].listeners);
      CompactGroup(storage.groups, live, issued, nextListenerId, g);
      var es := Compact(storage.groups[g].listeners);
      storage.groups := storage.groups[g := storage.groups[g].(listeners := es, active := es != [])];
    }

    // Runs what a callback does; the log tells what came of it.
    method RunActions(actions: seq<Action>) returns (log: seq<Done>)
      requires Valid() && dispatchDepth + Nesting(actions) < 256
      modifies this, storage
      ensures Valid() && dispatchDepth == old(dispatchDepth) && issued >= old(issued)
      ensures dispatchDepth > 0 ==> Grown(old(storage.groups), storage.groups)
      ensures issued < WRAP ==> Legal(old(live), log) && live == After(old(live), log)
      ensures issued < WRAP ==> NewIds(log, old(issued), issued)
      ensures Follows(actions, log) && issued <= old(issued) + Additions(actions)
      decreases actions, 1
    {
      log := [];
      var k := 0;
      while k < |actions|
        invariant 0 <= k <= |actions| && Valid() && dispatchDepth == old(dispatchDepth) && issued >= old(issued)
        invariant Follows(actions[..k], log) && issued <= old(issued) + Additions(actions[..k])
        invariant dispatchDepth > 0 ==> Grown(old(storage.groups), storage.groups)
        invariant issued < WRAP ==> Legal(old(live), log) && live == After(old(live), log)
        invariant issued < WRAP ==> NewIds(log, old(issued), issued)
      {
        ghost var groups, before := storage.groups, live;
        NestingAt(actions, k);
        var d := RunAction(actions[k]);
        if dispatchDepth > 0 { GrownTrans(old(storage.groups), groups, storage.groups); }
        if issued < WRAP {
          AfterAppend(old(live), log, d);
          forall l: Listener | l.id > 0 ensures AddsOf(log + [d], l) <= Drawn(old(issued), issued, l.id) {
            AddsAppend(log, d, l);
          }
        }
        assert actions[..k + 1][..k] == actions[..k];
        log := log + [d];
        k := k + 1;
      }
      assert actions[..k] == actions;
    }

    method RunAction(a: Action) returns (d: Done)
      requires Valid() && dispatchDepth + Nesting1(a) < 256
      modifies this, storage
      ensures Valid() && dispatchDepth == old(dispatchDepth) && issued >= old(issued)
      ensures dispatchDepth > 0 ==> Grown(old(storage.groups), storage.groups)
      ensures issued < WRAP ==> Legal1(old(live), d) && live == After1(old(live), d)
      ensures issued < WRAP ==> forall l: Listener :: l.id > 0 ==> AddsOf1(d, l) <= Drawn(old(issued), issued, l.id)
      ensures Follows1(a, d) && issued <= old(issued) + Additions1(a)
      decreases a, 0
    {
      match a {
        case Add(hash, hasCallback, once) =>
          var id := AddListener(hash, hasCallback, once);
          d := Added(hash, id, once);
        case RemoveId(hash, id) =>
          var _ := RemoveListenerById(hash, id);
          d := RemovedId(hash, id);
        case RemoveAll(hash) =>
          var _ := RemoveListener(hash);
          d := RemovedAll(hash);
        case Dispatch(hash, runs) =>
          var calls := DispatchEvent(hash, runs);
          d := Dispatched(hash, calls);
      }
    }

    /** dispatchEvent: calls, in registration order, exactly the listeners live at its start and not removed before
        their turn, whatever the callbacks do. At the top level, where a once-listener has been called, no marked
        entry of the event is left. */
    method DispatchEvent(hash: nat, runs: seq<Script>) returns (calls: seq<Call>)
      requires Valid() && dispatchDepth + 1 + NestingRuns(runs) < 256
      modifies this, storage
      ensures Valid() && dispatchDepth == old(dispatchDepth) && issued >= old(issued)
      ensures dispatchDepth > 0 ==> Grown(old(storage.groups), storage.groups)
      ensures issued < WRAP ==>
          LegalCalls(old(live), Of(old(live), hash), calls) && live == AfterCalls(old(live), calls)
      ensures issued < WRAP ==> NewIdsInCalls(calls, old(issued), issued)
      ensures FollowsCalls(runs, calls) && issued <= old(issued) + AdditionsRuns(runs)
      ensures dispatchDepth == 0 && CalledOnce(calls) ==> NoneMarked(storage.groups, hash)
      decreases runs, 2
    {
      var found := storage.FindGroup(hash);
      if found.None? { return []; }
      dispatchDepth := dispatchDepth + 1;
      var needsCleanup;
      calls, needsCleanup := CallListeners(found.value, runs);
      dispatchDepth := dispatchDepth - 1;
      if needsCleanup && dispatchDepth == 0 {
        OneGroup(storage.groups, hash, found.value);
        CleanupMarkedListeners(found.value);
      }
    }

    // The loop of dispatchEvent over the listeners of the group, up to the end it had at the start.
    method CallListeners(g: nat, runs: seq<Script>) returns (calls: seq<Call>, needsCleanup: bool)
      requires Valid() && dispatchDepth > 0 && dispatchDepth + NestingRuns(runs) < 256
      requires g < |storage.groups| && storage.groups[g].active
      modifies this, storage
      ensures Valid() && dispatchDepth == old(dispatchDepth) && issued >= old(issued)
      ensures Grown(old(storage.groups), storage.groups)
      ensures issued < WRAP ==>
                && LegalCalls(old(live), Unmarked(old(storage.groups)[g].listeners), calls)
                && live == AfterCalls(old(live), calls)
      ensures issued < WRAP ==> NewIdsInCalls(calls, old(issued), issued)
      ensures FollowsCalls(runs, calls) && issued <= old(issued) + AdditionsRuns(runs)
      ensures CalledOnce(calls) ==> needsCleanup
      decreases runs, 1
    {
      calls, needsCleanup := [], false;
      ghost var groups0, es0 := storage.groups, storage.groups[g].listeners;
      var n := |storage.groups[g].listeners|;
      var k := 0;
      while k < n
        invariant 0 <= k <= n == |es0| && Valid() && dispatchDepth == old(dispatchDepth)
        invariant Grown(groups0, storage.groups)
        invariant CalledOnce(calls) ==> needsCleanup
        invariant Underway(old(live), es0, k, runs, calls, live, old(issued), issued)
      {
        GrownEntry(groups0, storage.groups, g, k);
        var e := storage.groups[g].listeners[k];
        if issued < WRAP { EntryIsLive(storage.groups, live, issued, nextListenerId, g, k); }
        if !e.marked {
          ghost var live0, groups, drawn := live, storage.groups, issued;
          var call := Invoke(g, k, runs, |calls|);
          GrownTrans(groups0, groups, storage.groups);
          UnderwayCalled(old(live), es0, k, runs, calls, live0, live, old(issued), drawn, issued, e, call);
          calls := calls + [call];
          if e.once { needsCleanup := true; }
        } else {
          UnderwaySkipped(old(live), es0, k, runs, calls, live, old(issued), issued, e);
          needsCleanup := true;
        }
        k := k + 1;
      }
      UnderwayEnds(old(live), es0, runs, calls, live, old(issued), issued);
    }

    // One callback of a dispatch; a once-listener is marked when it returns.
    method Invoke(g: nat, k: nat, runs: seq<Script>, i: nat) returns (call: Call)
      requires Valid() && dispatchDepth > 0 && dispatchDepth + NestingRuns(runs) < 256
      requires g < |storage.groups| && storage.groups[g].active && k < |storage.groups[g].listeners|
      modifies this, storage
      ensures Valid() && dispatchDepth == old(dispatchDepth) && issued >= old(issued)
      ensures Grown(old(storage.groups), storage.groups)
      ensures call.listener == Live(old(storage.groups)[g].listeners[k])
      ensures issued < WRAP ==> Legal(old(live), call.body) && live == AfterCall(old(live), call)
      ensures issued < WRAP ==> NewIds(call.body, old(issued), issued)
      ensures FollowsCall(ScriptAt(runs, i), call) && issued <= old(issued) + AdditionsScript(ScriptAt(runs, i))
      decreases runs, 0
    {
      ghost var groups := storage.groups;
      var body := [];
      if i < |runs| {
        NestingRunsAt(runs, i);
        body := RunActions(runs[i].actions);
      }
      GrownEntry(groups, storage.groups, g, k);
      var e := storage.groups[g].listeners[k];
      if e.once {
        MarkListener(storage.groups, live, issued, nextListenerId, g, k);
        var es := storage.groups[g].listeners[k := e.(marked := true)];
        GrownTrans(groups, storage.groups, storage.groups[g := storage.groups[g].(listeners := es)]);
        storage.groups := storage.groups[g := storage.groups[g].(listeners := es)];
        live := Drop(live, e.hash, e.id);
      }
      call := Call(Live(e), body);
    }

    /** So in any run of the dispatcher a once-listener, live at its start or registered by any callback in it, is
        called at most once exactly when no dispatch from its own call comes to it while it is still live; and
        surely when its own calls do not dispatch its event. */
    method RunOnce(actions: seq<Action>, ghost l: Listener) returns (log: seq<Done>)
      requires Valid() && dispatchDepth + Nesting(actions) < 256 && l.once && l.id != 0
      modifies this, storage
      ensures Valid() && Follows(actions, log)
      ensures issued < WRAP ==> (CallsOf(log, l) <= 1 <==> !Hit(old(live), log, l, false))
      ensures issued < WRAP && CallsOf(log, l) == 1 ==> l !in live
      ensures issued < WRAP && NoRedispatch(log, l) ==> CallsOf(log, l) <= 1
    {
      ghost var groups, live0, issued0 := storage.groups, live, issued;
      if issued < WRAP && l in live { LiveIds(groups, live, issued, nextListenerId, l); }
      log := RunActions(actions);
      if issued < WRAP {
        OnceFiresOnce(live0, log, l);
        if NoRedispatch(log, l) { HitIsRedispatch(live0, log, l, false); }
      }
    }

    // count: the live listeners of all events.
    method CountAll() returns (total: nat)
      requires Valid()
      ensures issued < WRAP ==> total == |live|
    {
      total := 0;
      var g := 0;
      while g < |storage.groups|
        invariant 0 <= g <= |storage.groups| && total == UnmarkedIn(storage.groups[..g])
      {
        assert storage.groups[..g + 1][..g] == storage.groups[..g];
        if storage.groups[g].active {
          var n := CountEntries(storage.groups[g].listeners);
          total := total + n;
        }
        g := g + 1;
      }
      assert storage.groups[..g] == storage.groups;
      if issued < WRAP { CountMirrors(storage.groups, live); }
    }

    // count(event_hash): the live listeners of one event.
    method Count(hash: nat) returns (n: nat)
      requires Valid()
      ensures issued < WRAP ==> n == |Of(live, hash)|
    {
      var found := storage.FindGroup(hash);
      if found.None? { return 0; }
      n := CountEntries(storage.groups[found.value].listeners);
    }
  }

  // The compaction loop of cleanupMarkedListeners, with its read and write positions.
  method Compact(all: seq<ListenerEntry>) returns (es: seq<ListenerEntry>)
    ensures es == Compacted(all)
  {
    es := all;
    var write, read := 0, 0;
    while read < |es|
      invariant 0 <= write <= read <= |es| == |all|
      invariant forall k :: read <= k < |es| ==> es[k] == all[k]
      invariant es[..write] == Compacted(all[..read])
    {
      assert all[..read + 1][..read] == all[..read];
      if !es[read].marked {
        ghost var before := es[..write];
        es := es[write := es[read]];
        assert es[..write + 1] == before + [all[read]];
        write := write + 1;
      }
      read := read + 1;
    }
    assert all[..read] == all;
    es := es[..write];
  }

  method CountEntries(es: seq<ListenerEntry>) returns (n: nat)
    ensures n == |Unmarked(es)|
  {
    n := 0;
    var k := 0;
    while k < |es|
      invariant 0 <= k <= |es| && n + |Unmarked(es[k..])| == |Unmarked(es)|
    {
      assert es[k..][0] == es[k] && es[k..][1..] == es[k + 1..];
      if !es[k].marked { n := n + 1; }
      k := k + 1;
    }
  }

  function UnmarkedIn(groups: seq<EventGroup>): nat {
    if groups == [] then 0
    else UnmarkedIn(groups[..|groups| - 1]) +
         if groups[|groups| - 1].active then |Unmarked(groups[|groups| - 1].listeners)| else 0
  }

  // One group less means one event less in the live list.
  lemma {:induction false} CountMirrors(groups: seq<EventGroup>, live: seq<Listener>)
    requires GroupsOk(groups) && Mirrors(groups, live)
    ensures UnmarkedIn(groups) == |live|
  {
    if groups == [] {
      if live != [] { InOf(live, live[0].hash, live[0]); }
    } else {
      var last, rest := groups[|groups| - 1], groups[..|groups| - 1];
      if last.active {
        var live' := DropAll(live, last.hash);
        forall h ensures Of(live', h) == if h == last.hash then [] else Of(live, h) { OfDropAll(live, last.hash, h); }
        SplitSize(live, last.hash);
        MirrorsButLast(groups, live, live');
        CountMirrors(rest, live');
      } else {
        MirrorsButLast(groups, live, live);
        CountMirrors(rest, live);
      }
    }
  }

  lemma MirrorsButLast(groups: seq<EventGroup>, live: seq<Listener>, live': seq<Listener>)
    requires groups != [] && GroupsOk(groups) && Mirrors(groups, live)
    requires var last := groups[|groups| - 1];
      forall h :: Of(live', h) == if last.active && h == last.hash then [] else Of(live, h)
    ensures GroupsOk(groups[..|groups| - 1]) && Mirrors(groups[..|groups| - 1], live')
  {
    var last, rest := groups[|groups| - 1], groups[..|groups| - 1];
    forall g | 0 <= g < |rest| && rest[g].active ensures Of(live', rest[g].hash) == Unmarked(rest[g].listeners) {
      assert rest[g] == groups[g];
    }
    forall h | HasGroup(groups, h) && !(last.active && h == last.hash) ensures HasGroup(rest, h) {
      var g :| 0 <= g < |groups| && groups[g].active && groups[g].hash == h;
      assert rest[g] == groups[g];
    }
  }

  lemma {:induction false} SplitSize(live: seq<Listener>, hash: nat)
    ensures |live| == |Of(live, hash)| + |DropAll(live, hash)|
  {
    if live == [] {
    } else {
      SplitSize(live[1..], hash);
    }
  }

  // ----- a once-listener that is called twice -----

  // A dispatch with one live listener makes one call.
  lemma SoleCall(l: Listener, runs: seq<Script>, calls: seq<Call>)
    requires LegalCalls([l], [l], calls) && FollowsCalls(runs, calls)
    ensures |calls| == 1 && calls[0].listener == l && Legal([l], calls[0].body)
    ensures Follows(ScriptAt(runs, 0).actions, calls[0].body) && CallsOfCalls(calls, l) == 1 + CallsOf(calls[0].body, l)
  {
    assert [l][1..] == [];
    assert LegalCalls(AfterCall([l], calls[0]), [], calls[1..]);
    assert FollowsCall(ScriptAt(runs, 0), calls[0]);
    assert CallsOfCalls(calls, l) == CallsOfCall(calls[0], l) + CallsOfCalls(calls[1..], l);
  }

  // A callback that does nothing but dispatch.
  lemma SoleDispatch(l: Listener, hash: nat, runs: seq<Script>, log: seq<Done>)
    requires Legal([l], log) && Follows([Dispatch(hash, runs)], log) && hash == l.hash
    ensures |log| == 1 && log[0].Dispatched? && FollowsCalls(runs, log[0].calls)
    ensures LegalCalls([l], [l], log[0].calls) && CallsOf(log, l) == CallsOfCalls(log[0].calls, l)
  {
    assert Follows1([Dispatch(hash, runs)][0], log[0]);
    assert [l][1..] == [] && Of([l], hash) == [l];
    assert CallsOf(log, l) == CallsOf1(log[0], l) + CallsOf(log[1..], l);
  }

  // A callback that dispatches its event again, which then calls it again.
  function Again(hash: nat): seq<Script> {
    [Script([Dispatch(hash, [])])]
  }

  lemma AgainIsSmall(hash: nat)
    ensures NestingRuns(Again(hash)) == 1 && AdditionsRuns(Again(hash)) == 0
  {
    var a, script := Dispatch(hash, []), Script([Dispatch(hash, [])]);
    assert [a][1..] == [a][..0] == [] && [script][1..] == [script][..0] == [];
    assert Nesting([a]) == Max(Nesting1(a), Nesting([])) == 1;
    assert NestingRuns([script]) == Max(NestingScript(script), NestingRuns([])) == 1;
    assert Additions([a]) == Additions([a][..0]) + Additions1([a][0]) == 0;
    assert AdditionsRuns([script]) == AdditionsRuns([script][..0]) + AdditionsScript([script][0]) == 0;
  }

  lemma AgainCallsTwice(l: Listener, calls: seq<Call>)
    requires LegalCalls([l], [l], calls) && FollowsCalls(Again(l.hash), calls)
    ensures CallsOfCalls(calls, l) == 2
  {
    SoleCall(l, Again(l.hash), calls);
    var body := calls[0].body;
    SoleDispatch(l, l.hash, [], body);
    SoleCall(l, [], body[0].calls);
    assert CallsOf(body[0].calls[0].body, l) == 0;
  }

  /** A once-listener whose own callback dispatches its event is called twice, as it is marked only when its
      callback returns. */
  method OnceFiresTwice() returns (dispatcher: BaseEventDispatcher, id: nat, calls: seq<Call>)
    ensures fresh(dispatcher) && dispatcher.Valid() && id != 0
    ensures CallsOfCalls(calls, Listener(7, id, true)) == 2
  {
    dispatcher := new BaseEventDispatcher(1, 1);
    id := dispatcher.AddListener(7, true, true);
    AgainIsSmall(7);
    ghost var l := Listener(7, id, true);
    assert id != 0 && dispatcher.live == [] + [l] == [l];
    assert [l][1..] == [] && Of([l], 7) == [l];
    calls := dispatcher.DispatchEvent(7, Again(7));
    AgainCallsTwice(l, calls);
  }
}
