/** The groups of listener entries, one active group per event, and how they mirror a live list. */
module EventStorage {
  import opened Prelude
  import opened EventModel
  import opened Counting

  datatype ListenerEntry = ListenerEntry(hash: nat, id: nat, once: bool, marked: bool)

  datatype EventGroup = EventGroup(hash: nat, active: bool, listeners: seq<ListenerEntry>)

  function Live(e: ListenerEntry): Listener {
    Listener(e.hash, e.id, e.once)
  }

  // The entries not marked for removal, as listeners.
  function Unmarked(es: seq<ListenerEntry>): seq<Listener> {
    if es == [] then [] else if es[0].marked then Unmarked(es[1..]) else [Live(es[0])] + Unmarked(es[1..])
  }

  lemma {:induction false} UnmarkedAppend(a: seq<ListenerEntry>, b: seq<ListenerEntry>)
    ensures Unmarked(a + b) == Unmarked(a) + Unmarked(b)
  {
    if a == [] {
      assert a + b == b;
    } else {
      UnmarkedAppend(a[1..], b);
      assert (a + b)[1..] == a[1..] + b;
      if !a[0].marked {
        assert [Live(a[0])] + (Unmarked(a[1..]) + Unmarked(b)) == ([Live(a[0])] + Unmarked(a[1..])) + Unmarked(b);
      }
    }
  }

  lemma {:induction false} InUnmarked(es: seq<ListenerEntry>, l: Listener)
    ensures l in Unmarked(es) <==> exists k :: 0 <= k < |es| && !es[k].marked && Live(es[k]) == l
  {
    if es == [] {
    } else {
      InUnmarked(es[1..], l);
      if k :| 0 <= k < |es[1..]| && !es[1..][k].marked && Live(es[1..][k]) == l { assert es[k + 1] == es[1..][k]; }
      if k :| 0 < k < |es| && !es[k].marked && Live(es[k]) == l { assert es[k] == es[1..][k - 1]; }
    }
  }

  // ----- the invariant -----

  // All entries belong to the group's event, and no two share an id.
  ghost predicate OwnEntries(es: seq<ListenerEntry>, hash: nat) {
    forall k :: 0 <= k < |es| ==> es[k].hash == hash
  }

  ghost predicate DistinctIds(es: seq<ListenerEntry>) {
    forall j, k :: 0 <= j < k < |es| ==> es[j].id != es[k].id
  }

  ghost predicate IdsUpTo(es: seq<ListenerEntry>, n: nat) {
    forall k :: 0 <= k < |es| ==> 0 < es[k].id <= n
  }

  // At most one active group per event.
  ghost predicate GroupsOk(groups: seq<EventGroup>) {
    && (forall g :: 0 <= g < |groups| ==> OwnEntries(groups[g].listeners, groups[g].hash))
    && (forall g, h :: 0 <= g < h < |groups| && groups[g].active && groups[h].active ==>
        groups[g].hash != groups[h].hash)
  }

  ghost predicate IdsOk(groups: seq<EventGroup>, issued: nat) {
    forall g :: 0 <= g < |groups| ==> DistinctIds(groups[g].listeners) && IdsUpTo(groups[g].listeners, issued)
  }

  ghost predicate HasGroup(groups: seq<EventGroup>, hash: nat) {
    exists g :: 0 <= g < |groups| && groups[g].active && groups[g].hash == hash
  }

  // For every event the live listeners are the unmarked entries of its active group.
  ghost predicate Mirrors(groups: seq<EventGroup>, live: seq<Listener>) {
    && (forall g :: 0 <= g < |groups| && groups[g].active ==> Of(live, groups[g].hash) == Unmarked(groups[g].listeners))
    && (forall h :: !HasGroup(groups, h) ==> Of(live, h) == [])
  }

  // Marking or erasing an entry drops its listener.
  lemma Marking(es: seq<ListenerEntry>, hash: nat, k: nat)
    requires OwnEntries(es, hash) && DistinctIds(es) && k < |es|
    ensures Unmarked(es[k := es[k].(marked := true)]) == Drop(Unmarked(es), hash, es[k].id)
    ensures Unmarked(Erased(es, k)) == Drop(Unmarked(es), hash, es[k].id)
  {
    var a, e, b := es[..k], es[k], es[k + 1..];
    assert es == a + ([e] + b) && es[k := e.(marked := true)] == a + ([e.(marked := true)] + b);
    UnmarkedAppend(a, [e] + b);
    UnmarkedAppend(a, [e.(marked := true)] + b);
    UnmarkedAppend(a, b);
    assert ([e] + b)[1..] == b && ([e.(marked := true)] + b)[1..] == b;
    Foreign(a, hash, e.id);
    Foreign(b, hash, e.id);
    DropAppend(Unmarked(a), Unmarked([e] + b), hash, e.id);
    if !e.marked { assert ([Live(e)] + Unmarked(b))[1..] == Unmarked(b); }
  }

  lemma Foreign(es: seq<ListenerEntry>, hash: nat, id: nat)
    requires forall k :: 0 <= k < |es| ==> es[k].id != id
    ensures Drop(Unmarked(es), hash, id) == Unmarked(es)
  {
    forall l | l in Unmarked(es) ensures l.id != id { InUnmarked(es, l); }
    DropAbsent(Unmarked(es), hash, id);
  }

  lemma {:induction false} AllMarked(es: seq<ListenerEntry>)
    requires forall k :: 0 <= k < |es| ==> es[k].marked
    ensures Unmarked(es) == []
  {
    if es == [] {
    } else {
      AllMarked(es[1..]);
    }
  }

  // ----- what the list operations do to the mirror -----

  lemma KeepsGroup(groups: seq<EventGroup>, g: nat, group: EventGroup, h: nat)
    requires g < |groups| && group.hash == groups[g].hash != h
    ensures HasGroup(groups, h) ==> HasGroup(groups[g := group], h)
  {
    if i :| 0 <= i < |groups| && groups[i].active && groups[i].hash == h {
      assert groups[g := group][i] == groups[i];
    }
  }

  // One group changes its entries (and may close when none is left); its event's listeners change alike.
  lemma MirrorsUpdate(groups: seq<EventGroup>, g: nat, group: EventGroup, live: seq<Listener>, live': seq<Listener>)
    requires GroupsOk(groups) && Mirrors(groups, live) && g < |groups| && groups[g].active
    requires group.hash == groups[g].hash
    requires Of(live', group.hash) == Unmarked(group.listeners) && (!group.active ==> Unmarked(group.listeners) == [])
    requires forall h :: h != group.hash ==> Of(live', h) == Of(live, h)
    ensures Mirrors(groups[g := group], live')
  {
    var groups' := groups[g := group];
    forall h | !HasGroup(groups', h) ensures Of(live', h) == [] {
      if h == group.hash {
        assert groups'[g].hash == h;
      } else {
        KeepsGroup(groups, g, group, h);
      }
    }
    forall i | 0 <= i < |groups'| && groups'[i].active
      ensures Of(live', groups'[i].hash) == Unmarked(groups'[i].listeners)
    {
      if i != g { assert groups[i].hash != group.hash; }
    }
  }

  lemma MirrorsNewGroup(groups: seq<EventGroup>, hash: nat, live: seq<Listener>)
    requires GroupsOk(groups) && Mirrors(groups, live) && !HasGroup(groups, hash)
    ensures GroupsOk(groups + [EventGroup(hash, true, [])]) && Mirrors(groups + [EventGroup(hash, true, [])], live)
  {
    var groups' := groups + [EventGroup(hash, true, [])];
    forall g | 0 <= g < |groups| && groups[g].active ensures groups[g].hash != hash { }
    forall h | HasGroup(groups, h) ensures HasGroup(groups', h) {
      var i :| 0 <= i < |groups| && groups[i].active && groups[i].hash == h;
      assert groups'[i] == groups[i];
    }
    assert Of(live, hash) == [];
  }

  class EventStorage {
    const maxEvents: nat
    const maxListeners: nat
    var groups: seq<EventGroup>

    constructor (maxEvents: nat, maxListeners: nat)
      ensures groups == [] && this.maxEvents == maxEvents && this.maxListeners == maxListeners
    {
      this.maxEvents, this.maxListeners := maxEvents, maxListeners;
      groups := [];
    }

    method FindGroup(hash: nat) returns (r: Option<nat>)
      ensures r.Some? ==> r.value < |groups| && groups[r.value].active && groups[r.value].hash == hash
      ensures r.None? <==> !HasGroup(groups, hash)
    {
      var current := 0;
      while current < |groups|
        invariant 0 <= current <= |groups|
        invariant forall g :: 0 <= g < current ==> !(groups[g].active && groups[g].hash == hash)
      {
        if groups[current].active && groups[current].hash == hash { return Some(current); }
        current := current + 1;
      }
      r := None;
    }

    // Inactive groups are never used again: a new group is appended, or refused when the storage is full.
    method GetOrCreateGroup(hash: nat) returns (r: Option<nat>)
      requires |groups| <= maxEvents
      modifies this
      ensures |groups| <= maxEvents
      ensures r.None? <==> !old(HasGroup(groups, hash)) && old(|groups|) == maxEvents
      ensures groups ==
          if r.Some? && !old(HasGroup(groups, hash)) then old(groups) + [EventGroup(hash, true, [])] else old(groups)
      ensures r.Some? ==> r.value < |groups| && groups[r.value].active && groups[r.value].hash == hash
    {
      r := FindGroup(hash);
      if r.Some? { return; }
      if |groups| == maxEvents { return None; }
      groups := groups + [EventGroup(hash, true, [])];
      r := Some(|groups| - 1);
    }
  }
}
