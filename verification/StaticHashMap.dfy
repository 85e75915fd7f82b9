/** The static hash map: a sparse ring of buckets over a dense array of entries, proved to be a map. */
module StaticHashMap {
  import opened Prelude
  import opened HashTable
  import opened Counting

  datatype Entry<+K, +V> = Entry(key: K, value: V)

  ghost predicate DistinctKeys<K(!new), V>(es: seq<Entry<K, V>>) {
    forall d, e :: 0 <= d < e < |es| ==> es[d].key != es[e].key
  }

  ghost function ToMap<K(!new), V>(es: seq<Entry<K, V>>): (m: map<K, V>)
    requires DistinctKeys(es)
  {
    map d | 0 <= d < |es| :: es[d].key := es[d].value
  }

  lemma ToMapAt<K(!new), V>(es: seq<Entry<K, V>>, d: nat)
    requires DistinctKeys(es) && d < |es|
    ensures es[d].key in ToMap(es) && ToMap(es)[es[d].key] == es[d].value
  {
  }

  ghost predicate HasKey<K(!new), V>(es: seq<Entry<K, V>>, key: K) {
    exists d :: 0 <= d < |es| && es[d].key == key
  }

  // The entries are a map if they hold its pairs and all its keys.
  lemma ToMapIs<K(!new), V>(es: seq<Entry<K, V>>, m: map<K, V>)
    requires DistinctKeys(es)
    requires forall d :: 0 <= d < |es| ==> es[d].key in m && m[es[d].key] == es[d].value
    requires forall k :: k in m ==> HasKey(es, k)
    ensures ToMap(es) == m
  {
    forall k | k in m ensures k in ToMap(es) && ToMap(es)[k] == m[k] {
      var d :| 0 <= d < |es| && es[d].key == k;
      ToMapAt(es, d);
    }
  }

  lemma ToMapPush<K(!new), V>(es: seq<Entry<K, V>>, e: Entry<K, V>)
    requires DistinctKeys(es) && e.key !in ToMap(es)
    ensures DistinctKeys(es + [e]) && ToMap(es + [e]) == ToMap(es)[e.key := e.value]
  {
    var es' := es + [e];
    forall d | 0 <= d < |es| ensures es[d].key != e.key { ToMapAt(es, d); }
    forall k | k in ToMap(es)[e.key := e.value] ensures HasKey(es', k) {
      if k == e.key {
        assert es'[|es|].key == k;
      } else {
        var d :| 0 <= d < |es| && es[d].key == k;
        assert es'[d].key == k;
      }
    }
    ToMapIs(es', ToMap(es)[e.key := e.value]);
  }

  lemma ToMapUpdate<K(!new), V>(es: seq<Entry<K, V>>, d: nat, v: V)
    requires DistinctKeys(es) && d < |es|
    ensures var es' := es[d := es[d].(value := v)];
      DistinctKeys(es') && ToMap(es') == ToMap(es)[es[d].key := v]
  {
    var es' := es[d := es[d].(value := v)];
    assert forall c :: 0 <= c < |es| ==> es'[c].key == es[c].key;
    forall c | 0 <= c < |es| ensures es[c].key in ToMap(es) && ToMap(es)[es[c].key] == es[c].value { ToMapAt(es, c); }
    forall k | k in ToMap(es)[es[d].key := v] ensures HasKey(es', k) {
      ToMapAt(es, d);
      var c :| 0 <= c < |es| && es[c].key == k;
      assert es'[c].key == k;
    }
    ToMapIs(es', ToMap(es)[es[d].key := v]);
  }

  lemma SwapRemovedKeys<K(!new), V>(es: seq<Entry<K, V>>, d: nat)
    requires DistinctKeys(es) && d < |es|
    ensures DistinctKeys(SwapRemoved(es, d))
  {
    var es', last := SwapRemoved(es, d), |es| - 1;
    forall c, e | 0 <= c < e < last ensures es'[c].key != es'[e].key {
      assert es'[c] == es[if c == d then last else c] && es'[e] == es[if e == d then last else e];
    }
  }

  lemma ToMapSwapRemove<K(!new), V>(es: seq<Entry<K, V>>, d: nat)
    requires DistinctKeys(es) && d < |es|
    ensures DistinctKeys(SwapRemoved(es, d)) && ToMap(SwapRemoved(es, d)) == ToMap(es) - {es[d].key}
  {
    SwapRemovedKeys(es, d);
    var es', last := SwapRemoved(es, d), |es| - 1;
    forall k | k in ToMap(es) - {es[d].key}
      ensures k in ToMap(es') && ToMap(es')[k] == ToMap(es)[k]
    {
      var c :| 0 <= c < |es| && es[c].key == k;
      ToMapAt(es', if c == last then d else c);
      ToMapAt(es, c);
    }
    forall k | k in ToMap(es') ensures k in ToMap(es) - {es[d].key} {
      var c :| 0 <= c < |es'| && es'[c].key == k;
      assert es'[c] == es[if c == d then last else c];
      ToMapAt(es, if c == d then last else c);
    }
  }

  lemma ToMapSize<K(!new), V>(es: seq<Entry<K, V>>)
    requires DistinctKeys(es)
    ensures |ToMap(es)| == |es|
  {
    var keys := seq(|es|, d requires 0 <= d < |es| => es[d].key);
    DistinctSize(keys);
    forall k ensures k in Elements(keys) <==> k in ToMap(es).Keys {
      if k in keys { var d :| 0 <= d < |keys| && keys[d] == k; ToMapAt(es, d); }
      if k in ToMap(es) { var d :| 0 <= d < |es| && es[d].key == k; assert keys[d] == k; }
    }
    assert Elements(keys) == ToMap(es).Keys;
  }

  // ----- the reference: a plain map with a size limit -----

  datatype Op<+K, +V> = Insert(key: K, value: V) | Erase(key: K) | Subscript(key: K, blank: V) | Find(key: K) | Clear

  datatype Reply<+V> = Ok(ok: bool) | Found(found: Option<V>) | Done

  // operator[] may only be used while the table is not full or on a key that is present.
  ghost predicate Allowed<K, V>(m: map<K, V>, op: Op<K, V>, cap: nat) {
    op.Subscript? ==> op.key in m || |m| < cap
  }

  ghost function Apply<K, V>(m: map<K, V>, op: Op<K, V>, cap: nat): map<K, V> {
    match op
    case Insert(k, v) => if k in m || |m| < cap then m[k := v] else m
    case Erase(k) => m - {k}
    case Subscript(k, v) => if k in m then m else m[k := v]
    case Find(_) => m
    case Clear => map[]
  }

  ghost function Answer<K, V>(m: map<K, V>, op: Op<K, V>, cap: nat): Reply<V> {
    match op
    case Insert(k, _) => Ok(k in m || |m| < cap)
    case Erase(k) => Ok(k in m)
    case Subscript(k, v) => Found(Some(if k in m then m[k] else v))
    case Find(k) => Found(if k in m then Some(m[k]) else None)
    case Clear => Done
  }

  ghost predicate AllowedRun<K, V>(m: map<K, V>, ops: seq<Op<K, V>>, cap: nat)
    decreases |ops|
  {
    ops != [] ==> Allowed(m, ops[0], cap) && AllowedRun(Apply(m, ops[0], cap), ops[1..], cap)
  }

  ghost function Final<K, V>(m: map<K, V>, ops: seq<Op<K, V>>, cap: nat): map<K, V>
    decreases |ops|
  {
    if ops == [] then m else Final(Apply(m, ops[0], cap), ops[1..], cap)
  }

  ghost function Replies<K, V>(m: map<K, V>, ops: seq<Op<K, V>>, cap: nat): seq<Reply<V>>
    decreases |ops|
  {
    if ops == [] then [] else [Answer(m, ops[0], cap)] + Replies(Apply(m, ops[0], cap), ops[1..], cap)
  }

  /** A hash map with a fixed capacity. `pos` is proof bookkeeping: the bucket of each dense entry. */
  class StaticHashMap<K(==, !new), V> {
    const maxSize: nat
    const hash: K -> nat
    const buckets: array<nat>
    var entries: seq<Entry<K, V>>
    ghost var pos: seq<nat>

    // The slot where probing for a key starts: Hash{}(key) & (max_size - 1).
    function Home(key: K): (h: nat)
      requires 0 < maxSize
      ensures h < maxSize
    {
      hash(key) % maxSize
    }

    ghost function Homes(es: seq<Entry<K, V>>): seq<nat>
      requires 0 < maxSize
    {
      seq(|es|, d requires 0 <= d < |es| => Home(es[d].key))
    }

    ghost predicate Valid()
      reads this, buckets
    {
      && 0 < maxSize == buckets.Length < EMPTY
      && DistinctKeys(entries)
      && Placed(buckets[..], Homes(entries), pos, -1)
      && Reachable(buckets[..], Homes(entries))
    }

    ghost function Model(): map<K, V>
      reads this, buckets
      requires Valid()
    {
      ToMap(entries)
    }

    constructor (maxSize: nat, hash: K -> nat)
      requires 0 < maxSize < EMPTY
      ensures Valid() && fresh(buckets) && this.maxSize == maxSize && Model() == map[]
    {
      this.maxSize := maxSize;
      this.hash := hash;
      buckets := new nat[maxSize](_ => EMPTY);
      entries := [];
      pos := [];
    }

    // The key is in none of the first `d` buckets of its probe path, and these are occupied.
    ghost predicate Misses(key: K, d: nat)
      requires Valid()
      reads this, buckets
    {
      forall i :: 0 <= i < maxSize && Dist(Home(key), i, maxSize) < d
        ==> buckets[i] != EMPTY && entries[buckets[i]].key != key
    }

    lemma Absent(key: K, d: nat, stop: nat)
      requires Valid() && Misses(key, d) && stop < maxSize
      requires d == maxSize || (Dist(Home(key), stop, maxSize) == d && buckets[stop] == EMPTY)
      ensures key !in Model()
    {
      forall e | 0 <= e < |entries| ensures entries[e].key != key {
        if entries[e].key == key {
          assert Homes(entries)[e] == Home(key);
          ProbeIsComplete(buckets[..], Homes(entries), pos, Home(key), d, stop, e);
        }
      }
    }

    lemma HasRoom(idx: nat)
      requires Valid() && idx < maxSize && buckets[idx] == EMPTY
      ensures |entries| < maxSize
    {
      FullRing(buckets[..], Homes(entries), pos);
      assert buckets[..][idx] == EMPTY;
    }

    lemma IsFull(key: K)
      requires Valid() && Misses(key, maxSize)
      ensures |entries| == maxSize
    {
      FullRing(buckets[..], Homes(entries), pos);
    }

    // One more bucket of the path does not hold the key; the probe is back at its start after a whole turn.
    lemma MissesNext(key: K, idx: nat, d: nat)
      requires Valid() && idx < maxSize && Dist(Home(key), idx, maxSize) == d && Misses(key, d)
      requires buckets[idx] != EMPTY && entries[buckets[idx]].key != key
      ensures Misses(key, d + 1) && (Next(idx, maxSize) == Home(key) <==> d + 1 == maxSize)
      ensures d + 1 < maxSize ==> Dist(Home(key), Next(idx, maxSize), maxSize) == d + 1
    {
      NextDist(Home(key), idx, maxSize);
    }

    // findIndex_base: the bucket of a key, or EMPTY.
    method FindIndex(key: K) returns (r: nat)
      requires Valid()
      ensures r == EMPTY <==> key !in Model()
      ensures r != EMPTY ==> r < maxSize && buckets[r] < |entries| && entries[buckets[r]].key == key
    {
      var idx: nat := Home(key);
      var start := idx;
      ghost var d := 0;
      while true
        invariant idx < maxSize && d < maxSize && Dist(start, idx, maxSize) == d && Misses(key, d)
        decreases maxSize - d
      {
        if buckets[idx] == EMPTY {
          Absent(key, d, idx);
          return EMPTY;
        }
        if entries[buckets[idx]].key == key {
          ToMapAt(entries, buckets[idx]);
          return idx;
        }
        MissesNext(key, idx, d);
        idx := Next(idx, maxSize);
        d := d + 1;
        if idx == start {
          Absent(key, d, start);
          return EMPTY;
        }
      }
    }

    // findSlot_base: the bucket of a key, or the first empty bucket on its path, or EMPTY when there is none.
    method FindSlot(key: K) returns (r: nat)
      requires Valid()
      ensures r == EMPTY <==> key !in Model() && |entries| == maxSize
      ensures r != EMPTY ==> r < maxSize
      ensures r != EMPTY && buckets[r] == EMPTY ==>
                key !in Model() && |entries| < maxSize && Misses(key, Dist(Home(key), r, maxSize))
      ensures r != EMPTY && buckets[r] != EMPTY ==>
          buckets[r] < |entries| && entries[buckets[r]].key == key && key in Model()
    {
      var idx: nat := Home(key);
      var start := idx;
      ghost var d := 0;
      while true
        invariant idx < maxSize && d < maxSize && Dist(start, idx, maxSize) == d && Misses(key, d)
        decreases maxSize - d
      {
        if buckets[idx] == EMPTY {
          Absent(key, d, idx);
          HasRoom(idx);
          return idx;
        }
        if entries[buckets[idx]].key == key {
          ToMapAt(entries, buckets[idx]);
          return idx;
        }
        MissesNext(key, idx, d);
        idx := Next(idx, maxSize);
        d := d + 1;
        if idx == start {
          Absent(key, d, start);
          IsFull(key);
          return EMPTY;
        }
      }
    }

    method Find(key: K) returns (r: Option<V>)
      requires Valid()
      ensures r == if key in Model() then Some(Model()[key]) else None
    {
      var idx := FindIndex(key);
      if idx == EMPTY { return None; }
      ToMapAt(entries, buckets[idx]);
      r := Some(entries[buckets[idx]].value);
    }

    method Contains(key: K) returns (r: bool)
      requires Valid()
      ensures r == (key in Model())
    {
      var idx := FindIndex(key);
      r := idx != EMPTY;
    }

    method Size() returns (n: nat)
      requires Valid()
      ensures n == |Model()| <= maxSize
    {
      ToMapSize(entries);
      n := |entries|;
    }

    // The common step of insert and operator[]: a new entry in the empty bucket found for it.
    method Place(key: K, value: V, idx: nat)
      requires Valid() && idx < maxSize && buckets[idx] == EMPTY && |entries| < maxSize
      requires key !in Model() && Misses(key, Dist(Home(key), idx, maxSize))
      modifies this, buckets
      ensures Valid() && Model() == old(Model())[key := value]
      ensures entries == old(entries) + [Entry(key, value)] && buckets[idx] == |old(entries)|
    {
      FillBucket(buckets[..], Homes(entries), pos, Home(key), idx);
      ToMapPush(entries, Entry(key, value));
      ghost var homes := Homes(entries) + [Home(key)];
      buckets[idx] := |entries|;
      entries := entries + [Entry(key, value)];
      pos := pos + [idx];
      assert Homes(entries) == homes;
    }

    method Assign(idx: nat, value: V)
      requires Valid() && idx < maxSize && buckets[idx] != EMPTY
      modifies this
      ensures Valid() && Model() == old(Model())[old(entries)[buckets[idx]].key := value]
    {
      ghost var homes := Homes(entries);
      ToMapUpdate(entries, buckets[idx], value);
      entries := entries[buckets[idx] := entries[buckets[idx]].(value := value)];
      assert Homes(entries) == homes;
    }

    // insert: fails exactly when the table is full and the key is absent.
    method Insert(key: K, value: V) returns (ok: bool)
      requires Valid()
      modifies this, buckets
      ensures Valid()
      ensures ok <==> key in old(Model()) || |old(Model())| < maxSize
      ensures Model() == if ok then old(Model())[key := value] else old(Model())
    {
      ToMapSize(entries);
      var idx := FindSlot(key);
      if idx == EMPTY { return false; }
      if buckets[idx] == EMPTY {
        if |entries| == maxSize { return false; }
        Place(key, value, idx);
      } else {
        Assign(idx, value);
      }
      ok := true;
    }

    // operator[]: the dense position whose value the returned reference denotes.
    method Subscript(key: K, blank: V) returns (d: nat)
      requires Valid()
      requires key in Model() || |entries| < maxSize
      modifies this, buckets
      ensures Valid() && d < |entries| && entries[d].key == key
      ensures Model() == if key in old(Model()) then old(Model()) else old(Model())[key := blank]
    {
      var idx := FindSlot(key);
      if buckets[idx] == EMPTY { Place(key, blank, idx); }
      d := buckets[idx];
    }

    /** remove_bucket_and_rehash: empties a bucket and shifts back every later entry whose path the
        hole would cut. Works on a full ring too, where only the moving hole stops the scan. */
    method RemoveBucketAndRehash(idx: nat) returns (erased: nat)
      requires Valid() && idx < maxSize && buckets[idx] != EMPTY
      modifies buckets, `pos
      ensures erased == old(buckets[idx]) < |entries|
      ensures Placed(buckets[..], Homes(entries), pos, erased) && Reachable(buckets[..], Homes(entries))
    {
      ghost var home := Homes(entries);
      ShiftStarts(buckets[..], home, pos, idx);
      erased := buckets[idx];
      buckets[idx] := EMPTY;
      var hole := idx;
      var next: nat := Next(hole, maxSize);
      ghost var d := 1;
      while buckets[next] != EMPTY
        invariant hole < maxSize && next < maxSize && Shifting(buckets[..], home, pos, erased, hole, next, d)
        decreases TotalDrift(buckets[..], home, maxSize), maxSize - d
      {
        ghost var b := buckets[..];
        var dense := buckets[next];
        var ideal := Home(entries[dense].key);
        assert dense == b[next] && ideal == home[dense];
        if (hole < next && (ideal <= hole || ideal > next)) || (hole > next && (ideal <= hole && ideal > next)) {
          ShiftMoves(b, home, pos, erased, hole, next, d);
          buckets[hole] := dense;
          buckets[next] := EMPTY;
          assert buckets[..] == b[hole := dense][next := EMPTY];
          pos := pos[dense := hole];
          hole, d := next, 1;
        } else {
          ShiftSkips(b, home, pos, erased, hole, next, d);
          d := d + 1;
        }
        next := Next(next, maxSize);
      }
      CloseHole(buckets[..], home, pos, erased, hole, next, d);
    }

    // update_last_element_bucket: the bucket of the last dense entry gets the entry's new number.
    method UpdateLastElementBucket(last: nat, renamed: nat)
      requires 0 < maxSize == buckets.Length && renamed < |entries|
      requires AtMostOnce(buckets[..], last)
      modifies buckets
      ensures buckets[..] == Renumbered(old(buckets[..]), last, renamed)
    {
      var idx: nat := Home(entries[renamed].key);
      var start := idx;
      ghost var d := 0;
      while true
        invariant idx < maxSize && d < maxSize && Dist(start, idx, maxSize) == d
        invariant forall i :: 0 <= i < maxSize && Dist(start, i, maxSize) < d ==> buckets[i] != last
        invariant buckets[..] == old(buckets[..])
        decreases maxSize - d
      {
        if buckets[idx] == last {
          buckets[idx] := renamed;
          break;
        }
        NextDist(start, idx, maxSize);
        idx := Next(idx, maxSize);
        d := d + 1;
        if idx == start { break; }
      }
    }

    method Erase(key: K) returns (ok: bool)
      requires Valid()
      modifies this, buckets
      ensures Valid()
      ensures ok <==> key in old(Model())
      ensures Model() == old(Model()) - {key}
    {
      var idx := FindIndex(key);
      if idx == EMPTY { return false; }
      var erased := RemoveBucketAndRehash(idx);
      SwapRemove(erased);
      ok := true;
    }

    // The second half of erase: an entry that has lost its bucket leaves the dense array.
    method SwapRemove(erased: nat)
      requires 0 < maxSize == buckets.Length < EMPTY && DistinctKeys(entries) && erased < |entries|
      requires Placed(buckets[..], Homes(entries), pos, erased) && Reachable(buckets[..], Homes(entries))
      modifies this, buckets
      ensures Valid() && Model() == ToMap(old(entries)) - {old(entries)[erased].key}
    {
      SwapRemoveOk(buckets[..], entries, pos, erased);
      MoveLast(erased);
      entries := entries[..|entries| - 1];
      pos := SwapRemoved(pos, erased);
    }

    // The last entry takes the erased place, and its bucket gets the new number.
    method MoveLast(erased: nat)
      requires 0 < maxSize == buckets.Length && erased < |entries| && AtMostOnce(buckets[..], |entries| - 1)
      modifies `entries, buckets
      ensures |entries| == |old(entries)| && entries[..|entries| - 1] == SwapRemoved(old(entries), erased)
      ensures buckets[..] == Renumbered(old(buckets[..]), |old(entries)| - 1, erased)
    {
      var last := |entries| - 1;
      if erased != last {
        entries := entries[erased := entries[last]];
        UpdateLastElementBucket(last, erased);
      } else {
        NothingToRenumber(buckets[..], last);
      }
    }

    lemma SwapRemoveOk(b: seq<nat>, es: seq<Entry<K, V>>, p: seq<nat>, erased: nat)
      requires 0 < maxSize == |b| < EMPTY && DistinctKeys(es) && erased < |es|
      requires Placed(b, Homes(es), p, erased) && Reachable(b, Homes(es))
      ensures var b', es' := Renumbered(b, |es| - 1, erased), SwapRemoved(es, erased);
        && DistinctKeys(es') && ToMap(es') == ToMap(es) - {es[erased].key}
        && Placed(b', Homes(es'), SwapRemoved(p, erased), -1) && Reachable(b', Homes(es'))
      ensures AtMostOnce(b, |es| - 1)
    {
      Renumber(b, Homes(es), p, erased);
      ToMapSwapRemove(es, erased);
      HomesSwap(es, erased);
      NumbersOccurOnce(b, Homes(es), p, erased, |es| - 1);
    }

    lemma HomesSwap(es: seq<Entry<K, V>>, d: nat)
      requires 0 < maxSize && d < |es|
      ensures Homes(SwapRemoved(es, d)) == SwapRemoved(Homes(es), d)
    {
    }

    method Clear()
      requires Valid()
      modifies this, buckets
      ensures Valid() && Model() == map[]
    {
      for i := 0 to maxSize
        invariant forall j :: 0 <= j < i ==> buckets[j] == EMPTY
      {
        buckets[i] := EMPTY;
      }
      entries := [];
      pos := [];
    }

    method Perform(op: Op<K, V>) returns (reply: Reply<V>)
      requires Valid() && Allowed(Model(), op, maxSize)
      modifies this, buckets
      ensures Valid()
      ensures reply == Answer(old(Model()), op, maxSize) && Model() == Apply(old(Model()), op, maxSize)
    {
      ToMapSize(entries);
      match op {
        case Insert(k, v) =>
          var ok := Insert(k, v);
          reply := Ok(ok);
        case Erase(k) =>
          var ok := Erase(k);
          reply := Ok(ok);
        case Subscript(k, v) =>
          var d := Subscript(k, v);
          ToMapAt(entries, d);
          reply := Found(Some(entries[d].value));
        case Find(k) =>
          var found := Find(k);
          reply := Found(found);
        case Clear =>
          Clear();
          reply := Done;
      }
    }

    // Any run of operations gives the replies, and leaves the contents, of a plain map with a size limit.
    method Run(ops: seq<Op<K, V>>) returns (replies: seq<Reply<V>>)
      requires Valid() && AllowedRun(Model(), ops, maxSize)
      modifies this, buckets
      ensures Valid()
      ensures replies == Replies(old(Model()), ops, maxSize) && Model() == Final(old(Model()), ops, maxSize)
      decreases |ops|
    {
      if ops == [] { return []; }
      var reply := Perform(ops[0]);
      var rest := Run(ops[1..]);
      replies := [reply] + rest;
    }
  }
}
