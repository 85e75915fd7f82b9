/** The UDP transmit buffer: chunked writes, automatic datagrams of 1460 bytes, nothing lost in between. */
module Udp {
  import opened Prelude

  const TX_SIZE := 1460

  // ----- the reference: one byte at a time -----

  // The bytes in the buffer, and the payloads handed to sendto so far.
  datatype Tx = Tx(held: seq<byte>, emitted: seq<seq<byte>>)

  ghost predicate Fits(t: Tx) {
    |t.held| <= TX_SIZE
  }

  // write(uint8_t): a full buffer is sent before the byte is stored.
  function Put(t: Tx, b: byte): (r: Tx)
    ensures Fits(t) ==> Fits(r)
  {
    if |t.held| == TX_SIZE then Tx([b], t.emitted + [t.held]) else t.(held := t.held + [b])
  }

  function PutAll(t: Tx, data: seq<byte>): Tx
    decreases |data|
  {
    if data == [] then t else PutAll(Put(t, data[0]), data[1..])
  }

  lemma {:induction false} PutAllAppend(t: Tx, a: seq<byte>, b: seq<byte>)
    ensures PutAll(t, a + b) == PutAll(PutAll(t, a), b)
    decreases |a|
  {
    if a == [] {
      assert a + b == b;
    } else {
      assert (a + b)[1..] == a[1..] + b;
      PutAllAppend(Put(t, a[0]), a[1..], b);
    }
  }

  // A chunk that fits is simply appended.
  lemma {:induction false} PutChunk(t: Tx, data: seq<byte>)
    requires |t.held| + |data| <= TX_SIZE
    ensures PutAll(t, data) == t.(held := t.held + data)
    decreases |data|
  {
    if data == [] {
      assert t.held + data == t.held;
    } else {
      PutChunk(Put(t, data[0]), data[1..]);
      assert t.held + [data[0]] + data[1..] == t.held + data;
    }
  }

  function Concat(ss: seq<seq<byte>>): seq<byte> {
    if ss == [] then [] else Concat(ss[..|ss| - 1]) + ss[|ss| - 1]
  }

  lemma ConcatPush(ss: seq<seq<byte>>, s: seq<byte>)
    ensures Concat(ss + [s]) == Concat(ss) + s
  {
    assert (ss + [s])[..|ss|] == ss;
  }

  // Nothing is lost, repeated or reordered: the payloads and the buffer together grow by exactly the data.
  lemma {:induction false} PutAllConserves(t: Tx, data: seq<byte>)
    ensures Concat(PutAll(t, data).emitted) + PutAll(t, data).held == Concat(t.emitted) + t.held + data
    decreases |data|
  {
    if data == [] {
      assert Concat(t.emitted) + t.held + data == Concat(t.emitted) + t.held;
    } else {
      var t' := Put(t, data[0]);
      PutAllConserves(t', data[1..]);
      ConcatPush(t.emitted, t.held);
      assert Concat(t'.emitted) + t'.held == Concat(t.emitted) + t.held + [data[0]];
      assert Concat(t.emitted) + t.held + [data[0]] + data[1..] == Concat(t.emitted) + t.held + data;
    }
  }

  // Every automatic datagram is full, and datagrams sent before stay as they are.
  lemma {:induction false} AutomaticDatagramsAreFull(t: Tx, data: seq<byte>)
    requires Fits(t)
    ensures Fits(PutAll(t, data)) && t.emitted <= PutAll(t, data).emitted
    ensures forall k :: |t.emitted| <= k < |PutAll(t, data).emitted| ==> |PutAll(t, data).emitted[k]| == TX_SIZE
    decreases |data|
  {
    if data == [] {
    } else {
      AutomaticDatagramsAreFull(Put(t, data[0]), data[1..]);
    }
  }

  // From an empty buffer, n > 0 bytes make (n - 1) / 1460 automatic datagrams and leave 1 to 1460 bytes.
  lemma {:induction false} DatagramCount(emitted: seq<seq<byte>>, data: seq<byte>)
    requires data != []
    ensures var r := PutAll(Tx([], emitted), data);
      |r.emitted| == |emitted| + (|data| - 1) / TX_SIZE && |r.held| == (|data| - 1) % TX_SIZE + 1
  {
    var init, last := data[..|data| - 1], data[|data| - 1];
    assert data == init + [last];
    PutAllAppend(Tx([], emitted), init, [last]);
    var m := PutAll(Tx([], emitted), init);
    assert [last][1..] == [];
    assert PutAll(m, [last]) == Put(m, last);
    if init != [] { DatagramCount(emitted, init); }
  }

  class WiFiUDP {
    const txBuffer: array<byte>
    var txBufferLen: nat
    var remotePort: nat
    var isOpen: bool
    ghost var emitted: seq<seq<byte>>
    ghost var sent: seq<bool>
    ghost var created: seq<bool>

    // `sent` tells of every emitted payload whether sendto took it.
    ghost predicate Valid()
      reads this, txBuffer
    {
      txBuffer.Length == TX_SIZE && txBufferLen <= TX_SIZE && |sent| == |emitted|
    }

    ghost function State(): Tx
      reads this, txBuffer
      requires Valid()
    {
      Tx(txBuffer[..txBufferLen], emitted)
    }

    constructor ()
      ensures Valid() && fresh(txBuffer) && State() == Tx([], []) && !isOpen && remotePort == 0
    {
      txBuffer := new byte[TX_SIZE];
      txBufferLen, remotePort, isOpen, emitted, sent, created := 0, 0, false, [], [], [];
    }

    // beginPacket: drops what the buffer holds, and needs a remote port and a socket; without one it asks for one,
    // and `created` records the answer.
    method BeginPacket() returns (ok: int)
      requires Valid()
      modifies this`txBufferLen, this`isOpen, this`created
      ensures Valid() && (ok == 0 || ok == 1) && (ok == 1 ==> isOpen && remotePort != 0)
      ensures State() == if remotePort == 0 then old(State()) else Tx([], old(emitted))
      ensures remotePort == 0 || old(isOpen) ==> created == old(created) && isOpen == old(isOpen)
      ensures remotePort != 0 && !old(isOpen) ==> created == old(created) + [isOpen]
      ensures ok == 1 <==> remotePort != 0 && isOpen
    {
      if remotePort == 0 { return 0; }
      txBufferLen := 0;
      if isOpen { return 1; }
      var answer: bool := *;
      created := created + [answer];
      if !answer { return 0; }
      isOpen := true;
      ok := 1;
    }

    // endPacket: hands the buffer to sendto, and tells whether it failed; the buffer stays as it is.
    method EndPacket() returns (ok: int)
      requires Valid()
      modifies this`emitted, this`sent
      ensures Valid() && State() == Tx(old(State()).held, old(emitted) + [old(State()).held])
      ensures ok == (if sent[|sent| - 1] then 1 else 0) && sent == old(sent) + [ok == 1]
    {
      var result: int := *;
      emitted := emitted + [txBuffer[..txBufferLen]];
      sent := sent + [result >= 0];
      ok := if result < 0 then 0 else 1;
    }

    method WriteByte(data: byte) returns (n: nat)
      requires Valid()
      modifies this`txBufferLen, this`emitted, this`sent, txBuffer
      ensures old(sent) <= sent
      ensures Valid() && n == 1 && State() == Put(old(State()), data)
    {
      if txBufferLen == TX_SIZE {
        var _ := EndPacket();
        txBufferLen := 0;
      }
      txBuffer[txBufferLen] := data;
      txBufferLen := txBufferLen + 1;
      n := 1;
    }

    // write(buffer, size): whole chunks at a time, with the effect of one write per byte.
    method Write(buffer: seq<byte>) returns (n: nat)
      requires Valid()
      modifies this`txBufferLen, this`emitted, this`sent, txBuffer
      ensures old(sent) <= sent
      ensures Valid() && n == |buffer| && State() == PutAll(old(State()), buffer)
    {
      var done := 0;
      while done < |buffer|
        invariant Valid() && 0 <= done <= |buffer| && State() == PutAll(old(State()), buffer[..done])
        invariant old(sent) <= sent
      {
        ghost var t := State();
        var space := TX_SIZE - txBufferLen;
        if space == 0 {
          var _ := EndPacket();
          txBufferLen := 0;
          space := TX_SIZE;
        }
        var remaining := |buffer| - done;
        var chunk := if remaining < space then remaining else space;
        PutBlock(t, buffer[done..done + chunk]);
        assert buffer[..done + chunk] == buffer[..done] + buffer[done..done + chunk];
        PutAllAppend(old(State()), buffer[..done], buffer[done..done + chunk]);
        CopyChunk(buffer[done..done + chunk]);
        done := done + chunk;
      }
      assert buffer[..done] == buffer;
      n := |buffer|;
    }

    /** A whole packet: begin, write the pieces, end. All payloads handed to sendto are together exactly the
        pieces; every one but the last is full; the answer is 1 exactly when sendto took the last one, and if it
        took the others as well, then these bytes are what went out. */
    method SendPacket(pieces: seq<seq<byte>>) returns (begun: bool, ok: int)
      requires Valid()
      modifies this, txBuffer
      ensures Valid() && (!begun ==> ok == 0 && emitted == old(emitted) && sent == old(sent))
      ensures begun ==>
                && old(emitted) < emitted && old(sent) < sent && (ok == 1 <==> sent[|sent| - 1])
                && Concat(emitted) == Concat(old(emitted)) + Concat(pieces)
                && (forall k :: |old(emitted)| <= k < |emitted| - 1 ==> |emitted[k]| == TX_SIZE)
                && |emitted[|emitted| - 1]| <= TX_SIZE
      ensures begun && (forall k :: |old(sent)| <= k < |sent| ==> sent[k]) ==>
                TakenBytes(emitted, sent) == TakenBytes(old(emitted), old(sent)) + Concat(pieces)
    {
      var status := BeginPacket();
      if status == 0 { return false, 0; }
      begun := true;
      ghost var start := State();
      WritePieces(pieces);
      AutomaticDatagramsAreFull(start, Concat(pieces));
      PacketIsWhole(start.emitted, Concat(pieces));
      ok := EndPacket();
      if forall k :: |old(sent)| <= k < |sent| ==> sent[k] {
        AllTaken(old(emitted), old(sent), emitted, sent, Concat(pieces));
      }
    }

    method WritePieces(pieces: seq<seq<byte>>)
      requires Valid()
      modifies this`txBufferLen, this`emitted, this`sent, txBuffer
      ensures Valid() && old(sent) <= sent && State() == PutAll(old(State()), Concat(pieces))
    {
      var k := 0;
      while k < |pieces|
        invariant 0 <= k <= |pieces| && Valid() && old(sent) <= sent
        invariant State() == PutAll(old(State()), Concat(pieces[..k]))
      {
        var _ := Write(pieces[k]);
        PutAllAppend(old(State()), Concat(pieces[..k]), pieces[k]);
        assert pieces[..k + 1][..k] == pieces[..k];
        k := k + 1;
      }
      assert pieces[..k] == pieces;
    }

    // memcpy behind the bytes already held.
    method CopyChunk(data: seq<byte>)
      requires Valid() && txBufferLen + |data| <= TX_SIZE
      modifies this`txBufferLen, txBuffer
      ensures Valid() && State() == old(State()).(held := old(State()).held + data)
    {
      forall k | 0 <= k < |data| { txBuffer[txBufferLen + k] := data[k]; }
      assert txBuffer[..txBufferLen] == old(txBuffer[..txBufferLen]);
      txBufferLen := txBufferLen + |data|;
    }
  }

  // A chunk written into the free space, or after a full buffer was sent.
  lemma PutBlock(t: Tx, data: seq<byte>)
    requires data != [] && Fits(t)
    requires |data| <= if |t.held| == TX_SIZE then TX_SIZE else TX_SIZE - |t.held|
    ensures PutAll(t, data) == if |t.held| == TX_SIZE then Tx(data, t.emitted + [t.held]) else t.(held := t.held + data)
  {
    if |t.held| == TX_SIZE {
      PutChunk(Tx([data[0]], t.emitted + [t.held]), data[1..]);
      assert [data[0]] + data[1..] == data;
    } else {
      PutChunk(t, data);
    }
  }

  // A packet begun on an empty buffer, written and ended hands exactly the written bytes to sendto.
  lemma PacketIsWhole(emitted: seq<seq<byte>>, data: seq<byte>)
    ensures var r := PutAll(Tx([], emitted), data);
      Concat(r.emitted + [r.held]) == Concat(emitted) + data
  {
    var r := PutAll(Tx([], emitted), data);
    PutAllConserves(Tx([], emitted), data);
    ConcatPush(r.emitted, r.held);
    assert Concat(emitted) + [] + data == Concat(emitted) + data;
  }

  // The bytes of the payloads that sendto took.
  ghost function TakenBytes(emitted: seq<seq<byte>>, sent: seq<bool>): seq<byte>
    requires |sent| == |emitted|
  {
    if emitted == [] then []
    else
      var last := |emitted| - 1;
      TakenBytes(emitted[..last], sent[..last]) + if sent[last] then emitted[last] else []
  }

  lemma {:induction false} AllTaken(before: seq<seq<byte>>, sentBefore: seq<bool>, after: seq<seq<byte>>,
      sentAfter: seq<bool>, data: seq<byte>)
    requires |before| == |sentBefore| && |after| == |sentAfter| && before <= after && sentBefore <= sentAfter
    requires Concat(after) == Concat(before) + data && forall k :: |before| <= k < |after| ==> sentAfter[k]
    ensures TakenBytes(after, sentAfter) == TakenBytes(before, sentBefore) + data
    decreases |after|
  {
    if |after| == |before| {
      assert after == before && sentAfter == sentBefore;
      assert |data| == 0;
    } else {
      var last := |after| - 1;
      ConcatGrows(before, after[..last]);
      var base, shorter := Concat(before), Concat(after[..last]);
      var rest := shorter[|base|..];
      assert shorter == base + rest;
      AllTaken(before, sentBefore, after[..last], sentAfter[..last], rest);
      assert base + data == base + (rest + after[last]);
      assert data == (base + data)[|base|..] == rest + after[last];
    }
  }

  lemma {:induction false} ConcatGrows(before: seq<seq<byte>>, after: seq<seq<byte>>)
    requires before <= after
    ensures Concat(before) <= Concat(after)
    decreases |after|
  {
    if |after| == |before| {
      assert after == before;
    } else {
      ConcatGrows(before, after[..|after| - 1]);
    }
  }
}
