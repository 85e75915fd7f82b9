/** Writing to a TCP client: the zero-copy asynchronous view and the blocking loop-to-full write. */
module TxStream {
  import opened Prelude

  // A call of the kernel and its answer: a send, with what it was offered and whether errno was passing, or a select.
  datatype Call = Sent(data: seq<byte>, res: int, passing: bool) | Waited(res: int)

  /** The send side of a socket: `accepted` is everything the kernel has taken. Any call may take any part of
      what it is offered, or fail; and every call takes time, at least one microsecond, and is recorded. */
  class SendSocket {
    ghost var accepted: seq<byte>
    ghost var calls: seq<Call>
    var micros: nat
    ghost var idle: nat   // the time since it took something

    constructor ()
      ensures accepted == [] && calls == []
    {
      accepted, calls, micros, idle := [], [], 0, 0;
    }

    // send without blocking. `passing` is the errno test (would block, interrupted), stale unless res < 0.
    method Send(data: seq<byte>) returns (res: int, passing: bool)
      modifies this
      ensures -1 <= res <= |data| && micros > old(micros)
      ensures accepted == old(accepted) + if res > 0 then data[..res] else []
      ensures idle == if res > 0 then 0 else old(idle) + micros - old(micros)
      ensures calls == old(calls) + [Sent(data, res, passing)]
    {
      var r: int := *;
      var spent: int := *;
      micros := micros + 1 + if spent > 0 then spent else 0;
      passing := *;
      res := if -1 <= r <= |data| then r else -1;
      accepted := accepted + if res > 0 then data[..res] else [];
      calls := calls + [Sent(data, res, passing)];
      idle := if res > 0 then 0 else idle + micros - old(micros);
    }

    // select for room to write, with a time slice.
    method Select() returns (res: int)
      modifies this`micros, this`idle, this`calls
      ensures calls == old(calls) + [Waited(res)]
      ensures micros > old(micros) && idle == old(idle) + micros - old(micros)
    {
      var spent: int := *;
      micros := micros + 1 + if spent > 0 then spent else 0;
      idle := idle + micros - old(micros);
      res := *;
      calls := calls + [Waited(res)];
    }
  }

  // ----- the calls of one blocking write -----

  // The call after which the connection is given up: a send that failed for good, or one that took nothing although
  // the write was not waiting for room.
  predicate Fatal(calls: seq<Call>) {
    && calls != []
    && var last := calls[|calls| - 1];
       last.Sent? && last.res <= 0 && (!last.passing || (last.res == 0 && Advancing(calls[..|calls| - 1])))
  }

  // Nothing has been sent yet, or the last send took something.
  predicate Advancing(calls: seq<Call>) {
    calls != [] ==> calls[|calls| - 1].Sent? && calls[|calls| - 1].res > 0
  }

  // The last call left the write waiting for room.
  predicate Waits(calls: seq<Call>) {
    calls != [] && calls[|calls| - 1].res <= 0 && !Fatal(calls)
  }

  // What may come next: nothing after a fatal call, a send after progress or readiness, a wait after a wait in vain.
  predicate May(calls: seq<Call>, next: Call) {
    && !Fatal(calls) && (Advancing(calls) ==> next.Sent?)
    && (calls != [] && calls[|calls| - 1].Waited? ==> (next.Sent? <==> calls[|calls| - 1].res > 0))
  }

  /** The calls have sent the first bytes of the buffer: every send offers all the rest, and every call may follow
      those before it. */
  ghost predicate Progress(calls: seq<Call>, buf: seq<byte>, sent: nat)
    decreases |calls|
  {
    if calls == [] then sent == 0
    else
      var before, last := calls[..|calls| - 1], calls[|calls| - 1];
      var start := if last.Sent? && last.res > 0 then sent - last.res else sent;
      && 0 <= start <= |buf| && (last.Sent? ==> last.data == buf[start..])
      && May(before, last) && Progress(before, buf, start)
  }

  // So no call but the last is fatal.
  lemma {:induction false} OnlyTheLastIsFatal(calls: seq<Call>, buf: seq<byte>, sent: nat, k: nat)
    requires Progress(calls, buf, sent) && k < |calls|
    ensures !Fatal(calls[..k])
    decreases |calls|
  {
    var before, last := calls[..|calls| - 1], calls[|calls| - 1];
    if k < |before| {
      OnlyTheLastIsFatal(before, buf, if last.Sent? && last.res > 0 then sent - last.res else sent, k);
      assert before[..k] == calls[..k];
    } else {
      assert calls[..k] == before;
    }
  }

  lemma ProgressAppend(calls: seq<Call>, buf: seq<byte>, sent: nat, c: Call)
    requires Progress(calls, buf, sent) && sent <= |buf| && May(calls, c) && (c.Sent? ==> c.data == buf[sent..])
    ensures Progress(calls + [c], buf, if c.Sent? && c.res > 0 then sent + c.res else sent)
    ensures Fatal(calls + [c]) <==> c.Sent? && c.res <= 0 && (!c.passing || (c.res == 0 && Advancing(calls)))
  {
    assert (calls + [c])[..|calls|] == calls;
  }

  lemma InPieces(s: seq<Call>, a: seq<Call>, b: seq<Call>)
    ensures (s + a) + b == s + (a + b)
  {
  }

  // Sends of the same bytes, each but the last of which failed in passing.
  predicate Retries(calls: seq<Call>, data: seq<byte>) {
    && calls != [] && (forall k :: 0 <= k < |calls| ==> calls[k].Sent? && calls[k].data == data)
    && forall k :: 0 <= k < |calls| - 1 ==> calls[k].res <= 0 && calls[k].passing
  }

  // A view into the caller's buffer: `buf` is the rest of that buffer, `len` what is still to be sent.
  class AsyncTxView {
    var buf: seq<byte>
    var len: nat

    ghost predicate Valid()
      reads this
    {
      len <= |buf|
    }

    ghost function Pending(): seq<byte>
      reads this
      requires Valid()
    {
      buf[..len]
    }

    constructor ()
      ensures Valid() && Pending() == []
    {
      buf, len := [], 0;
    }

    predicate IsBusy()
      reads this
    {
      len != 0
    }

    method Reset()
      modifies this
      ensures Valid() && Pending() == []
    {
      buf, len := [], 0;
    }

    method Set(buf: seq<byte>, len: nat)
      requires len <= |buf|
      modifies this
      ensures Valid() && Pending() == buf[..len]
    {
      this.buf, this.len := buf, len;
    }

    method Advance(n: nat)
      requires Valid()
      modifies this
      ensures Valid() && Pending() == if n >= |old(Pending())| then [] else old(Pending())[n..]
    {
      if n >= len {
        Reset();
      } else {
        buf, len := buf[n..], len - n;
      }
    }
  }

  class WiFiClient {
    const socket: SendSocket
    const txView: AsyncTxView
    var connected: bool
    var hasFd: bool
    var timeout: nat

    ghost predicate Valid()
      reads this, txView
    {
      txView.Valid() && (!connected || !hasFd ==> txView.Pending() == [])
    }

    constructor (socket: SendSocket, timeout: nat)
      ensures Valid() && connected && hasFd && this.socket == socket && fresh(txView) && txView.Pending() == []
    {
      this.socket := socket;
      txView := new AsyncTxView();
      connected, hasFd := true, true;
      this.timeout := timeout;
    }

    method Stop()
      modifies this`connected, this`hasFd, txView
      ensures Valid() && !connected && !hasFd && txView.Pending() == []
    {
      txView.Reset();
      hasFd := false;
      connected := false;
    }

    /** writeAsync: what the kernel does not take at once stays pending. Unless the connection is lost, the
        stream plus the pending bytes has grown by exactly the caller's buffer. It is lost exactly when the one
        send, which offers the whole buffer, fails for good. */
    method WriteAsync(buf: seq<byte>, isNull: bool) returns (n: nat, ghost calls: seq<Call>)
      requires Valid()
      modifies this`connected, this`hasFd, txView, socket
      ensures Valid() && n <= |buf|
      ensures var refused := !old(connected) || !old(hasFd) || old(txView.IsBusy()) || isNull || buf == [];
        if refused then
          && n == 0 && socket.accepted == old(socket.accepted)
          && txView.Pending() == old(txView.Pending()) && connected == old(connected) && calls == []
        else
          && socket.accepted == old(socket.accepted) + buf[..n] && (connected ==> hasFd && txView.Pending() == buf[n..])
          && |calls| == 1 && calls[0].Sent? && calls[0].data == buf
          && n == (if calls[0].res > 0 then calls[0].res else 0)
          && (connected <==> calls[0].res >= 0 || calls[0].passing)
      ensures connected && old(hasFd) && !old(txView.IsBusy()) && !isNull ==>
                socket.accepted + txView.Pending() == old(socket.accepted) + buf
      ensures socket.calls == old(socket.calls) + calls
    {
      calls := [];
      if !connected || !hasFd || txView.IsBusy() || isNull || |buf| == 0 { return 0, calls; }
      var res, passing := socket.Send(buf);
      calls := [Sent(buf, res, passing)];
      Cut(old(socket.accepted), buf, if res > 0 then res else 0);
      if res >= 0 && res == |buf| { return |buf|, calls; }
      n := if res > 0 then res else 0;
      txView.Set(buf[n..], |buf| - n);
      if !(res >= 0) && !passing {
        txView.Reset();
        Stop();
      }
    }

    lemma Cut(base: seq<byte>, buf: seq<byte>, n: nat)
      requires n <= |buf|
      ensures base + buf[..n] + buf[n..] == base + buf && buf[n..][..|buf| - n] == buf[n..]
      ensures (n == |buf| ==> buf[..n] == buf && buf[n..] == []) && (n == 0 ==> base + buf[..n] == base + [] == base)
    {
    }

    /** pollWrite: 1 exactly when nothing is pending on a connected client, -1 exactly when the connection is
        gone; and no pending byte is lost, repeated or reordered while it lives. It offers what is pending until
        some of it is taken, for at least 250 microseconds, and gives the connection up exactly when a send fails
        for good. */
    method PollWrite() returns (r: int, ghost calls: seq<Call>)
      requires Valid()
      modifies this`connected, this`hasFd, txView, socket
      ensures Valid()
      ensures (connected ==> old(connected)) && (hasFd ==> old(hasFd))
      ensures r == if !connected || !hasFd then -1 else if txView.Pending() == [] then 1 else 0
      ensures connected && hasFd ==> socket.accepted + txView.Pending() == old(socket.accepted + txView.Pending())
      ensures old(socket.accepted) <= socket.accepted <= old(socket.accepted + txView.Pending())
      ensures socket.calls == old(socket.calls) + calls
      ensures if !old(connected) || !old(hasFd) || !old(txView.IsBusy()) then calls == [] && connected == old(connected)
              else
                && Retries(calls, old(txView.Pending()))
                && var last := calls[|calls| - 1];
                   && (connected <==> last.res > 0 || last.passing)
                   && (connected && last.res <= 0 ==> socket.micros >= old(socket.micros) + 250)
    {
      calls := [];
      if !connected || !hasFd { return -1, calls; }
      if !txView.IsBusy() { return 1, calls; }
      ghost var pending := txView.Pending();
      var res, passing := SendPending();
      calls := [Sent(pending, res, passing)];
      if res > 0 { return if txView.IsBusy() then 0 else 1, calls; }
      if passing {
        var start := socket.micros;
        while socket.micros - start < 250
          invariant Valid() && connected && hasFd && txView.IsBusy() && socket.micros >= start
          invariant socket.accepted == old(socket.accepted) && txView.Pending() == old(txView.Pending())
          invariant socket.calls == old(socket.calls) + calls && Retries(calls, pending)
          invariant calls[|calls| - 1].res <= 0 && calls[|calls| - 1].passing
          decreases start + 250 - socket.micros
        {
          res, passing := SendPending();
          calls := calls + [Sent(pending, res, passing)];
          if res > 0 { return if txView.IsBusy() then 0 else 1, calls; }
          if !passing {
            txView.Reset();
            Stop();
            return -1, calls;
          }
        }
        return 0, calls;
      }
      txView.Reset();
      Stop();
      r := -1;
    }

    /** The documented use: start an asynchronous write, then poll. However often the kernel takes only part,
        the stream and the view together hold the buffer, and a final 1 means that all of it was sent. */
    method WriteThenPoll(buf: seq<byte>, polls: nat) returns (r: int)
      requires Valid() && connected && hasFd && !txView.IsBusy() && buf != []
      modifies this`connected, this`hasFd, txView, socket
      ensures Valid() && old(socket.accepted) <= socket.accepted <= old(socket.accepted) + buf
      ensures connected && hasFd ==> socket.accepted + txView.Pending() == old(socket.accepted) + buf
      ensures r == 1 ==> socket.accepted == old(socket.accepted) + buf
    {
      var n;
      ghost var calls;
      n, calls := WriteAsync(buf, false);
      assert buf == buf[..n] + buf[n..];
      r := 0;
      var k := 0;
      while k < polls && r == 0
        invariant Valid() && old(socket.accepted) <= socket.accepted <= old(socket.accepted) + buf
        invariant connected && hasFd ==> socket.accepted + txView.Pending() == old(socket.accepted) + buf
        invariant r == 1 ==> socket.accepted == old(socket.accepted) + buf
        invariant !connected || !hasFd ==> txView.Pending() == []
      {
        r, calls := PollWrite();
        k := k + 1;
      }
    }

    // One send of the pending bytes and the advance of the view.
    method SendPending() returns (res: int, passing: bool)
      requires Valid() && connected && hasFd && txView.IsBusy()
      modifies txView, socket
      ensures Valid() && socket.micros > old(socket.micros)
      ensures socket.calls == old(socket.calls) + [Sent(old(txView.Pending()), res, passing)]
      ensures socket.accepted + txView.Pending() == old(socket.accepted + txView.Pending())
      ensures old(socket.accepted) <= socket.accepted <= old(socket.accepted + txView.Pending())
      ensures res <= 0 ==> socket.accepted == old(socket.accepted) && txView.Pending() == old(txView.Pending())
    {
      ghost var pending := txView.Pending();
      res, passing := socket.Send(txView.buf[..txView.len]);
      if res > 0 {
        assert pending == pending[..res] + pending[res..];
        txView.Advance(res);
      }
    }

    /** write: keeps sending until everything is out, the connection is lost, or the kernel has taken nothing
        for the timeout, measured from `stall`, the start of the last wait for room. The stream grows by exactly
        the bytes reported. Every send offers all the rest, and the connection is given up exactly after a fatal
        call. */
    method Write(buf: seq<byte>, isNull: bool) returns (totalSent: nat, ghost stall: nat, ghost calls: seq<Call>)
      requires Valid()
      modifies this`connected, this`hasFd, txView, socket
      ensures Valid() && totalSent <= |buf|
      ensures socket.accepted == old(socket.accepted) + buf[..totalSent]
      ensures old(connected) && old(hasFd) && !isNull && totalSent < |buf| && connected ==>
                && old(socket.micros) <= stall && socket.micros - socket.idle <= stall
                && socket.micros + 1000 > stall + timeout * 1000
      ensures !old(connected) || !old(hasFd) || isNull ==> totalSent == 0
      ensures connected ==> txView.Pending() == old(txView.Pending())
      ensures socket.calls == old(socket.calls) + calls
      ensures if !old(connected) || !old(hasFd) || isNull || buf == [] then calls == [] && connected == old(connected)
              else
                && Progress(calls, buf, totalSent) && (connected <==> !Fatal(calls))
                && (connected && totalSent < |buf| ==> Waits(calls))
    {
      totalSent, stall, calls := 0, socket.micros, [];
      assert old(socket.accepted) + buf[..0] == old(socket.accepted);
      if !connected || !hasFd || isNull || |buf| == 0 { return; }
      while totalSent < |buf|
        invariant Valid() && totalSent <= |buf| && connected && hasFd && socket.micros >= old(socket.micros)
        invariant socket.accepted == old(socket.accepted) + buf[..totalSent]
        invariant txView.Pending() == old(txView.Pending())
        invariant socket.calls == old(socket.calls) + calls && Progress(calls, buf, totalSent) && Advancing(calls)
        decreases |buf| - totalSent
      {
        var res;
        res, calls := SendRest(buf, totalSent, old(socket.calls), calls);
        Extends(old(socket.accepted), buf, totalSent, res);
        if res > 0 {
          totalSent := totalSent + res;
          continue;
        }
        if !connected { return; }
        stall := socket.micros;
        var more;
        more, calls := WaitForRoom(buf, totalSent, old(socket.calls), calls);
        Extends(old(socket.accepted), buf, totalSent, more.1);
        totalSent := totalSent + more.1;
        if !more.0 { return; }
      }
    }

    // The send of the main loop: the connection is given up when nothing was taken, unless that may pass.
    method SendRest(buf: seq<byte>, totalSent: nat, ghost base: seq<Call>, ghost before: seq<Call>)
      returns (res: int, ghost calls: seq<Call>)
      requires Valid() && connected && hasFd && totalSent < |buf|
      requires socket.calls == base + before && Progress(before, buf, totalSent) && Advancing(before)
      modifies this`connected, this`hasFd, txView, socket
      ensures Valid() && res <= |buf| - totalSent && socket.micros > old(socket.micros)
      ensures socket.accepted == old(socket.accepted) + if res > 0 then buf[totalSent..][..res] else []
      ensures connected ==> hasFd && txView.Pending() == old(txView.Pending())
      ensures socket.calls == base + calls && Progress(calls, buf, if res > 0 then totalSent + res else totalSent)
      ensures if res > 0 then connected && Advancing(calls)
              else if connected then Waits(calls) && calls[|calls| - 1].Sent? else Fatal(calls)
    {
      var passing;
      res, passing := socket.Send(buf[totalSent..]);
      calls := Record(base, before, buf, totalSent, Sent(buf[totalSent..], res, passing));
      if res == 0 || (res < 0 && !passing) { Stop(); }
    }

    lemma Extends(base: seq<byte>, buf: seq<byte>, sent: nat, res: int)
      requires sent <= |buf| && res <= |buf| - sent
      ensures res > 0 ==> base + buf[..sent] + buf[sent..][..res] == base + buf[..sent + res]
      ensures res <= 0 ==> base + buf[..sent] + [] == base + buf[..sent]
    {
      if res > 0 { assert buf[..sent + res] == buf[..sent] + buf[sent..][..res]; }
    }

    /** The buffer-full path: spin for 500 microseconds, then wait with select, until something was sent
        (true), the connection is lost or the timeout has passed (false). */
    method WaitForRoom(buf: seq<byte>, totalSent: nat, ghost base: seq<Call>, ghost before: seq<Call>)
      returns (more: (bool, nat), ghost calls: seq<Call>)
      requires Valid() && connected && hasFd && totalSent < |buf|
      requires socket.calls == base + before && Progress(before, buf, totalSent)
      requires Waits(before) && before[|before| - 1].Sent?
      modifies this`connected, this`hasFd, txView, socket
      ensures Valid() && totalSent + more.1 <= |buf| && (more.0 <==> more.1 > 0)
      ensures socket.accepted == old(socket.accepted) + if more.1 > 0 then buf[totalSent..][..more.1] else []
      ensures more.0 ==> connected && hasFd
      ensures connected ==> txView.Pending() == old(txView.Pending()) && hasFd
      ensures socket.micros >= old(socket.micros)
      ensures !more.0 ==> socket.micros - socket.idle == old(socket.micros - socket.idle)
      ensures !more.0 && connected ==> socket.micros + 1000 > old(socket.micros) + timeout * 1000
      ensures socket.calls == base + calls && Progress(calls, buf, totalSent + more.1)
      ensures if more.0 then Advancing(calls) else if connected then Waits(calls) else Fatal(calls)
    {
      calls := before;
      var startMs := socket.micros / 1000;
      var spinStart := socket.micros;
      while true
        invariant Valid() && connected && hasFd && socket.micros >= old(socket.micros) == spinStart
        invariant socket.accepted == old(socket.accepted)
        invariant socket.micros - socket.idle == old(socket.micros - socket.idle)
        invariant txView.Pending() == old(txView.Pending())
        invariant socket.calls == base + calls && Progress(calls, buf, totalSent) && Waits(calls)
        invariant calls[|calls| - 1].Waited? ==> socket.micros - spinStart >= 500
        decreases (startMs + timeout) * 1000 - socket.micros
      {
        var waitedMs := socket.micros / 1000 - startMs;
        if waitedMs >= timeout { return (false, 0), calls; }
        var res;
        res, calls := Attempt(buf, totalSent, socket.micros - spinStart < 500, base, calls);
        if res > 0 { return (true, res), calls; }
        if !connected { return (false, 0), calls; }
      }
    }

    // One attempt of the wait: a send in the spin, afterwards a select and, if there is room, a send.
    method Attempt(buf: seq<byte>, totalSent: nat, spinning: bool, ghost base: seq<Call>, ghost before: seq<Call>)
      returns (res: int, ghost calls: seq<Call>)
      requires Valid() && connected && hasFd && totalSent < |buf|
      requires socket.calls == base + before && Progress(before, buf, totalSent)
      requires Waits(before) && (spinning ==> before[|before| - 1].Sent?)
      modifies this`connected, this`hasFd, txView, socket
      ensures Valid() && res <= |buf| - totalSent && socket.micros > old(socket.micros)
      ensures res > 0 ==> socket.accepted == old(socket.accepted) + buf[totalSent..][..res]
      ensures res <= 0 ==> socket.accepted == old(socket.accepted)
      ensures res <= 0 ==> socket.micros - socket.idle == old(socket.micros - socket.idle)
      ensures connected ==> hasFd && txView.Pending() == old(txView.Pending())
      ensures socket.calls == base + calls && Progress(calls, buf, if res > 0 then totalSent + res else totalSent)
      ensures if res > 0 then connected && Advancing(calls) else if connected then Waits(calls) else Fatal(calls)
      ensures calls != [] && (spinning ==> calls[|calls| - 1].Sent?)
    {
      calls := before;
      if !spinning {
        var ready := socket.Select();
        calls := Record(base, calls, buf, totalSent, Waited(ready));
        if ready <= 0 { return 0, calls; }
      }
      res, calls := SendInWait(buf, totalSent, base, calls);
    }

    // A send of the wait: the connection is given up when it failed for good.
    method SendInWait(buf: seq<byte>, totalSent: nat, ghost base: seq<Call>, ghost before: seq<Call>)
      returns (res: int, ghost calls: seq<Call>)
      requires Valid() && connected && hasFd && totalSent < |buf|
      requires socket.calls == base + before && Progress(before, buf, totalSent) && !Advancing(before) && !Fatal(before)
      requires before[|before| - 1].Waited? ==> before[|before| - 1].res > 0
      modifies this`connected, this`hasFd, txView, socket
      ensures Valid() && res <= |buf| - totalSent && socket.micros > old(socket.micros)
      ensures socket.accepted == old(socket.accepted) + if res > 0 then buf[totalSent..][..res] else []
      ensures res <= 0 ==> socket.micros - socket.idle == old(socket.micros - socket.idle)
      ensures connected ==> hasFd && txView.Pending() == old(txView.Pending())
      ensures socket.calls == base + calls && Progress(calls, buf, if res > 0 then totalSent + res else totalSent)
      ensures if res > 0 then connected && Advancing(calls) else if connected then Waits(calls) else Fatal(calls)
      ensures calls != [] && calls[|calls| - 1].Sent?
    {
      var passing;
      res, passing := socket.Send(buf[totalSent..]);
      calls := Record(base, before, buf, totalSent, Sent(buf[totalSent..], res, passing));
      if res <= 0 && !passing { Stop(); }
    }

    // One more call in the record of a write.
    lemma Record(base: seq<Call>, calls: seq<Call>, buf: seq<byte>, sent: nat, c: Call) returns (longer: seq<Call>)
      requires Progress(calls, buf, sent) && sent <= |buf|
      requires May(calls, c) && (c.Sent? ==> c.data == buf[sent..])
      ensures longer == calls + [c] && (base + calls) + [c] == base + longer
      ensures Progress(longer, buf, if c.Sent? && c.res > 0 then sent + c.res else sent)
      ensures Fatal(longer) <==> c.Sent? && c.res <= 0 && (!c.passing || (c.res == 0 && Advancing(calls)))
      ensures (Waits(longer) <==> c.res <= 0 && !Fatal(longer)) && (c.Sent? && c.res > 0 ==> Advancing(longer))
    {
      longer := calls + [c];
      ProgressAppend(calls, buf, sent, c);
      InPieces(base, calls, [c]);
    }
  }
}
