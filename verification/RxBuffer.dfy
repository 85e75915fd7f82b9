/** The TCP receive buffer of a client: no byte is lost, duplicated or reordered between the socket and the
    reader, through the staging buffer or past it. */
module RxBuffer {
  import opened Prelude

  const RX_BUFFER_SIZE := 8192

  // The sequence with `data` written over it from position `at`.
  function Overwrite(s: seq<byte>, at: nat, data: seq<byte>): seq<byte>
    requires at + |data| <= |s|
  {
    s[..at] + data + s[at + |data|..]
  }

  lemma OverwriteNothing(s: seq<byte>, at: nat)
    requires at <= |s|
    ensures Overwrite(s, at, []) == s
  {
  }

  lemma OverwriteTwice(s: seq<byte>, at: nat, a: seq<byte>, b: seq<byte>)
    requires at + |a| + |b| <= |s|
    ensures Overwrite(Overwrite(s, at, a), at + |a|, b) == Overwrite(s, at, a + b)
  {
  }

  lemma InPieces(s: seq<byte>, a: seq<byte>, b: seq<byte>)
    ensures (s + a) + b == s + (a + b)
  {
  }

  // A recv and its answer: what it had room for, what it gave, and whether errno was passing.
  datatype Call = Received(max: nat, data: seq<byte>, res: int, passing: bool) {
    predicate Hard() {
      res < 0 && !passing
    }
  }

  // Everything that the calls gave.
  function Data(calls: seq<Call>): seq<byte> {
    if calls == [] then [] else Data(calls[..|calls| - 1]) + calls[|calls| - 1].data
  }

  function AtLeast(a: int, b: int): int {
    if a >= b then a else b
  }

  // At most the first n bytes, and what is left of them.
  function First(s: seq<byte>, n: nat): seq<byte> {
    if |s| <= n then s else s[..n]
  }

  function Behind(s: seq<byte>, n: nat): seq<byte> {
    if |s| <= n then [] else s[n..]
  }

  /** The receive side of a socket. `arrived` is everything the peer has sent so far; `queue` what recv has not
      taken yet. More bytes may arrive during any call, up to the number still `coming`, which is arbitrary; and
      recv takes any part of the queue, or fails. */
  class Socket {
    var queue: seq<byte>
    var coming: nat
    ghost var taken: seq<byte>
    ghost var arrived: seq<byte>
    ghost var calls: seq<Call>

    ghost predicate Valid()
      reads this
    {
      arrived == taken + queue
    }

    constructor (coming: nat)
      ensures Valid() && arrived == [] && calls == [] && this.coming == coming
    {
      queue, taken, arrived, calls := [], [], [], [];
      this.coming := coming;
    }

    method Arrive(more: seq<byte>)
      requires Valid() && |more| <= coming
      modifies this`queue, this`coming, this`arrived
      ensures Valid() && arrived == old(arrived) + more
      ensures coming == old(coming) - |more| && |queue| == |old(queue)| + |more|
    {
      coming := coming - |more|;
      queue := queue + more;
      arrived := arrived + more;
    }

    /** recv without blocking: res > 0 bytes of data, 0 when the peer has closed, -1 on an error that is
        either passing (would block, interrupted) or hard. */
    method Recv(max: nat) returns (res: int, data: seq<byte>, passing: bool)
      requires Valid()
      modifies this
      ensures Valid() && old(arrived) <= arrived
      ensures res <= max && (res > 0 ==> |data| == res) && (res <= 0 ==> data == [])
      ensures calls == old(calls) + [Received(max, data, res, passing)]
      ensures taken == old(taken) + data && |queue| + coming == |old(queue)| + old(coming) - |data|
    {
      var more: seq<byte> := *;
      if |more| <= coming { Arrive(more); }
      passing := *;
      res := *;
      data := [];
      if 0 < res <= |queue| && res <= max {
        data := queue[..res];
        queue := queue[res..];
        taken := taken + data;
      } else if res > 0 {
        res := 0;
      }
      calls := calls + [Received(max, data, res, passing)];
    }

    // The FIONREAD count, or an error.
    method Waiting() returns (ok: bool, count: nat)
      ensures ok ==> count == |queue|
    {
      ok := *;
      count := |queue|;
    }
  }

  class WiFiClientRxBuffer {
    const socket: Socket
    const buffer: array<byte>
    var pos: nat
    var fill: nat
    var failed: bool
    ghost var delivered: seq<byte>

    // The bytes read from the socket and not yet handed out.
    ghost function Staged(): seq<byte>
      reads this, buffer
      requires pos <= fill <= buffer.Length
    {
      buffer[pos..fill]
    }

    /** Everything taken from the socket was delivered or is staged, in order; a drained buffer is rewound. */
    ghost predicate Valid()
      reads this, buffer, socket
    {
      && buffer.Length == RX_BUFFER_SIZE && pos <= fill <= buffer.Length && (pos == fill ==> pos == 0)
      && socket.Valid() && socket.taken == delivered + Staged()
    }

    constructor (socket: Socket)
      requires socket.Valid() && socket.taken == []
      ensures Valid() && fresh(buffer) && this.socket == socket && !failed && delivered == []
    {
      this.socket := socket;
      buffer := new byte[RX_BUFFER_SIZE];
      pos, fill, failed, delivered := 0, 0, false, [];
    }

    // So delivered ++ staged ++ queued is always exactly what has arrived.
    lemma Conservation()
      requires Valid()
      ensures socket.arrived == delivered + Staged() + socket.queue
    {
    }

    // memcpy into a byte array.
    method CopyTo(dst: array<byte>, at: nat, data: seq<byte>)
      requires at + |data| <= dst.Length
      modifies dst
      ensures dst[..] == Overwrite(old(dst[..]), at, data)
    {
      forall k | 0 <= k < |data| { dst[at + k] := data[k]; }
    }

    /** fillBuffer: unless the buffer is full to its end, one recv of the room behind the staged bytes, which go
        before what it gives. */
    method FillBuffer() returns (more: bool, ghost calls: seq<Call>)
      requires Valid()
      modifies this, buffer, socket
      ensures Valid() && delivered == old(delivered) && old(Staged()) <= Staged()
      ensures more <==> Staged() != old(Staged())
      ensures (old(failed) ==> failed) && (more ==> failed == old(failed))
      ensures socket.calls == old(socket.calls) + calls
      ensures if old(pos < fill == RX_BUFFER_SIZE) then
                calls == [] && Staged() == old(Staged()) && failed == old(failed)
              else
                && |calls| == 1 && calls[0].max == RX_BUFFER_SIZE - old(if pos == fill then 0 else fill)
                && Staged() == old(Staged()) + calls[0].data && failed == (old(failed) || calls[0].Hard())
    {
      calls := [];
      if pos == fill {
        pos, fill := 0, 0;
      } else if RX_BUFFER_SIZE <= fill {
        return false, calls;
      }
      more, calls := ReceiveBehind();
    }

    // The recv of fillBuffer.
    method ReceiveBehind() returns (more: bool, ghost calls: seq<Call>)
      requires Valid() && fill < RX_BUFFER_SIZE
      modifies this`fill, this`failed, buffer, socket
      ensures Valid() && socket.calls == old(socket.calls) + calls
      ensures |calls| == 1 && calls[0].max == RX_BUFFER_SIZE - old(fill) && (more <==> calls[0].data != [])
      ensures Staged() == old(Staged()) + calls[0].data && failed == (old(failed) || calls[0].Hard())
      ensures more ==> !calls[0].Hard()
    {
      ghost var staged := Staged();
      var res, data, passing := socket.Recv(RX_BUFFER_SIZE - fill);
      calls := [Received(RX_BUFFER_SIZE - old(fill), data, res, passing)];
      assert data == [] ==> staged + data == staged;
      if res < 0 {
        if !passing { failed := true; }
        return false, calls;
      }
      Stage(data);
      InPieces(delivered, staged, data);
      more := res > 0;
    }

    // recv into the free end of the buffer.
    method Stage(data: seq<byte>)
      requires buffer.Length == RX_BUFFER_SIZE && pos <= fill && fill + |data| <= buffer.Length
      modifies this`fill, buffer
      ensures fill == old(fill) + |data| && Staged() == old(Staged()) + data
    {
      ghost var before, after := buffer[..fill], buffer[fill + |data|..];
      CopyTo(buffer, fill, data);
      MiddleOf(before, data, after, pos);
      fill := fill + |data|;
    }

    static lemma MiddleOf(a: seq<byte>, b: seq<byte>, c: seq<byte>, i: nat)
      requires i <= |a|
      ensures (a + b + c)[i..|a| + |b|] == a[i..] + b
    {
    }

    /** read: serves staged bytes first; a large rest is received straight into the caller's array, a small
        one through the buffer. What it returns, `got`, is the next part of the stream and all it writes: as much
        as the caller has room for of the staged bytes and, if these are too few, of what exactly one recv gives;
        the surplus stays staged. */
    method Read(dst: array?<byte>, len: nat) returns (n: int, ghost got: seq<byte>, ghost calls: seq<Call>)
      requires Valid() && dst != buffer && (dst != null ==> len <= dst.Length)
      modifies this, buffer, socket
      modifies if dst != null then {dst} else {}
      ensures Valid() && delivered == old(delivered) + got && |got| <= len && (old(failed) ==> failed)
      ensures dst != null ==> dst[..] == Overwrite(old(dst[..]), 0, got)
      ensures n == if got != [] then |got| else if failed then -1 else 0
      ensures dst != null && old(pos < fill) && len > 0 ==> n > 0
      ensures socket.calls == old(socket.calls) + calls
      ensures var staged := old(Staged());
        if dst == null then calls == [] && got == [] && Staged() == staged && failed == old(failed)
        else if len <= |staged| then
          calls == [] && got == First(staged, len) && Staged() == Behind(staged, len) && failed == old(failed)
        else
          && |calls| == 1 && calls[0].max == AtLeast(len - |staged|, RX_BUFFER_SIZE)
          && got == First(staged + calls[0].data, len) && Staged() == Behind(staged + calls[0].data, len)
          && failed == (old(failed) || calls[0].Hard())
    {
      got, calls := [], [];
      if dst == null || len == 0 {
        if dst != null { OverwriteNothing(dst[..], 0); }
        n := if failed then -1 else 0;
        return;
      }
      n, got, calls := ReadInto(dst, len);
    }

    method ReadInto(dst: array<byte>, len: nat) returns (n: int, ghost got: seq<byte>, ghost calls: seq<Call>)
      requires Valid() && dst != buffer && 0 < len <= dst.Length
      modifies this, buffer, socket, dst
      ensures Valid() && delivered == old(delivered) + got && |got| <= len
      ensures dst[..] == Overwrite(old(dst[..]), 0, got)
      ensures n == if got != [] then |got| else if failed then -1 else 0
      ensures socket.calls == old(socket.calls) + calls
      ensures var staged := old(Staged());
        if len <= |staged| then
          calls == [] && got == First(staged, len) && Staged() == Behind(staged, len) && failed == old(failed)
        else
          && |calls| == 1 && calls[0].max == AtLeast(len - |staged|, RX_BUFFER_SIZE)
          && got == First(staged + calls[0].data, len) && Staged() == Behind(staged + calls[0].data, len)
          && failed == (old(failed) || calls[0].Hard())
    {
      got, calls := [], [];
      ghost var staged := Staged();
      var total := 0;
      OverwriteNothing(dst[..], 0);
      if pos != fill {
        total, got := ServeStaged(dst, 0, len);
        if total == len { return total, got, calls; }
      }
      ghost var next;
      n, next, calls := ReceiveBehindServed(dst, total, len - total, old(dst[..]), got);
      FirstOfTwo(staged, calls[0].data, len);
      InPieces(old(delivered), got, next);
      got := got + next;
      n := if n > 0 then total + n else if total > 0 then total else if failed then -1 else 0;
    }

    // The second part of read, whose bytes go behind those already served.
    method ReceiveBehindServed(dst: array<byte>, at: nat, len: nat, ghost before: seq<byte>, ghost served: seq<byte>)
      returns (n: int, ghost got: seq<byte>, ghost calls: seq<Call>)
      requires Valid() && pos == fill && len > 0 && at + len <= dst.Length && dst != buffer
      requires |served| == at && |before| == dst.Length && dst[..] == Overwrite(before, 0, served)
      modifies this, buffer, socket, dst
      ensures Valid() && delivered == old(delivered) + got && |got| == (if n > 0 then n else 0) <= len
      ensures dst[..] == Overwrite(before, 0, served + got)
      ensures socket.calls == old(socket.calls) + calls && |calls| == 1 && calls[0].max == AtLeast(len, RX_BUFFER_SIZE)
      ensures got == First(calls[0].data, len) && Staged() == Behind(calls[0].data, len)
      ensures failed == (old(failed) || calls[0].Hard())
    {
      n, got, calls := ReceiveRest(dst, at, len);
      OverwriteTwice(before, 0, served, got);
    }

    static lemma FirstOfTwo(a: seq<byte>, b: seq<byte>, n: nat)
      requires |a| <= n
      ensures First(a + b, n) == a + First(b, n - |a|) && Behind(a + b, n) == Behind(b, n - |a|)
    {
    }

    // A large rest goes straight into the caller's array, a small one through the buffer, which is drained.
    method ReceiveRest(dst: array<byte>, at: nat, len: nat)
      returns (n: int, ghost got: seq<byte>, ghost calls: seq<Call>)
      requires Valid() && pos == fill && len > 0 && at + len <= dst.Length && dst != buffer
      modifies this, buffer, socket, dst
      ensures Valid() && delivered == old(delivered) + got
      ensures |got| == (if n > 0 then n else 0) <= len && dst[..] == Overwrite(old(dst[..]), at, got)
      ensures socket.calls == old(socket.calls) + calls && |calls| == 1
      ensures calls[0].max == AtLeast(len, RX_BUFFER_SIZE)
      ensures got == First(calls[0].data, len) && Staged() == Behind(calls[0].data, len)
      ensures failed == (old(failed) || calls[0].Hard())
    {
      if len >= RX_BUFFER_SIZE {
        n, got, calls := ReceiveDirect(dst, at, len);
      } else {
        n, got, calls := ReceiveStaged(dst, at, len);
      }
    }

    // Copies staged bytes to dst[at..], as many as there are and the caller has room for.
    method ServeStaged(dst: array<byte>, at: nat, len: nat) returns (k: nat, ghost got: seq<byte>)
      requires Valid() && pos != fill && 0 < len && at + len <= dst.Length && dst != buffer
      modifies this`pos, this`fill, this`delivered, dst
      ensures Valid() && delivered == old(delivered) + got && 0 < k == |got| <= len && (k < len ==> pos == fill)
      ensures got == First(old(Staged()), len) && Staged() == Behind(old(Staged()), len)
      ensures dst[..] == Overwrite(old(dst[..]), at, got)
    {
      var avail := fill - pos;
      k := if len < avail then len else avail;
      got := buffer[pos..pos + k];
      assert Staged() == got + buffer[pos + k..fill];
      CopyTo(dst, at, buffer[pos..pos + k]);
      delivered := delivered + got;
      pos := pos + k;
      if pos == fill { pos, fill := 0, 0; }
    }

    // The bypass: recv straight into the caller's array.
    method ReceiveDirect(dst: array<byte>, at: nat, len: nat)
      returns (n: int, ghost got: seq<byte>, ghost calls: seq<Call>)
      requires Valid() && pos == fill && at + len <= dst.Length && dst != buffer
      modifies this`failed, this`delivered, socket, dst
      ensures Valid() && delivered == old(delivered) + got && Staged() == []
      ensures |got| == (if n > 0 then n else 0) <= len && dst[..] == Overwrite(old(dst[..]), at, got)
      ensures socket.calls == old(socket.calls) + calls && |calls| == 1 && calls[0].max == len
      ensures got == calls[0].data && failed == (old(failed) || calls[0].Hard())
    {
      assert Staged() == [] && delivered + Staged() == delivered;
      var res, data, passing := socket.Recv(len);
      calls := [Received(len, data, res, passing)];
      OverwriteNothing(dst[..], at);
      if res > 0 {
        CopyTo(dst, at, data);
      } else if res < 0 && !passing {
        failed := true;
      }
      delivered := delivered + data;
      n, got := res, data;
    }

    // Small rests go through the buffer, which keeps what the caller has no room for.
    method ReceiveStaged(dst: array<byte>, at: nat, len: nat)
      returns (n: int, ghost got: seq<byte>, ghost calls: seq<Call>)
      requires Valid() && pos == fill && len > 0 && at + len <= dst.Length && dst != buffer
      modifies this, buffer, socket, dst
      ensures Valid() && delivered == old(delivered) + got
      ensures |got| == (if n > 0 then n else 0) <= len && dst[..] == Overwrite(old(dst[..]), at, got)
      ensures socket.calls == old(socket.calls) + calls && |calls| == 1 && calls[0].max == RX_BUFFER_SIZE
      ensures got == First(calls[0].data, len) && Staged() == Behind(calls[0].data, len)
      ensures failed == (old(failed) || calls[0].Hard())
    {
      assert Staged() == [] && delivered + Staged() == delivered;
      var res, data, passing := socket.Recv(RX_BUFFER_SIZE);
      calls := [Received(RX_BUFFER_SIZE, data, res, passing)];
      if res > 0 {
        Stage(data);
        assert Staged() == data;
        n, got := ServeStaged(dst, at, len);
      } else {
        if res < 0 && !passing { failed := true; }
        OverwriteNothing(dst[..], at);
        assert socket.taken == delivered + Staged() && delivered == delivered + [];
        n, got := res, [];
      }
    }

    // peek: the next byte of the stream, which stays the next one; a drained buffer is filled by one recv.
    method Peek() returns (b: int, ghost calls: seq<Call>)
      requires Valid()
      modifies this, buffer, socket
      ensures Valid() && delivered == old(delivered)
      ensures b >= 0 ==> |delivered| < |socket.arrived| && b == socket.arrived[|delivered|] && pos < fill
      ensures old(pos < fill) ==> b >= 0
      ensures b < 0 ==> b == -1 && pos == fill
      ensures (old(failed) ==> failed) && (b >= 0 ==> failed == old(failed))
      ensures socket.calls == old(socket.calls) + calls && b == if Staged() == [] then -1 else Staged()[0]
      ensures if old(pos < fill) then calls == [] && Staged() == old(Staged()) && failed == old(failed)
              else
                && |calls| == 1 && calls[0].max == RX_BUFFER_SIZE
                && Staged() == calls[0].data && failed == (old(failed) || calls[0].Hard())
    {
      calls := [];
      if pos == fill {
        var more;
        more, calls := FillBuffer();
        assert Staged() == [] + calls[0].data == calls[0].data;
        if !more { return -1, calls; }
      }
      assert Staged()[0] == buffer[pos];
      b := buffer[pos];
    }

    /** flush: drops the staged bytes and what the socket holds, which are the next part of the stream; so what
        is read later follows right behind. It receives until a recv gives nothing, and only then ends. */
    method Flush() returns (ghost gone: seq<byte>, ghost calls: seq<Call>)
      requires Valid()
      modifies this, buffer, socket
      ensures Valid() && Staged() == [] && failed == old(failed)
      ensures delivered == old(delivered) + gone && gone == old(Staged()) + Data(calls)
      ensures socket.calls == old(socket.calls) + calls && calls != []
      ensures forall k :: 0 <= k < |calls| ==> calls[k].max == RX_BUFFER_SIZE && (calls[k].res > 0 <==> k < |calls| - 1)
    {
      gone, calls := Staged(), [];
      pos, fill, delivered := 0, 0, delivered + gone;
      while true
        invariant Valid() && pos == fill && failed == old(failed)
        invariant delivered == old(delivered) + gone && gone == old(Staged()) + Data(calls)
        invariant socket.calls == old(socket.calls) + calls
        invariant forall k :: 0 <= k < |calls| ==> calls[k].max == RX_BUFFER_SIZE && calls[k].res > 0
        decreases |socket.queue| + socket.coming
      {
        var res;
        ghost var c;
        res, c := Discard();
        DataAppend(old(Staged()), calls, c);
        InPieces(old(delivered), gone, c.data);
        gone, calls := gone + c.data, calls + [c];
        if res <= 0 { break; }
      }
    }

    // One recv whose bytes are dropped.
    method Discard() returns (res: int, ghost c: Call)
      requires Valid() && pos == fill
      modifies this`delivered, buffer, socket
      ensures Valid() && c.max == RX_BUFFER_SIZE && c.res == res && (res > 0 <==> c.data != [])
      ensures delivered == old(delivered) + c.data && socket.calls == old(socket.calls) + [c]
      ensures |socket.queue| + socket.coming == |old(socket.queue)| + old(socket.coming) - |c.data|
    {
      var data, passing;
      res, data, passing := socket.Recv(RX_BUFFER_SIZE);
      c := Received(RX_BUFFER_SIZE, data, res, passing);
      assert Staged() == [] && delivered + data == delivered + data + [];
      delivered := delivered + data;
      if res > 0 { CopyTo(buffer, 0, data); }
    }

    static lemma DataAppend(base: seq<byte>, calls: seq<Call>, c: Call)
      ensures base + Data(calls + [c]) == base + Data(calls) + c.data
    {
      assert (calls + [c])[..|calls|] == calls;
    }

    // available: staged bytes if there are any, else what the socket holds.
    method Available() returns (n: nat)
      requires Valid()
      modifies this`failed
      ensures Valid() && n <= |Staged() + socket.queue| && (old(failed) ==> failed) && (n > 0 ==> failed == old(failed))
      ensures pos < fill ==> n == |Staged()|
      ensures pos == fill && !failed ==> n == |socket.queue|
    {
      if fill > pos { return fill - pos; }
      var ok, count := socket.Waiting();
      if !ok {
        failed := true;
        return 0;
      }
      n := count;
    }
  }
}
