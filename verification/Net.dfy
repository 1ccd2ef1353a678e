/** src/net.c: transferring exact amounts over stream sockets, and the readers and writers built on it.

  The kernel is an oracle. A schedule decides how often a call is interrupted and how little each call moves; when it
  is used up, calls move as much as they can. Every finite sequence of kernel answers with finitely many retries is the
  start of such a schedule. End of file and hard errors are sticky: a connection delivers the bytes of `inbound` and
  then nothing, and accepts `limit` bytes and then nothing. */
module Net {
  import opened Wrappers
  import opened Bytes
  import opened Wire

  /** What the kernel does with one call: interrupt it (EINTR, EAGAIN), or move at most `extra + 1` bytes. */
  datatype Answer = Retry | Move(extra: nat)

  /** The sending side of a socket: the bytes it has carried, and how many it will ever carry. */
  datatype Outgoing_ = Outgoing(sent: bytes, limit: nat)
  type Outgoing = o: Outgoing_ | |o.sent| <= o.limit witness Outgoing([], 0)

  /** Effect of trying to send `data`: as much of it as the connection still accepts. */
  function Put(o: Outgoing, data: bytes): Outgoing {
    o.(sent := Clip(o.sent + data, o.limit))
  }

  predicate Fits(o: Outgoing, data: bytes) {
    |o.sent| + |data| <= o.limit
  }

  /** Consecutive sends are one send of the concatenation, also when the connection breaks in between. */
  lemma PutPut(o: Outgoing, a: bytes, b: bytes)
    ensures Put(Put(o, a), b) == Put(o, a + b)
  {
    ClipAppend(o.sent + a, b, o.limit);
    Assoc(o.sent, a, b);
  }

  lemma PutNothing(o: Outgoing)
    ensures Put(o, []) == o
  {
    assert o.sent + [] == o.sent;
  }

  /** Once a send has failed, nothing sent later goes out. */
  lemma PutAfterFailure(o: Outgoing, a: bytes, b: bytes)
    requires !Fits(o, a)
    ensures Put(Put(o, a), b) == Put(o, a)
  {
  }

  /** One end of a stream connection. */
  class Socket {
    const id: nat            // names the connection
    const reset: bool        // it ends with an error instead of end of file
    var pending: bytes       // what it will still deliver
    var out: Outgoing        // what it has carried, and how much it will accept
    var schedule: seq<Answer>

    constructor (id: nat, reset: bool, pending: bytes, limit: nat, schedule: seq<Answer>)
      ensures this.id == id && this.reset == reset && this.pending == pending
      ensures out == Outgoing([], limit) && this.schedule == schedule
    {
      this.id, this.reset, this.pending, this.schedule := id, reset, pending, schedule;
      this.out := Outgoing([], limit);
    }

    /** read(2) on a blocking stream socket: the count, 0 for end of file, -1 for an error (`again`: a retryable one). */
    method Read(buf: array<byte>, offset: nat, n: nat) returns (count: int, again: bool)
      requires n > 0 && offset + n <= buf.Length
      modifies this`pending, this`schedule, buf
      ensures -1 <= count <= n && count <= |old(pending)|
      ensures count <= 0 ==> pending == old(pending) && buf[..] == old(buf[..])
      ensures count > 0 ==> pending == old(pending)[count..]
      ensures count > 0 ==> buf[offset..offset + count] == old(pending)[..count]
      ensures count > 0 ==> buf[..offset] == old(buf[..offset])
      ensures count > 0 ==> buf[offset + count..] == old(buf[offset + count..])
      ensures again ==> count == -1 && |schedule| < |old(schedule)|
      ensures !again && count <= 0 ==> pending == []
      ensures |schedule| <= |old(schedule)|
    {
      var cap := n;
      if schedule != [] {
        var answer := schedule[0];
        schedule := schedule[1..];
        if answer.Retry? {
          return -1, true;
        }
        cap := Min(n, answer.extra + 1);
      }
      if pending == [] {
        return if reset then -1 else 0, false;
      }
      var moved := Min(cap, |pending|);
      forall i | 0 <= i < moved {
        buf[offset + i] := pending[i];
      }
      pending := pending[moved..];
      return moved, false;
    }

    /** send(2) with MSG_NOSIGNAL on a blocking stream socket. */
    method Send(data: bytes) returns (count: int, again: bool)
      requires data != []
      modifies this`out, this`schedule
      ensures -1 <= count <= |data| && count != 0
      ensures count == -1 ==> out == old(out)
      ensures count > 0 ==> Fits(old(out), data[..count]) && out == Put(old(out), data[..count])
      ensures again ==> count == -1 && |schedule| < |old(schedule)|
      ensures !again && count == -1 ==> |out.sent| == out.limit
      ensures |schedule| <= |old(schedule)|
    {
      var cap := |data|;
      if schedule != [] {
        var answer := schedule[0];
        schedule := schedule[1..];
        if answer.Retry? {
          return -1, true;
        }
        cap := Min(cap, answer.extra + 1);
      }
      if |out.sent| == out.limit {
        return -1, false;
      }
      var moved := Min(cap, out.limit - |out.sent|);
      out := Put(out, data[..moved]);
      return moved, false;
    }
  }

  /** Refines an atomic read: for every schedule it terminates, succeeds exactly when `n` bytes remain, consumes those
    and no more, and otherwise leaves the connection exhausted. */
  method DoRead(s: Socket, buf: array<byte>, n: nat) returns (ok: bool)
    requires n <= buf.Length
    modifies s`pending, s`schedule, buf
    ensures ok == (n <= |old(s.pending)|)
    ensures ok ==> s.pending == old(s.pending)[n..]
    ensures ok ==> buf[..n] == old(s.pending)[..n]
    ensures buf[n..] == old(buf[n..])
    ensures !ok ==> s.pending == []
  {
    ghost var start := s.pending;
    var total := 0;
    while total < n
      invariant total <= n && total <= |start|
      invariant s.pending == start[total..]
      invariant buf[..total] == start[..total]
      invariant buf[n..] == old(buf[n..])
      decreases n - total, |s.schedule|
    {
      label before:
      var count, again := s.Read(buf, total, n - total);
      if count < 0 {
        if again {
          continue;
        }
        return false;
      }
      if count == 0 {
        return false;
      }
      assert buf[n..] == old@before(buf[n..]) by {
        assert buf[n..] == buf[total + count..][n - total - count..];
        assert old@before(buf[n..]) == old@before(buf[total + count..])[n - total - count..];
      }
      assert buf[..total + count] == buf[..total] + buf[total..total + count];
      assert start[..total + count] == start[..total] + start[total..][..count];
      assert start[total..][count..] == start[total + count..];
      total := total + count;
    }
    return true;
  }

  /** Refines an atomic write: for every schedule it terminates, success means that all of `data` was carried, in order,
    and failure that only the part the connection still accepted was. */
  method DoWrite(s: Socket, data: bytes) returns (ok: bool)
    modifies s`out, s`schedule
    ensures ok == Fits(old(s.out), data)
    ensures s.out == Put(old(s.out), data)
    ensures s.out.limit == old(s.out.limit)
    ensures ok ==> s.out.sent == old(s.out.sent) + data
    ensures !ok ==> s.out.sent == old(s.out.sent) + data[..s.out.limit - |old(s.out.sent)|]
    ensures ok <==> |old(s.out.sent)| + |data| <= s.out.limit
  {
    ghost var o := s.out;
    var total := 0;
    PutNothing(o);
    assert data[..0] == [];
    while total < |data|
      invariant total <= |data| && Fits(o, data[..total])
      invariant s.out == Put(o, data[..total])
      decreases |data| - total, |s.schedule|
    {
      var count, again := s.Send(data[total..]);
      if count < 0 {
        if again {
          continue;
        }
        PutPut(o, data[..total], data[total..]);
        assert data[..total] + data[total..] == data;
        return false;
      }
      PutPut(o, data[..total], data[total..][..count]);
      assert data[..total] + data[total..][..count] == data[..total + count];
      total := total + count;
    }
    assert data[..total] == data;
    return true;
  }

  // ----- Fixed-width values and strings -----

  method WriteInt(s: Socket, v: int32) returns (ok: bool)
    modifies s`out, s`schedule
    ensures ok == Fits(old(s.out), IntBytes(v))
    ensures s.out == Put(old(s.out), IntBytes(v))
  {
    ok := DoWrite(s, IntBytes(v));
  }

  /** What of a string is sent: nothing of NULL, the first `len` bytes if the caller says so, and otherwise all of it up to
    VOYEUR_MAX_STRLEN bytes. */
  function Sent(v: Option<cstr>, len: size64): (t: bytes)
    requires v.Some? ==> len <= |v.value|
    ensures |t| < 0x1_0000_0000_0000_0000
    ensures v.None? || len == 0 ==> t == Text(v)
  {
    if v.Some? && len > 0 then v.value[..len] else Text(v)
  }

  method WriteString(s: Socket, v: Option<cstr>, len: size64) returns (ok: bool)
    requires v.Some? ==> len <= |v.value|
    modifies s`out, s`schedule
    ensures var m := SizeBytes(|Sent(v, len)|) + Sent(v, len);
            ok == Fits(old(s.out), m) && s.out == Put(old(s.out), m)
    ensures v.None? || len == 0 ==> s.out == Put(old(s.out), StrBytes(v))
  {
    ghost var o := s.out;
    var n := len;
    if v.None? {
      n := 0;
    } else if n == 0 {
      n := Min(|v.value|, MAX_STRLEN);
    }
    var text := if v.Some? then v.value[..n] else [];
    assert text == Sent(v, len);
    PutPut(o, SizeBytes(n), text);
    ok := DoWrite(s, SizeBytes(n));
    if !ok {
      PutAfterFailure(o, SizeBytes(n), text);
      return false;
    }
    ok := DoWrite(s, text);
  }

  method ReadInt(s: Socket) returns (ok: bool, v: int32)
    modifies s`pending, s`schedule
    ensures old(s.pending) == [] ==> v == 0
    ensures var p := TakeInt(old(s.pending));
            ok == p.Got? && (ok ==> v == p.value) && s.pending == p.Left()
  {
    var cell := new byte[4];
    ok := DoRead(s, cell, 4);
    assert ok ==> cell[..] == old(s.pending)[..4];
    v := if ok then BytesInt(cell[..]) else 0;
  }

  method ReadSize(s: Socket) returns (ok: bool, v: size64)
    modifies s`pending, s`schedule
    ensures var p := TakeSize(old(s.pending));
            ok == p.Got? && (ok ==> v == p.value) && s.pending == p.Left()
  {
    var cell := new byte[8];
    ok := DoRead(s, cell, 8);
    assert ok ==> cell[..] == old(s.pending)[..8];
    v := if ok then BytesSize(cell[..]) else 0;
  }

  /** Reads into a buffer: a fresh one with room for the terminating NUL if `maxlen` is 0, and one of the caller's of that
    size otherwise. Then a string for which it is too small is an error, and its bytes stay on the connection. `v` is the
    text in the buffer. */
  method ReadString(s: Socket, maxlen: nat) returns (ok: bool, v: bytes)
    modifies s`pending, s`schedule
    ensures var p, n := TakeString(old(s.pending)), TakeSize(old(s.pending));
            if n.Got? && 0 < maxlen <= n.value then !ok && s.pending == n.rest
            else ok == p.Got? && (ok ==> v == p.value) && s.pending == p.Left()
  {
    v := [];
    var len;
    ok, len := ReadSize(s);
    if !ok {
      return;
    }
    var room: nat := maxlen;
    if maxlen == 0 {
      var n: nat := len;
      room := n + 1;
    } else if maxlen <= len {
      return false, [];
    }
    ghost var start := s.pending;
    var buf := new byte[room];
    ok := DoRead(s, buf, len);
    if ok {
      assert buf[..len] == start[..len];
      buf[len] := 0;
      v := buf[..len];
    }
  }
}
