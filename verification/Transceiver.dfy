/** The outgoing stream: requests written to a socket that may take only part of them. */
module Outgoing {
  import opened Basics
  import opened Buffers
  import opened Framing

  const RET_ERROR: int := -1
  const RET_FULL: int := 1

  /** The bytes the socket has taken, and those kept in sendBuffer_. */
  datatype Line = Line(wire: Bytes, pending: Bytes)

  /** A size as the signed 32-bit number it is compared as. */
  function AsInt(size: nat): int {
    var u := size % UINT32;
    if u < INT32_LIMIT then u else u - UINT32
  }

  /** What send may return: an error, or how many of the bytes it was offered it took; it is offered the size
      cut to 32 bits. */
  predicate SocketMay(size: nat, ret: int) {
    ret < 0 || (ret <= size % UINT32 && ret < INT32_LIMIT)
  }

  lemma TakenFits(size: nat, ret: int)
    requires SocketMay(size, ret) && ret >= 0
    ensures ret <= size
  {}

  /** What pushData keeps of a remainder in an empty buffer. */
  function Kept(rest: Bytes): Bytes {
    if |rest| >= MAX_BUFFER_SIZE then [] else rest
  }

  function SendRequest(l: Line, data: Bytes, ret: int): (Line, int)
    requires SocketMay(|data|, ret)
  {
    if l.pending != [] || ret < 0 then (l, RET_ERROR)
    else
      TakenFits(|data|, ret);
      if ret < AsInt(|data|) then (Line(l.wire + data[..ret], Kept(data[ret..])), RET_FULL)
      else (Line(l.wire + data[..ret], []), ret)
  }

  function DoRequest(l: Line, ret: int): Line
    requires SocketMay(|l.pending|, ret)
  {
    if ret <= 0 then l
    else
      TakenFits(|l.pending|, ret);
      Line(l.wire + l.pending[..ret], l.pending[ret..])
  }

  // ----- runs

  datatype Event = Send(data: Bytes, ret: int) | Flush(ret: int)

  predicate EventMay(l: Line, e: Event) {
    match e
    case Send(data, ret) => SocketMay(|data|, ret)
    case Flush(ret) => SocketMay(|l.pending|, ret)
  }

  function Happen(l: Line, e: Event): Line
    requires EventMay(l, e)
  {
    match e
    case Send(data, ret) => SendRequest(l, data, ret).0
    case Flush(ret) => DoRequest(l, ret)
  }

  /** The request an event adds to the stream: one that is not refused with retError. */
  function Accepted(l: Line, e: Event): seq<Bytes>
    requires EventMay(l, e)
  {
    match e
    case Send(data, ret) => if SendRequest(l, data, ret).1 == RET_ERROR then [] else [data]
    case Flush(_) => []
  }

  ghost predicate RunMay(l: Line, events: seq<Event>)
    decreases |events|
  {
    events != [] ==> EventMay(l, events[0]) && RunMay(Happen(l, events[0]), events[1..])
  }

  ghost function After(l: Line, events: seq<Event>): Line
    requires RunMay(l, events)
    decreases |events|
  {
    if events == [] then l else After(Happen(l, events[0]), events[1..])
  }

  ghost function AllAccepted(l: Line, events: seq<Event>): seq<Bytes>
    requires RunMay(l, events)
    decreases |events|
  {
    if events == [] then [] else Accepted(l, events[0]) + AllAccepted(Happen(l, events[0]), events[1..])
  }

  /** The requests are short enough for the 32-bit arithmetic of sendRequest. */
  ghost predicate Short(events: seq<Event>) {
    forall k :: 0 <= k < |events| && events[k].Send? ==> |events[k].data| < INT32_LIMIT
  }

  function Stream(l: Line): Bytes { l.wire + l.pending }

  /** One call leaves the stream as it was, or appends the whole request to it. */
  lemma StepIntact(l: Line, e: Event)
    requires EventMay(l, e) && (e.Send? ==> |e.data| < INT32_LIMIT)
    ensures Stream(Happen(l, e)) == Stream(l) + Concat(Accepted(l, e))
  {
    match e
    case Send(data, ret) =>
      ConcatOne(data);
      if l.pending == [] && ret >= 0 {
        assert data == data[..ret] + data[ret..];
      }
    case Flush(ret) =>
      if ret > 0 {
        assert l.pending == l.pending[..ret] + l.pending[ret..];
      }
  }

  /** Whatever part of each write the socket takes: the bytes written followed by those kept are exactly the
      accepted requests, whole and in order, and a refused one leaves no byte. */
  lemma {:induction false} StreamIntact(l: Line, events: seq<Event>)
    requires RunMay(l, events) && Short(events)
    ensures Stream(After(l, events)) == Stream(l) + Concat(AllAccepted(l, events))
    decreases |events|
  {
    if events != [] {
      var next, more := Happen(l, events[0]), events[1..];
      var first, rest := Accepted(l, events[0]), AllAccepted(next, more);
      StepIntact(l, events[0]);
      StreamIntact(next, more);
      ConcatAppend(first, rest);
      assert Stream(l) + Concat(first) + Concat(rest) == Stream(l) + (Concat(first) + Concat(rest));
    }
  }

  /** The 32-bit arithmetic keeps a request whole, whatever the socket takes of it, exactly when the request is
      shorter than 2^31 bytes. */
  lemma IntactIffShort(data: Bytes)
    ensures (forall ret :: 0 <= ret && SocketMay(|data|, ret) ==>
              Stream(SendRequest(Line([], []), data, ret).0) == data)
            <==> |data| < INT32_LIMIT
  {
    var idle := Line([], []);
    if |data| < INT32_LIMIT {
      forall ret | 0 <= ret && SocketMay(|data|, ret) ensures Stream(SendRequest(idle, data, ret).0) == data {
        assert [] + data[..ret] + data[ret..] == data;
      }
    } else {
      var ret := if AsInt(|data|) > 0 then AsInt(|data|) else 0;
      assert SocketMay(|data|, ret);
      assert |Stream(SendRequest(idle, data, ret).0)| == ret < |data|;
    }
  }

  // ----- what the socket has taken

  /** The bytes the socket takes in an event: of a request that it is offered, or of what is kept. */
  function TakenBy(l: Line, e: Event): Bytes
    requires EventMay(l, e)
  {
    match e
    case Send(data, ret) => if l.pending != [] || ret < 0 then [] else TakenFits(|data|, ret); data[..ret]
    case Flush(ret) => if ret < 0 then [] else TakenFits(|l.pending|, ret); l.pending[..ret]
  }

  ghost function AllTaken(l: Line, events: seq<Event>): seq<Bytes>
    requires RunMay(l, events)
    decreases |events|
  {
    if events == [] then [] else [TakenBy(l, events[0])] + AllTaken(Happen(l, events[0]), events[1..])
  }

  /** In every event the wire grows by exactly what the socket takes. */
  lemma WireGrows(l: Line, e: Event)
    requires EventMay(l, e)
    ensures Happen(l, e).wire == l.wire + TakenBy(l, e)
  {}

  /** What a call of sendRequest comes to: refused, it leaves no trace; accepted, the rest of the request is kept,
      and the result is retFull if there is a rest. */
  lemma SendLeaves(l: Line, data: Bytes, ret: int)
    requires SocketMay(|data|, ret) && |data| < INT32_LIMIT
    ensures var (m, result) := SendRequest(l, data, ret);
      && (result == RET_ERROR <==> l.pending != [] || ret < 0)
      && (result == RET_ERROR ==> m == l)
      && (result != RET_ERROR ==> TakenBy(l, Send(data, ret)) + m.pending == data)
      && (result != RET_ERROR ==> result == if m.pending != [] then RET_FULL else |data|)
  {
    if l.pending == [] && ret >= 0 {
      assert data == data[..ret] + data[ret..];
    }
  }

  /** Over a run, the wire is what the socket took, in order, and nothing else. */
  lemma {:induction false} WireIsTaken(l: Line, events: seq<Event>)
    requires RunMay(l, events)
    ensures After(l, events).wire == l.wire + Concat(AllTaken(l, events))
    decreases |events|
  {
    if events != [] {
      var next, more := Happen(l, events[0]), events[1..];
      var first, rest := [TakenBy(l, events[0])], AllTaken(next, more);
      WireGrows(l, events[0]);
      WireIsTaken(next, more);
      ConcatOne(first[0]);
      ConcatAppend(first, rest);
      assert l.wire + Concat(first) + Concat(rest) == l.wire + (Concat(first) + Concat(rest));
    }
  }

  lemma PrefixTrans(a: Bytes, b: Bytes, c: Bytes)
    requires a <= b <= c
    ensures a <= c
  {}
}

/** The client side of a connection. */
module Transceivers {
  import opened Basics
  import opened Buffers
  import opened Framing
  import opened Outgoing

  const READ_AHEAD: nat := 8 * 1024
  const STACK_BUFFER: nat := 64 * 1024
  const KEEP_CAPACITY: nat := 8 * 1024 * 1024

  /** One scattered read: part of it into the buffer, the rest by way of the stack. */
  method ReadInto(buf: Buffer, data: Bytes)
    requires buf.Valid() && |data| <= buf.WritableSize() + STACK_BUFFER
    modifies buf, buf.buffer
    ensures buf.Valid() && fresh(buf.Repr() - old(buf.Repr()))
    ensures if |data| <= old(buf.WritableSize()) || |old(buf.Contents())| + |data| < MAX_BUFFER_SIZE
            then buf.Contents() == old(buf.Contents()) + data
            else buf.Contents() == old(buf.Contents()) + data[..old(buf.WritableSize())]  // pushData refuses the rest
  {
    ghost var before := buf.Contents();
    var room := buf.WritableSize();
    if |data| <= room {
      buf.Fill(data);
    } else {
      buf.Fill(data[..room]);
      var n := buf.PushData(data[room..]);
      Regroup(before, data, room);
    }
  }

  /** One turn of the reading loop, given what is there to read and the most this read takes of it. */
  method ReadOnce(buf: Buffer, rest: Bytes, most: nat) returns (n: nat)
    requires buf.Valid() && |buf.Contents()| + |rest| + READ_AHEAD <= MAX_BUFFER_SIZE + 1
    requires rest != [] && most > 0
    modifies buf, buf.buffer
    ensures buf.Valid() && fresh(buf.Repr() - old(buf.Repr()))
    ensures 0 < n <= |rest| && buf.Contents() == old(buf.Contents()) + rest[..n]
  {
    buf.AssureSpace(READ_AHEAD);
    n := Min(most, Min(buf.WritableSize() + STACK_BUFFER, |rest|));
    ReadInto(buf, rest[..n]);
  }

  lemma Regroup(a: Bytes, b: Bytes, n: nat)
    requires n <= |b|
    ensures a + b[..n] + b[n..] == a + b
  {}

  /** The reading loop; the k-th read takes at most 1 + pace(k) bytes. */
  method ReadAll(buf: Buffer, input: Bytes, pace: nat -> nat)
    requires buf.Valid() && |buf.Contents()| + |input| + READ_AHEAD <= MAX_BUFFER_SIZE + 1
    modifies buf, buf.buffer
    ensures buf.Valid() && fresh(buf.Repr() - old(buf.Repr()))
    ensures buf.Contents() == old(buf.Contents()) + input
  {
    var rest, k := input, 0;
    ghost var all := buf.Contents() + input;
    while rest != []
      invariant buf.Valid() && fresh(buf.Repr() - old(buf.Repr()))
      invariant buf.Contents() + rest == all
      decreases |rest|
    {
      ghost var before := buf.Contents();
      var n := ReadOnce(buf, rest, 1 + pace(k));
      Regroup(before, rest, n);
      rest, k := rest[n..], k + 1;
    }
    assert buf.Contents() == all;
    buf.AssureSpace(READ_AHEAD);
  }

  /** Hands out all that has been read as one response. */
  method TakeResponse(buf: Buffer) returns (done: seq<Bytes>)
    requires buf.Valid()
    modifies buf
    ensures buf.Valid() && fresh(buf.Repr() - old(buf.Repr())) && buf.Contents() == []
    ensures done == if old(buf.Contents()) == [] then [] else [old(buf.Contents())]
    ensures done != [] ==> buf.capacity <= KEEP_CAPACITY
  {
    done := [];
    var len := buf.ReadableSize();
    if len != 0 {
      var data := buf.Peek(len);
      assert data == buf.Contents();
      done := [data];
      buf.Consume(len);
      if buf.capacity > KEEP_CAPACITY {
        buf.Shrink();
      }
    }
  }

  class Transceiver {
    const sendBuffer: Buffer
    const receiveBuffer: Buffer
    var connected: bool
    var valid: bool        // there is a socket
    ghost var wire: Bytes  // what it has taken

    ghost predicate Valid()
      reads sendBuffer, receiveBuffer
    {
      && sendBuffer.Valid() && receiveBuffer.Valid()
      && sendBuffer.Repr() !! receiveBuffer.Repr()
      && this !in sendBuffer.Repr() + receiveBuffer.Repr()
    }

    ghost function TheLine(): Line
      reads `wire, sendBuffer, receiveBuffer, sendBuffer.buffer
      requires Valid()
    {
      Line(wire, sendBuffer.Contents())
    }

    constructor ()
      ensures Valid() && !valid && !connected && TheLine() == Line([], []) && receiveBuffer.Contents() == []
      ensures fresh(sendBuffer.Repr() + receiveBuffer.Repr())
    {
      sendBuffer := new Buffer();
      receiveBuffer := new Buffer();
      connected, valid := false, false;
      wire := [];
    }

    /** A socket is there from now on; the connection may still be on its way. */
    method Connect()
      requires Valid()
      modifies `connected, `valid
      ensures Valid() && connected && valid
    {
      connected := true;
      valid := true;
    }

    /** Sends a request, or as much of it as the socket takes; `sent` is what send returns. */
    method SendRequest(data: Bytes, sent: int) returns (ret: int)
      requires Valid() && |data| < SIZE_T && SocketMay(|data|, sent)
      modifies `wire, sendBuffer, sendBuffer.buffer
      ensures Valid() && fresh(sendBuffer.Repr() - old(sendBuffer.Repr()))
      ensures (TheLine(), ret) == Outgoing.SendRequest(old(TheLine()), data, sent)
    {
      if sendBuffer.ReadableSize() != 0 {
        return RET_ERROR;
      }
      assert TheLine().pending == [];
      if sent < 0 {
        return RET_ERROR;
      }
      TakenFits(|data|, sent);
      wire := wire + data[..sent];
      if sent < AsInt(|data|) {
        var n := sendBuffer.PushData(data[sent..]);
        assert [] + data[sent..] == data[sent..] && |data[sent..]| % SIZE_T == |data| - sent;
        return RET_FULL;
      }
      return sent;
    }

    /** Sends more of what is kept, up to the point where it would go on to doInvoke. */
    method DoRequest(sent: int) returns (ret: int)
      requires Valid() && SocketMay(|TheLine().pending|, sent)
      modifies `wire, sendBuffer
      ensures Valid() && fresh(sendBuffer.Repr() - old(sendBuffer.Repr()))
      ensures TheLine() == Outgoing.DoRequest(old(TheLine()), sent)
      ensures ret == if old(TheLine()).pending != [] && sent < 0 then sent else 0
    {
      ret := 0;
      var length := sendBuffer.ReadableSize();
      if length != 0 {
        var data := sendBuffer.Peek(length);
        if sent < 0 {
          return sent;
        }
        if sent > 0 {
          TakenFits(length, sent);
          wire := wire + data[..sent];
          sendBuffer.Consume(sent);
          if sendBuffer.ReadableSize() == 0 {
            sendBuffer.Shrink();
          }
        }
      }
    }

    /** Gives the socket up, and everything kept with it. */
    method Close()
      requires Valid()
      modifies `valid, sendBuffer`readPos, sendBuffer`writePos, receiveBuffer`readPos, receiveBuffer`writePos
      ensures Valid() && !valid
      ensures old(valid) ==> TheLine().pending == [] && receiveBuffer.Contents() == []
      ensures !old(valid) ==> TheLine() == old(TheLine()) && receiveBuffer.Contents() == old(receiveBuffer.Contents())
    {
      if !valid {
        return;
      }
      valid := false;
      sendBuffer.Clear();
      receiveBuffer.Clear();
    }

    /** Reads all there is and hands it out as one response, unless the read that finds nothing more finds the
        end of the connection. */
    method DoResponse(input: Bytes, pace: nat -> nat, ends: bool) returns (done: seq<Bytes>, ret: int)
      requires Valid() && valid
      requires |receiveBuffer.Contents()| + |input| + READ_AHEAD <= MAX_BUFFER_SIZE + 1
      modifies `valid, sendBuffer`readPos, sendBuffer`writePos, receiveBuffer, receiveBuffer.buffer
      ensures Valid() && fresh(receiveBuffer.Repr() - old(receiveBuffer.Repr()))
      ensures receiveBuffer.Contents() == [] && valid == !ends
      ensures var got := old(receiveBuffer.Contents()) + input;
              done == if ends || got == [] then [] else [got]
      ensures TheLine() == if ends then Line(wire, []) else old(TheLine())
      ensures done != [] ==> receiveBuffer.capacity <= KEEP_CAPACITY
      ensures ret == if done == [] then 0 else 1
    {
      ReadAll(receiveBuffer, input, pace);
      if ends {
        Close();
      }
      done := TakeResponse(receiveBuffer);
      ret := if done == [] then 0 else 1;
    }
  }
}
