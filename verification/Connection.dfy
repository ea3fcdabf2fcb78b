/** The server side of a connection: reads what has arrived and splits it into requests. */
module Connections {
  import opened Buffers
  import opened Framing

  const READ_SIZE: nat := 32 * 1024

  /** One call of read: some bytes, or the peer is gone. When the list of results ends, nothing is left to read. */
  datatype Read = Got(data: Bytes) | Gone

  /** A read returns at most the size of the buffer it is given, and at least one byte. */
  ghost predicate Readable(results: seq<Read>) {
    forall k :: 0 <= k < |results| && results[k].Got? ==> 0 < |results[k].data| <= READ_SIZE
  }

  /** The bytes one call of recv takes in: up to the first short read, or until nothing is left. */
  function Intake(results: seq<Read>): Bytes {
    if results == [] || results[0].Gone? then []
    else if |results[0].data| < READ_SIZE then results[0].data
    else results[0].data + Intake(results[1..])
  }

  /** The call meets the end of the connection. */
  predicate Ends(results: seq<Read>) {
    results != [] && (results[0].Gone? || (|results[0].data| == READ_SIZE && Ends(results[1..])))
  }

  function Reads(datas: seq<Bytes>): seq<Read> {
    if datas == [] then [] else [Got(datas[0])] + Reads(datas[1..])
  }

  ghost predicate Full(datas: seq<Bytes>) {
    forall k :: 0 <= k < |datas| ==> |datas[k]| == READ_SIZE
  }

  /** When the first reads are full, and the next one, if there is one, is short or finds the peer gone, the call
      takes in the full ones and the short one; and it meets the end of the connection only in the last case. */
  lemma {:induction false} IntakeIs(full: seq<Bytes>, rest: seq<Read>, results: seq<Read>)
    requires results == Reads(full) + rest && Full(full)
    requires rest != [] && rest[0].Got? ==> |rest[0].data| < READ_SIZE
    ensures Intake(results) == Concat(full) + LastOf(rest)
    ensures Ends(results) <==> rest != [] && rest[0].Gone?
    decreases |full|
  {
    if full == [] {
      assert results == rest;
    } else {
      var first, more := full[0], full[1..];
      assert results == [Got(first)] + (Reads(more) + rest);
      IntakeFirst(first, Reads(more) + rest);
      IntakeIs(more, rest, Reads(more) + rest);
      ConcatFirst(first, more, full);
      Regroup(first, Concat(more), LastOf(rest));
    }
  }

  lemma ConcatFirst(first: Bytes, more: seq<Bytes>, all: seq<Bytes>)
    requires all == [first] + more
    ensures Concat(all) == first + Concat(more)
  {
    ConcatOne(first);
    ConcatAppend([first], more);
  }

  lemma Regroup(a: Bytes, b: Bytes, c: Bytes)
    ensures a + (b + c) == a + b + c
  {}

  /** What the read that stops the loop brings. */
  function LastOf(rest: seq<Read>): Bytes {
    if rest != [] && rest[0].Got? then rest[0].data else []
  }

  lemma IntakeFirst(first: Bytes, more: seq<Read>)
    requires |first| == READ_SIZE
    ensures Intake([Got(first)] + more) == first + Intake(more)
    ensures Ends([Got(first)] + more) <==> Ends(more)
  {
    assert ([Got(first)] + more)[1..] == more;
  }

  /** What the buffer holds after the reading loop; pushData refuses a chunk that would fill it too far. */
  function Taken(held: Bytes, results: seq<Read>): Bytes
    decreases |results|
  {
    if results == [] || results[0].Gone? then held
    else
      var more := if |held| + |results[0].data| >= MAX_BUFFER_SIZE then held else held + results[0].data;
      if |results[0].data| < READ_SIZE then more else Taken(more, results[1..])
  }

  lemma TakenNext(held: Bytes, results: seq<Read>)
    requires Readable(results) && results != [] && results[0].Got?
    ensures var more := if |held| + |results[0].data| >= MAX_BUFFER_SIZE then held else held + results[0].data;
            Taken(held, results) == if |results[0].data| < READ_SIZE then more else Taken(more, results[1..])
    ensures Ends(results) <==> |results[0].data| == READ_SIZE && Ends(results[1..])
  {}

  /** Short of 2^63 bytes nothing is refused. */
  lemma {:induction false} TakenAll(held: Bytes, results: seq<Read>)
    requires |held| + |Intake(results)| < MAX_BUFFER_SIZE
    ensures Taken(held, results) == held + Intake(results)
    decreases |results|
  {
    if results != [] && results[0].Got? && |results[0].data| >= READ_SIZE {
      TakenAll(held + results[0].data, results[1..]);
      assert held + results[0].data + Intake(results[1..]) == held + (results[0].data + Intake(results[1..]));
    }
  }

  /** What was held before stays, and the rest is kept below the limit. */
  lemma {:induction false} TakenFits(held: Bytes, results: seq<Read>)
    requires Readable(results)
    ensures Taken(held, results) == held || |Taken(held, results)| < MAX_BUFFER_SIZE
    decreases |results|
  {
    if results != [] && results[0].Got? && |results[0].data| >= READ_SIZE {
      var more := if |held| + |results[0].data| >= MAX_BUFFER_SIZE then held else held + results[0].data;
      TakenFits(more, results[1..]);
    }
  }

  /** Something is refused exactly if there is something and it comes to 2^63 - 1 bytes with what is held. */
  lemma TakenAllIff(held: Bytes, results: seq<Read>)
    requires Readable(results)
    ensures Taken(held, results) == held + Intake(results)
            <==> Intake(results) == [] || |held| + |Intake(results)| < MAX_BUFFER_SIZE
  {
    TakenFits(held, results);
    if |held| + |Intake(results)| < MAX_BUFFER_SIZE {
      TakenAll(held, results);
    } else if Intake(results) == [] {
      NothingTaken(held, results);
    }
  }

  lemma NothingTaken(held: Bytes, results: seq<Read>)
    requires Readable(results) && Intake(results) == []
    ensures Taken(held, results) == held + Intake(results)
  {
    assert results == [] || results[0].Gone?;
  }

  /** How a call of recv ends: it returns, finds the peer gone, or stops in the splitting loop. */
  datatype Received = Requests(queue: seq<Bytes>) | Closed | Stopped(queue: seq<Bytes>, halt: Halt)

  class Connection {
    const listenfd: int
    const recvBuffer: Buffer

    ghost predicate Valid()
      reads this, recvBuffer
    {
      recvBuffer.Valid()
    }

    ghost function Pending(): Bytes
      reads this, recvBuffer, recvBuffer.buffer
      requires Valid()
    {
      recvBuffer.Contents()
    }

    constructor (listenfd: int)
      ensures Valid() && Pending() == [] && this.listenfd == listenfd && fresh(recvBuffer.Repr())
    {
      this.listenfd := listenfd;
      recvBuffer := new Buffer();
    }

    /** The reading loop: appends what arrives to the receive buffer. */
    method Accumulate(input: seq<Read>) returns (open: bool)
      requires Valid() && Readable(input)
      modifies recvBuffer, recvBuffer.buffer
      ensures Valid() && fresh(recvBuffer.Repr() - old(recvBuffer.Repr()))
      ensures Pending() == Taken(old(Pending()), input) && (open <==> !Ends(input))
    {
      ghost var all := Taken(Pending(), input);
      var rest := input;
      while rest != []
        invariant Valid() && fresh(recvBuffer.Repr() - old(recvBuffer.Repr())) && Readable(rest)
        invariant Taken(Pending(), rest) == all
        invariant Ends(rest) <==> Ends(input)
        decreases |rest|
      {
        if rest[0].Gone? {
          return false;
        }
        var data := rest[0].data;
        TakenNext(Pending(), rest);
        var n := recvBuffer.PushData(data);
        if |data| < READ_SIZE {
          return true;
        }
        rest := rest[1..];
      }
      return true;
    }

    /** Takes a complete frame off the front. */
    method TakeFrame(len: nat) returns (req: Bytes)
      requires Valid() && HEADER_SIZE + len <= |Pending()|
      modifies recvBuffer`readPos, recvBuffer`writePos
      ensures Valid()
      ensures req == old(Pending())[HEADER_SIZE..HEADER_SIZE + len]
      ensures Pending() == old(Pending())[HEADER_SIZE + len..]
    {
      recvBuffer.Consume(HEADER_SIZE);
      req := recvBuffer.Peek(len);
      recvBuffer.Consume(len);
    }

    /** Whether a frame is complete in front, and the length it declares. */
    method Front() returns (complete: bool, len: int)
      requires Valid()
      ensures complete <==> !Waiting(Pending())
      ensures complete ==> len == Int32Of(Pending()[..4])
    {
      complete, len := false, 0;
      if recvBuffer.ReadableSize() >= HEADER_SIZE - 1 {
        var data := recvBuffer.Peek(4);
        len := Int32Of(data);
        complete := recvBuffer.ReadableSize() >= Needed(len);
      }
    }

    /** One turn of the splitting loop: moves a frame from the buffer to the queue. */
    method MoveFrame(queue: seq<Bytes>, len: nat, ghost whole: Split) returns (more: seq<Bytes>)
      requires Valid() && !Waiting(Pending()) && len == Int32Of(Pending()[..4])
      requires Composes(whole, Split(queue, [], Waits), SplitFrames(Pending()))
      modifies recvBuffer`readPos, recvBuffer`writePos
      ensures Valid() && |Pending()| < |old(Pending())|
      ensures Composes(whole, Split(more, [], Waits), SplitFrames(Pending()))
    {
      ghost var pending := Pending();
      var req := TakeFrame(len);
      ComposesNext(whole, queue, pending, req, Pending());
      more := queue + [req];
    }

    /** The splitting loop: takes complete frames off the front of the receive buffer. */
    method SplitAll() returns (queue: seq<Bytes>, halt: Halt)
      requires Valid()
      modifies recvBuffer`readPos, recvBuffer`writePos
      ensures Valid()
      ensures SplitFrames(old(Pending())) == Split(queue, Pending(), halt)
    {
      queue, halt := [], Waits;
      ghost var whole := SplitFrames(Pending());
      var complete, len := Front();
      while complete
        invariant Valid()
        invariant complete <==> !Waiting(Pending())
        invariant complete ==> len == Int32Of(Pending()[..4])
        invariant Composes(whole, Split(queue, [], Waits), SplitFrames(Pending()))
        decreases |Pending()|
      {
        if len < 0 {
          halt := Refuse();
          return;
        }
        queue := MoveFrame(queue, len, whole);
        complete, len := Front();
      }
    }

    /** A frame with a negative length: its header is consumed before the string cannot be made. */
    method Refuse() returns (halt: Halt)
      requires Valid() && !Waiting(Pending()) && Int32Of(Pending()[..4]) < 0
      modifies recvBuffer`readPos, recvBuffer`writePos
      ensures Valid() && SplitFrames(old(Pending())) == Split([], Pending(), halt)
    {
      if recvBuffer.ReadableSize() < HEADER_SIZE {
        return Fails;
      }
      recvBuffer.Consume(HEADER_SIZE);
      return Throws;
    }

    method Recv(input: seq<Read>) returns (r: Received)
      requires Valid() && Readable(input)
      modifies recvBuffer, recvBuffer.buffer
      ensures Valid() && fresh(recvBuffer.Repr() - old(recvBuffer.Repr()))
      ensures Ends(input) ==> r == Closed && Pending() == Taken(old(Pending()), input)
      ensures !Ends(input) && listenfd == -1 ==> r == Requests([]) && Pending() == Taken(old(Pending()), input)
      ensures !Ends(input) && listenfd != -1 ==>
                var s := SplitFrames(Taken(old(Pending()), input));
                Pending() == s.rest && r == if s.halt == Waits then Requests(s.frames) else Stopped(s.frames, s.halt)
    {
      var open := Accumulate(input);
      if !open {
        return Closed;
      }
      if listenfd != -1 {
        var queue, halt := SplitAll();
        return if halt == Waits then Requests(queue) else Stopped(queue, halt);
      }
      return Requests([]);
    }
  }
}
