/**
 Length-prefixed frames: a 32-bit big-endian length, a colon and the payload. The client writes them, and the
 server's connection splits whatever bytes have arrived back into payloads.
 */
module Framing {
  import opened Basics
  import opened Buffers

  type Bytes = seq<byte>

  const HEADER_SIZE: nat := 5
  const COLON: byte := 58

  /** Two bytes, high one first. */
  function Be16(n: nat): (b: Bytes)
    requires n < 0x1_0000
    ensures |b| == 2
  {
    [(n / 0x100) as byte, (n % 0x100) as byte]
  }

  function Be32(n: nat): (b: Bytes)
    requires n < UINT32
    ensures |b| == 4
  {
    Be16(n / 0x1_0000) + Be16(n % 0x1_0000)
  }

  /** The signed 32-bit number that ntohl reads from four bytes. */
  function Int32Of(b: Bytes): (n: int)
    requires |b| == 4
    ensures -INT32_LIMIT <= n < INT32_LIMIT
  {
    var u := b[0] as int * 0x100_0000 + b[1] as int * 0x1_0000 + b[2] as int * 0x100 + b[3] as int;
    if u < INT32_LIMIT then u else u - 0x1_0000_0000
  }

  lemma Be16RoundTrip(n: nat)
    requires n < 0x1_0000
    ensures Be16(n)[0] as int * 0x100 + Be16(n)[1] as int == n
  {}

  /** The high byte comes first; and what is read back is the number as a signed one of 32 bits. */
  lemma Be32RoundTrip(n: nat)
    requires n < UINT32
    ensures var b := Be32(n);
            b[0] as int * 0x100_0000 + b[1] as int * 0x1_0000 + b[2] as int * 0x100 + b[3] as int == n
    ensures Int32Of(Be32(n)) == if n < INT32_LIMIT then n else n - UINT32
  {
    var h, l := n / 0x1_0000, n % 0x1_0000;
    var b := Be32(n);
    Be16RoundTrip(h);
    Be16RoundTrip(l);
    assert b[0] == Be16(h)[0] && b[1] == Be16(h)[1] && b[2] == Be16(l)[0] && b[3] == Be16(l)[1];
    assert b[0] as int * 0x100_0000 + b[1] as int * 0x1_0000 == h * 0x1_0000;
  }

  function Encode(payload: Bytes): Bytes
    requires |payload| < INT32_LIMIT
  {
    Be32(|payload|) + [COLON] + payload
  }

  ghost predicate Sendable(payloads: seq<Bytes>) {
    forall k :: 0 <= k < |payloads| ==> |payloads[k]| < INT32_LIMIT
  }

  function EncodeAll(payloads: seq<Bytes>): Bytes
    requires Sendable(payloads)
  {
    if payloads == [] then [] else Encode(payloads[0]) + EncodeAll(payloads[1..])
  }

  // ----- splitting

  /** Why the split loop stops: no complete frame is in front; a negative length is met and making the string
      throws; or the assertion of consume fails first, the header not being complete. */
  datatype Halt = Waits | Throws | Fails

  /** What the split loop takes out of a buffer, what it leaves, and why it stops. */
  datatype Split = Split(frames: seq<Bytes>, rest: Bytes, halt: Halt)

  /** The bytes a frame needs, as the sum of a sign-extended length and the header size in 64 bits. */
  function Needed(len: int): nat
    requires -INT32_LIMIT <= len < INT32_LIMIT
  {
    (len + SIZE_T + HEADER_SIZE) % SIZE_T
  }

  /** The loop stops: there is no complete frame in front. */
  predicate Waiting(buf: Bytes) {
    |buf| < HEADER_SIZE - 1 || |buf| < Needed(Int32Of(buf[..4]))
  }

  function SplitFrames(buf: Bytes): Split
    decreases |buf|
  {
    if Waiting(buf) then Split([], buf, Waits)
    else
      var len := Int32Of(buf[..4]);
      if len < 0 then if |buf| < HEADER_SIZE then Split([], buf, Fails) else Split([], buf[HEADER_SIZE..], Throws)
      else
        var more := SplitFrames(buf[HEADER_SIZE + len..]);
        Split([buf[HEADER_SIZE..HEADER_SIZE + len]] + more.frames, more.rest, more.halt)
  }

  /** A complete frame stays complete when more bytes arrive. */
  lemma FrameStays(a: Bytes, b: Bytes)
    requires !Waiting(a)
    ensures !Waiting(a + b) && Int32Of((a + b)[..4]) == Int32Of(a[..4])
    ensures var len := Int32Of(a[..4]);
            len >= 0 ==>
              && HEADER_SIZE + len <= |a|
              && (a + b)[HEADER_SIZE..HEADER_SIZE + len] == a[HEADER_SIZE..HEADER_SIZE + len]
              && (a + b)[HEADER_SIZE + len..] == a[HEADER_SIZE + len..] + b
  {
    assert (a + b)[..4] == a[..4];
  }

  lemma SplitTake(buf: Bytes, frame: Bytes, tail: Bytes)
    requires !Waiting(buf) && Int32Of(buf[..4]) >= 0
    requires frame == buf[HEADER_SIZE..HEADER_SIZE + Int32Of(buf[..4])]
    requires tail == buf[HEADER_SIZE + Int32Of(buf[..4])..]
    ensures var more := SplitFrames(tail);
            SplitFrames(buf) == Split([frame] + more.frames, more.rest, more.halt)
  {}

  /** What splitting in two goes is to give. */
  ghost predicate Composes(whole: Split, s: Split, t: Split) {
    whole == Split(s.frames + t.frames, t.rest, t.halt)
  }

  lemma ComposesCons(frame: Bytes, whole: Split, more: Split, t: Split)
    requires Composes(whole, more, t)
    ensures Composes(Split([frame] + whole.frames, whole.rest, whole.halt),
                     Split([frame] + more.frames, more.rest, more.halt), t)
  {
    assert [frame] + (more.frames + t.frames) == ([frame] + more.frames) + t.frames;
  }

  /** One turn of the loop moves a frame from the buffer to the queue. */
  lemma ComposesNext(whole: Split, queue: seq<Bytes>, buf: Bytes, frame: Bytes, tail: Bytes)
    requires Composes(whole, Split(queue, [], Waits), SplitFrames(buf))
    requires !Waiting(buf) && Int32Of(buf[..4]) >= 0
    requires frame == buf[HEADER_SIZE..HEADER_SIZE + Int32Of(buf[..4])]
    requires tail == buf[HEADER_SIZE + Int32Of(buf[..4])..]
    ensures Composes(whole, Split(queue + [frame], [], Waits), SplitFrames(tail))
  {
    SplitTake(buf, frame, tail);
    assert (queue + [frame]) + SplitFrames(tail).frames == queue + ([frame] + SplitFrames(tail).frames);
  }

  /** Splitting as bytes arrive gives what splitting them all at once gives. */
  lemma {:induction false} SplitAppend(a: Bytes, b: Bytes)
    requires SplitFrames(a).halt == Waits
    ensures Composes(SplitFrames(a + b), SplitFrames(a), SplitFrames(SplitFrames(a).rest + b))
    decreases |a|
  {
    if !Waiting(a) {
      var len := Int32Of(a[..4]);
      var frame, tail := a[HEADER_SIZE..HEADER_SIZE + len], a[HEADER_SIZE + len..];
      SplitTake(a, frame, tail);
      SplitAppend(tail, b);
      FrameStays(a, b);
      SplitTake(a + b, frame, tail + b);
      ComposesCons(frame, SplitFrames(tail + b), SplitFrames(tail), SplitFrames(SplitFrames(tail).rest + b));
    }
  }

  /** A complete frame at the front is delivered, whatever follows. */
  lemma SplitFirst(payload: Bytes, tail: Bytes)
    requires |payload| < INT32_LIMIT
    ensures var s, t := SplitFrames(Encode(payload) + tail), SplitFrames(tail);
            s == Split([payload] + t.frames, t.rest, t.halt)
  {
    var buf := Encode(payload) + tail;
    Be32RoundTrip(|payload|);
    assert buf[..4] == Be32(|payload|);
    assert buf[HEADER_SIZE..HEADER_SIZE + |payload|] == payload;
    assert buf[HEADER_SIZE + |payload|..] == tail;
  }

  lemma {:induction false} SplitAfter(payloads: seq<Bytes>, tail: Bytes)
    requires Sendable(payloads)
    ensures Composes(SplitFrames(EncodeAll(payloads) + tail), Split(payloads, [], Waits), SplitFrames(tail))
  {
    if payloads == [] {
      assert EncodeAll(payloads) + tail == tail;
    } else {
      var first, rest := payloads[0], payloads[1..];
      SplitAfter(rest, tail);
      SplitFirst(first, EncodeAll(rest) + tail);
      ComposesCons(first, SplitFrames(EncodeAll(rest) + tail), Split(rest, [], Waits), SplitFrames(tail));
      assert EncodeAll(payloads) + tail == Encode(first) + (EncodeAll(rest) + tail);
      assert [first] + rest == payloads;
    }
  }

  lemma NegativeFirst(buf: Bytes)
    requires 4 <= |buf| < MAX_BUFFER_SIZE && Int32Of(buf[..4]) < 0
    ensures SplitFrames(buf) ==
              if Int32Of(buf[..4]) < -5 then Split([], buf, Waits)
              else if |buf| == 4 then Split([], buf, Fails)
              else Split([], buf[5..], Throws)
  {}

  /** What becomes of a negative length. One below -5 makes the connection wait for ever, since the number of bytes
      wanted wraps around to more than there can be. One from -5 on makes the string throw, with the header taken;
      or, with no more than the length there, the assertion of consume fail. */
  lemma NegativeLength(payloads: seq<Bytes>, tail: Bytes)
    requires Sendable(payloads) && 4 <= |tail| < MAX_BUFFER_SIZE && Int32Of(tail[..4]) < 0
    ensures SplitFrames(EncodeAll(payloads) + tail) ==
              if Int32Of(tail[..4]) < -5 then Split(payloads, tail, Waits)
              else if |tail| == 4 then Split(payloads, tail, Fails)
              else Split(payloads, tail[5..], Throws)
  {
    SplitAfter(payloads, tail);
    NegativeFirst(tail);
  }

  /** An incomplete frame is left in the buffer. */
  lemma SplitIncomplete(payload: Bytes, n: nat)
    requires |payload| < INT32_LIMIT && n < |Encode(payload)|
    ensures SplitFrames(Encode(payload)[..n]) == Split([], Encode(payload)[..n], Waits)
  {
    Be32RoundTrip(|payload|);
    if n >= 4 {
      assert Encode(payload)[..n][..4] == Be32(|payload|);
    }
  }

  /** How many of the frames are complete in the first `n` bytes of their encoding. */
  function CompleteCount(payloads: seq<Bytes>, n: nat): (k: nat)
    ensures k <= |payloads|
  {
    if payloads == [] || n < HEADER_SIZE + |payloads[0]| then 0
    else 1 + CompleteCount(payloads[1..], n - HEADER_SIZE - |payloads[0]|)
  }

  /** It is the number that one would count: those k frames fit, and one more does not. */
  lemma {:induction false} CompleteCountIsMaximal(payloads: seq<Bytes>, n: nat)
    requires Sendable(payloads)
    ensures var k := CompleteCount(payloads, n);
      && |EncodeAll(payloads[..k])| <= n
      && (k < |payloads| ==> n < |EncodeAll(payloads[..k + 1])|)
  {
    var k := CompleteCount(payloads, n);
    if payloads != [] && k > 0 {
      CompleteCountIsMaximal(payloads[1..], n - HEADER_SIZE - |payloads[0]|);
      EncodeTake(payloads, k);
      if k < |payloads| {
        EncodeTake(payloads, k + 1);
      }
    } else if payloads != [] {
      assert payloads[..1][1..] == [];
      assert EncodeAll(payloads[..1]) == Encode(payloads[0]);
    }
  }

  /** The first `n` bytes of a stream decode to `frames`, which take up the first `used` of them. */
  ghost predicate DecodesTo(stream: Bytes, n: nat, frames: seq<Bytes>, used: nat) {
    used <= n <= |stream| && SplitFrames(stream[..n]) == Split(frames, stream[used..n], Waits)
  }

  lemma TakePast(e: Bytes, rest: Bytes, used: nat, n: nat)
    requires used <= n <= |rest|
    ensures (e + rest)[..|e| + n] == e + rest[..n]
    ensures (e + rest)[|e| + used..|e| + n] == rest[used..n]
  {}

  lemma DecodesAs(stream: Bytes, n: nat, front: Bytes, frames: seq<Bytes>, used: nat, left: Bytes)
    requires used <= n <= |stream| && stream[..n] == front && stream[used..n] == left
    requires SplitFrames(front) == Split(frames, left, Waits)
    ensures DecodesTo(stream, n, frames, used)
  {}

  lemma DecodesCons(payload: Bytes, rest: Bytes, n: nat, frames: seq<Bytes>, used: nat)
    requires |payload| < INT32_LIMIT && DecodesTo(rest, n, frames, used)
    ensures DecodesTo(Encode(payload) + rest, |Encode(payload)| + n, [payload] + frames, |Encode(payload)| + used)
  {
    var e := Encode(payload);
    SplitFirst(payload, rest[..n]);
    TakePast(e, rest, used, n);
    DecodesAs(e + rest, |e| + n, e + rest[..n], [payload] + frames, |e| + used, rest[used..n]);
  }

  lemma EncodeTake(payloads: seq<Bytes>, k: nat)
    requires Sendable(payloads) && 0 < k <= |payloads|
    ensures payloads[..k] == [payloads[0]] + payloads[1..][..k - 1]
    ensures EncodeAll(payloads[..k]) == Encode(payloads[0]) + EncodeAll(payloads[1..][..k - 1])
  {
    assert payloads[..k][1..] == payloads[1..][..k - 1];
  }

  lemma DecodesNone(payloads: seq<Bytes>, n: nat)
    requires Sendable(payloads) && payloads != [] && n < HEADER_SIZE + |payloads[0]|
    ensures DecodesTo(EncodeAll(payloads), n, [], 0)
  {
    assert EncodeAll(payloads) == Encode(payloads[0]) + EncodeAll(payloads[1..]);
    assert EncodeAll(payloads)[..n] == Encode(payloads[0])[..n];
    SplitIncomplete(payloads[0], n);
  }

  lemma DecodesMore(payloads: seq<Bytes>, n: nat, k: nat)
    requires Sendable(payloads) && 0 < k <= |payloads|
    requires var done := payloads[1..][..k - 1];
             DecodesTo(EncodeAll(payloads[1..]), n, done, |EncodeAll(done)|)
    ensures DecodesTo(EncodeAll(payloads), |Encode(payloads[0])| + n, payloads[..k], |EncodeAll(payloads[..k])|)
  {
    var done := payloads[1..][..k - 1];
    var stream := Encode(payloads[0]) + EncodeAll(payloads[1..]);
    assert EncodeAll(payloads) == stream;
    EncodeTake(payloads, k);
    DecodesCons(payloads[0], EncodeAll(payloads[1..]), n, done, |EncodeAll(done)|);
  }

  /** Decoding any prefix of an encoding delivers exactly the payloads whose frames are complete in it, in
      order, and leaves exactly the bytes after them. */
  lemma {:induction false} DecodesPrefix(payloads: seq<Bytes>, n: nat)
    requires Sendable(payloads) && n <= |EncodeAll(payloads)|
    ensures var k := CompleteCount(payloads, n);
            DecodesTo(EncodeAll(payloads), n, payloads[..k], |EncodeAll(payloads[..k])|)
  {
    var k := CompleteCount(payloads, n);
    if payloads == [] {
    } else if k == 0 {
      DecodesNone(payloads, n);
    } else {
      var rest := payloads[1..];
      var n' := n - |Encode(payloads[0])|;
      DecodesPrefix(rest, n');
      DecodesMore(payloads, n', k);
    }
  }

  // ----- calls of recv

  function Concat(chunks: seq<Bytes>): Bytes {
    if chunks == [] then [] else Concat(chunks[..|chunks| - 1]) + chunks[|chunks| - 1]
  }

  lemma ConcatOne(b: Bytes)
    ensures Concat([b]) == b && Concat([]) == []
  {
    assert [b][..0] == [];
    assert Concat([b]) == Concat([]) + b;
  }

  lemma {:induction false} ConcatAppend(a: seq<Bytes>, b: seq<Bytes>)
    ensures Concat(a + b) == Concat(a) + Concat(b)
    decreases |b|
  {
    if b == [] {
      assert a + b == a;
    } else {
      var n := |b| - 1;
      ConcatAppend(a, b[..n]);
      assert (a + b)[..|a + b| - 1] == a + b[..n];
    }
  }

  /** The buffer before each of a series of calls of recv, each adding a chunk and splitting. */
  function BufferAt(chunks: seq<Bytes>): Bytes {
    if chunks == [] then []
    else SplitFrames(BufferAt(chunks[..|chunks| - 1]) + chunks[|chunks| - 1]).rest
  }

  /** All that the calls put into their queues. */
  function Delivered(chunks: seq<Bytes>): seq<Bytes> {
    if chunks == [] then []
    else Delivered(chunks[..|chunks| - 1])
         + SplitFrames(BufferAt(chunks[..|chunks| - 1]) + chunks[|chunks| - 1]).frames
  }

  /** The round trip: however the stream is cut into calls of recv, the payloads whose frames have arrived are
      delivered, in order and once, and the buffer holds exactly the bytes not decoded yet. */
  lemma {:induction false} RoundTrip(payloads: seq<Bytes>, chunks: seq<Bytes>)
    requires Sendable(payloads) && Concat(chunks) <= EncodeAll(payloads)
    ensures var k := CompleteCount(payloads, |Concat(chunks)|);
      && Delivered(chunks) == payloads[..k]
      && |EncodeAll(payloads[..k])| <= |Concat(chunks)|
      && BufferAt(chunks) == Concat(chunks)[|EncodeAll(payloads[..k])|..]
      && SplitFrames(Concat(chunks)) == Split(Delivered(chunks), BufferAt(chunks), Waits)
  {
    var n := |Concat(chunks)|;
    DecodesPrefix(payloads, n);
    assert EncodeAll(payloads)[..n] == Concat(chunks);
    if chunks == [] {
    } else {
      var m := |chunks| - 1;
      RoundTrip(payloads, chunks[..m]);
      SplitAppend(Concat(chunks[..m]), chunks[m]);
    }
  }
}
