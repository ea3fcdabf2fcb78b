/** The growable byte buffer, and the arithmetic of its capacity. */
module Buffers {
  import opened Basics

  newtype byte = x: int | 0 <= x < 0x100

  const MAX_BUFFER_SIZE: nat := 0x7FFF_FFFF_FFFF_FFFF
  const DEFAULT_SIZE: nat := 128
  const HIGH_WATER_PERCENT: nat := 50

  // ----- powers of two

  predicate IsPowerOf2(n: nat) {
    n == 1 || (n > 1 && n % 2 == 0 && IsPowerOf2(n / 2))
  }

  /** Between a power of two and the next there is a factor of two. */
  lemma {:induction false} PowerGap(p: nat, q: nat)
    requires IsPowerOf2(p) && IsPowerOf2(q) && p < q
    ensures 2 * p <= q
  {
    if p > 1 {
      PowerGap(p / 2, q / 2);
    }
  }

  lemma {:induction false} PowerTimes(p: nat, q: nat)
    requires IsPowerOf2(p) && IsPowerOf2(q)
    ensures IsPowerOf2(p * q)
  {
    if p > 1 {
      PowerTimes(p / 2, q);
      assert p * q == 2 * (p / 2 * q);
      assert (p * q) / 2 == p / 2 * q;
    }
  }

  lemma TopPower()
    ensures IsPowerOf2(MAX_BUFFER_SIZE + 1) && IsPowerOf2(DEFAULT_SIZE)
  {
    assert IsPowerOf2(2) && IsPowerOf2(4) && IsPowerOf2(8) && IsPowerOf2(16);
    PowerTimes(8, 16);
    PowerTimes(128, 4);
    PowerTimes(512, 128);
    PowerTimes(0x1_0000, 0x1_0000);
    PowerTimes(0x1_0000, 0x8000);
    PowerTimes(512, 64);
    PowerTimes(0x1_0000_0000, 0x8000_0000);
  }

  /** A power of two below 2^63 can be doubled. */
  lemma BelowTop(p: nat)
    requires IsPowerOf2(p) && p <= MAX_BUFFER_SIZE
    ensures 2 * p <= MAX_BUFFER_SIZE + 1
  {
    TopPower();
    PowerGap(p, MAX_BUFFER_SIZE + 1);
  }

  /** `p` is the least power of two that is at least `n`. */
  ghost predicate IsLeastPower(p: nat, n: nat) {
    IsPowerOf2(p) && p >= n && forall q: nat :: IsPowerOf2(q) && q >= n ==> p <= q
  }

  /** A power of two is least when its half is too small. */
  lemma LeastPower(p: nat, n: nat)
    requires IsPowerOf2(p) && p >= n && (p == 1 || p / 2 < n)
    ensures IsLeastPower(p, n)
  {
    forall q: nat | IsPowerOf2(q) && q >= n ensures p <= q {
      if q < p {
        PowerGap(q, p);
      }
    }
  }

  /** The rounding loop; it cannot overflow 64 bits for sizes up to 2^63. */
  method RoundUp2Power(size: nat) returns (r: nat)
    requires size <= MAX_BUFFER_SIZE + 1
    ensures size == 0 ==> r == 0
    ensures size > 0 ==> IsLeastPower(r, size)
    ensures r <= MAX_BUFFER_SIZE + 1
  {
    if size == 0 {
      return 0;
    }
    r := 1;
    while r < size
      invariant IsPowerOf2(r) && (r == 1 || r / 2 < size)
      invariant r <= MAX_BUFFER_SIZE + 1
      decreases size - r
    {
      BelowTop(r);
      r := 2 * r;
    }
    LeastPower(r, size);
  }

  // ----- capacity

  /** What a growing buffer's capacity becomes. */
  ghost predicate IsGrownCapacity(cap: nat, total: nat) {
    if total <= DEFAULT_SIZE then cap == DEFAULT_SIZE else IsLeastPower(cap, total)
  }

  /** A growth loop that stops at the first capacity that suffices ends at the least power of two. */
  lemma GrownIsLeast(cap: nat, total: nat)
    requires IsPowerOf2(cap) && cap >= DEFAULT_SIZE && cap >= total
    requires cap == DEFAULT_SIZE || cap / 2 < total
    ensures IsGrownCapacity(cap, total)
  {
    TopPower();
    if total > DEFAULT_SIZE {
      LeastPower(cap, total);
    } else if cap > DEFAULT_SIZE {
      PowerGap(DEFAULT_SIZE, cap);
    }
  }

  /** The guard of pushData is computed in 64 bits. What it lets through stays within 2^63 bytes, beyond which
      the growth loop reaches assert(false), exactly when the sum did not wrap around. */
  lemma PushGuard(readable: nat, size: nat)
    requires readable <= MAX_BUFFER_SIZE + 1 && size < SIZE_T
    requires (readable + size) % SIZE_T < MAX_BUFFER_SIZE
    ensures readable + size <= MAX_BUFFER_SIZE + 1 <==> readable + size < SIZE_T
  {
    if readable + size < SIZE_T {
      assert (readable + size) % SIZE_T == readable + size;
    }
  }

  /** A pair that passes the guard by wrapping around, 2^64 bytes more than it lets through. */
  lemma GuardWraps()
    ensures var readable, size := 2, SIZE_T - 1;
      (readable + size) % SIZE_T < MAX_BUFFER_SIZE && readable + size > MAX_BUFFER_SIZE + 1
  {}

  /** The guard works as meant; otherwise assureSpace reaches assert(false). */
  predicate PushAllowed(readable: nat, size: nat) {
    (readable + size) % SIZE_T >= MAX_BUFFER_SIZE || readable + size < SIZE_T
  }

  lemma PushFits(readable: nat, size: nat)
    requires PushAllowed(readable, size) && (readable + size) % SIZE_T < MAX_BUFFER_SIZE
    ensures readable + size < MAX_BUFFER_SIZE
  {}

  // ----- shrinking

  /** The test of shrink, in 64-bit arithmetic. */
  predicate KeepsCapacity(dataSize: nat, capacity: nat) {
    dataSize * 100 % SIZE_T > capacity * HIGH_WATER_PERCENT % SIZE_T
  }

  /** While the products are in range, a buffer is shrunk exactly when at most half full, which at least halves it. */
  lemma ShrinkHalves(dataSize: nat, capacity: nat, shrunk: nat)
    requires 0 < dataSize <= capacity && IsPowerOf2(capacity) && capacity > 1
    requires dataSize * 100 < SIZE_T && capacity * HIGH_WATER_PERCENT < SIZE_T
    requires IsLeastPower(shrunk, dataSize)
    ensures !KeepsCapacity(dataSize, capacity) <==> 2 * dataSize <= capacity
    ensures 2 * dataSize <= capacity <==> 2 * shrunk <= capacity
  {
    assert IsPowerOf2(capacity / 2);
  }

  /** The test decides whether a buffer is at most half full. */
  ghost predicate TestsHalf(capacity: nat) {
    forall d: nat :: 0 < d <= capacity ==> (!KeepsCapacity(d, capacity) <==> 2 * d <= capacity)
  }

  /** The test is right for every size of the data exactly for capacities whose hundredfold is in range, that is
      up to 2^57; for the six powers of two above it misfires. */
  lemma PercentTestIff(capacity: nat)
    requires IsPowerOf2(capacity) && 1 < capacity <= MAX_BUFFER_SIZE + 1
    ensures TestsHalf(capacity) <==> capacity * 100 < SIZE_T
  {
    if capacity * 100 < SIZE_T {
      forall d: nat | 0 < d <= capacity ensures !KeepsCapacity(d, capacity) <==> 2 * d <= capacity {
        InRange(d, capacity);
      }
    } else {
      var d := Misfire(capacity);
      assert 0 < d <= capacity;
    }
  }

  lemma InRange(d: nat, capacity: nat)
    requires d <= capacity && capacity * 100 < SIZE_T
    ensures !KeepsCapacity(d, capacity) <==> 2 * d <= capacity
  {
    assert d * 100 % SIZE_T == d * 100;
    assert capacity * HIGH_WATER_PERCENT % SIZE_T == capacity * HIGH_WATER_PERCENT;
  }

  /** A size for which the test goes wrong. */
  lemma Misfire(capacity: nat) returns (d: nat)
    requires IsPowerOf2(capacity) && capacity * 100 >= SIZE_T && capacity <= MAX_BUFFER_SIZE + 1
    ensures 0 < d <= capacity && !KeepsCapacity(d, capacity) && 2 * d > capacity
  {
    LargeCapacities(capacity);
    if capacity == POWER_58 * 4 {
      d := (4 * SIZE_T + 99) / 100;
    } else if capacity == POWER_58 * 8 {
      d := (7 * SIZE_T + 99) / 100;
    } else {
      d := capacity;
    }
  }

  const POWER_58: nat := 0x400_0000_0000_0000

  lemma LargeCapacities(capacity: nat)
    requires IsPowerOf2(capacity) && capacity * 100 >= SIZE_T && capacity <= MAX_BUFFER_SIZE + 1
    ensures capacity in {POWER_58, POWER_58 * 2, POWER_58 * 4, POWER_58 * 8, POWER_58 * 16, POWER_58 * 32}
  {
    TopPower();
    assert IsPowerOf2(POWER_58 * 16) && IsPowerOf2(POWER_58 * 8) && IsPowerOf2(POWER_58 * 4);
    assert IsPowerOf2(POWER_58 * 2) && IsPowerOf2(POWER_58) && IsPowerOf2(POWER_58 / 2);
    Between(capacity, POWER_58 / 2);
    Between(capacity, POWER_58);
    Between(capacity, POWER_58 * 2);
    Between(capacity, POWER_58 * 4);
    Between(capacity, POWER_58 * 8);
    Between(capacity, POWER_58 * 16);
  }

  /** No power of two lies between one and its double. */
  lemma Between(p: nat, q: nat)
    requires IsPowerOf2(p) && IsPowerOf2(q)
    ensures p <= q || 2 * q <= p
  {
    if q < p {
      PowerGap(q, p);
    }
  }

  /** Out of range the test can misfire: a full buffer of 2^63 bytes is reallocated at the same capacity. */
  lemma ShrinkOutOfRange()
    ensures !KeepsCapacity(MAX_BUFFER_SIZE + 1, MAX_BUFFER_SIZE + 1)
    ensures IsLeastPower(MAX_BUFFER_SIZE + 1, MAX_BUFFER_SIZE + 1)
  {
    TopPower();
  }

  // ----- the cost of growing

  /** A buffer that is only pushed to: the bytes in it, its capacity, and the bytes re-copied by reallocation. */
  datatype Cost = Cost(total: nat, capacity: nat, copied: nat)

  /** One pushData of `n` bytes. */
  ghost predicate PushCosts(c: Cost, n: nat, d: Cost) {
    if n == 0 || c.total + n >= MAX_BUFFER_SIZE then d == c
    else if c.capacity - c.total >= n then d == c.(total := c.total + n)
    else d.total == c.total + n && IsGrownCapacity(d.capacity, d.total) && d.copied == c.copied + c.total
  }

  ghost predicate Run(costs: seq<Cost>, sizes: seq<nat>) {
    && |costs| == |sizes| + 1 && costs[0] == Cost(0, 0, 0)
    && forall k :: 0 <= k < |sizes| ==> PushCosts(costs[k], sizes[k], costs[k + 1])
  }

  ghost predicate Amortised(c: Cost) {
    && c.total <= c.capacity
    && (c.capacity == 0 ==> c == Cost(0, 0, 0))
    && (c.capacity > 0 ==>
         && IsPowerOf2(c.capacity) && c.capacity >= DEFAULT_SIZE
         && c.copied <= c.capacity - DEFAULT_SIZE
         && (c.capacity == DEFAULT_SIZE || c.capacity < 2 * c.total)
         && c.total > 0)
  }

  lemma PushKeepsAmortised(c: Cost, n: nat, d: Cost)
    requires Amortised(c) && PushCosts(c, n, d)
    ensures Amortised(d)
  {
    TopPower();
    if !(n == 0 || c.total + n >= MAX_BUFFER_SIZE) && c.capacity - c.total < n {
      if d.total > DEFAULT_SIZE {
        PowerGapDown(d.capacity, d.total);
        PowerGap(if d.capacity > DEFAULT_SIZE then DEFAULT_SIZE else 1, d.capacity);
        if c.capacity > 0 { PowerGap(c.capacity, d.capacity); }
      }
    }
  }

  /** The least power of two at or above `n` is below twice `n`. */
  lemma PowerGapDown(p: nat, n: nat)
    requires IsLeastPower(p, n) && n > 1
    ensures p < 2 * n
  {
    assert IsPowerOf2(p / 2);
  }

  /** Amortised copying: however many pushes put T > 0 bytes into a fresh buffer, reallocation re-copies fewer
      than 2T bytes in all. */
  lemma {:induction false} AmortisedCopying(costs: seq<Cost>, sizes: seq<nat>)
    requires Run(costs, sizes)
    ensures Amortised(costs[|sizes|])
    ensures costs[|sizes|].total > 0 ==> costs[|sizes|].copied < 2 * costs[|sizes|].total
  {
    if sizes != [] {
      var n := |sizes| - 1;
      AmortisedCopying(costs[..n + 1], sizes[..n]);
      assert costs[..n + 1][n] == costs[n];
      PushKeepsAmortised(costs[n], sizes[n], costs[n + 1]);
    }
  }

  // ----- the buffer

  class Buffer {
    var readPos: nat
    var writePos: nat
    var capacity: nat
    var buffer: array?<byte>
    ghost var copied: nat  // bytes re-copied by assureSpace into a new array

    ghost function Repr(): set<object>
      reads this
    {
      if buffer == null then {this} else {this, buffer}
    }

    ghost predicate Shaped()
      reads this
    {
      && readPos <= writePos <= capacity <= MAX_BUFFER_SIZE + 1
      && (capacity == 0 || IsPowerOf2(capacity))
      && (buffer == null <==> capacity == 0)
      && (buffer != null ==> buffer.Length == capacity)
    }

    ghost predicate Valid()
      reads this
    {
      Shaped() && (readPos == writePos ==> readPos == 0)
    }

    /** The bytes of the queue, oldest first. */
    ghost function Contents(): seq<byte>
      reads this, buffer
      requires Valid()
    {
      if buffer == null then [] else buffer[readPos..writePos]
    }

    ghost function Costs(): Cost
      reads this
      requires Valid()
    {
      Cost(writePos - readPos, capacity, copied)
    }

    constructor ()
      ensures Valid() && Contents() == [] && fresh(Repr())
      ensures readPos == 0 && Costs() == Cost(0, 0, 0)
    {
      readPos, writePos, capacity, buffer, copied := 0, 0, 0, null, 0;
    }

    function ReadableSize(): (n: nat)
      reads this, buffer
      requires Valid()
      ensures n == |Contents()|
    {
      writePos - readPos
    }

    function WritableSize(): nat
      reads this
      requires Valid()
    {
      capacity - writePos
    }

    method Clear()
      requires Shaped()
      modifies `readPos, `writePos
      ensures Valid() && Contents() == []
    {
      readPos, writePos := 0, 0;
    }

    /** Makes the first `bytes` written ahead part of the queue. */
    method Produce(bytes: nat)
      requires Valid() && bytes <= WritableSize()
      modifies `writePos
      ensures Valid() && writePos == old(writePos) + bytes
      ensures bytes > 0 ==> Contents() == old(Contents()) + buffer[old(writePos)..old(writePos) + bytes]
      ensures bytes == 0 ==> Contents() == old(Contents())
    {
      writePos := writePos + bytes;
    }

    /** Writes at the write address, beyond the queue: memcpy, or the socket. */
    method WriteAhead(data: seq<byte>)
      requires Valid() && |data| <= WritableSize()
      modifies buffer
      ensures Contents() == old(Contents())
      ensures |data| > 0 ==> buffer[writePos..writePos + |data|] == data
    {
      if |data| > 0 {
        forall i | 0 <= i < |data| {
          buffer[writePos + i] := data[i];
        }
      }
    }

    /** Writes at the write address and makes the bytes part of the queue. */
    method Fill(data: seq<byte>)
      requires Valid() && |data| <= WritableSize()
      modifies `writePos, buffer
      ensures Valid() && writePos == old(writePos) + |data|
      ensures Contents() == old(Contents()) + data
    {
      ghost var c := Contents();
      WriteAhead(data);
      assert Contents() == c;
      Produce(|data|);
    }

    method Consume(bytes: nat)
      requires Valid() && bytes <= |Contents()|  // asserted by the source
      modifies `readPos, `writePos
      ensures Valid() && Contents() == old(Contents())[bytes..]
    {
      readPos := readPos + bytes;
      if readPos == writePos {
        Clear();
      }
    }

    /** What is read through the pointer of peek. */
    method Peek(n: nat) returns (data: seq<byte>)
      requires Valid() && n <= |Contents()|
      ensures data == Contents()[..n]
    {
      data := if n == 0 then [] else buffer[readPos..readPos + n];
    }

    method PopData(size: nat) returns (data: seq<byte>)
      requires Valid()
      modifies `readPos, `writePos
      ensures Valid()
      ensures data == old(Contents())[..if size <= |old(Contents())| then size else |old(Contents())|]
      ensures Contents() == old(Contents())[|data|..]
    {
      var dataSize := ReadableSize();
      if size == 0 || dataSize == 0 {
        return [];
      }
      var n := if size > dataSize then dataSize else size;
      data := buffer[readPos..readPos + n];
      Consume(n);
    }

    /** The growth loop of assureSpace: doubles the capacity until the queue and `needsize` more bytes fit. */
    method GrowCapacity(needsize: nat) returns (cap: nat)
      requires Valid() && writePos - readPos + needsize <= MAX_BUFFER_SIZE + 1
      ensures cap >= writePos - readPos + needsize && cap >= capacity && cap <= MAX_BUFFER_SIZE + 1
      ensures cap == 0 || IsPowerOf2(cap)
      ensures cap > capacity <==> capacity < writePos - readPos + needsize
      ensures cap > capacity ==> IsGrownCapacity(cap, writePos - readPos + needsize)
    {
      ghost var total := writePos - readPos + needsize;
      TopPower();
      cap := capacity;
      while cap - writePos + readPos < needsize
        invariant capacity <= cap <= MAX_BUFFER_SIZE + 1
        invariant cap == 0 || IsPowerOf2(cap)
        invariant cap == capacity
                  || (cap >= DEFAULT_SIZE && capacity < total && (cap == DEFAULT_SIZE || cap / 2 < total))
        decreases total - cap
      {
        if cap < DEFAULT_SIZE {
          cap := DEFAULT_SIZE;
        } else if cap <= MAX_BUFFER_SIZE {
          var newCapacity := RoundUp2Power(cap);
          BelowTop(cap);
          cap := if cap < newCapacity then newCapacity else newCapacity * 2;
        } else {
          assert false;
        }
      }
      if cap > capacity {
        GrownIsLeast(cap, total);
      }
    }

    /** Copies the queue to the front of another array. */
    method CopyTo(tmp: array<byte>)
      requires Valid() && tmp != buffer && |Contents()| <= tmp.Length
      modifies tmp
      ensures tmp[..|Contents()|] == Contents()
    {
      var dataSize := ReadableSize();
      if dataSize != 0 {
        forall i | 0 <= i < dataSize {
          tmp[i] := buffer[readPos + i];
        }
      }
    }

    /** Moves the queue to the front of its own array. */
    method MoveDown()
      requires Valid() && buffer != null
      modifies buffer
      ensures buffer[..|old(Contents())|] == old(Contents())
    {
      forall i | 0 <= i < writePos - readPos {
        buffer[i] := buffer[readPos + i];
      }
    }

    /** Makes room to write `needsize` bytes, by moving the queue to the front or into a larger array. */
    method AssureSpace(needsize: nat)
      requires Valid()
      requires |Contents()| + needsize <= MAX_BUFFER_SIZE + 1  // beyond that the source reaches assert(false)
      modifies this, buffer
      ensures Valid() && fresh(Repr() - old(Repr()))
      ensures Contents() == old(Contents()) && needsize <= WritableSize()
      ensures old(capacity - writePos) >= needsize ==>
                readPos == old(readPos) && Costs() == old(Costs()) && buffer == old(buffer)
      ensures old(capacity - writePos) < needsize ==> readPos == 0
      ensures old(capacity - writePos) < needsize && old(capacity) >= |Contents()| + needsize ==>
                Costs() == old(Costs()) && buffer == old(buffer)
      ensures old(capacity) < |Contents()| + needsize ==>
                IsGrownCapacity(capacity, |Contents()| + needsize) && copied == old(copied) + |Contents()|
    {
      if WritableSize() >= needsize {
        return;
      }
      ghost var c := Contents();
      var dataSize := ReadableSize();
      var oldcap := capacity;
      var newcap := GrowCapacity(needsize);
      if oldcap < newcap {
        var tmp := new byte[newcap];
        CopyTo(tmp);
        copied := copied + dataSize;
        buffer := tmp;
        capacity := newcap;
      } else {
        assert readPos > 0;
        MoveDown();
      }
      readPos := 0;
      writePos := dataSize;
      assert needsize <= WritableSize();
      assert Contents() == c;
    }

    method PushData(data: seq<byte>) returns (n: nat)
      requires Valid()
      requires |data| < SIZE_T && PushAllowed(|Contents()|, |data|)
      modifies this, buffer
      ensures Valid() && fresh(Repr() - old(Repr()))
      ensures n == if (|old(Contents())| + |data|) % SIZE_T >= MAX_BUFFER_SIZE then 0 else |data|
      ensures n == |data| ==> Contents() == old(Contents()) + data
      ensures n == 0 ==> Contents() == old(Contents())
      ensures old(readPos) == 0 ==> readPos == 0 && PushCosts(old(Costs()), |data|, Costs())
    {
      if |data| == 0 {
        return 0;
      }
      if (ReadableSize() + |data|) % SIZE_T >= MAX_BUFFER_SIZE {
        return 0;
      }
      PushFits(|Contents()|, |data|);
      AssureSpace(|data|);
      Fill(data);
      return |data|;
    }

    /** Gives memory back: all of it when empty, else down to the least power of two if at most half is used. */
    method Shrink()
      requires Valid()
      modifies this
      ensures Valid() && fresh(Repr() - old(Repr()))
      ensures Contents() == old(Contents())
      ensures Contents() == [] ==> capacity == 0
      ensures Contents() != [] ==>
                if old(capacity) <= DEFAULT_SIZE || KeepsCapacity(|Contents()|, old(capacity))
                then capacity == old(capacity)
                else IsLeastPower(capacity, |Contents()|) && capacity <= old(capacity)
    {
      var dataSize := ReadableSize();
      if dataSize == 0 {
        Clear();
        capacity := 0;
        buffer := null;
        return;
      }
      if capacity <= DEFAULT_SIZE {
        return;
      }
      ghost var c := Contents();
      var oldcap := capacity;
      if dataSize * 100 % SIZE_T > oldcap * HIGH_WATER_PERCENT % SIZE_T {
        return;
      }
      var newcap := RoundUp2Power(dataSize);
      var tmp := new byte[newcap];
      CopyTo(tmp);
      buffer := tmp;
      capacity := newcap;
      readPos := 0;
      writePos := dataSize;
    }

    method Swap(buf: Buffer)
      requires Valid() && buf.Valid()
      modifies this, buf
      ensures Valid() && buf.Valid()
      ensures Contents() == old(buf.Contents()) && buf.Contents() == old(Contents())
      ensures Repr() - {this} == old(buf.Repr() - {buf}) && buf.Repr() - {buf} == old(Repr() - {this})
    {
      readPos, buf.readPos := buf.readPos, readPos;
      writePos, buf.writePos := buf.writePos, writePos;
      capacity, buf.capacity := buf.capacity, capacity;
      buffer, buf.buffer := buf.buffer, buffer;
    }
  }
}
