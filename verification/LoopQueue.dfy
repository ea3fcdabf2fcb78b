/** The ring queue: an array with one slot more than the queue may hold, a write index and a read index. */
module LoopRing {
  import opened Basics

  function Next(i: nat, capacity: nat): (j: nat)
    requires i < capacity
    ensures j < capacity
  {
    if i == capacity - 1 then 0 else i + 1
  }

  /** size(). */
  function Count(begin: nat, end: nat, capacity: nat): (n: nat)
    requires begin < capacity && end < capacity
    ensures n < capacity
  {
    if begin < end then begin + capacity - end else begin - end
  }

  /** The test of push_back; the subtraction from the capacity is unsigned. */
  predicate Full(begin: nat, end: nat, capacity: nat) {
    (end > begin && end - begin < 2) || (begin > end && begin - end > (capacity - 2) % UINT32)
  }

  /** The test of the bulk push_back. */
  predicate TooMany(begin: nat, end: nat, capacity: nat, n: nat) {
    n > capacity - 1 || (end > begin && end - begin < n + 1) || (begin > end && begin - end > capacity - n - 1)
  }

  /** The slot of the k-th stored item. */
  function Slot(end: nat, k: nat, capacity: nat): (i: nat)
    requires end < capacity && k <= capacity
    ensures i < capacity
  {
    if end + k < capacity then end + k else end + k - capacity
  }

  /** The items between the read index and the write index, oldest first. */
  function Stored<T>(p: seq<T>, end: nat, n: nat): (s: seq<T>)
    requires end < |p| && n <= |p|
    ensures |s| == n
    decreases n
  {
    if n == 0 then [] else [p[end]] + Stored(p, Next(end, |p|), n - 1)
  }

  /** push_back refuses an item exactly when all but one of the slots hold one, provided there is more than one
      slot. With a single slot it refuses nothing and holds nothing. */
  lemma FullIff(capacity: nat)
    requires 0 < capacity <= UINT32
    ensures (forall begin, end :: 0 <= begin < capacity && 0 <= end < capacity ==>
              (Full(begin, end, capacity) <==> Count(begin, end, capacity) == capacity - 1))
            <==> capacity >= 2
  {
    if capacity == 1 {
      assert !Full(0, 0, 1) && Count(0, 0, 1) == 0;
    }
  }

  /** The bulk push_back refuses a batch exactly when it does not fit. */
  lemma TooManyIff(begin: nat, end: nat, capacity: nat, n: nat)
    requires begin < capacity && end < capacity
    ensures TooMany(begin, end, capacity, n) <==> Count(begin, end, capacity) + n > capacity - 1
  {}

  lemma CountNext(begin: nat, end: nat, capacity: nat)
    requires begin < capacity && end < capacity
    ensures Count(begin, end, capacity) < capacity - 1 ==>
              Count(Next(begin, capacity), end, capacity) == Count(begin, end, capacity) + 1
    ensures Count(begin, end, capacity) > 0 ==>
              Count(begin, Next(end, capacity), capacity) == Count(begin, end, capacity) - 1
    ensures Count(begin, end, capacity) == 0 <==> begin == end
  {}

  lemma {:induction false} StoredAt<T>(p: seq<T>, end: nat, n: nat, k: nat)
    requires end < |p| && k < n <= |p|
    ensures Stored(p, end, n)[k] == p[Slot(end, k, |p|)]
    decreases n
  {
    if k > 0 {
      StoredAt(p, Next(end, |p|), n - 1, k - 1);
    }
  }

  /** Items are the same when the slots they are in are. */
  lemma {:induction false} StoredSame<T>(p: seq<T>, r: seq<T>, end: nat, n: nat)
    requires end < |p| == |r| && n <= |p|
    requires forall k {:trigger Slot(end, k, |p|)} :: 0 <= k < n ==> r[Slot(end, k, |p|)] == p[Slot(end, k, |p|)]
    ensures Stored(r, end, n) == Stored(p, end, n)
  {
    forall k | 0 <= k < n ensures Stored(r, end, n)[k] == Stored(p, end, n)[k] {
      StoredAt(r, end, n, k);
      StoredAt(p, end, n, k);
      assert Slot(end, k, |p|) < |p|;
    }
  }

  lemma {:induction false} StoredMore<T>(p: seq<T>, end: nat, n: nat)
    requires end < |p| && n < |p|
    ensures Stored(p, end, n + 1) == Stored(p, end, n) + [p[Slot(end, n, |p|)]]
    decreases n
  {
    if n > 0 {
      StoredMore(p, Next(end, |p|), n - 1);
    }
  }

  /** Writing the slot at the write index touches no stored item, and puts the new one behind them. */
  lemma StoredPush<T>(p: seq<T>, begin: nat, end: nat, x: T)
    requires begin < |p| && end < |p|
    ensures var n := Count(begin, end, |p|);
            Stored(p[begin := x], end, n) == Stored(p, end, n)
            && Stored(p[begin := x], end, n + 1) == Stored(p, end, n) + [x]
  {
    var n := Count(begin, end, |p|);
    StoredSame(p, p[begin := x], end, n);
    StoredMore(p[begin := x], end, n);
  }

  // ----- what the queue means

  /** push_back on a queue of at most `size` items. A queue made for none takes every item and keeps none. */
  function Pushed<T>(s: seq<T>, x: T, size: nat): (seq<T>, bool) {
    if size == 0 then (s, true) else if |s| < size then (s + [x], true) else (s, false)
  }

  function PushedAll<T>(s: seq<T>, batch: seq<T>, size: nat): (seq<T>, bool) {
    if |s| + |batch| <= size then (s + batch, true) else (s, false)
  }

  /** Pushing one by one, as long as that succeeds. */
  function PushedEach<T>(s: seq<T>, batch: seq<T>, size: nat): (seq<T>, bool)
    decreases |batch|
  {
    if batch == [] then (s, true)
    else
      var (t, ok) := Pushed(s, batch[0], size);
      if ok then PushedEach(t, batch[1..], size) else (t, false)
  }

  /** The bulk push_back succeeds exactly when pushing one by one would succeed throughout, and then has the same
      effect; except that a queue made for none refuses a batch. */
  lemma {:induction false} BulkIsSingles<T>(s: seq<T>, batch: seq<T>, size: nat)
    requires |s| <= size
    ensures size > 0 ==> (PushedAll(s, batch, size).1 <==> PushedEach(s, batch, size).1)
    ensures size > 0 && PushedAll(s, batch, size).1 ==> PushedAll(s, batch, size) == PushedEach(s, batch, size)
    ensures size == 0 && batch != [] ==> !PushedAll(s, batch, size).1 && PushedEach(s, batch, size).1
    decreases |batch|
  {
    if batch == [] {
      assert s + batch == s;
    } else if size > 0 && |s| < size {
      BulkIsSingles(s + [batch[0]], batch[1..], size);
      assert s + [batch[0]] + batch[1..] == s + batch;
    } else if size == 0 {
      BulkIsSingles(s, batch[1..], size);
    }
  }
}

module LoopQueues {
  import opened Basics
  import opened LoopRing

  const SIZE_LIMIT: nat := 10000

  class LoopQueue<T(0)> {
    const p: array<T>
    const capacity: nat
    const capacitySub: nat
    var begin: nat
    var end: nat

    ghost predicate Valid()
      reads `begin, `end
    {
      && p.Length == capacity && capacitySub == capacity - 1
      && 0 < capacity <= SIZE_LIMIT && begin < capacity && end < capacity
    }

    /** The stored items, oldest first. */
    ghost function Contents(): seq<T>
      reads `begin, `end, p
      requires Valid()
    {
      Stored(p[..], end, Count(begin, end, capacity))
    }

    constructor (size: nat)
      requires size < SIZE_LIMIT  // asserted by the source
      ensures Valid() && Contents() == [] && capacitySub == size && fresh(p)
    {
      capacity := size + 1;
      capacitySub := size;
      p := new T[size + 1];
      begin, end := 0, 0;
    }

    function Size(): (n: nat)
      requires Valid()
      reads `begin, `end, p
      ensures n == |Contents()|
    {
      Count(begin, end, capacity)
    }

    predicate Empty()
      requires Valid()
      reads `begin, `end, p
      ensures Empty() <==> Contents() == []
    {
      end == begin
    }

    /** Writes a slot and moves the write index. */
    method Put(t: T)
      requires Valid()
      modifies p, `begin
      ensures Valid()
      ensures old(|Contents()|) < capacitySub ==> Contents() == old(Contents()) + [t]
      ensures capacitySub == 0 ==> Contents() == []
    {
      StoredPush(p[..], begin, end, t);
      CountNext(begin, end, capacity);
      ghost var q := p[..];
      p[begin] := t;
      assert p[..] == q[begin := t];
      if begin == capacitySub {
        begin := 0;
      } else {
        begin := begin + 1;
      }
    }

    method PushBack(t: T) returns (ok: bool, empty: bool)
      requires Valid()
      modifies p, `begin
      ensures Valid() && (Contents(), ok) == Pushed(old(Contents()), t, capacitySub)
      ensures ok <==> capacitySub == 0 || old(|Contents()|) < capacitySub
      ensures Contents() == if ok && capacitySub > 0 then old(Contents()) + [t] else old(Contents())
      ensures empty <==> ok && old(Contents()) == []
    {
      empty := false;
      FullIff(capacity);
      if Full(begin, end, capacity) {
        return false, empty;
      }
      if end == begin {
        empty := true;
      }
      Put(t);
      if !empty && Size() == 1 {
        empty := true;
      }
      return true, empty;
    }

    method PushBackAll(queue: seq<T>) returns (ok: bool)
      requires Valid()
      modifies p, `begin
      ensures Valid() && (Contents(), ok) == PushedAll(old(Contents()), queue, capacitySub)
      ensures ok <==> old(|Contents()|) + |queue| <= capacitySub
      ensures Contents() == if ok then old(Contents()) + queue else old(Contents())
    {
      TooManyIff(begin, end, capacity, |queue|);
      if TooMany(begin, end, capacity, |queue|) {
        return false;
      }
      var i := 0;
      while i < |queue|
        invariant i <= |queue| && Valid()
        invariant Contents() == old(Contents()) + queue[..i]
      {
        Put(queue[i]);
        i := i + 1;
      }
      assert queue[..i] == queue;
      return true;
    }

    method PopFront() returns (t: Option<T>)
      requires Valid()
      modifies `end
      ensures Valid()
      ensures old(Contents()) == [] ==> t == None && Contents() == []
      ensures old(Contents()) != [] ==> t == Some(old(Contents())[0]) && Contents() == old(Contents())[1..]
    {
      if end == begin {
        return None;
      }
      CountNext(begin, end, capacity);
      t := Some(p[end]);
      if end == capacitySub {
        end := 0;
      } else {
        end := end + 1;
      }
    }

    method GetFront() returns (t: Option<T>)
      requires Valid()
      ensures t == if Contents() == [] then None else Some(Contents()[0])
    {
      t := if end == begin then None else Some(p[end]);
    }
  }
}
