/**
 The queue of requests in flight: a hash map by id, a deadline-ordered multimap and a list of requests not yet
 sent, each holding iterators into the others.

 An iterator is a handle that stays valid until its element is erased: `dataIter` is the key of a map entry,
 which rehashing does not move; `timeIter` and `sendIter` are numbers no two list nodes ever share.
 */
module TimeoutQueues {
  import opened Basics
  import opened Folding
  import opened Sequences

  type Id = nat
  type Handle = nat

  // ----- what the queue means

  /** A request in flight; `stamp` counts the pushes before it. */
  datatype Entry<+T> = Entry(value: T, deadline: int, sent: bool, stamp: nat)

  /** The queue as a value: the requests in flight, how many were ever pushed, and the stamps of those removed. */
  datatype Queue<T> = Queue(entries: map<Id, Entry<T>>, pushes: nat, gone: seq<nat>)

  /** Expiry order: by deadline, ties in order of insertion. */
  predicate Before<T>(a: Entry<T>, b: Entry<T>) {
    a.deadline < b.deadline || (a.deadline == b.deadline && a.stamp < b.stamp)
  }

  /** Every push that succeeded is either still in flight or was removed exactly once. */
  ghost predicate Conserved<T>(q: Queue<T>) {
    && (forall i :: i in q.entries ==> q.entries[i].stamp < q.pushes && q.entries[i].stamp !in q.gone)
    && (forall i, j :: i in q.entries && j in q.entries && i != j ==> q.entries[i].stamp != q.entries[j].stamp)
    && NoDuplicates(q.gone)
    && (forall s :: 0 <= s < q.pushes ==> s in q.gone || Live(q, s))
    && (forall s :: s in q.gone ==> s < q.pushes)
  }

  ghost predicate Live<T>(q: Queue<T>, stamp: nat) {
    exists i :: i in q.entries && q.entries[i].stamp == stamp
  }

  function Pushed<T>(q: Queue<T>, id: Id, value: T, deadline: int, sent: bool): Queue<T> {
    if id in q.entries then q
    else Queue(q.entries[id := Entry(value, deadline, sent, q.pushes)], q.pushes + 1, q.gone)
  }

  function Erased<T>(q: Queue<T>, id: Id): Queue<T> {
    if id in q.entries then q.(entries := q.entries - {id}, gone := q.gone + [q.entries[id].stamp]) else q
  }

  function Sent<T>(q: Queue<T>, id: Id): Queue<T>
    requires id in q.entries
  {
    q.(entries := q.entries[id := q.entries[id].(sent := true)])
  }

  lemma PushConserves<T>(q: Queue<T>, id: Id, value: T, deadline: int, sent: bool)
    requires Conserved(q)
    ensures Conserved(Pushed(q, id, value, deadline, sent))
  {
    if id !in q.entries {
      var r := Pushed(q, id, value, deadline, sent);
      forall s | 0 <= s < r.pushes ensures s in r.gone || Live(r, s) {
        if s == q.pushes {
          assert id in r.entries && r.entries[id].stamp == s;
        } else if s !in q.gone {
          var i :| i in q.entries && q.entries[i].stamp == s;
          assert i in r.entries && r.entries[i].stamp == s;
        }
      }
    }
  }

  lemma EraseConserves<T>(q: Queue<T>, id: Id)
    requires Conserved(q)
    ensures Conserved(Erased(q, id))
  {
    if id in q.entries {
      var r := Erased(q, id);
      forall s | 0 <= s < r.pushes ensures s in r.gone || Live(r, s) {
        if s !in q.gone && s != q.entries[id].stamp {
          var i :| i in q.entries && q.entries[i].stamp == s;
          assert i in r.entries && r.entries[i].stamp == s;
        }
      }
    }
  }

  lemma SendConserves<T>(q: Queue<T>, id: Id)
    requires Conserved(q) && id in q.entries
    ensures Conserved(Sent(q, id))
  {
    var r := Sent(q, id);
    forall s | 0 <= s < r.pushes ensures s in r.gone || Live(r, s) {
      if s !in q.gone {
        var i :| i in q.entries && q.entries[i].stamp == s;
        assert i in r.entries && r.entries[i].stamp == s;
      }
    }
  }

  ghost function Below(n: nat): (s: set<nat>)
    ensures |s| == n
    ensures forall i: nat :: i in s <==> i < n
  {
    if n == 0 then {} else Below(n - 1) + {n - 1}
  }

  /** What was pushed is what is in flight plus what was removed. */
  lemma NothingIsLost<T>(q: Queue<T>)
    requires Conserved(q)
    ensures |q.entries| + |q.gone| == q.pushes
  {
    var live := set i | i in q.entries.Keys :: q.entries[i].stamp;
    var gone := set s | s in q.gone;
    StampsCount(q, q.entries.Keys, live);
    NoDuplicatesBag(q.gone, gone);
    StampsPartition(q, live, gone);
    assert |live + gone| == |live| + |gone|;
  }

  lemma StampsPartition<T>(q: Queue<T>, live: set<nat>, gone: set<nat>)
    requires Conserved(q)
    requires live == set i | i in q.entries.Keys :: q.entries[i].stamp
    requires gone == set s | s in q.gone
    ensures live !! gone && live + gone == Below(q.pushes)
  {
    forall s | s in Below(q.pushes) ensures s in live || s in gone {
      if s !in q.gone {
        assert Live(q, s);
      }
    }
  }

  lemma {:induction false} StampsCount<T>(q: Queue<T>, ids: set<Id>, stamps: set<nat>)
    requires Conserved(q) && ids <= q.entries.Keys
    requires stamps == set i | i in ids :: q.entries[i].stamp
    ensures |stamps| == |ids|
    decreases ids
  {
    if ids != {} {
      var i :| i in ids;
      StampsCount(q, ids - {i}, set j | j in ids - {i} :: q.entries[j].stamp);
      assert stamps == (set j | j in ids - {i} :: q.entries[j].stamp) + {q.entries[i].stamp};
    }
  }

  /** The entry that expires first. */
  ghost predicate IsFirst<T>(q: Queue<T>, id: Id) {
    id in q.entries && forall j :: j in q.entries && j != id ==> Before(q.entries[id], q.entries[j])
  }

  /** The unsent entry that was pushed first. */
  ghost predicate IsOldestUnsent<T>(q: Queue<T>, id: Id) {
    && id in q.entries && !q.entries[id].sent
    && forall j :: j in q.entries && !q.entries[j].sent && j != id ==> q.entries[id].stamp < q.entries[j].stamp
  }

  // ----- expiry

  /** Readings of the clock, one for each turn of a loop. */
  type Clock = nat -> int

  function ErasedAll<T>(q: Queue<T>, ids: seq<Id>): Queue<T> {
    if ids == [] then q else Erased(ErasedAll(q, ids[..|ids| - 1]), ids[|ids| - 1])
  }

  /** Each id in turn is the first to expire of what is left, and is due when the clock is read for it. */
  ghost predicate InExpiryOrder<T>(q: Queue<T>, ids: seq<Id>, clock: Clock) {
    forall k :: 0 <= k < |ids| ==>
      var left := ErasedAll(q, ids[..k]);
      IsFirst(left, ids[k]) && left.entries[ids[k]].deadline <= clock(k)
  }

  /** Nothing left is due at `now`. */
  ghost predicate NothingDue<T>(q: Queue<T>, now: int) {
    forall i :: i in q.entries ==> q.entries[i].deadline > now
  }

  /** An expiry loop removes `ids`, in this order, and then finds nothing due. */
  ghost predicate Expires<T>(q: Queue<T>, ids: seq<Id>, clock: Clock) {
    InExpiryOrder(q, ids, clock) && NothingDue(ErasedAll(q, ids), clock(|ids|))
  }

  lemma {:induction false} ErasedAllEntries<T>(q: Queue<T>, ids: seq<Id>)
    ensures ErasedAll(q, ids).entries.Keys == q.entries.Keys - (set i | i in ids)
    ensures forall i :: i in ErasedAll(q, ids).entries ==> ErasedAll(q, ids).entries[i] == q.entries[i]
    ensures ErasedAll(q, ids).pushes == q.pushes
  {
    if ids != [] {
      var n := |ids| - 1;
      ErasedAllEntries(q, ids[..n]);
      assert ids == ids[..n] + [ids[n]];
      assert forall i :: i in ids <==> i in ids[..n] || i == ids[n];
    }
  }

  lemma {:induction false} ErasedAllConserves<T>(q: Queue<T>, ids: seq<Id>)
    requires Conserved(q)
    ensures Conserved(ErasedAll(q, ids))
  {
    if ids != [] {
      ErasedAllConserves(q, ids[..|ids| - 1]);
      EraseConserves(ErasedAll(q, ids[..|ids| - 1]), ids[|ids| - 1]);
    }
  }

  lemma NthToExpire<T>(q: Queue<T>, ids: seq<Id>, clock: Clock, k: nat)
    requires InExpiryOrder(q, ids, clock) && k < |ids|
    ensures ids[k] in q.entries && ids[k] !in ids[..k] && q.entries[ids[k]].deadline <= clock(k)
    ensures forall i :: i in q.entries && i !in ids[..k] && i != ids[k] ==> Before(q.entries[ids[k]], q.entries[i])
  {
    var left := ErasedAll(q, ids[..k]);
    ErasedAllEntries(q, ids[..k]);
    assert IsFirst(left, ids[k]) && left.entries[ids[k]].deadline <= clock(k);
    forall i | i in q.entries && i !in ids[..k] && i != ids[k] ensures Before(q.entries[ids[k]], q.entries[i]) {
      assert i in left.entries;
    }
  }

  /** An expiry loop hands out each value once, in expiry order, before anything it leaves. */
  lemma ExpiryIsOrdered<T>(q: Queue<T>, ids: seq<Id>, clock: Clock)
    requires Expires(q, ids, clock)
    ensures forall k :: 0 <= k < |ids| ==> ids[k] in q.entries
    ensures forall j, k :: 0 <= j < k < |ids| ==> ids[j] != ids[k] && Before(q.entries[ids[j]], q.entries[ids[k]])
    ensures forall k, i :: 0 <= k < |ids| && i in q.entries && i !in ids ==> Before(q.entries[ids[k]], q.entries[i])
  {
    forall k | 0 <= k < |ids| ensures ids[k] in q.entries {
      NthToExpire(q, ids, clock, k);
    }
    forall j, k | 0 <= j < k < |ids| ensures ids[j] != ids[k] && Before(q.entries[ids[j]], q.entries[ids[k]]) {
      NthToExpire(q, ids, clock, j);
      NthToExpire(q, ids, clock, k);
      assert ids[..k][j] == ids[j];
      assert forall m :: 0 <= m < j ==> ids[..k][m] == ids[..j][m];
    }
    forall k, i | 0 <= k < |ids| && i in q.entries && i !in ids ensures Before(q.entries[ids[k]], q.entries[i]) {
      NthToExpire(q, ids, clock, k);
    }
  }

  /** When the clock does not pass a deadline during the loop, exactly what was due at its start is removed. */
  lemma ExpiresExactlyTheDue<T>(q: Queue<T>, ids: seq<Id>, clock: Clock)
    requires Expires(q, ids, clock)
    requires forall k, i :: 0 <= k <= |ids| && i in q.entries ==>
               (q.entries[i].deadline <= clock(k) <==> q.entries[i].deadline <= clock(0))
    ensures forall i :: i in ids <==> i in q.entries && q.entries[i].deadline <= clock(0)
    ensures ErasedAll(q, ids).entries == map i | i in q.entries && q.entries[i].deadline > clock(0) :: q.entries[i]
  {
    ErasedAllEntries(q, ids);
    forall i | i in ids ensures i in q.entries && q.entries[i].deadline <= clock(0) {
      var k :| 0 <= k < |ids| && ids[k] == i;
      ErasedAllEntries(q, ids[..k]);
      assert IsFirst(ErasedAll(q, ids[..k]), ids[k]);
      assert q.entries[i].deadline <= clock(k);
    }
    forall i | i in q.entries && i !in ids ensures q.entries[i].deadline > clock(0) {
      assert i in ErasedAll(q, ids).entries;
      assert q.entries[i].deadline > clock(|ids|);
    }
  }

  // ----- the three containers

  datatype PtrInfo<T> = PtrInfo(ptr: T, hasSend: bool, timeIter: Handle, sendIter: Handle)
  datatype TimeNode = TimeNode(handle: Handle, deadline: int, dataIter: Id)
  datatype SendNode = SendNode(handle: Handle, dataIter: Id)

  /** std::multimap::insert: after every node whose key is not greater. */
  function InsertTime(q: seq<TimeNode>, n: TimeNode): seq<TimeNode> {
    if q == [] || n.deadline < q[0].deadline then [n] + q else [q[0]] + InsertTime(q[1..], n)
  }

  /** Erasing the node an iterator points to. */
  function EraseTime(q: seq<TimeNode>, h: Handle): seq<TimeNode> {
    if q == [] then [] else if q[0].handle == h then q[1..] else [q[0]] + EraseTime(q[1..], h)
  }

  function EraseSend(q: seq<SendNode>, h: Handle): seq<SendNode> {
    if q == [] then [] else if q[0].handle == h then q[1..] else [q[0]] + EraseSend(q[1..], h)
  }

  predicate Earlier(a: TimeNode, b: TimeNode) {
    a.deadline < b.deadline || (a.deadline == b.deadline && a.handle < b.handle)
  }

  ghost predicate TimeSorted(q: seq<TimeNode>) {
    forall i, j :: 0 <= i < j < |q| ==> Earlier(q[i], q[j])
  }

  /** The unsent list has its newest element in front. */
  ghost predicate SendSorted(q: seq<SendNode>) {
    forall i, j :: 0 <= i < j < |q| ==> q[i].handle > q[j].handle
  }

  lemma {:induction false} InsertTimeFacts(q: seq<TimeNode>, n: TimeNode)
    requires TimeSorted(q) && forall m :: m in q ==> m.handle < n.handle
    ensures TimeSorted(InsertTime(q, n))
    ensures forall m :: m in InsertTime(q, n) <==> m in q || m == n
    ensures |InsertTime(q, n)| == |q| + 1
  {
    if q != [] && n.deadline >= q[0].deadline {
      assert q == [q[0]] + q[1..];
      InsertTimeFacts(q[1..], n);
      var rest := InsertTime(q[1..], n);
      forall j | 0 <= j < |rest| ensures Earlier(q[0], rest[j]) {
        assert rest[j] in rest;
      }
    } else if q != [] {
      assert forall j :: 0 <= j < |q| ==> q[j] in q;
    }
  }

  lemma {:induction false} EraseTimeFacts(q: seq<TimeNode>, n: TimeNode)
    requires TimeSorted(q) && n in q && forall m :: m in q && m.handle == n.handle ==> m == n
    ensures TimeSorted(EraseTime(q, n.handle))
    ensures forall m :: m in EraseTime(q, n.handle) <==> m in q && m != n
    ensures |EraseTime(q, n.handle)| == |q| - 1
  {
    assert q == [q[0]] + q[1..];
    if q[0].handle != n.handle {
      EraseTimeFacts(q[1..], n);
      var rest := EraseTime(q[1..], n.handle);
      forall j | 0 <= j < |rest| ensures Earlier(q[0], rest[j]) {
        assert rest[j] in rest;
      }
    } else {
      assert q[0] == n;
      assert forall j :: 1 <= j < |q| ==> q[j] != n;
    }
  }

  lemma {:induction false} EraseSendFacts(q: seq<SendNode>, n: SendNode)
    requires SendSorted(q) && n in q && forall m :: m in q && m.handle == n.handle ==> m == n
    ensures SendSorted(EraseSend(q, n.handle))
    ensures forall m :: m in EraseSend(q, n.handle) <==> m in q && m != n
    ensures |EraseSend(q, n.handle)| == |q| - 1
  {
    assert q == [q[0]] + q[1..];
    if q[0].handle != n.handle {
      EraseSendFacts(q[1..], n);
      SendSortedCons(EraseSend(q[1..], n.handle), q[0]);
    } else {
      assert q[0] == n;
      assert forall j :: 1 <= j < |q| ==> q[j] != n;
    }
  }

  function TimeOf<T>(q: Queue<T>, id: Id): TimeNode
    requires id in q.entries
  {
    TimeNode(q.entries[id].stamp, q.entries[id].deadline, id)
  }

  function SendOf<T>(q: Queue<T>, id: Id): SendNode
    requires id in q.entries
  {
    SendNode(q.entries[id].stamp, id)
  }

  ghost predicate DataHolds<T>(q: Queue<T>, data: map<Id, PtrInfo<T>>) {
    && data.Keys == q.entries.Keys
    && forall i :: i in data ==>
         && data[i].ptr == q.entries[i].value && data[i].hasSend == q.entries[i].sent
         && data[i].timeIter == q.entries[i].stamp
         && (!data[i].hasSend ==> data[i].sendIter == q.entries[i].stamp)
  }

  ghost predicate TimeHolds<T>(q: Queue<T>, time: seq<TimeNode>) {
    && TimeSorted(time)
    && (forall n :: n in time ==> n.dataIter in q.entries && n == TimeOf(q, n.dataIter))
    && (forall i :: i in q.entries ==> TimeOf(q, i) in time)
  }

  ghost predicate SendHolds<T>(q: Queue<T>, send: seq<SendNode>) {
    && SendSorted(send)
    && (forall n :: n in send ==> n.dataIter in q.entries && !q.entries[n.dataIter].sent && n == SendOf(q, n.dataIter))
    && (forall i :: i in q.entries && !q.entries[i].sent ==> SendOf(q, i) in send)
  }

  /** The three containers agree with each other and with the queue they stand for. */
  ghost predicate Coherent<T>(q: Queue<T>, data: map<Id, PtrInfo<T>>, time: seq<TimeNode>, send: seq<SendNode>) {
    Conserved(q) && DataHolds(q, data) && TimeHolds(q, time) && SendHolds(q, send)
  }

  /** What coherence means without the model: every iterator points back, and the sizes agree. */
  lemma IteratorsPointBack<T>(q: Queue<T>, data: map<Id, PtrInfo<T>>, time: seq<TimeNode>, send: seq<SendNode>)
    requires Coherent(q, data, time, send)
    ensures forall n :: n in time ==> n.dataIter in data && data[n.dataIter].timeIter == n.handle
    ensures forall i :: i in data ==> exists n :: n in time && n.handle == data[i].timeIter && n.dataIter == i
    ensures forall n :: n in send ==>
              n.dataIter in data && data[n.dataIter].sendIter == n.handle && !data[n.dataIter].hasSend
    ensures forall i :: i in data && !data[i].hasSend ==>
              exists n :: n in send && n.handle == data[i].sendIter && n.dataIter == i
    ensures |time| == |data|
  {
    forall i | i in data ensures exists n :: n in time && n.handle == data[i].timeIter && n.dataIter == i {
      assert TimeOf(q, i) in time;
    }
    forall i | i in data && !data[i].hasSend
      ensures exists n :: n in send && n.handle == data[i].sendIter && n.dataIter == i
    {
      assert SendOf(q, i) in send;
    }
    TimeSize(q, time);
    assert |data.Keys| == |data|;
  }

  lemma TimeSize<T>(q: Queue<T>, time: seq<TimeNode>)
    requires TimeHolds(q, time)
    ensures |time| == |q.entries.Keys|
  {
    var ids := seq(|time|, k requires 0 <= k < |time| => time[k].dataIter);
    forall j, k | 0 <= j < k < |ids| ensures ids[j] != ids[k] {
      assert time[j] in time && time[k] in time;
    }
    forall i ensures i in ids <==> i in q.entries.Keys {
      if i in q.entries {
        var k :| 0 <= k < |time| && time[k] == TimeOf(q, i);
        assert ids[k] == i;
      }
      if i in ids {
        var k :| 0 <= k < |ids| && ids[k] == i;
        assert time[k] in time;
      }
    }
    NoDuplicatesBag(ids, q.entries.Keys);
  }

  /** The first node of the multimap is the entry that expires first. */
  lemma HeadIsFirst<T>(q: Queue<T>, time: seq<TimeNode>)
    requires TimeHolds(q, time)
    ensures time == [] ==> q.entries.Keys == {}
    ensures time != [] ==> IsFirst(q, time[0].dataIter) && q.entries[time[0].dataIter].deadline == time[0].deadline
  {
    if time != [] {
      assert time[0] in time;
      forall j | j in q.entries && j != time[0].dataIter ensures Before(q.entries[time[0].dataIter], q.entries[j]) {
        var k :| 0 <= k < |time| && time[k] == TimeOf(q, j);
        assert Earlier(time[0], time[k]);
      }
    }
  }

  /** The last node of the unsent list is the request that was pushed first. */
  lemma BackIsOldest<T>(q: Queue<T>, send: seq<SendNode>)
    requires SendHolds(q, send) && send != []
    ensures IsOldestUnsent(q, send[|send| - 1].dataIter)
  {
    var n := send[|send| - 1];
    assert n in send;
    forall j | j in q.entries && !q.entries[j].sent && j != n.dataIter
      ensures q.entries[n.dataIter].stamp < q.entries[j].stamp
    {
      var k :| 0 <= k < |send| && send[k] == SendOf(q, j);
    }
  }

  lemma TimePush<T>(q: Queue<T>, time: seq<TimeNode>, id: Id, value: T, deadline: int, sent: bool)
    requires Conserved(q) && TimeHolds(q, time) && id !in q.entries
    ensures TimeHolds(Pushed(q, id, value, deadline, sent), InsertTime(time, TimeNode(q.pushes, deadline, id)))
  {
    InsertTimeFacts(time, TimeNode(q.pushes, deadline, id));
  }

  lemma SendPush<T>(q: Queue<T>, send: seq<SendNode>, id: Id, value: T, deadline: int, sent: bool)
    requires Conserved(q) && SendHolds(q, send) && id !in q.entries
    ensures SendHolds(Pushed(q, id, value, deadline, sent), if sent then send else [SendNode(q.pushes, id)] + send)
  {
    if sent {
      SendPushSent(q, send, id, value, deadline);
    } else {
      SendPushUnsent(q, send, id, value, deadline);
    }
  }

  lemma SendPushSent<T>(q: Queue<T>, send: seq<SendNode>, id: Id, value: T, deadline: int)
    requires SendHolds(q, send) && id !in q.entries
    ensures SendHolds(Pushed(q, id, value, deadline, true), send)
  {}

  lemma SendPushUnsent<T>(q: Queue<T>, send: seq<SendNode>, id: Id, value: T, deadline: int)
    requires Conserved(q) && SendHolds(q, send) && id !in q.entries
    ensures SendHolds(Pushed(q, id, value, deadline, false), [SendNode(q.pushes, id)] + send)
  {
    var r, n := Pushed(q, id, value, deadline, false), SendNode(q.pushes, id);
    SendSortedCons(send, n);
    assert SendOf(r, id) == n;
    assert forall m :: m in [n] + send <==> m == n || m in send;
    assert forall i :: i in r.entries <==> i in q.entries || i == id;
  }

  lemma SendSortedCons(send: seq<SendNode>, n: SendNode)
    requires SendSorted(send) && forall m :: m in send ==> m.handle < n.handle
    ensures SendSorted([n] + send)
  {
    assert forall k :: 0 <= k < |send| ==> send[k] in send;
  }

  lemma TimeErase<T>(q: Queue<T>, time: seq<TimeNode>, id: Id)
    requires Conserved(q) && TimeHolds(q, time) && id in q.entries
    ensures TimeHolds(Erased(q, id), EraseTime(time, q.entries[id].stamp))
  {
    EraseTimeFacts(time, TimeOf(q, id));
  }

  lemma SendErase<T>(q: Queue<T>, send: seq<SendNode>, id: Id)
    requires Conserved(q) && SendHolds(q, send) && id in q.entries
    ensures SendHolds(Erased(q, id), if q.entries[id].sent then send else EraseSend(send, q.entries[id].stamp))
  {
    if q.entries[id].sent {
      SendEraseSent(q, send, id);
    } else {
      EraseSendFacts(send, SendOf(q, id));
      SendEraseUnsent(q, send, EraseSend(send, q.entries[id].stamp), id);
    }
  }

  /** A request that was sent is not on the list. */
  lemma SendEraseSent<T>(q: Queue<T>, send: seq<SendNode>, id: Id)
    requires SendHolds(q, send) && id in q.entries && q.entries[id].sent
    ensures SendHolds(Erased(q, id), send)
  {}

  lemma SendEraseUnsent<T>(q: Queue<T>, send: seq<SendNode>, rest: seq<SendNode>, id: Id)
    requires Conserved(q) && SendHolds(q, send) && id in q.entries
    requires SendSorted(rest) && forall m :: m in rest <==> m in send && m != SendOf(q, id)
    ensures SendHolds(Erased(q, id), rest)
  {}

  lemma SendPop<T>(q: Queue<T>, send: seq<SendNode>)
    requires Conserved(q) && SendHolds(q, send) && send != []
    ensures var id := send[|send| - 1].dataIter;
      && id in q.entries
      && SendHolds(Sent(q, id), send[..|send| - 1]) && SendHolds(Erased(q, id), send[..|send| - 1])
  {
    var k := |send| - 1;
    assert send == send[..k] + [send[k]];
    assert send[k] in send;
    assert forall j :: 0 <= j < k ==> send[j] != send[k];
  }

  /** Coherence, folded: mention ModelKey to unfold it. */
  ghost predicate Agree<T>(q: Queue<T>, data: map<Id, PtrInfo<T>>, time: seq<TimeNode>, send: seq<SendNode>) {
    forall k {:trigger ModelKey(k)} :: ModelKey(k) ==> Coherent(q, data, time, send)
  }

  /** What a lookup finds. */
  lemma Lookup<T>(q: Queue<T>, data: map<Id, PtrInfo<T>>, time: seq<TimeNode>, send: seq<SendNode>, id: Id)
    requires Agree(q, data, time, send)
    ensures id in data <==> id in q.entries
    ensures id in data ==> data[id].ptr == q.entries[id].value && data[id].hasSend == q.entries[id].sent
  {
    assert ModelKey(0);
  }

  lemma Fold<T>(q: Queue<T>, data: map<Id, PtrInfo<T>>, time: seq<TimeNode>, send: seq<SendNode>)
    requires Conserved(q) && DataHolds(q, data) && TimeHolds(q, time) && SendHolds(q, send)
    ensures Agree(q, data, time, send)
  {}

  lemma Unfold<T>(q: Queue<T>, data: map<Id, PtrInfo<T>>, time: seq<TimeNode>, send: seq<SendNode>)
    requires Agree(q, data, time, send)
    ensures Conserved(q) && DataHolds(q, data) && TimeHolds(q, time) && SendHolds(q, send)
  {
    assert ModelKey(0);
  }

  lemma DataPush<T>(q: Queue<T>, data: map<Id, PtrInfo<T>>, id: Id, value: T, deadline: int, sent: bool,
                    info: PtrInfo<T>)
    requires DataHolds(q, data) && id !in q.entries
    requires info == PtrInfo(value, sent, q.pushes, if sent then info.sendIter else q.pushes)
    ensures DataHolds(Pushed(q, id, value, deadline, sent), data[id := info])
  {}

  lemma PushAgrees<T>(q: Queue<T>, data: map<Id, PtrInfo<T>>, time: seq<TimeNode>, send: seq<SendNode>,
                      id: Id, value: T, deadline: int, sent: bool, info: PtrInfo<T>)
    requires Agree(q, data, time, send) && id !in q.entries
    requires info == PtrInfo(value, sent, q.pushes, if sent then info.sendIter else q.pushes)
    ensures Agree(Pushed(q, id, value, deadline, sent), data[id := info],
                  InsertTime(time, TimeNode(q.pushes, deadline, id)),
                  if sent then send else [SendNode(q.pushes, id)] + send)
  {
    Unfold(q, data, time, send);
    DataPush(q, data, id, value, deadline, sent, info);
    TimePush(q, time, id, value, deadline, sent);
    SendPush(q, send, id, value, deadline, sent);
    PushConserves(q, id, value, deadline, sent);
    Fold(Pushed(q, id, value, deadline, sent), data[id := info],
         InsertTime(time, TimeNode(q.pushes, deadline, id)), if sent then send else [SendNode(q.pushes, id)] + send);
  }

  lemma DataErase<T>(q: Queue<T>, data: map<Id, PtrInfo<T>>, id: Id)
    requires DataHolds(q, data) && id in data
    ensures id in q.entries && data[id].timeIter == q.entries[id].stamp && data[id].hasSend == q.entries[id].sent
    ensures !data[id].hasSend ==> data[id].sendIter == q.entries[id].stamp
    ensures DataHolds(Erased(q, id), data - {id})
  {}

  lemma EraseAgrees<T>(q: Queue<T>, data: map<Id, PtrInfo<T>>, time: seq<TimeNode>, send: seq<SendNode>, id: Id)
    requires Agree(q, data, time, send) && id in data
    ensures id in q.entries
    ensures Agree(Erased(q, id), data - {id}, EraseTime(time, data[id].timeIter),
                  if data[id].hasSend then send else EraseSend(send, data[id].sendIter))
  {
    Unfold(q, data, time, send);
    DataErase(q, data, id);
    TimeErase(q, time, id);
    SendErase(q, send, id);
    EraseConserves(q, id);
    Fold(Erased(q, id), data - {id}, EraseTime(time, data[id].timeIter),
         if data[id].hasSend then send else EraseSend(send, data[id].sendIter));
  }

  lemma FirstAgrees<T>(q: Queue<T>, data: map<Id, PtrInfo<T>>, time: seq<TimeNode>, send: seq<SendNode>)
    requires Agree(q, data, time, send)
    ensures time == [] ==> q.entries == map[]
    ensures time != [] ==> var id := time[0].dataIter;
              && id in data && IsFirst(q, id)
              && q.entries[id].deadline == time[0].deadline
              && EraseTime(time, data[id].timeIter) == time[1..]
  {
    assert ModelKey(0);
    HeadIsFirst(q, time);
    assert time != [] ==> time[0] in time;
  }

  function MarkSent<T>(data: map<Id, PtrInfo<T>>, id: Id): map<Id, PtrInfo<T>>
    requires id in data
  {
    data[id := data[id].(hasSend := true)]
  }

  lemma DataSend<T>(q: Queue<T>, data: map<Id, PtrInfo<T>>, id: Id)
    requires DataHolds(q, data) && id in data
    ensures DataHolds(Sent(q, id), MarkSent(data, id))
  {}

  lemma TimeSend<T>(q: Queue<T>, time: seq<TimeNode>, id: Id)
    requires TimeHolds(q, time) && id in q.entries
    ensures TimeHolds(Sent(q, id), time)
  {
    forall i | i in q.entries ensures TimeOf(Sent(q, id), i) == TimeOf(q, i) {}
  }

  lemma BackAgrees<T>(q: Queue<T>, data: map<Id, PtrInfo<T>>, time: seq<TimeNode>, send: seq<SendNode>)
    requires Agree(q, data, time, send)
    ensures send == [] <==> forall i :: i in q.entries ==> q.entries[i].sent
    ensures send != [] ==> send[|send| - 1].dataIter in data && IsOldestUnsent(q, send[|send| - 1].dataIter)
  {
    Unfold(q, data, time, send);
    if send != [] {
      assert send[|send| - 1] in send;
      BackIsOldest(q, send);
    }
  }

  lemma PopAgrees<T>(q: Queue<T>, data: map<Id, PtrInfo<T>>, time: seq<TimeNode>, send: seq<SendNode>, id: Id)
    requires Agree(q, data, time, send) && send != [] && id == send[|send| - 1].dataIter && id in data
    ensures id in q.entries
    ensures Agree(Sent(q, id), MarkSent(data, id), time, send[..|send| - 1])
    ensures Agree(Erased(q, id), data - {id}, EraseTime(time, data[id].timeIter), send[..|send| - 1])
  {
    Unfold(q, data, time, send);
    SendPop(q, send);
    DataErase(q, data, id);
    DataSend(q, data, id);
    TimeSend(q, time, id);
    TimeErase(q, time, id);
    EraseConserves(q, id);
    SendConserves(q, id);
    Fold(Sent(q, id), MarkSent(data, id), time, send[..|send| - 1]);
    Fold(Erased(q, id), data - {id}, EraseTime(time, data[id].timeIter), send[..|send| - 1]);
  }

  class TimeoutQueue<T> {
    var data: map<Id, PtrInfo<T>>
    var time: seq<TimeNode>
    var send: seq<SendNode>
    var nextHandle: Handle
    ghost var model: Queue<T>

    ghost predicate Valid()
      reads this
    {
      Agree(model, data, time, send) && nextHandle == model.pushes
    }

    constructor ()
      ensures Valid() && model == Queue(map[], 0, [])
    {
      data, time, send, nextHandle := map[], [], [], 0;
      model := Queue(map[], 0, []);
    }

    method Push(ptr: T, uniqId: Id, timeout: int, hasSend: bool) returns (ok: bool)
      requires Valid()
      modifies this
      ensures Valid() && (ok <==> uniqId !in old(model).entries)
      ensures model == Pushed(old(model), uniqId, ptr, timeout, hasSend)
      ensures !ok ==> data == old(data) && time == old(time) && send == old(send)
    {
      Lookup(model, data, time, send, uniqId);
      if uniqId in data {
        return false;
      }
      ghost var q, t, l, h := model, time, send, nextHandle;
      ghost var info := PtrInfo(ptr, hasSend, h, if hasSend then 0 else h);
      ghost var after := data[uniqId := info];
      PushAgrees(q, data, t, l, uniqId, ptr, timeout, hasSend, info);
      data := data[uniqId := PtrInfo(ptr, hasSend, 0, 0)];
      time := InsertTime(time, TimeNode(nextHandle, timeout, uniqId));
      data := data[uniqId := data[uniqId].(timeIter := nextHandle)];
      if !hasSend {
        send := [SendNode(nextHandle, uniqId)] + send;
        data := data[uniqId := data[uniqId].(sendIter := nextHandle)];
      }
      nextHandle := nextHandle + 1;
      model := Pushed(model, uniqId, ptr, timeout, hasSend);
      assert model == Pushed(q, uniqId, ptr, timeout, hasSend) && nextHandle == model.pushes;
      assert data == after;
      assert time == InsertTime(t, TimeNode(q.pushes, timeout, uniqId));
      assert send == if hasSend then l else [SendNode(q.pushes, uniqId)] + l;
      return true;
    }

    /** Takes an entry out of all three containers. */
    method Unlink(uniqId: Id)
      requires Valid() && uniqId in data
      modifies this
      ensures Valid() && model == Erased(old(model), uniqId)
    {
      EraseAgrees(model, data, time, send, uniqId);
      var it := data[uniqId];
      time := EraseTime(time, it.timeIter);
      if !it.hasSend {
        send := EraseSend(send, it.sendIter);
      }
      data := data - {uniqId};
      model := Erased(model, uniqId);
    }

    method Get(uniqId: Id, erase: bool) returns (t: Option<T>)
      requires Valid()
      modifies this
      ensures Valid()
      ensures t == if uniqId in old(model).entries then Some(old(model).entries[uniqId].value) else None
      ensures model == if erase then Erased(old(model), uniqId) else old(model)
    {
      Lookup(model, data, time, send, uniqId);
      if uniqId !in data {
        return None;
      }
      t := Some(data[uniqId].ptr);
      if erase {
        Unlink(uniqId);
      }
    }

    method Erase(uniqId: Id) returns (t: Option<T>)
      requires Valid()
      modifies this
      ensures Valid() && model == Erased(old(model), uniqId)
      ensures t == if uniqId in old(model).entries then Some(old(model).entries[uniqId].value) else None
    {
      Lookup(model, data, time, send, uniqId);
      if uniqId !in data {
        return None;
      }
      t := Some(data[uniqId].ptr);
      Unlink(uniqId);
    }

    /** Takes the oldest unsent request off the unsent list: sent from now on, or dropped if `del`. */
    method PopSend(del: bool) returns (uniqId: Id)
      requires Valid()
      requires send != []  // asserted by the source
      modifies this
      ensures Valid() && IsOldestUnsent(old(model), uniqId)
      ensures model == if del then Erased(old(model), uniqId) else Sent(old(model), uniqId)
    {
      BackAgrees(model, data, time, send);
      ghost var q, t, k := model, time, |send| - 1;
      ghost var d: map<Id, PtrInfo<T>> := data;
      var sendinfo := send[|send| - 1];
      uniqId := sendinfo.dataIter;
      PopAgrees(model, data, time, send, uniqId);
      data := MarkSent(data, uniqId);
      if del {
        time := EraseTime(time, data[uniqId].timeIter);
        data := data - {uniqId};
        assert data == d - {uniqId} && time == EraseTime(t, d[uniqId].timeIter);
      } else {
        assert data == MarkSent(d, uniqId) && time == t;
      }
      send := send[..|send| - 1];
      model := if del then Erased(model, uniqId) else Sent(model, uniqId);
      assert model == if del then Erased(q, uniqId) else Sent(q, uniqId);
      assert send == old(send)[..k];
    }

    method SendListEmpty() returns (empty: bool)
      requires Valid()
      ensures empty <==> forall i :: i in model.entries ==> model.entries[i].sent
    {
      BackAgrees(model, data, time, send);
      empty := send == [];
    }

    /** Erases the first node of the multimap and what its iterators lead to. */
    method EraseFirst() returns (ptr: T)
      requires Valid() && time != []
      modifies this
      ensures Valid() && |time| == |old(time)| - 1
      ensures IsFirst(old(model), old(time)[0].dataIter) && model == Erased(old(model), old(time)[0].dataIter)
      ensures ptr == old(model).entries[old(time)[0].dataIter].value
    {
      FirstAgrees(model, data, time, send);
      var it := time[0];
      Lookup(model, data, time, send, it.dataIter);
      EraseAgrees(model, data, time, send, it.dataIter);
      ptr := data[it.dataIter].ptr;
      if !data[it.dataIter].hasSend {
        send := EraseSend(send, data[it.dataIter].sendIter);
      }
      data := data - {it.dataIter};
      time := time[1..];
      model := Erased(model, it.dataIter);
    }

    /** timeout(T&): removes the first entry if it is due. */
    method TimeoutOne(now: int) returns (t: Option<T>)
      requires Valid()
      modifies this
      ensures Valid()
      ensures t.None? ==> model == old(model) && NothingDue(model, now)
      ensures t.Some? ==> exists id ::
                IsFirst(old(model), id) && old(model).entries[id].deadline <= now
                && t.value == old(model).entries[id].value && model == Erased(old(model), id)
    {
      FirstAgrees(model, data, time, send);
      if time == [] {
        return None;
      }
      if time[0].deadline > now {
        return None;
      }
      var ptr := EraseFirst();
      return Some(ptr);
    }

    /** timeout(func): hands out what is due, reading the clock before each turn. */
    method TimeoutEach(clock: Clock) returns (delivered: seq<T>, ghost ids: seq<Id>)
      requires Valid()
      modifies this
      ensures Valid() && model == ErasedAll(old(model), ids)
      ensures Expires(old(model), ids, clock)
      ensures Values(old(model), ids, delivered)
    {
      delivered, ids := [], [];
      while true
        invariant Valid() && model == ErasedAll(old(model), ids)
        invariant InExpiryOrder(old(model), ids, clock)
        invariant Values(old(model), ids, delivered)
        decreases |time|
      {
        FirstAgrees(model, data, time, send);
        if time == [] || time[0].deadline > clock(|delivered|) {
          break;
        }
        ExpiryStep(old(model), ids, time[0].dataIter, clock);
        ids := ids + [time[0].dataIter];
        var ptr := EraseFirst();
        delivered := delivered + [ptr];
      }
    }

    /** timeout(): drops what is due by one reading of the clock. */
    method Timeout(now: int) returns (ghost ids: seq<Id>)
      requires Valid()
      modifies this
      ensures Valid() && model == ErasedAll(old(model), ids)
      ensures Expires(old(model), ids, _ => now)
    {
      ids := [];
      ghost var clock: Clock := _ => now;
      while true
        invariant Valid() && model == ErasedAll(old(model), ids)
        invariant InExpiryOrder(old(model), ids, clock)
        decreases |time|
      {
        FirstAgrees(model, data, time, send);
        if time == [] || time[0].deadline > now {
          break;
        }
        ExpiryStep(old(model), ids, time[0].dataIter, clock);
        ids := ids + [time[0].dataIter];
        var ptr := EraseFirst();
      }
    }
  }

  /** The values of the ids, one for one. */
  ghost predicate Values<T>(q: Queue<T>, ids: seq<Id>, values: seq<T>) {
    && |values| == |ids|
    && forall k :: 0 <= k < |ids| ==> ids[k] in q.entries && values[k] == q.entries[ids[k]].value
  }

  lemma ExpiryStep<T>(q: Queue<T>, ids: seq<Id>, id: Id, clock: Clock)
    requires InExpiryOrder(q, ids, clock)
    requires IsFirst(ErasedAll(q, ids), id) && ErasedAll(q, ids).entries[id].deadline <= clock(|ids|)
    ensures InExpiryOrder(q, ids + [id], clock)
    ensures ErasedAll(q, ids + [id]) == Erased(ErasedAll(q, ids), id)
    ensures id in q.entries && q.entries[id] == ErasedAll(q, ids).entries[id]
  {
    var more := ids + [id];
    assert more[..|ids|] == ids;
    forall k | 0 <= k < |more|
      ensures var left := ErasedAll(q, more[..k]);
              IsFirst(left, more[k]) && left.entries[more[k]].deadline <= clock(k)
    {
      assert more[..k] == ids[..k];
    }
    ErasedAllEntries(q, ids);
  }
}
