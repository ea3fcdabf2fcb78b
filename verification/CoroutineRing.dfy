/** The intrusive circular doubly-linked lists that hold the coroutines. */
module CoroutineRing {
  import opened Sequences

  datatype Status = Free | Active | Avail | Inactive | Timeout

  class CoroutineInfo {
    var prev: CoroutineInfo?
    var next: CoroutineInfo?
    const uid: nat  // set once, before the coroutine is linked
    var status: Status

    constructor (uid: nat)
      ensures prev == null && next == null && this.uid == uid && status == Free
    {
      this.uid := uid;
      prev, next, status := null, null, Free;
    }
  }

  /** The node at position `i` of the circle: 0 and |s| + 1 are both the sentinel. */
  ghost function At(head: CoroutineInfo, s: seq<CoroutineInfo>, i: int): CoroutineInfo {
    if 1 <= i <= |s| then s[i - 1] else head
  }

  /** The circle through `head` visits exactly `s`, in that order, both ways round. */
  ghost predicate IsRing(head: CoroutineInfo, s: seq<CoroutineInfo>)
    reads head`prev, head`next, s`prev, s`next
  {
    && NoDuplicates(s)
    && head !in s
    && (forall i {:trigger At(head, s, i).next} :: 0 <= i <= |s| ==> At(head, s, i).next == At(head, s, i + 1))
    && (forall i {:trigger At(head, s, i).prev} :: 1 <= i <= |s| + 1 ==> At(head, s, i).prev == At(head, s, i - 1))
  }

  lemma AtInjective(head: CoroutineInfo, s: seq<CoroutineInfo>)
    requires NoDuplicates(s) && head !in s
    ensures forall i, j :: 0 <= i < j <= |s| + 1 && At(head, s, i) == At(head, s, j) ==> i == 0 && j == |s| + 1
  {}

  method HeadInit(coro: CoroutineInfo)
    modifies coro`prev, coro`next
    ensures IsRing(coro, []) && coro.next == coro == coro.prev
  {
    coro.next := coro;
    coro.prev := coro;
  }

  method HeadEmpty(head: CoroutineInfo, ghost s: seq<CoroutineInfo>) returns (empty: bool)
    requires IsRing(head, s)
    ensures empty <==> s == []
  {
    assert head.next == At(head, s, 0).next == At(head, s, 1);
    empty := head.next == head;
  }

  method Link(coro: CoroutineInfo, prev: CoroutineInfo, next: CoroutineInfo,
              ghost head: CoroutineInfo, ghost s: seq<CoroutineInfo>, ghost k: nat)
    requires IsRing(head, s) && k <= |s|
    requires prev == At(head, s, k) && next == At(head, s, k + 1)
    requires coro != head && coro !in s
    modifies next`prev, coro`next, coro`prev, prev`next
    ensures IsRing(head, InsertAt(s, k, coro))
  {
    next.prev := coro;
    coro.next := next;
    coro.prev := prev;
    prev.next := coro;
    ghost var t := InsertAt(s, k, coro);
    AtInjective(head, s);
    forall i | 0 <= i <= |t|
      ensures At(head, t, i).next == At(head, t, i + 1)
      ensures At(head, t, i + 1).prev == At(head, t, i)
    {
      assert i != k && i != k + 1 ==> var j := if i < k then i else i - 1;
        At(head, t, i) == At(head, s, j) && At(head, t, i + 1) == At(head, s, j + 1);
    }
  }

  method CoroutineAdd(coro: CoroutineInfo, head: CoroutineInfo, ghost s: seq<CoroutineInfo>)
    requires IsRing(head, s)
    requires coro != head && coro !in s
    modifies coro`prev, coro`next, head`next, At(head, s, 1)`prev
    ensures IsRing(head, [coro] + s)
  {
    assert head.next == At(head, s, 0).next;
    Link(coro, head, head.next, head, s, 0);
    assert InsertAt(s, 0, coro) == [coro] + s;
  }

  method CoroutineAddTail(coro: CoroutineInfo, head: CoroutineInfo, ghost s: seq<CoroutineInfo>)
    requires IsRing(head, s)
    requires coro != head && coro !in s
    modifies coro`prev, coro`next, head`prev, At(head, s, |s|)`next
    ensures IsRing(head, s + [coro])
  {
    assert head.prev == At(head, s, |s| + 1).prev;
    Link(coro, head.prev, head, head, s, |s|);
    assert InsertAt(s, |s|, coro) == s + [coro];
  }

  method CoroutineDel(coro: CoroutineInfo, ghost head: CoroutineInfo, ghost s: seq<CoroutineInfo>, ghost k: nat)
    requires IsRing(head, s)
    requires k < |s| && s[k] == coro
    modifies head`prev, head`next, s`prev, s`next
    ensures IsRing(head, RemoveAt(s, k))
    ensures coro.prev == null && coro.next == null
  {
    assert coro == At(head, s, k + 1) && coro.prev == At(head, s, k) && coro.next == At(head, s, k + 2);
    Unlink(coro.prev, coro.next, head, s, k);
    coro.next := null;
    coro.prev := null;
  }

  method Unlink(prev: CoroutineInfo, next: CoroutineInfo,
                ghost head: CoroutineInfo, ghost s: seq<CoroutineInfo>, ghost k: nat)
    requires IsRing(head, s) && k < |s|
    requires prev == At(head, s, k) && next == At(head, s, k + 2)
    modifies next`prev, prev`next
    ensures IsRing(head, RemoveAt(s, k))
  {
    next.prev := prev;
    prev.next := next;
    ghost var t := RemoveAt(s, k);
    AtInjective(head, s);
    forall i | 0 <= i <= |t|
      ensures At(head, t, i).next == At(head, t, i + 1)
      ensures At(head, t, i + 1).prev == At(head, t, i)
    {
      assert i != k ==> var j := if i < k then i else i + 1;
        At(head, t, i) == At(head, s, j) && At(head, t, i + 1) == At(head, s, j + 1);
    }
  }
}
