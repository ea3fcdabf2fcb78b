/** The scheduler itself: five sentinels, the coroutine table and the counters, updated in place. */
module CoroutineScheduling {
  import opened Basics
  import opened Folding
  import opened Sequences
  import opened CoroutineRing
  import opened SchedulerModel
  import opened SchedulerInvariant
  import opened SchedulerRounds

  /** Every id of the list names a coroutine of the table. */
  ghost predicate Listed(all: seq<CoroutineInfo?>, q: seq<Id>) {
    forall k :: 0 <= k < |q| ==> q[k] < |all| && all[q[k]] != null
  }

  ghost function Nodes(all: seq<CoroutineInfo?>, q: seq<Id>): (s: seq<CoroutineInfo>)
    requires Listed(all, q)
    ensures |s| == |q|
    ensures forall k :: 0 <= k < |q| ==> s[k] == all[q[k]]
  {
    seq(|q|, k requires 0 <= k < |q| => all[q[k]] as CoroutineInfo)
  }

  /** The ids that name a coroutine of the table. */
  ghost function KnownIn(all: seq<CoroutineInfo?>): set<Id> {
    set i | 0 <= i < |all| && all[i] != null
  }

  /** The table `b` keeps every entry of `a`. */
  ghost predicate Keeps(a: seq<CoroutineInfo?>, b: seq<CoroutineInfo?>) {
    |a| == |b| && forall i :: 0 <= i < |a| && a[i] != null ==> b[i] == a[i]
  }

  lemma KnownGrows(all: seq<CoroutineInfo?>, id: Id, coro: CoroutineInfo)
    requires id < |all|
    ensures KnownIn(all[id := coro]) == KnownIn(all) + {id}
  {}

  /** The model's invariant, folded in the same way. */
  ghost predicate Sound(s: State) {
    forall k {:trigger ModelKey(k)} :: ModelKey(k) ==> Inv(s)
  }

  lemma SoundSame(s: State, t: State)
    requires Sound(s) && s == t
    ensures Sound(t)
  {}

  /** What createCoroutine relies on: the assert of generateId, and the pool accounting. */
  ghost predicate CreateSafe(s: State, grants: nat) {
    && OpOk(s, Create(grants))
    && s.currentSize <= s.poolSize
    && (forall i :: i in s.known ==> i <= s.uniqId)
    && (!NeedsGrowth(s) ==> s.rings.free != [])
    && (NeedsGrowth(s) && Min(GrowthWanted(s), grants) > 0 ==> Grow(s, grants).rings.free != [])
  }

  lemma CreateReady(s: State, grants: nat)
    requires Sound(s) && OpOk(s, Create(grants))
    ensures CreateSafe(s, grants)
    ensures Sound(SchedulerModel.CreateCoroutine(s, grants).0)
  {
    assert ModelKey(0);
    Accounting(s);
    ApplyKeepsInv(s, Create(grants));
  }

  lemma ApplyReady(s: State, op: Op)
    requires Sound(s) && OpOk(s, op)
    ensures op.Create? ==> CreateSafe(s, op.grants)
    ensures Sound(Apply(s, op))
  {
    assert ModelKey(0);
    ApplyKeepsInv(s, op);
    if op.Create? {
      CreateReady(s, op.grants);
    }
  }

  /** A resume may go ahead: the scheduling loop has control and no assertion fails in the segment. */
  ghost predicate ResumeSafe(s: State, st: Status, seg: Segment) {
    && Sound(s) && s.current == MAIN
    && (st == Active || st == Avail) && s.rings.Get(st) != []
    && OpsOk(s.(current := s.rings.Get(st)[0]), seg.ops)
  }

  lemma ResumeReady(s: State, st: Status, seg: Segment)
    requires ResumeSafe(s, st, seg)
    ensures var id := s.rings.Get(st)[0];
      && Sound(s.(current := id))
      && ApplyAll(s.(current := id), seg.ops).usedSize > 0
      && ApplyAll(s.(current := id), seg.ops).current == id
      && Sound(SchedulerModel.Resume(s, id, seg)) && SchedulerModel.Resume(s, id, seg).current == MAIN
  {
    assert ModelKey(0);
    ResumeKeepsIdle(s, st, seg);
    HeadRuns(s, st);
    ApplyAllFrame(s.(current := s.rings.Get(st)[0]), seg.ops);
  }

  lemma HeadRuns(s: State, st: Status)
    requires Inv(s) && (st == Active || st == Avail) && s.rings.Get(st) != []
    ensures Inv(s.(current := s.rings.Get(st)[0]))
  {}

  /** Nothing fails in `loop` more turns of a dispatch loop, the next of which is its n-th. */
  ghost predicate MayGoOn(s: State, st: Status, loop: nat, beh: Behaviour, n: nat) {
    (st == Active || st == Avail) && Idle(s) && DispatchOk(s, st, loop, beh, n)
  }

  /** Two ways to say how a dispatch loop ends: all of it, or what it did so far and what is left. */
  ghost predicate SameEnd(all: (State, seq<Id>), log: seq<Id>, left: (State, seq<Id>)) {
    all.0 == left.0 && all.1 == log + left.1
  }

  /** A dispatch loop that is to end as `all` has resumed `log`, is now in `s` and at its n-th turn, and may go on
      for `loop` more. */
  ghost predicate Dispatching(all: (State, seq<Id>), st: Status, beh: Behaviour, log: seq<Id>, s: State,
                              loop: nat, n: nat) {
    forall k {:trigger ModelKey(k)} :: ModelKey(k) ==>
      MayGoOn(s, st, loop, beh, n) && SameEnd(all, log, Dispatch(s, st, loop, beh, n))
  }

  /** The scheduling loop can run: the invariant holds, it has control, and no assertion fails in what it runs. */
  ghost predicate DispatchSafe(s: State, st: Status, quota: nat, beh: Behaviour) {
    Dispatching(Dispatch(s, st, quota, beh, 0), st, beh, [], s, quota, 0)
  }

  lemma DispatchSafeStart(s: State, st: Status, quota: nat, beh: Behaviour)
    requires Idle(s) && (st == Active || st == Avail) && DispatchOk(s, st, quota, beh, 0)
    ensures DispatchSafe(s, st, quota, beh)
  {
    assert [] + Dispatch(s, st, quota, beh, 0).1 == Dispatch(s, st, quota, beh, 0).1;
  }

  lemma DispatchReady(all: (State, seq<Id>), st: Status, beh: Behaviour, log: seq<Id>, s: State, loop: nat, n: nat)
    requires Dispatching(all, st, beh, log, s, loop, n) && loop > 0 && s.rings.Get(st) != []
    ensures ResumeSafe(s, st, beh(n))
  {
    assert ModelKey(0);
  }

  lemma EndsAlike(s: State, st: Status, loop: nat, beh: Behaviour, n: nat, all: (State, seq<Id>), log: seq<Id>,
                  id: Id, t: State)
    requires loop > 0 && s.rings.Get(st) != [] && id == s.rings.Get(st)[0]
    requires t == SchedulerModel.Resume(s, id, beh(n)) && SameEnd(all, log, Dispatch(s, st, loop, beh, n))
    ensures SameEnd(all, log + [id], Dispatch(t, st, loop - 1, beh, n + 1))
  {
    var rest := Dispatch(t, st, loop - 1, beh, n + 1);
    assert Dispatch(s, st, loop, beh, n) == (rest.0, [id] + rest.1);
    Associate(log, [id], rest.1);
  }

  lemma GoesOn(s: State, st: Status, loop: nat, beh: Behaviour, n: nat, id: Id, t: State)
    requires MayGoOn(s, st, loop, beh, n) && loop > 0 && s.rings.Get(st) != [] && id == s.rings.Get(st)[0]
    requires t == SchedulerModel.Resume(s, id, beh(n))
    ensures MayGoOn(t, st, loop - 1, beh, n + 1)
  {
    ResumeFacts(s, st, beh(n));
  }

  lemma DispatchStep(all: (State, seq<Id>), st: Status, beh: Behaviour, log: seq<Id>, s: State, loop: nat, n: nat,
                     id: Id, t: State)
    requires Dispatching(all, st, beh, log, s, loop, n) && loop > 0 && s.rings.Get(st) != []
    requires id == s.rings.Get(st)[0] && t == SchedulerModel.Resume(s, id, beh(n))
    ensures Dispatching(all, st, beh, log + [id], t, loop - 1, n + 1)
  {
    assert ModelKey(0);
    GoesOn(s, st, loop, beh, n, id, t);
    EndsAlike(s, st, loop, beh, n, all, log, id, t);
  }

  lemma DispatchDone(all: (State, seq<Id>), st: Status, beh: Behaviour, log: seq<Id>, s: State, loop: nat, n: nat)
    requires Dispatching(all, st, beh, log, s, loop, n) && (loop == 0 || s.rings.Get(st) == [])
    ensures all == (s, log)
  {
    assert ModelKey(0);
    assert Dispatch(s, st, loop, beh, n) == (s, []);
    assert log + [] == log;
  }

  lemma DispatchSafeSame(s: State, t: State, st: Status, quota: nat, beh: Behaviour)
    requires DispatchSafe(s, st, quota, beh) && s == t
    ensures DispatchSafe(t, st, quota, beh)
  {}

  /** A round can run: every dispatch in it is safe. */
  ghost predicate RoundSafe(s: State, i: Input, availQuota: nat) {
    Sound(s) && s.current == MAIN && (!s.terminal ==> RoundOk(s, i, availQuota))
  }

  lemma WakeReady(s: State, now: int)
    requires Sound(s)
    ensures forall e :: e in s.sleepers ==> e.id in s.known
    ensures forall i :: i in WakeByTimeout(s, now).selfYielded ==> i in WakeByTimeout(s, now).known
    ensures var t := WakeBySelf(WakeByTimeout(s, now));
            forall i :: i in t.wakeQueue ==> i in t.known
  {
    assert ModelKey(0);
    WakeByTimeoutFacts(s, now);
    RingsAreDisjoint(s);
    assert s.rings.Get(Inactive) == s.rings.inactive;
    if !s.terminal {
      WakeBySelfFacts(WakeByTimeout(s, now));
    }
  }

  lemma RoundReady(s: State, i: Input, availQuota: nat)
    requires RoundSafe(s, i, availQuota) && !s.terminal
    ensures var r := DoRound(s, i, availQuota);
      && DispatchSafe(r.woken, Active, ROUND_QUOTA, i.active)
      && DispatchSafe(r.midway, Avail, availQuota, i.avail)
      && Sound(r.after) && r.after.current == MAIN
      && (r.after.usedSize == 0 <==>
           r.after.rings.active == r.after.rings.avail == r.after.rings.inactive == r.after.rings.timeout == [])
  {
    assert ModelKey(0);
    RoundFacts(s, i, availQuota);
    var r := DoRound(s, i, availQuota);
    DispatchSafeStart(r.woken, Active, ROUND_QUOTA, i.active);
    DispatchSafeStart(r.midway, Avail, availQuota, i.avail);
    Accounting(r.after);
  }

  /** run is in `s`, meets `inputs` next, and is to end as `all`; folded like the invariant. */
  ghost predicate Running(all: (State, bool), s: State, inputs: seq<Input>) {
    forall k {:trigger ModelKey(k)} :: ModelKey(k) ==>
      Idle(s) && RunOk(s, inputs) && all == RunLoop(s, inputs)
  }

  lemma RunReady(all: (State, bool), s: State, inputs: seq<Input>)
    requires Running(all, s, inputs) && !s.terminal && inputs != []
    ensures RoundSafe(s, inputs[0], 1)
  {
    assert ModelKey(0);
  }

  lemma RunStep(all: (State, bool), s: State, inputs: seq<Input>, t: State)
    requires Running(all, s, inputs) && !s.terminal && inputs != [] && t == DoRound(s, inputs[0], 1).after
    ensures if t.usedSize == 0 then all == (t, true) else Running(all, t, inputs[1..])
    ensures Sound(t)
  {
    assert ModelKey(0);
    RoundFacts(s, inputs[0], 1);
  }

  lemma RunDone(all: (State, bool), s: State, inputs: seq<Input>)
    requires Running(all, s, inputs) && (s.terminal || inputs == [])
    ensures all == (s, s.terminal) && Sound(s)
  {
    assert ModelKey(0);
  }

  lemma Associate(a: seq<Id>, b: seq<Id>, c: seq<Id>)
    ensures a + (b + c) == (a + b) + c
  {}

  /** The table after `n` more coroutines were made since `s`. */
  ghost predicate TableMade(was: seq<CoroutineInfo?>, all: seq<CoroutineInfo?>, s: State, n: nat) {
    && |all| == s.poolSize + 1 && Keeps(was, all)
    && (forall i :: s.uniqId + n < i < |all| ==> all[i] == null)
    && KnownIn(all) == s.known + RangeSet(s.uniqId + 1, n)
  }

  ghost predicate RingsMade(r: Rings, s: State, n: nat) {
    r == s.rings.(free := s.rings.free + Range(s.uniqId + 1, n))
  }

  /** The table and the rings together; folded like the invariant. */
  ghost predicate Made(was: seq<CoroutineInfo?>, all: seq<CoroutineInfo?>, r: Rings, s: State, n: nat) {
    forall k {:trigger ModelKey(k)} :: ModelKey(k) ==> TableMade(was, all, s, n) && RingsMade(r, s, n)
  }

  lemma MadeNone(all: seq<CoroutineInfo?>, s: State)
    requires |all| == s.poolSize + 1 && forall i :: s.uniqId < i < |all| ==> all[i] == null
    requires s.known == KnownIn(all)
    ensures Made(all, all, s.rings, s, 0)
  {
    assert RangeSet(s.uniqId + 1, 0) == {};
    assert s.rings.free + Range(s.uniqId + 1, 0) == s.rings.free;
  }

  lemma TableMadeMore(was: seq<CoroutineInfo?>, all: seq<CoroutineInfo?>, s: State, n: nat, coro: CoroutineInfo)
    requires TableMade(was, all, s, n) && coro.uid == s.uniqId + n + 1 <= s.poolSize
    ensures coro.uid < |all| && all[coro.uid] == null && TableMade(was, all[coro.uid := coro], s, n + 1)
  {
    KnownMore(s.known, all, s.uniqId + 1, n, coro);
    KeepsMore(was, all, coro);
    EmptyAfter(all, coro, all[coro.uid := coro]);
  }

  lemma EmptyAfter(all: seq<CoroutineInfo?>, coro: CoroutineInfo, more: seq<CoroutineInfo?>)
    requires coro.uid < |all| && more == all[coro.uid := coro]
    requires forall i :: coro.uid <= i < |all| ==> all[i] == null
    ensures forall i :: coro.uid < i < |more| ==> more[i] == null
  {}

  lemma KeepsMore(was: seq<CoroutineInfo?>, all: seq<CoroutineInfo?>, coro: CoroutineInfo)
    requires Keeps(was, all) && coro.uid < |all| && all[coro.uid] == null
    ensures Keeps(was, all[coro.uid := coro])
  {}

  lemma KnownMore(known: set<Id>, all: seq<CoroutineInfo?>, lo: nat, n: nat, coro: CoroutineInfo)
    requires KnownIn(all) == known + RangeSet(lo, n) && coro.uid == lo + n < |all|
    ensures KnownIn(all[coro.uid := coro]) == known + RangeSet(lo, n + 1)
  {
    KnownGrows(all, coro.uid, coro);
    RangeGrows(lo, n);
    assert known + RangeSet(lo, n) + {coro.uid} == known + (RangeSet(lo, n) + {coro.uid});
  }

  lemma RingsMadeMore(r: Rings, s: State, n: nat)
    requires RingsMade(r, s, n)
    ensures RingsMade(r.(free := r.free + [s.uniqId + n + 1]), s, n + 1)
  {
    RangeGrows(s.uniqId + 1, n);
    assert s.rings.free + Range(s.uniqId + 1, n) + [s.uniqId + 1 + n] == s.rings.free + Range(s.uniqId + 1, n + 1);
  }

  lemma MadeMore(was: seq<CoroutineInfo?>, all: seq<CoroutineInfo?>, r: Rings, s: State, n: nat, coro: CoroutineInfo)
    requires Made(was, all, r, s, n) && coro.uid == s.uniqId + n + 1 <= s.poolSize
    ensures coro.uid < |all| && all[coro.uid] == null
    ensures Made(was, all[coro.uid := coro], r.(free := r.free + [coro.uid]), s, n + 1)
  {
    assert ModelKey(0);
    TableMadeMore(was, all, s, n, coro);
    RingsMadeMore(r, s, n);
  }

  lemma RangeGrows(lo: nat, n: nat)
    ensures Range(lo, n + 1) == Range(lo, n) + [lo + n]
    ensures RangeSet(lo, n + 1) == RangeSet(lo, n) + {lo + n}
  {}

  /** The coroutines filed below `n`, in order. */
  ghost function StacksBelow(all: seq<CoroutineInfo?>, n: nat): seq<Id>
    requires n <= |all|
  {
    if n <= 1 then []
    else if all[n - 1] != null then StacksBelow(all, n - 1) + [n - 1]
    else StacksBelow(all, n - 1)
  }

  lemma {:induction false} StacksOnce(all: seq<CoroutineInfo?>, n: nat)
    requires n <= |all|
    ensures NoDuplicates(StacksBelow(all, n))
    ensures forall i :: i in StacksBelow(all, n) <==> 1 <= i < n && all[i] != null
  {
    if n > 1 {
      StacksOnce(all, n - 1);
    }
  }

  lemma StacksNext(all: seq<CoroutineInfo?>, n: nat)
    requires 1 <= n < |all|
    ensures StacksBelow(all, n + 1) == if all[n] != null then StacksBelow(all, n) + [n] else StacksBelow(all, n)
  {}

  /** The loop of destroy. */
  method ReleaseAll(all: seq<CoroutineInfo?>) returns (released: seq<Id>)
    requires |all| > 0 && forall i :: 0 <= i < |all| && all[i] != null ==> all[i].uid == i
    ensures released == StacksBelow(all, |all|)
  {
    released := [];
    for i := 1 to |all|
      invariant released == StacksBelow(all, i)
    {
      StacksNext(all, i);
      if all[i] != null {
        released := released + [all[i].uid];
      }
    }
  }

  lemma KnownAreNumbered(s: State)
    requires Sound(s)
    ensures s.currentSize == |s.known| && forall i :: i in s.known ==> i >= 1
  {
    assert ModelKey(0);
  }

  /** The coroutines of the table are those of the ledger, each once; folded like the invariant. */
  ghost predicate Recorded(ledger: seq<Id>, all: seq<CoroutineInfo?>) {
    forall k {:trigger ModelKey(k)} :: ModelKey(k) ==> multiset(ledger) == multiset(KnownIn(all))
  }

  lemma KnownNone(all: seq<CoroutineInfo?>)
    requires forall i :: 0 <= i < |all| ==> all[i] == null
    ensures KnownIn(all) == {}
  {}

  lemma RecordNone(all: seq<CoroutineInfo?>)
    requires forall i :: 0 <= i < |all| ==> all[i] == null
    ensures Recorded([], all)
  {
    KnownNone(all);
  }

  lemma RecordMore(ledger: seq<Id>, all: seq<CoroutineInfo?>, id: Id, coro: CoroutineInfo)
    requires Recorded(ledger, all) && id < |all| && all[id] == null
    ensures Recorded(ledger + [id], all[id := coro])
  {
    assert ModelKey(0);
    KnownGrows(all, id, coro);
    assert multiset(KnownIn(all) + {id}) == multiset(KnownIn(all)) + multiset{id};
  }

  /** What is released is what was recorded. */
  lemma ReleasedAll(ledger: seq<Id>, all: seq<CoroutineInfo?>)
    requires Recorded(ledger, all) && forall i :: i in KnownIn(all) ==> i >= 1
    ensures multiset(StacksBelow(all, |all|)) == multiset(ledger) && NoDuplicates(StacksBelow(all, |all|))
  {
    assert ModelKey(0);
    StacksOnce(all, |all|);
    NoDuplicatesBag(StacksBelow(all, |all|), KnownIn(all));
  }

  class CoroutineScheduler {
    var terminal: bool
    var poolSize: nat
    var currentSize: nat
    var usedSize: nat
    var uniqId: nat
    const mainCoro: CoroutineInfo
    var currentCoro: CoroutineInfo
    var allCoro: seq<CoroutineInfo?>
    const active: CoroutineInfo
    const avail: CoroutineInfo
    const inactive: CoroutineInfo
    const timeout: CoroutineInfo
    const free: CoroutineInfo
    var activeCoroQueue: seq<Id>
    var needActiveCoroId: seq<Id>
    var timeoutCoroId: seq<Sleeper>

    ghost var rings: Rings
    ghost var ledger: seq<Id>  // whose stacks were allocated, in order

    function Head(st: Status): CoroutineInfo {
      match st
      case Free => free
      case Active => active
      case Avail => avail
      case Inactive => inactive
      case Timeout => timeout
    }

    /** The sentinels and the coroutines of the table. */
    ghost function Linkage(): set<CoroutineInfo>
      reads `allCoro
    {
      {active, avail, inactive, timeout, free} + (set c: CoroutineInfo | c in allCoro)
    }

    ghost predicate HeadsApart() {
      && (forall st, st' :: st != st' ==> Head(st) != Head(st'))
      && (forall st :: Head(st) != mainCoro)
      && mainCoro.uid == MAIN
    }

    /** The table: each coroutine is filed under its uid, and apart from the fixed ones. */
    ghost predicate TableOk()
      reads `allCoro
    {
      && (forall i :: 0 <= i < |allCoro| && allCoro[i] != null ==> allCoro[i].uid == i)
      && mainCoro !in allCoro
      && (forall st :: Head(st) !in allCoro)
    }

    /** Each coroutine's status names the one ring that lists it. */
    ghost predicate StatusOk()
      reads `allCoro, `rings, Linkage()`status
    {
      && (forall st :: Listed(allCoro, rings.Get(st)))
      && (forall st, i :: i in rings.Get(st) ==> allCoro[i].status == st)
      && (forall i :: 0 <= i < |allCoro| && allCoro[i] != null ==> i in rings.Get(allCoro[i].status))
    }

    /** The rings list coroutines of the table, each in at most one ring. */
    ghost predicate RingsApart(r: Rings)
      reads `allCoro
    {
      && (forall st :: Listed(allCoro, r.Get(st)))
      && (forall st, st', i :: st != st' && i in r.Get(st) ==> i !in r.Get(st'))
    }

    /** The links of every ring run through exactly the coroutines listed in `r`. */
    ghost predicate LinksOk(r: Rings)
      requires forall st :: Listed(allCoro, r.Get(st))
      reads `allCoro, Linkage()`prev, Linkage()`next
    {
      forall st {:trigger IsRing(Head(st), Nodes(allCoro, r.Get(st)))} :: IsRing(Head(st), Nodes(allCoro, r.Get(st)))
    }

    ghost predicate Wellformed()
      reads `allCoro, `rings, Linkage()
    {
      HeadsApart() && TableOk() && StatusOk() && LinksOk(rings)
    }

    /** The object invariant, folded: mention Key to unfold it. */
    ghost predicate Valid()
      reads `allCoro, `rings, Linkage()
    {
      forall k {:trigger Key(k)} :: Key(k) ==> Wellformed()
    }

    /** A scheduler before init: no coroutine yet. */
    ghost predicate Blank()
      reads this
    {
      && rings == Rings([], [], [], [], [])
      && |allCoro| > 0 && (forall i :: 0 <= i < |allCoro| ==> allCoro[i] == null)
      && needActiveCoroId == [] && activeCoroQueue == [] && timeoutCoroId == [] && ledger == []
    }

    constructor ()
      ensures Valid() && Blank() && !terminal && poolSize == 1000 && fresh(Linkage())
    {
      terminal, poolSize, currentSize, usedSize, uniqId := false, 1000, 0, 0, 0;
      var main := new CoroutineInfo(MAIN);
      var h1 := NewHead();
      var h2 := NewHead();
      var h3 := NewHead();
      var h4 := NewHead();
      var h5 := NewHead();
      mainCoro, currentCoro := main, main;
      active, avail, inactive, timeout, free := h1, h2, h3, h4, h5;
      allCoro := seq(1000, _ => null);
      activeCoroQueue, needActiveCoroId, timeoutCoroId, ledger := [], [], [], [];
      rings := Rings([], [], [], [], []);
      new;
      EmptyIsWellformed();
    }

    static method NewHead() returns (head: CoroutineInfo)
      ensures fresh(head) && head.next == head == head.prev
    {
      head := new CoroutineInfo(MAIN);
      HeadInit(head);
    }

    lemma EmptyIsWellformed()
      requires HeadsApart() && rings == Rings([], [], [], [], [])
      requires forall i :: 0 <= i < |allCoro| ==> allCoro[i] == null
      requires forall h :: h in {active, avail, inactive, timeout, free} ==> h.next == h == h.prev
      ensures Valid()
    {
      forall st ensures rings.Get(st) == [] && IsRing(Head(st), []) {
        assert Head(st) in {active, avail, inactive, timeout, free};
      }
      assert Nodes(allCoro, []) == [];
      assert Wellformed();
    }

    lemma RemoveKeepsApart(r: Rings, from: Status, id: Id)
      requires RingsApart(r) && id in r.Get(from)
      ensures RingsApart(r.Set(from, Remove(r.Get(from), id)))
    {
      var t := r.Set(from, Remove(r.Get(from), id));
      forall st ensures Listed(allCoro, t.Get(st)) && forall i :: i in t.Get(st) ==> i in r.Get(st) {
        if st == from { assert t.Get(st) == Remove(r.Get(from), id); } else { assert t.Get(st) == r.Get(st); }
      }
    }

    lemma RemoveUnlists(r: Rings, from: Status, id: Id)
      requires RingsApart(r) && id in r.Get(from) && NoDuplicates(Nodes(allCoro, r.Get(from)))
      ensures forall st :: id !in r.Set(from, Remove(r.Get(from), id)).Get(st)
    {
      var q := r.Get(from);
      forall st ensures id !in r.Set(from, Remove(q, id)).Get(st) {
        if st == from {
          assert forall k :: 0 <= k < |q| ==> Nodes(allCoro, q)[k] == allCoro[q[k]];
          assert r.Set(from, Remove(q, id)).Get(st) == Remove(q, id);
        } else {
          assert r.Set(from, Remove(q, id)).Get(st) == r.Get(st);
        }
      }
    }

    /** Listing fewer ids lists fewer nodes. */
    lemma NodesRemoveAt(q: seq<Id>, k: nat)
      requires Listed(allCoro, q) && k < |q|
      ensures Listed(allCoro, RemoveAt(q, k))
      ensures Nodes(allCoro, RemoveAt(q, k)) == RemoveAt(Nodes(allCoro, q), k)
    {}

    lemma Apart(r: Rings, st: Status, st': Status)
      requires HeadsApart() && TableOk() && RingsApart(r) && st != st'
      ensures Head(st) !in Nodes(allCoro, r.Get(st'))
      ensures forall c :: c in Nodes(allCoro, r.Get(st)) ==> c !in Nodes(allCoro, r.Get(st')) && c != Head(st')
    {
      var q, q' := r.Get(st), r.Get(st');
      forall k, k' | 0 <= k < |q| && 0 <= k' < |q'| ensures Nodes(allCoro, q)[k] != Nodes(allCoro, q')[k'] {
        assert q[k] in q && q'[k'] in q';
      }
    }

    /** The sentinel and the nodes of one ring. */
    ghost function Circle(r: Rings, st: Status): set<CoroutineInfo>
      reads `allCoro
      requires Listed(allCoro, r.Get(st))
    {
      {Head(st)} + set c | c in Nodes(allCoro, r.Get(st))
    }

    lemma CirclesApart(r: Rings, st: Status, st': Status)
      requires HeadsApart() && TableOk() && RingsApart(r) && st != st'
      ensures Circle(r, st) !! Circle(r, st')
      ensures forall i :: At(Head(st), Nodes(allCoro, r.Get(st)), i) in Circle(r, st)
    {
      Apart(r, st, st');
      Apart(r, st', st);
      var s := Nodes(allCoro, r.Get(st));
      forall i ensures At(Head(st), s, i) in Circle(r, st) {
        assert 1 <= i <= |s| ==> s[i - 1] in s;
      }
    }

    /** Replacing one ring by another over the same table. */
    lemma LinksOkWith(r: Rings, st: Status, q: seq<Id>)
      requires RingsApart(r) && Listed(allCoro, q)
      requires forall x :: x != st ==> IsRing(Head(x), Nodes(allCoro, r.Get(x)))
      requires IsRing(Head(st), Nodes(allCoro, q))
      ensures forall x :: Listed(allCoro, r.Set(st, q).Get(x))
      ensures LinksOk(r.Set(st, q))
    {
      forall x ensures IsRing(Head(x), Nodes(allCoro, r.Set(st, q).Get(x))) {
        assert r.Set(st, q).Get(x) == if x == st then q else r.Get(x);
      }
    }

    method UnlinkFrom(coro: CoroutineInfo, ghost from: Status, ghost k: nat)
      requires HeadsApart() && TableOk() && RingsApart(rings) && LinksOk(rings)
      requires k < |rings.Get(from)| && allCoro[rings.Get(from)[k]] == coro
      modifies Linkage()`prev, Linkage()`next
      ensures forall st :: st != from ==> IsRing(Head(st), Nodes(allCoro, rings.Get(st)))
      ensures IsRing(Head(from), RemoveAt(Nodes(allCoro, rings.Get(from)), k))
    {
      CoroutineDel(coro, Head(from), Nodes(allCoro, rings.Get(from)), k);
      forall st | st != from ensures IsRing(Head(st), Nodes(allCoro, rings.Get(st))) {
        assert old(IsRing(Head(st), Nodes(allCoro, rings.Get(st))));
        CirclesApart(rings, st, from);
      }
    }

    method Unlink(coro: CoroutineInfo, ghost from: Status)
      requires HeadsApart() && TableOk() && RingsApart(rings) && LinksOk(rings)
      requires coro in allCoro && coro.uid in rings.Get(from)
      modifies `rings, Linkage()`prev, Linkage()`next
      ensures RingsApart(rings) && LinksOk(rings)
      ensures rings == old(rings).Set(from, Remove(old(rings).Get(from), coro.uid))
      ensures forall st :: coro.uid !in rings.Get(st)
    {
      ghost var q := rings.Get(from);
      ghost var k := IndexOf(q, coro.uid);
      assert IsRing(Head(from), Nodes(allCoro, rings.Get(from)));
      RemoveKeepsApart(rings, from, coro.uid);
      RemoveUnlists(rings, from, coro.uid);
      NodesRemoveAt(q, k);
      UnlinkFrom(coro, from, k);
      LinksOkWith(rings, from, Remove(q, coro.uid));
      rings := rings.Set(from, Remove(q, coro.uid));
    }

    method AppendTo(coro: CoroutineInfo, to: Status)
      requires HeadsApart() && TableOk() && RingsApart(rings) && LinksOk(rings)
      requires coro in allCoro && forall st :: coro.uid !in rings.Get(st)
      modifies Linkage()`prev, Linkage()`next
      ensures forall st :: st != to ==> IsRing(Head(st), Nodes(allCoro, rings.Get(st)))
      ensures IsRing(Head(to), Nodes(allCoro, rings.Get(to)) + [coro])
    {
      NotListed(coro);
      CoroutineAddTail(coro, Head(to), Nodes(allCoro, rings.Get(to)));
      forall st | st != to ensures IsRing(Head(st), Nodes(allCoro, rings.Get(st))) {
        assert old(IsRing(Head(st), Nodes(allCoro, rings.Get(st))));
        CirclesApart(rings, st, to);
      }
    }

    lemma NotListed(coro: CoroutineInfo)
      requires TableOk() && RingsApart(rings)
      requires coro in allCoro && forall st :: coro.uid !in rings.Get(st)
      ensures forall st :: coro !in Nodes(allCoro, rings.Get(st)) && coro != Head(st)
    {
      forall st, k | 0 <= k < |rings.Get(st)| ensures Nodes(allCoro, rings.Get(st))[k] != coro {
        assert rings.Get(st)[k] in rings.Get(st);
      }
    }

    method Append(coro: CoroutineInfo, to: Status)
      requires HeadsApart() && TableOk() && RingsApart(rings) && LinksOk(rings)
      requires coro in allCoro && forall st :: coro.uid !in rings.Get(st)
      modifies `rings, Linkage()`prev, Linkage()`next
      ensures RingsApart(rings) && LinksOk(rings)
      ensures rings == old(rings).Set(to, old(rings).Get(to) + [coro.uid])
    {
      ghost var q := rings.Get(to) + [coro.uid];
      AppendTo(coro, to);
      assert Nodes(allCoro, q) == Nodes(allCoro, rings.Get(to)) + [coro];
      LinksOkWith(rings, to, q);
      AppendKeepsApart(rings, to, coro.uid);
      rings := rings.Set(to, q);
    }

    lemma AppendKeepsApart(r: Rings, to: Status, id: Id)
      requires RingsApart(r) && Listed(allCoro, [id]) && forall st :: id !in r.Get(st)
      ensures RingsApart(r.Set(to, r.Get(to) + [id]))
    {
      var t := r.Set(to, r.Get(to) + [id]);
      assert [id][0] == id;
      forall st
        ensures Listed(allCoro, t.Get(st))
        ensures forall i :: i in t.Get(st) ==> i in r.Get(st) || (st == to && i == id)
      {
        assert t.Get(st) == if st == to then r.Get(to) + [id] else r.Get(st);
      }
    }

    /** Where the ids are after a relink. */
    lemma RelinkLists(r: Rings, id: Id, from: Status, to: Status)
      requires RingsApart(r) && from != to && id in r.Get(from)
      requires forall st :: id !in r.Set(from, Remove(r.Get(from), id)).Get(st)
      ensures forall st, i :: i in SchedulerModel.Relink(r, id, from, to).Get(st) <==>
                if i == id then st == to else i in r.Get(st)
    {
      var t := SchedulerModel.Relink(r, id, from, to);
      RelinkGet(r, id, from, to);
      var q := r.Get(from);
      assert r.Set(from, Remove(q, id)).Get(from) == Remove(q, id);
      forall i | i != id ensures i in Remove(q, id) <==> i in q {
        assert q == q[..IndexOf(q, id)] + [id] + q[IndexOf(q, id) + 1..];
      }
      forall st, i ensures i in t.Get(st) <==> if i == id then st == to else i in r.Get(st) {
        if st != from && st != to { assert t.Get(st) == r.Get(st); }
      }
    }

    lemma StatusApart()
      requires StatusOk()
      ensures RingsApart(rings)
    {}

    /** The three writes of a move: out of the old ring, the new status, into the new ring. */
    method Transfer(coro: CoroutineInfo, to: Status)
      requires HeadsApart() && TableOk() && RingsApart(rings) && LinksOk(rings)
      requires coro in allCoro && coro.uid in rings.Get(coro.status) && coro.status != to
      modifies `rings, Linkage()`prev, Linkage()`next, coro`status
      ensures LinksOkApart()
      ensures rings == SchedulerModel.Relink(old(rings), coro.uid, old(coro.status), to)
      ensures forall st, i :: i in rings.Get(st) <==> if i == coro.uid then st == to else i in old(rings).Get(st)
      ensures coro.status == to
    {
      ghost var from := coro.status;
      ghost var was := rings;
      Unlink(coro, from);
      coro.status := to;
      Append(coro, to);
      RelinkLists(was, coro.uid, from, to);
    }

    ghost predicate LinksOkApart()
      reads `allCoro, `rings, Linkage()`prev, Linkage()`next
    {
      RingsApart(rings) && LinksOk(rings)
    }

    /** Moving one coroutine, in the rings and in its status, keeps the two in step. */
    lemma StatusMoved(coro: CoroutineInfo, to: Status, was: Rings)
      requires TableOk() && RingsApart(rings) && coro in allCoro && coro.status == to
      requires forall st, i :: i in rings.Get(st) <==> if i == coro.uid then st == to else i in was.Get(st)
      requires forall st, i :: i in was.Get(st) && i != coro.uid ==>
                 i < |allCoro| && allCoro[i] != null && allCoro[i].status == st
      requires forall i :: 0 <= i < |allCoro| && allCoro[i] != null && i != coro.uid ==> i in was.Get(allCoro[i].status)
      ensures StatusOk()
    {}

    /** The same, with the table and every status in step. */
    method MoveOver(coro: CoroutineInfo, to: Status)
      requires HeadsApart() && TableOk() && StatusOk() && LinksOk(rings)
      requires coro in allCoro && coro.status != to
      modifies `rings, Linkage()`prev, Linkage()`next, coro`status
      ensures HeadsApart() && TableOk() && StatusOk() && LinksOk(rings)
      ensures coro.uid in old(rings).Get(old(coro.status))
      ensures rings == SchedulerModel.Relink(old(rings), coro.uid, old(coro.status), to)
    {
      StatusApart();
      ghost var was := rings;
      Transfer(coro, to);
      forall i | 0 <= i < |allCoro| && allCoro[i] != null && i != coro.uid
        ensures allCoro[i].status == old(allCoro[i].status)
      {}
      StatusMoved(coro, to, was);
    }

    /** Takes a coroutine out of the ring it is in and appends it to another. */
    method Relink(coro: CoroutineInfo, to: Status)
      requires Valid()
      requires coro in allCoro && coro.status != to
      modifies `rings, Linkage()`prev, Linkage()`next, coro`status
      ensures Valid()
      ensures coro.uid in old(rings).Get(old(coro.status))
      ensures rings == SchedulerModel.Relink(old(rings), coro.uid, old(coro.status), to)
    {
      assert Key(0) && Wellformed();
      MoveOver(coro, to);
      assert Wellformed();
    }

    /** The bookkeeping as a value: the state of the model. */
    ghost function Model(): State
      reads this
    {
      State(poolSize, currentSize, usedSize, uniqId, terminal, currentCoro.uid, KnownIn(allCoro), rings,
            needActiveCoroId, activeCoroQueue, timeoutCoroId)
    }

    lemma StatusIs(coro: CoroutineInfo)
      requires Valid() && coro in allCoro
      ensures rings.StatusOf(coro.uid) == coro.status
    {
      var r, id := rings, coro.uid;
      assert Key(0) && Wellformed();
      assert id in r.Get(coro.status);
      assert r.Get(Active) == r.active && r.Get(Avail) == r.avail
             && r.Get(Inactive) == r.inactive && r.Get(Timeout) == r.timeout;
    }

    method MoveToActive(coro: CoroutineInfo)
      requires Valid() && coro in allCoro
      modifies `rings, Linkage()
      ensures Valid() && Model() == Move(old(Model()), coro.uid, Active)
    {
      StatusIs(coro);
      if coro.status == Inactive {
        Relink(coro, Active);
      } else if coro.status == Timeout {
        Relink(coro, Active);
      }
    }

    method MoveToAvail(coro: CoroutineInfo)
      requires Valid() && coro in allCoro
      modifies `rings, Linkage()
      ensures Valid() && Model() == Move(old(Model()), coro.uid, Avail)
    {
      StatusIs(coro);
      if coro.status == Inactive {
        Relink(coro, Avail);
      }
    }

    method MoveToInactive(coro: CoroutineInfo)
      requires Valid() && coro in allCoro
      modifies `rings, Linkage()
      ensures Valid() && Model() == Move(old(Model()), coro.uid, Inactive)
    {
      StatusIs(coro);
      if coro.status == Active {
        Relink(coro, Inactive);
      } else if coro.status == Avail {
        Relink(coro, Inactive);
      }
    }

    method MoveToTimeout(coro: CoroutineInfo)
      requires Valid() && coro in allCoro
      modifies `rings, Linkage()
      ensures Valid() && Model() == Move(old(Model()), coro.uid, Timeout)
    {
      StatusIs(coro);
      if coro.status == Active {
        Relink(coro, Timeout);
      } else if coro.status == Avail {
        Relink(coro, Timeout);
      }
    }

    method MoveToFreeList(coro: CoroutineInfo)
      requires Valid() && coro in allCoro
      modifies `rings, Linkage()
      ensures Valid() && Model() == Move(old(Model()), coro.uid, Free)
    {
      StatusIs(coro);
      if coro.status == Active {
        Relink(coro, Free);
      } else if coro.status == Avail {
        Relink(coro, Free);
      } else if coro.status == Inactive {
        Relink(coro, Free);
      } else if coro.status == Timeout {
        Relink(coro, Free);
      }
    }

    // ----- the wake-up phase

    /** One turn of the loop of wakeupbytimeout. */
    method WakeFirst()
      requires Valid() && timeoutCoroId != [] && timeoutCoroId[0].id in KnownIn(allCoro)
      modifies `rings, `timeoutCoroId, Linkage()
      ensures Valid()
      ensures Model() == Move(old(Model()), old(timeoutCoroId)[0].id, Active).(sleepers := old(timeoutCoroId)[1..])
    {
      UidOf(timeoutCoroId[0].id);
      var coro := allCoro[timeoutCoroId[0].id];
      MoveToActive(coro);
      timeoutCoroId := timeoutCoroId[1..];
    }

    method WakeupByTimeout(now: int)
      requires Valid() && forall e :: e in timeoutCoroId ==> e.id in KnownIn(allCoro)
      modifies `rings, `timeoutCoroId, Linkage()
      ensures Valid()
      ensures Model() == WakeByTimeout(old(Model()), now)
    {
      if !terminal {
        while timeoutCoroId != [] && timeoutCoroId[0].deadline <= now
          invariant Valid()
          invariant forall e :: e in timeoutCoroId ==> e.id in KnownIn(allCoro)
          invariant WakeByTimeout(Model(), now) == WakeByTimeout(old(Model()), now)
          decreases |timeoutCoroId|
        {
          ghost var s := Model();
          WakeFirst();
          assert WakeByTimeout(s, now) == WakeByTimeout(Model(), now);
        }
        assert WakeByTimeout(Model(), now) == Model();
      }
    }

    lemma UidOf(id: Id)
      requires Valid() && id in KnownIn(allCoro)
      ensures id < |allCoro| && allCoro[id] != null && allCoro[id] in allCoro && allCoro[id].uid == id
    {
      assert Key(0) && Wellformed();
    }

    method WakeupBySelf()
      requires Valid() && forall i :: i in needActiveCoroId ==> i in KnownIn(allCoro)
      modifies `rings, `needActiveCoroId, Linkage()
      ensures Valid()
      ensures Model() == WakeBySelf(old(Model()))
    {
      if !terminal {
        if |needActiveCoroId| > 0 {
          for k := 0 to |needActiveCoroId|
            invariant Valid() && needActiveCoroId == old(needActiveCoroId)
            invariant MoveEach(Model(), needActiveCoroId[k..], Avail) == MoveEach(old(Model()), needActiveCoroId, Avail)
          {
            UidOf(needActiveCoroId[k]);
            MoveToAvail(allCoro[needActiveCoroId[k]]);
            assert needActiveCoroId[k..][1..] == needActiveCoroId[k + 1..];
          }
          needActiveCoroId := [];
        }
      }
    }

    method Wakeup()
      requires Valid() && forall i :: i in activeCoroQueue ==> i in KnownIn(allCoro)
      modifies `rings, `activeCoroQueue, Linkage()
      ensures Valid()
      ensures Model() == SchedulerModel.Wakeup(old(Model()))
    {
      if !terminal {
        if |activeCoroQueue| > 0 {
          var coroIds := activeCoroQueue;
          activeCoroQueue := [];
          ghost var s := Model();
          for k := 0 to |coroIds|
            invariant Valid() && activeCoroQueue == []
            invariant MoveEach(Model(), coroIds[k..], Active) == MoveEach(s, coroIds, Active)
          {
            UidOf(coroIds[k]);
            MoveToActive(allCoro[coroIds[k]]);
            assert coroIds[k..][1..] == coroIds[k + 1..];
          }
        }
      }
    }

    // ----- the pool

    /** A larger table that keeps every entry leaves the rings as they are. */
    lemma LinksOkGrown(before: seq<CoroutineInfo?>)
      requires |before| == |allCoro| && forall i :: 0 <= i < |before| && before[i] != null ==> allCoro[i] == before[i]
      requires forall st :: Listed(before, rings.Get(st))
      requires forall st {:trigger IsRing(Head(st), Nodes(before, rings.Get(st)))} ::
                 IsRing(Head(st), Nodes(before, rings.Get(st)))
      ensures forall st :: Listed(allCoro, rings.Get(st))
      ensures LinksOk(rings)
    {
      forall st ensures Listed(allCoro, rings.Get(st)) && IsRing(Head(st), Nodes(allCoro, rings.Get(st))) {
        assert Nodes(allCoro, rings.Get(st)) == Nodes(before, rings.Get(st));
        assert IsRing(Head(st), Nodes(before, rings.Get(st)));
      }
    }

    lemma LinkageGrown(before: seq<CoroutineInfo?>, coro: CoroutineInfo)
      requires coro.uid < |before| && before[coro.uid] == null && allCoro == before[coro.uid := coro]
      ensures forall c: CoroutineInfo :: c in allCoro <==> c in before || c == coro
    {
      assert allCoro[coro.uid] == coro;
      forall c: CoroutineInfo | c in before ensures c in allCoro {
        var i :| 0 <= i < |before| && before[i] == c;
        assert allCoro[i] == c;
      }
    }

    /** Files a new coroutine in the table; it is in no ring yet. */
    method File(coro: CoroutineInfo)
      requires HeadsApart() && TableOk() && StatusOk() && LinksOk(rings)
      requires coro !in Linkage() && coro != mainCoro
      requires coro.uid < |allCoro| && allCoro[coro.uid] == null
      modifies `allCoro
      ensures HeadsApart() && TableOk() && RingsApart(rings) && LinksOk(rings)
      ensures allCoro == old(allCoro)[coro.uid := coro]
      ensures Linkage() == old(Linkage()) + {coro}
      ensures forall st :: coro.uid !in rings.Get(st)
    {
      ghost var before := allCoro;
      allCoro := allCoro[coro.uid := coro];
      LinksOkGrown(before);
      LinkageGrown(before, coro);
    }

    method FileFree(coro: CoroutineInfo)
      requires HeadsApart() && TableOk() && StatusOk() && LinksOk(rings)
      requires coro !in Linkage() && coro != mainCoro
      requires coro.uid < |allCoro| && allCoro[coro.uid] == null
      modifies `allCoro, `rings, coro`prev, coro`next, Linkage()`prev, Linkage()`next
      ensures HeadsApart() && TableOk() && LinksOkApart()
      ensures allCoro == old(allCoro)[coro.uid := coro]
      ensures Linkage() == old(Linkage()) + {coro}
      ensures rings == old(rings).(free := old(rings).free + [coro.uid])
      ensures forall st, i :: i in rings.Get(st) <==> i in old(rings).Get(st) || (i == coro.uid && st == Free)
    {
      ghost var was := rings;
      File(coro);
      assert allCoro[coro.uid] in allCoro;
      Append(coro, Free);
      assert forall st :: rings.Get(st) == if st == Free then was.free + [coro.uid] else was.Get(st);
    }

    /** Files a new coroutine in the table and appends it to the free ring. */
    method Enroll(coro: CoroutineInfo)
      requires Valid() && coro !in Linkage() && coro != mainCoro && coro.status == Free
      requires coro.uid < |allCoro| && allCoro[coro.uid] == null
      modifies `allCoro, `rings, coro`prev, coro`next, Linkage()`prev, Linkage()`next
      ensures Valid()
      ensures allCoro == old(allCoro)[coro.uid := coro]
      ensures Linkage() == old(Linkage()) + {coro}
      ensures rings == old(rings).(free := old(rings).free + [coro.uid])
    {
      assert Key(0) && Wellformed();
      FileFree(coro);
      assert Linkage() == old(Linkage()) + {coro};
      forall i | 0 <= i < |allCoro| && allCoro[i] != null && i != coro.uid
        ensures allCoro[i].status == old(allCoro[i].status)
      {}
      assert StatusOk();
    }

    method GenerateId() returns (id: Id)
      requires Valid() && uniqId < poolSize  // the bound is asserted by the source
      modifies `uniqId
      ensures Valid() && id == uniqId == old(uniqId) + 1
    {
      uniqId := uniqId + 1;
      id := uniqId;
    }

    /** The table has a slot for every id up to poolSize, and those not drawn yet are empty. */
    ghost predicate SlotsOk()
      reads `allCoro, `poolSize, `uniqId
    {
      |allCoro| == poolSize + 1 && forall i :: uniqId < i < |allCoro| ==> allCoro[i] == null
    }

    /** Makes the coroutine of the id just drawn. */
    method Make(id: Id, ghost was: seq<CoroutineInfo?>, ghost s: State, ghost n: nat) returns (coro: CoroutineInfo)
      requires Valid() && Made(was, allCoro, rings, s, n)
      requires id == s.uniqId + n + 1 <= s.poolSize
      modifies `allCoro, `rings, Linkage()`prev, Linkage()`next
      ensures Valid() && Made(was, allCoro, rings, s, n + 1)
      ensures id < |old(allCoro)| && old(allCoro)[id] == null && allCoro == old(allCoro)[id := coro]
      ensures fresh(coro) && Linkage() == old(Linkage()) + {coro}
    {
      coro := new CoroutineInfo(id);
      MadeMore(was, allCoro, rings, s, n, coro);
      Enroll(coro);
    }

    /** The asserts of generateId hold for the ids that the growth is going to draw. */
    ghost predicate RoomFor(grants: nat)
      reads this
    {
      currentSize <= poolSize && SlotsOk() && uniqId + IdsDrawn(Model(), grants) <= poolSize
    }

    lemma GrownIs(was: seq<CoroutineInfo?>, s: State, grants: nat)
      requires Made(was, allCoro, rings, s, Min(GrowthWanted(s), grants))
      requires Model() == s.(uniqId := s.uniqId + IdsDrawn(s, grants),
                             currentSize := s.currentSize + Min(GrowthWanted(s), grants),
                             known := KnownIn(allCoro), rings := rings)
      ensures Model() == Grow(s, grants) && |allCoro| == s.poolSize + 1 && Keeps(was, allCoro)
    {
      assert ModelKey(0);
    }

    /** The loop of a growth: draws an id, then allocates its stack, until `inc` are made or one allocation fails. */
    method MakeAll(inc: nat, grants: nat, ghost s: State) returns (succ: nat)
      requires Valid() && Made(allCoro, allCoro, rings, s, 0) && uniqId == s.uniqId && poolSize == s.poolSize
      requires uniqId + (if grants < inc then grants + 1 else inc) <= poolSize
      requires Recorded(ledger, allCoro)
      modifies `uniqId, `ledger, `allCoro, `rings, Linkage()`prev, Linkage()`next
      ensures Valid() && Recorded(ledger, allCoro) && fresh(Linkage() - old(Linkage()))
      ensures succ == Min(inc, grants) && Made(old(allCoro), allCoro, rings, s, succ)
      ensures uniqId == s.uniqId + if grants < inc then grants + 1 else inc
    {
      succ := 0;
      var memory := grants;
      for i := 0 to inc
        invariant succ == i && memory == grants - succ
        invariant Valid() && Made(old(allCoro), allCoro, rings, s, succ) && fresh(Linkage() - old(Linkage()))
        invariant uniqId == s.uniqId + succ && Recorded(ledger, allCoro)
      {
        var id := GenerateId();
        if memory == 0 {
          break;
        }
        memory := memory - 1;
        ghost var recorded, all := ledger, allCoro;
        ledger := ledger + [id];
        var coro := Make(id, old(allCoro), s, succ);
        RecordMore(recorded, all, id, coro);
        succ := succ + 1;
      }
    }

    method IncreaseCoroPoolSize(grants: nat) returns (ok: bool)
      requires Valid() && Stocked() && RoomFor(grants)
      modifies `uniqId, `ledger, `currentSize, `allCoro, `rings, Linkage()`prev, Linkage()`next
      ensures Valid() && Stocked() && fresh(Linkage() - old(Linkage()))
      ensures Keeps(old(allCoro), allCoro)
      ensures Model() == Grow(old(Model()), grants)
      ensures ok <==> Min(GrowthWanted(old(Model())), grants) > 0
    {
      ghost var s := Model();
      MadeNone(allCoro, s);
      var inc := if poolSize - currentSize > GROWTH_STEP then GROWTH_STEP else poolSize - currentSize;
      assert inc == GrowthWanted(s);
      if inc <= 0 {
        GrownIs(old(allCoro), s, grants);
        return false;
      }
      var succ := MakeAll(inc, grants, s);
      currentSize := currentSize + succ;
      GrownIs(old(allCoro), s, grants);
      return succ > 0;
    }

    /** The table has a slot for every id up to poolSize, and holds exactly the coroutines with a stack. */
    ghost predicate Stocked()
      reads `allCoro, `poolSize, `ledger
    {
      |allCoro| == poolSize + 1 && Recorded(ledger, allCoro)
    }

    /** The first node of a ring is the coroutine its list names first. */
    lemma HeadNext(st: Status)
      requires Valid()
      ensures rings.Get(st) == [] <==> Head(st).next == Head(st)
      ensures rings.Get(st) != [] ==>
                Head(st).next != null && Head(st).next in allCoro
                && Head(st).next.uid < |allCoro| && allCoro[Head(st).next.uid] == Head(st).next
                && Head(st).next.uid == rings.Get(st)[0] && Head(st).next.status == st
    {
      assert Key(0) && Wellformed();
      var s := Nodes(allCoro, rings.Get(st));
      assert IsRing(Head(st), s);
      assert At(Head(st), s, 0).next == At(Head(st), s, 1);
      if rings.Get(st) != [] {
        assert s[0] == allCoro[rings.Get(st)[0]];
        assert rings.Get(st)[0] in rings.Get(st);
      }
    }

    /** Takes the first free coroutine into use. */
    method TakeFree() returns (id: Id)
      requires Valid() && rings.free != []
      modifies `usedSize, `rings, Linkage()
      ensures Valid() && id == old(rings).free[0]
      ensures Model() == old(Model()).(usedSize := old(usedSize) + 1,
                                       rings := SchedulerModel.Relink(old(rings), id, Free, Avail))
    {
      HeadNext(Free);
      var coro := free.next;
      usedSize := usedSize + 1;
      Relink(coro, Avail);
      return coro.uid;
    }

    lemma GrowthReady(grants: nat)
      requires Stocked() && CreateSafe(Model(), grants) && NeedsGrowth(Model())
      ensures RoomFor(grants)
    {
      forall i | uniqId < i < |allCoro| ensures allCoro[i] == null {
        assert i !in KnownIn(allCoro);
      }
    }

    /** Lets the pool grow if no coroutine is free. */
    method MakeRoom(grants: nat) returns (ok: bool)
      requires Valid() && Stocked() && CreateSafe(Model(), grants)
      modifies `uniqId, `ledger, `currentSize, `allCoro, `rings, Linkage()`prev, Linkage()`next
      ensures Valid() && Stocked() && fresh(Linkage() - old(Linkage()))
      ensures Keeps(old(allCoro), allCoro)
      ensures Model() == if NeedsGrowth(old(Model())) then Grow(old(Model()), grants) else old(Model())
      ensures ok <==> !(NeedsGrowth(old(Model())) && Min(GrowthWanted(old(Model())), grants) == 0)
    {
      ghost var s := Model();
      HeadNext(Free);
      assert rings.Get(Free) == s.rings.free && Head(Free) == free;
      ok := true;
      if usedSize >= currentSize || free.next == free {
        GrowthReady(grants);
        ok := IncreaseCoroPoolSize(grants);
      }
    }

    method CreateCoroutine(grants: nat) returns (id: Id)
      requires Valid() && Stocked() && CreateSafe(Model(), grants)
      modifies `uniqId, `ledger, `currentSize, `usedSize, `allCoro, `rings, Linkage()
      ensures Valid() && Stocked() && fresh(Linkage() - old(Linkage()))
      ensures Keeps(old(allCoro), allCoro)
      ensures Model() == Apply(old(Model()), Create(grants))
      ensures id == SchedulerModel.CreateCoroutine(old(Model()), grants).1
    {
      ghost var s := Model();
      var ok := MakeRoom(grants);
      if !ok {
        CreateFailed(s, grants);
        return MAIN;
      }
      CreateTaken(s, grants, Model());
      id := TakeFree();
    }

    // ----- running code

    method Put(coroId: Id)
      requires Valid()
      modifies `activeCoroQueue
      ensures Valid() && Model() == Apply(old(Model()), Op.Put(coroId))
    {
      if !terminal {
        activeCoroQueue := activeCoroQueue + [coroId];
      }
    }

    method Terminate()
      requires Valid()
      modifies `terminal
      ensures Valid() && Model() == Apply(old(Model()), Op.Terminate)
    {
      terminal := true;
    }

    /** One operation of running code. */
    method Perform(op: Op)
      requires Valid() && Stocked() && OpOk(Model(), op) && (op.Create? ==> CreateSafe(Model(), op.grants))
      modifies `uniqId, `ledger, `currentSize, `usedSize, `allCoro, `rings, `activeCoroQueue, `terminal, Linkage()
      ensures Valid() && Stocked() && fresh(Linkage() - old(Linkage()))
      ensures Keeps(old(allCoro), allCoro)
      ensures Model() == Apply(old(Model()), op)
    {
      match op
      case Create(grants) =>
        var id := CreateCoroutine(grants);
        assert Model() == Apply(old(Model()), op);
      case Put(id) =>
        Put(id);
      case Terminate =>
        Terminate();
    }

    method PerformAll(ops: seq<Op>)
      requires Valid() && Stocked() && Sound(Model()) && OpsOk(Model(), ops)
      modifies `uniqId, `ledger, `currentSize, `usedSize, `allCoro, `rings, `activeCoroQueue, `terminal, Linkage()
      ensures Valid() && Stocked() && fresh(Linkage() - old(Linkage()))
      ensures Keeps(old(allCoro), allCoro)
      ensures Model() == ApplyAll(old(Model()), ops)
    {
      for k := 0 to |ops|
        invariant Valid() && Stocked() && fresh(Linkage() - old(Linkage()))
        invariant Keeps(old(allCoro), allCoro)
        invariant Sound(Model()) && OpsOk(Model(), ops[k..])
        invariant ApplyAll(Model(), ops[k..]) == ApplyAll(old(Model()), ops)
      {
        ghost var s := Model();
        assert ops[k..][0] == ops[k] && ops[k..][1..] == ops[k + 1..];
        ApplyReady(s, ops[k]);
        Perform(ops[k]);
        SoundSame(Apply(s, ops[k]), Model());
      }
      assert ops[|ops|..] == [];
    }

    /** switchCoro back to the main coroutine. */
    method SwitchToMain()
      requires Valid()
      modifies `currentCoro
      ensures Valid() && Model() == old(Model()).(current := MAIN)
    {
      assert Key(0) && Wellformed();
      currentCoro := mainCoro;
    }

    method PutBySelf(coroId: Id)
      requires Valid()
      modifies `needActiveCoroId
      ensures Valid()
      ensures Model() == old(Model()).(selfYielded := old(needActiveCoroId) + if terminal then [] else [coroId])
    {
      if !terminal {
        needActiveCoroId := needActiveCoroId + [coroId];
      }
    }

    method Yield(flag: bool)
      requires Valid() && currentCoro in allCoro
      modifies `needActiveCoroId, `rings, `currentCoro, Linkage()
      ensures Valid() && Model() == End(old(Model()), Ending.Yield(flag))
    {
      ghost var s := Model();
      if flag {
        PutBySelf(currentCoro.uid);
      }
      ghost var s1 := if flag && !s.terminal then s.(selfYielded := s.selfYielded + [s.current]) else s;
      assert Valid() && Model() == s1;
      MoveToInactive(currentCoro);
      SwitchToMain();
    }

    method Sleep(now: int, sleeptime: int)
      requires Valid() && currentCoro in allCoro
      modifies `timeoutCoroId, `rings, `currentCoro, Linkage()
      ensures Valid() && Model() == End(old(Model()), Ending.Sleep(now, sleeptime))
    {
      var timeout := now + if sleeptime >= 0 then sleeptime else -sleeptime;
      timeoutCoroId := InsertSleeper(timeoutCoroId, Sleeper(timeout, currentCoro.uid));
      MoveToTimeout(currentCoro);
      SwitchToMain();
    }

    /** The end of a coroutine's function. */
    method FinishCoroutine()
      requires Valid() && currentCoro in allCoro && usedSize > 0
      modifies `usedSize, `rings, `currentCoro, Linkage()
      ensures Valid() && Model() == End(old(Model()), Ending.Finish)
    {
      usedSize := usedSize - 1;
      MoveToFreeList(currentCoro);
      SwitchToMain();
    }

    method EndSegment(e: Ending)
      requires Valid() && currentCoro in allCoro && usedSize > 0
      modifies `usedSize, `rings, `currentCoro, `needActiveCoroId, `timeoutCoroId, Linkage()
      ensures Valid() && Model() == End(old(Model()), e)
    {
      match e
      case Yield(flag) => Yield(flag);
      case Sleep(now, span) => Sleep(now, span);
      case Finish => FinishCoroutine();
    }

    method SwitchToHead(st: Status) returns (id: Id)
      requires Valid() && rings.Get(st) != []
      modifies `currentCoro
      ensures Valid() && id == rings.Get(st)[0] && Model() == old(Model()).(current := id)
      ensures id < |allCoro| && allCoro[id] == currentCoro
    {
      HeadNext(st);
      var coro := Head(st).next;
      id := coro.uid;
      currentCoro := coro;
    }

    /** switchCoro to the coroutine at the head of a ring, which runs a segment and switches back. */
    method Resume(st: Status, seg: Segment) returns (id: Id)
      requires Valid() && Stocked() && ResumeSafe(Model(), st, seg)
      modifies this, Linkage()
      ensures Valid() && Stocked() && fresh(Linkage() - old(Linkage()))
      ensures id == old(rings).Get(st)[0] && Model() == SchedulerModel.Resume(old(Model()), id, seg)
    {
      ghost var s := Model();
      ResumeReady(s, st, seg);
      id := SwitchToHead(st);
      SoundSame(s.(current := id), Model());
      RunSegment(id, seg);
    }

    /** What the running coroutine does until it gives up control. */
    method RunSegment(id: Id, seg: Segment)
      requires Valid() && Stocked() && Sound(Model()) && OpsOk(Model(), seg.ops)
      requires id < |allCoro| && allCoro[id] == currentCoro && ApplyAll(Model(), seg.ops).usedSize > 0
      modifies this, Linkage()
      ensures Valid() && Stocked() && fresh(Linkage() - old(Linkage()))
      ensures Model() == End(ApplyAll(old(Model()), seg.ops), seg.ending)
    {
      PerformAll(seg.ops);
      assert allCoro[id] in allCoro;
      EndSegment(seg.ending);
    }

    // ----- the scheduling loops

    method RingEmpty(st: Status) returns (empty: bool)
      requires Valid()
      ensures Valid() && (empty <==> rings.Get(st) == [])
    {
      HeadNext(st);
      empty := Head(st).next == Head(st);
    }

    /** One turn of a dispatch loop. */
    method DispatchOne(st: Status, beh: Behaviour, ghost all: (State, seq<Id>), ghost log: seq<Id>,
                       ghost loop: nat, n: nat)
      returns (id: Id)
      requires Valid() && Stocked() && rings.Get(st) != []
      requires loop > 0 && Dispatching(all, st, beh, log, Model(), loop, n)
      modifies this, Linkage()
      ensures Valid() && Stocked() && fresh(Linkage() - old(Linkage()))
      ensures Dispatching(all, st, beh, log + [id], Model(), loop - 1, n + 1)
    {
      ghost var s := Model();
      DispatchReady(all, st, beh, log, s, loop, n);
      id := Resume(st, beh(n));
      DispatchStep(all, st, beh, log, s, loop, n, id, Model());
    }

    /** The loop of tars_run and run over one ring: at most `quota` times, switch to the coroutine at its head. */
    method DispatchRing(st: Status, quota: nat, beh: Behaviour) returns (log: seq<Id>)
      requires Valid() && Stocked() && DispatchSafe(Model(), st, quota, beh)
      modifies this, Linkage()
      ensures Valid() && Stocked() && fresh(Linkage() - old(Linkage()))
      ensures Model() == Dispatch(old(Model()), st, quota, beh, 0).0
      ensures log == Dispatch(old(Model()), st, quota, beh, 0).1
    {
      ghost var all := Dispatch(Model(), st, quota, beh, 0);
      var loop, n := quota, 0;
      log := [];
      var empty := RingEmpty(st);
      while loop > 0 && !empty
        invariant Valid() && Stocked() && fresh(Linkage() - old(Linkage()))
        invariant empty <==> rings.Get(st) == []
        invariant Dispatching(all, st, beh, log, Model(), loop, n)
        decreases loop
      {
        var id := DispatchOne(st, beh, all, log, loop, n);
        log := log + [id];
        loop, n := loop - 1, n + 1;
        empty := RingEmpty(st);
      }
      DispatchDone(all, st, beh, log, Model(), loop, n);
    }

    method WakeAll(now: int)
      requires Valid() && Stocked() && Sound(Model())
      modifies `rings, `timeoutCoroId, `needActiveCoroId, `activeCoroQueue, Linkage()
      ensures Valid() && Stocked()
      ensures Model() == WakePhase(old(Model()), now)
    {
      WakeReady(Model(), now);
      WakeupByTimeout(now);
      WakeupBySelf();
      Wakeup();
    }

    /** The body shared by tars_run and by one iteration of run. */
    method Round(input: Input, availQuota: nat) returns (activeLog: seq<Id>, availLog: seq<Id>)
      requires Valid() && Stocked() && RoundSafe(Model(), input, availQuota) && !terminal
      modifies this, Linkage()
      ensures Valid() && Stocked() && fresh(Linkage() - old(Linkage()))
      ensures Model() == DoRound(old(Model()), input, availQuota).after
      ensures activeLog == DoRound(old(Model()), input, availQuota).activeLog
      ensures availLog == DoRound(old(Model()), input, availQuota).availLog
    {
      ghost var s := Model();
      RoundReady(s, input, availQuota);
      ghost var r := DoRound(s, input, availQuota);
      WakeAll(input.now);
      DispatchSafeSame(r.woken, Model(), Active, ROUND_QUOTA, input.active);
      activeLog := DispatchRing(Active, ROUND_QUOTA, input.active);
      DispatchSafeSame(r.midway, Model(), Avail, availQuota, input.avail);
      availLog := DispatchRing(Avail, availQuota, input.avail);
    }

    method TarsRun(input: Input) returns (activeLog: seq<Id>, availLog: seq<Id>)
      requires Valid() && Stocked() && RoundSafe(Model(), input, ROUND_QUOTA)
      modifies this, Linkage()
      ensures Valid() && Stocked() && fresh(Linkage() - old(Linkage()))
      ensures Model() == Tick(old(Model()), input).after
      ensures activeLog == Tick(old(Model()), input).activeLog && availLog == Tick(old(Model()), input).availLog
    {
      activeLog, availLog := [], [];
      if !terminal {
        activeLog, availLog := Round(input, ROUND_QUOTA);
      }
    }

    /** One iteration of run, which resumes at most one avail coroutine; run stops when nothing is in use. */
    method RunIteration(input: Input) returns (stop: bool)
      requires Valid() && Stocked() && RoundSafe(Model(), input, 1) && !terminal
      modifies this, Linkage()
      ensures Valid() && Stocked() && fresh(Linkage() - old(Linkage()))
      ensures Model() == DoRound(old(Model()), input, 1).after && (stop <==> usedSize == 0)
      ensures stop <==> rings.active == rings.avail == rings.inactive == rings.timeout == []
    {
      RoundReady(Model(), input, 1);
      var activeLog, availLog := Round(input, 1);
      stop := usedSize == 0;
    }

    /** One iteration of run on the way to `all`. */
    method RunOnce(inputs: seq<Input>, ghost all: (State, bool)) returns (left: bool)
      requires Valid() && Stocked() && Running(all, Model(), inputs) && !terminal && inputs != []
      modifies this, Linkage()
      ensures Valid() && Stocked() && fresh(Linkage() - old(Linkage())) && Sound(Model())
      ensures if left then all == (Model(), true) else Running(all, Model(), inputs[1..])
    {
      ghost var s := Model();
      RunReady(all, s, inputs);
      left := RunIteration(inputs[0]);
      RunStep(all, s, inputs, Model());
    }

    // ----- init and destroy

    /** The loop of init: allocates a stack, then draws the id, until `inc` are made or one allocation fails. */
    method MakeInitial(inc: nat, grants: nat, ghost s: State) returns (succ: nat)
      requires Valid() && Made(allCoro, allCoro, rings, s, 0) && uniqId == s.uniqId && poolSize == s.poolSize
      requires uniqId + inc <= poolSize
      requires Recorded(ledger, allCoro)
      modifies `uniqId, `ledger, `allCoro, `rings, Linkage()`prev, Linkage()`next
      ensures Valid() && Recorded(ledger, allCoro) && fresh(Linkage() - old(Linkage()))
      ensures succ == Min(inc, grants) && Made(old(allCoro), allCoro, rings, s, succ)
      ensures uniqId == s.uniqId + succ
    {
      succ := 0;
      var memory := grants;
      for i := 0 to inc
        invariant succ == i && memory == grants - succ
        invariant Valid() && Made(old(allCoro), allCoro, rings, s, succ) && fresh(Linkage() - old(Linkage()))
        invariant uniqId == s.uniqId + succ && Recorded(ledger, allCoro)
      {
        if memory == 0 {
          break;
        }
        memory := memory - 1;
        var id := GenerateId();
        ghost var recorded, all := ledger, allCoro;
        ledger := ledger + [id];
        var coro := Make(id, old(allCoro), s, succ);
        RecordMore(recorded, all, id, coro);
        succ := succ + 1;
      }
    }

    /** Empties the table of a blank scheduler and gives it a slot for every id up to poolSize. */
    method ResizeTable(size: nat)
      requires Valid() && Blank()
      modifies `allCoro
      ensures Valid() && Linkage() == old(Linkage()) && |allCoro| == size
      ensures forall i :: 0 <= i < size ==> allCoro[i] == null
    {
      assert Key(0) && Wellformed();
      forall st: Status ensures rings.Get(st) == [] {
        match st
        case Free => case Active => case Avail => case Inactive => case Timeout =>
      }
      assert Nodes(allCoro, []) == [];
      assert forall st :: IsRing(Head(st), Nodes(allCoro, rings.Get(st)));
      allCoro := seq(size, _ => null);
      assert Nodes(allCoro, []) == [];
      assert Wellformed();
    }

    /** The part of init before its loop. */
    method Reset(poolSize: nat)
      requires Valid() && Blank()
      modifies `terminal, `poolSize, `currentSize, `usedSize, `uniqId, `allCoro, `currentCoro
      ensures Valid() && Linkage() == old(Linkage())
      ensures Model() == State(poolSize, Min(poolSize, GROWTH_STEP), 0, 0, false, MAIN, {},
                               Rings([], [], [], [], []), [], [], [])
      ensures |allCoro| == poolSize + 1 && forall i :: 0 <= i < |allCoro| ==> allCoro[i] == null
      ensures ledger == []
    {
      ResizeTable(poolSize + 1);
      ResetCounters(poolSize);
      KnownNone(allCoro);
      SwitchToMain();
    }

    method ResetSizes(poolSize: nat)
      requires Valid()
      modifies `poolSize, `currentSize
      ensures Valid() && this.poolSize == poolSize && currentSize == Min(poolSize, GROWTH_STEP)
    {
      this.poolSize := poolSize;
      currentSize := if poolSize <= GROWTH_STEP then poolSize else GROWTH_STEP;
    }

    method ResetUse()
      requires Valid()
      modifies `usedSize, `uniqId
      ensures Valid() && usedSize == 0 && uniqId == 0
    {
      usedSize, uniqId := 0, 0;
    }

    method ResetCounters(poolSize: nat)
      requires Valid()
      modifies `terminal, `poolSize, `currentSize, `usedSize, `uniqId
      ensures Valid() && !terminal && this.poolSize == poolSize && currentSize == Min(poolSize, GROWTH_STEP)
      ensures usedSize == 0 && uniqId == 0
    {
      terminal := false;
      ResetSizes(poolSize);
      ResetUse();
    }

    method Init(poolSize: nat, grants: nat)
      requires Valid() && Blank()
      requires poolSize < 0xFFFF_FFFF  // the table has poolSize + 1 slots, counted in 32 bits
      modifies this, Linkage()
      ensures Valid() && fresh(Linkage() - old(Linkage()))
      ensures poolSize == 0 ==> Model() == old(Model())
      ensures poolSize > 0 ==> Stocked() && Sound(Model()) && Model() == Initial(poolSize, grants)
    {
      if poolSize <= 0 {
        return;
      }
      InitPool(poolSize, grants);
    }

    /** The work of init. */
    method InitPool(poolSize: nat, grants: nat)
      requires Valid() && Blank()
      modifies this, Linkage()
      ensures Valid() && fresh(Linkage() - old(Linkage()))
      ensures Stocked() && Sound(Model()) && Model() == Initial(poolSize, grants)
    {
      Reset(poolSize);
      ghost var s := Model();
      ghost var empty := allCoro;
      MadeNone(allCoro, s);
      RecordNone(allCoro);
      var succ := MakeInitial(currentSize, grants, s);
      currentSize := succ;
      InitialMade(empty, s, poolSize, grants);
    }

    lemma InitialMade(was: seq<CoroutineInfo?>, s: State, poolSize: nat, grants: nat)
      requires s == State(poolSize, Min(poolSize, GROWTH_STEP), 0, 0, false, MAIN, {},
                          Rings([], [], [], [], []), [], [], [])
      requires Made(was, allCoro, rings, s, Min(Min(poolSize, GROWTH_STEP), grants))
      requires Model() == s.(currentSize := Min(Min(poolSize, GROWTH_STEP), grants),
                             uniqId := Min(Min(poolSize, GROWTH_STEP), grants),
                             known := KnownIn(allCoro), rings := rings)
      ensures Model() == Initial(poolSize, grants) && |allCoro| == poolSize + 1 && Sound(Model())
    {
      assert ModelKey(0);
      var made := Min(Min(poolSize, GROWTH_STEP), grants);
      assert [] + Range(1, made) == Range(1, made);
      assert {} + RangeSet(1, made) == RangeSet(1, made);
      InitialInv(poolSize, grants);
    }

    lemma AllFiled()
      requires Valid()
      ensures forall i :: 0 <= i < |allCoro| && allCoro[i] != null ==> allCoro[i].uid == i
    {
      assert Key(0) && Wellformed();
    }

    /** Releases every stack that was ever allocated, exactly once. */
    method Destroy() returns (released: seq<Id>)
      requires Valid() && Stocked() && Sound(Model())
      ensures Valid() && Stocked()
      ensures multiset(released) == multiset(ledger) && NoDuplicates(released)
    {
      KnownAreNumbered(Model());
      ReleasedAll(ledger, allCoro);
      AllFiled();
      released := ReleaseAll(allCoro);
    }

    /** The loop of run. */
    method Iterate(inputs: seq<Input>) returns (left: bool)
      requires Valid() && Stocked() && Running(RunLoop(Model(), inputs), Model(), inputs)
      modifies this, Linkage()
      ensures Valid() && Stocked() && fresh(Linkage() - old(Linkage())) && Sound(Model())
      ensures (Model(), left) == RunLoop(old(Model()), inputs)
    {
      ghost var all := RunLoop(Model(), inputs);
      var rest := inputs;
      while !terminal && rest != []
        invariant Valid() && Stocked() && fresh(Linkage() - old(Linkage()))
        invariant Running(all, Model(), rest)
        decreases |rest|
      {
        left := RunOnce(rest, all);
        if left {
          return;
        }
        rest := rest[1..];
      }
      RunDone(all, Model(), rest);
      left := terminal;
    }

    /** run: iterates until terminated or nothing is in use, then releases the stacks. `inputs` is what its
        iterations meet; if they are used up it is still running. */
    method Run(inputs: seq<Input>) returns (left: bool, released: seq<Id>)
      requires Valid() && Stocked() && Running(RunLoop(Model(), inputs), Model(), inputs)
      modifies this, Linkage()
      ensures Valid() && Stocked() && fresh(Linkage() - old(Linkage()))
      ensures (Model(), left) == RunLoop(old(Model()), inputs)
      ensures if left then multiset(released) == multiset(ledger) && NoDuplicates(released) else released == []
    {
      released := [];
      left := Iterate(inputs);
      if left {
        released := Destroy();
      }
    }
  }
}
