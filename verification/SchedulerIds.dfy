/** Coroutine ids over whole runs: never used twice, and not wasted while stacks can be allocated. */
module SchedulerIds {
  import opened CoroutineRing
  import opened SchedulerModel
  import opened SchedulerInvariant
  import opened SchedulerRounds

  /** Coroutines are only ever added, under ids that were not drawn before. */
  ghost predicate Later(s: State, t: State) {
    && t.poolSize == s.poolSize && s.uniqId <= t.uniqId && s.known <= t.known
    && forall i :: i in t.known && i !in s.known ==> i > s.uniqId
  }

  /** No id was wasted. */
  predicate NoneWasted(s: State) {
    s.uniqId == s.currentSize <= s.poolSize
  }

  /** Stacks can be allocated for a whole growth whenever one is wanted. */
  ghost predicate Plenty(ops: seq<Op>) {
    forall k :: 0 <= k < |ops| && ops[k].Create? ==> ops[k].grants >= GROWTH_STEP
  }

  ghost predicate PlentyOf(beh: Behaviour) {
    forall n :: Plenty(beh(n).ops)
  }

  ghost predicate PlentyFor(e: Event) {
    match e
    case External(op) => Plenty([op])
    case TarsRun(i) => PlentyOf(i.active) && PlentyOf(i.avail)
    case RunOnce(i) => PlentyOf(i.active) && PlentyOf(i.avail)
  }

  /** What a stretch of a run does to the ids. */
  ghost predicate Progress(s: State, t: State, plenty: bool) {
    Later(s, t) && (plenty && NoneWasted(s) ==> NoneWasted(t))
  }

  lemma ProgressTransitive(s: State, t: State, u: State, plenty: bool)
    requires Progress(s, t, plenty) && Progress(t, u, plenty)
    ensures Progress(s, u, plenty)
  {}

  /** With memory at hand and no id wasted, the assert of generateId holds in createCoroutine. */
  lemma CreateIsSafe(s: State, grants: nat)
    requires NoneWasted(s) && grants >= GROWTH_STEP
    ensures OpOk(s, Create(grants)) && NoneWasted(CreateCoroutine(s, grants).0)
  {}

  lemma ApplyProgress(s: State, op: Op)
    ensures Progress(s, Apply(s, op), Plenty([op]))
  {
    if op.Create? {
      assert Plenty([op]) ==> [op][0].grants >= GROWTH_STEP;
      if Plenty([op]) && NoneWasted(s) {
        CreateIsSafe(s, op.grants);
      }
    }
  }

  lemma {:induction false} ApplyAllProgress(s: State, ops: seq<Op>)
    ensures Progress(s, ApplyAll(s, ops), Plenty(ops))
    decreases |ops|
  {
    if ops != [] {
      var t := Apply(s, ops[0]);
      ApplyProgress(s, ops[0]);
      ApplyAllProgress(t, ops[1..]);
      assert Plenty(ops) ==> Plenty([ops[0]]) && Plenty(ops[1..]);
      if Plenty(ops) {
        ProgressTransitive(s, t, ApplyAll(t, ops[1..]), true);
      } else {
        ProgressTransitive(s, t, ApplyAll(t, ops[1..]), false);
      }
    }
  }

  /** Moving coroutines about draws no id. */
  ghost predicate SameIds(s: State, t: State) {
    t.poolSize == s.poolSize && t.uniqId == s.uniqId && t.currentSize == s.currentSize && t.known == s.known
  }

  lemma {:induction false} MoveEachSameIds(s: State, ids: seq<Id>, to: Status)
    ensures SameIds(s, MoveEach(s, ids, to))
    decreases |ids|
  {
    if ids != [] {
      MoveEachSameIds(Move(s, ids[0], to), ids[1..], to);
    }
  }

  lemma {:induction false} WakeByTimeoutSameIds(s: State, now: int)
    ensures SameIds(s, WakeByTimeout(s, now))
    decreases |s.sleepers|
  {
    if !(s.terminal || s.sleepers == [] || s.sleepers[0].deadline > now) {
      WakeByTimeoutSameIds(Move(s, s.sleepers[0].id, Active).(sleepers := s.sleepers[1..]), now);
    }
  }

  lemma WakePhaseSameIds(s: State, now: int)
    ensures SameIds(s, WakePhase(s, now))
  {
    var t := WakeByTimeout(s, now);
    WakeByTimeoutSameIds(s, now);
    MoveEachSameIds(t, t.selfYielded, Avail);
    var u := WakeBySelf(t);
    MoveEachSameIds(u.(wakeQueue := []), u.wakeQueue, Active);
  }

  lemma ResumeProgress(s: State, id: Id, seg: Segment)
    ensures Progress(s, Resume(s, id, seg), Plenty(seg.ops))
  {
    ApplyAllProgress(s.(current := id), seg.ops);
    EndSameIds(ApplyAll(s.(current := id), seg.ops), seg.ending);
  }

  lemma EndSameIds(s: State, e: Ending)
    ensures SameIds(s, End(s, e))
  {}

  lemma {:induction false} DispatchProgress(s: State, st: Status, quota: nat, beh: Behaviour, n: nat, plenty: bool)
    requires plenty ==> PlentyOf(beh)
    ensures Progress(s, Dispatch(s, st, quota, beh, n).0, plenty)
    decreases quota
  {
    if quota > 0 && s.rings.Get(st) != [] {
      var t := Resume(s, s.rings.Get(st)[0], beh(n));
      ResumeProgress(s, s.rings.Get(st)[0], beh(n));
      DispatchProgress(t, st, quota - 1, beh, n + 1, plenty);
      ProgressTransitive(s, t, Dispatch(t, st, quota - 1, beh, n + 1).0, plenty);
    }
  }

  lemma RoundProgress(s: State, i: Input, availQuota: nat, plenty: bool)
    requires plenty ==> PlentyOf(i.active) && PlentyOf(i.avail)
    ensures Progress(s, DoRound(s, i, availQuota).after, plenty)
  {
    var r := DoRound(s, i, availQuota);
    WakePhaseSameIds(s, i.now);
    DispatchProgress(r.woken, Active, ROUND_QUOTA, i.active, 0, plenty);
    DispatchProgress(r.midway, Avail, availQuota, i.avail, 0, plenty);
    ProgressTransitive(r.woken, r.midway, r.after, plenty);
    ProgressTransitive(s, r.woken, r.after, plenty);
  }

  lemma HappenProgress(s: State, e: Event, plenty: bool)
    requires plenty ==> PlentyFor(e)
    ensures Progress(s, Happen(s, e), plenty)
  {
    match e
    case External(op) => ApplyProgress(s, op);
    case TarsRun(i) => if !s.terminal { RoundProgress(s, i, ROUND_QUOTA, plenty); }
    case RunOnce(i) => if !s.terminal { RoundProgress(s, i, 1, plenty); }
  }

  lemma {:induction false} RunProgress(s: State, events: seq<Event>, plenty: bool)
    requires plenty ==> forall k :: 0 <= k < |events| ==> PlentyFor(events[k])
    ensures Progress(s, After(s, events), plenty)
    decreases |events|
  {
    if events != [] {
      HappenProgress(s, events[0], plenty);
      RunProgress(Happen(s, events[0]), events[1..], plenty);
      ProgressTransitive(s, Happen(s, events[0]), After(s, events), plenty);
    }
  }

  /** Over any run, whether stacks can be had or not: ids lie in 1..poolSize, no coroutine disappears, and what is
      added later has an id that was not drawn before. */
  lemma IdsNeverReused(poolSize: nat, grants: nat, events: seq<Event>, more: seq<Event>)
    requires EventsOk(Initial(poolSize, grants), events)
    ensures var s := After(Initial(poolSize, grants), events);
            var t := After(s, more);
      && Later(s, t) && (forall i :: i in s.known ==> 1 <= i <= s.uniqId <= poolSize)
  {
    InitialInv(poolSize, grants);
    AfterKeepsIdle(Initial(poolSize, grants), events);
    RunProgress(Initial(poolSize, grants), events, false);
    RunProgress(After(Initial(poolSize, grants), events), more, false);
  }

  /** While stacks can be allocated no id is wasted, and so the assert of generateId holds in every
      createCoroutine that comes next. */
  lemma NoIdWasted(poolSize: nat, grants: nat, events: seq<Event>, next: nat)
    requires forall k :: 0 <= k < |events| ==> PlentyFor(events[k])
    requires next >= GROWTH_STEP
    ensures var s := After(Initial(poolSize, grants), events);
            s.uniqId == s.currentSize && OpOk(s, Create(next))
  {
    RunProgress(Initial(poolSize, grants), events, true);
    CreateIsSafe(After(Initial(poolSize, grants), events), next);
  }

  /** After failures the assert of generateId can fail. However much memory there is, it holds in the next
      createCoroutine exactly if a coroutine is free, or no id was wasted, or a whole growth still fits below
      poolSize in spite of the wasted ids. */
  lemma GenerateIdHoldsIff(s: State)
    requires Inv(s)
    ensures (forall grants: nat :: OpOk(s, Create(grants))) <==>
              || s.usedSize < s.currentSize
              || s.uniqId == s.currentSize
              || s.uniqId + GROWTH_STEP <= s.poolSize
  {
    Accounting(s);
    assert OpOk(s, Create(GROWTH_STEP)) ==>
        s.usedSize < s.currentSize || s.uniqId == s.currentSize || s.uniqId + GROWTH_STEP <= s.poolSize;
  }

  const ONE_USED: State :=
    State(2, 1, 1, 1, false, MAIN, {1}, Rings([], [], [1], [], []), [], [], [])

  lemma FirstCreate()
    ensures OpOk(Initial(2, 1), Create(1)) && Apply(Initial(2, 1), Create(1)) == ONE_USED
  {
    var s := Initial(2, 1);
    assert Range(1, 1) == [1] && RangeSet(1, 1) == {1};
    CreateFromFree(s, 1);
  }

  const ID_WASTED: State := ONE_USED.(uniqId := 2)

  lemma SecondCreate()
    ensures OpOk(ONE_USED, Create(0)) && Apply(ONE_USED, Create(0)) == ID_WASTED
  {
    CreateRefused(ONE_USED, 0);
  }

  lemma ThirdCreate(grants: nat)
    ensures !OpOk(ID_WASTED, Create(grants))
  {
    assert NeedsGrowth(ID_WASTED) && IdsDrawn(ID_WASTED, grants) == 1;
  }

  /** With room for two coroutines and one stack, the second createCoroutine draws id 2 in vain, and the third
      would draw id 3. */
  lemma WastedIdOverflows(grants: nat)
    ensures OpOk(Initial(2, 1), Create(1)) && Apply(Initial(2, 1), Create(1)) == ONE_USED
    ensures OpOk(ONE_USED, Create(0)) && Apply(ONE_USED, Create(0)) == ID_WASTED
    ensures !OpOk(ID_WASTED, Create(grants))
  {
    FirstCreate();
    SecondCreate();
    ThirdCreate(grants);
  }
}
