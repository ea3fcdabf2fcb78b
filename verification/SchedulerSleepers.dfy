/** Sleeping coroutines are not lost, and exactly when they are not woken early. */
module SchedulerSleepers {
  import opened Sequences
  import opened CoroutineRing
  import opened SchedulerModel
  import opened SchedulerInvariant
  import opened SchedulerRounds
  import opened SchedulerWaking

  /** Every due coroutine is waiting, once, and nothing else sleeps: entries and sleepers in bijection. */
  ghost predicate Faithful(s: State) {
    multiset(Ids(s.sleepers)) == multiset(s.rings.timeout)
  }

  lemma {:induction false} FirstHitsAll(ids: seq<Id>, waiting: set<Id>)
    requires NoDuplicates(ids) && forall i :: i in ids ==> i in waiting
    ensures FirstHits(ids, waiting) == ids
  {
    if ids != [] {
      FirstHitsAll(ids[1..], waiting - {ids[0]});
    }
  }

  lemma FaithfulIds(s: State)
    requires Core(s) && Faithful(s)
    ensures NoDuplicates(Ids(s.sleepers))
    ensures forall i :: i in Ids(s.sleepers) <==> i in s.rings.timeout
  {
    RingsAreDisjoint(s);
    assert s.rings.Get(Timeout) == s.rings.timeout;
    assert forall i :: i in s.rings.timeout ==> i in s.known;
    NoDuplicatesBag(s.rings.timeout, set i | i in s.rings.timeout);
    BagOfSet(Ids(s.sleepers), set i | i in s.rings.timeout);
    assert forall i :: i in Ids(s.sleepers) <==> i in multiset(Ids(s.sleepers));
    assert forall i :: i in s.rings.timeout <==> i in multiset(s.rings.timeout);
  }

  /** Splitting a list without repetition splits its members. */
  lemma SplitMembers(p: seq<Id>, q: seq<Id>)
    requires NoDuplicates(p + q)
    ensures NoDuplicates(p) && NoDuplicates(q)
    ensures forall i :: i in p ==> i in p + q && i !in q
    ensures forall i :: i in q ==> i in p + q && i !in p
    ensures forall i :: i in p + q ==> i in p || i in q
  {
    forall j, k | 0 <= j < |p| && 0 <= k < |q| ensures p[j] != q[k] {
      assert (p + q)[j] == p[j] && (p + q)[|p| + k] == q[k];
    }
    forall j, k | 0 <= j < k < |q| ensures q[j] != q[k] {
      assert (p + q)[|p| + j] == q[j] && (p + q)[|p| + k] == q[k];
    }
    forall j, k | 0 <= j < k < |p| ensures p[j] != p[k] {
      assert (p + q)[j] == p[j] && (p + q)[k] == p[k];
    }
  }

  /** What a bijective multimap wakes: all that is due, and what is left is still bijective. */
  lemma WokenFaithfully(r: Rings, t: Rings, due: seq<Id>, rest: seq<Id>)
    requires NoDuplicates(due + rest) && NoDuplicates(t.timeout)
    requires forall i :: i in due + rest <==> i in r.timeout
    requires t == Woken(r, due, Active)
    ensures t.active == r.active + due
    ensures multiset(rest) == multiset(t.timeout)
    ensures forall i :: i in rest <==> i in t.timeout
    ensures forall i :: i in due ==> i in r.timeout && i !in t.timeout
  {
    SplitMembers(due, rest);
    FirstHitsAll(due, Waiting(r));
    WithoutMembers(r.timeout, Members(due));
    NoDuplicatesBag(rest, set i | i in rest);
    NoDuplicatesBag(t.timeout, set i | i in rest);
  }

  /** `t` is `s` after exactly the sleepers due by `now` were woken. */
  ghost predicate WokenOnTime(s: State, t: State, now: int) {
    var n := DueCount(s.sleepers, now);
    && t.rings.active == s.rings.active + Ids(s.sleepers[..n])
    && t.sleepers == s.sleepers[n..]
    && Faithful(t)
    && (forall e :: e in s.sleepers ==> (e.id in t.rings.timeout <==> e.deadline > now))
  }

  lemma IdsSplit(q: seq<Sleeper>, n: nat)
    requires n <= |q|
    ensures Ids(q) == Ids(q[..n]) + Ids(q[n..])
  {
    IdsAppend(q[..n], q[n..]);
    assert q[..n] + q[n..] == q;
  }

  lemma OnTimeStep(s: State, t: State, now: int)
    requires SortedByDeadline(s.sleepers) && NoDuplicates(Ids(s.sleepers)) && NoDuplicates(t.rings.timeout)
    requires forall i :: i in Ids(s.sleepers) <==> i in s.rings.timeout
    requires t.sleepers == s.sleepers[DueCount(s.sleepers, now)..]
    requires t.rings == Woken(s.rings, DueNow(s, now), Active)
    ensures WokenOnTime(s, t, now)
  {
    var n := DueCount(s.sleepers, now);
    IdsSplit(s.sleepers, n);
    WokenFaithfully(s.rings, t.rings, Ids(s.sleepers[..n]), Ids(s.sleepers[n..]));
    StillAsleep(s.sleepers, now, t.rings.timeout);
  }

  /** With entries and sleepers in bijection, the due sleepers are woken in deadline order, each once, nobody
      leaves the timeout ring before its deadline, and the bijection is kept. */
  lemma OnTime(s: State, now: int)
    requires Core(s) && !s.terminal && Faithful(s)
    ensures WokenOnTime(s, WakeByTimeout(s, now), now)
  {
    WakeByTimeoutWakes(s, now);
    WakeByTimeoutDrops(s, now);
    FaithfulIds(s);
    TimeoutDistinct(s, now);
    OnTimeStep(s, WakeByTimeout(s, now), now);
  }

  lemma InOnePart(p: seq<Sleeper>, q: seq<Sleeper>, e: Sleeper)
    requires NoDuplicates(Ids(p + q)) && e in p + q
    ensures e in p ==> e.id !in Ids(q)
    ensures e in q ==> e.id in Ids(q)
  {
    IdsAppend(p, q);
    SplitMembers(Ids(p), Ids(q));
    if e in p {
      IdsMember(p, e);
    }
    if e in q {
      IdsMember(q, e);
    }
  }

  lemma StillAsleep(q: seq<Sleeper>, now: int, timeout: seq<Id>)
    requires SortedByDeadline(q) && NoDuplicates(Ids(q))
    requires forall i :: i in Ids(q[DueCount(q, now)..]) <==> i in timeout
    ensures forall e :: e in q ==> (e.id in timeout <==> e.deadline > now)
  {
    var n := DueCount(q, now);
    assert q == q[..n] + q[n..];
    DueIsAll(q, now);
    forall e | e in q ensures e.id in timeout <==> e.deadline > now {
      InOnePart(q[..n], q[n..], e);
    }
  }

  lemma TimeoutDistinct(s: State, now: int)
    requires Core(s)
    ensures NoDuplicates(WakeByTimeout(s, now).rings.timeout)
  {
    WakeByTimeoutFacts(s, now);
    RingsAreDisjoint(WakeByTimeout(s, now));
    assert WakeByTimeout(s, now).rings.Get(Timeout) == WakeByTimeout(s, now).rings.timeout;
  }

  lemma IdsMember(q: seq<Sleeper>, e: Sleeper)
    requires e in q
    ensures e.id in Ids(q)
  {
    var k :| 0 <= k < |q| && q[k] == e;
    assert Ids(q)[k] == e.id;
  }

  // ----- whole rounds

  /** No request in the wake queue names a coroutine that is to sleep on. */
  ghost predicate NobodyRoused(s: State, now: int) {
    forall e :: e in s.sleepers && e.id in s.wakeQueue ==> e.deadline <= now
  }

  lemma WakeupLeaves(s: State)
    requires Core(s) && !s.terminal
    ensures forall i :: i in Wakeup(s).rings.timeout <==> i in s.rings.timeout && i !in s.wakeQueue
  {
    WakeupWakes(s);
    WithoutMembers(s.rings.timeout, Members(s.wakeQueue));
  }

  /** The wake-up by request breaks the bijection exactly when it rouses a sleeper. */
  lemma WakeupFaithful(s: State)
    requires Core(s) && Faithful(s) && !s.terminal
    ensures Faithful(Wakeup(s)) <==> forall i :: i in s.wakeQueue ==> i !in s.rings.timeout
    ensures forall i :: i in Wakeup(s).rings.timeout <==> i in s.rings.timeout && i !in s.wakeQueue
  {
    var t := Wakeup(s);
    WakeupLeaves(s);
    WakeupFacts(s);
    FaithfulIds(s);
    if Faithful(t) {
      FaithfulIds(t);
    } else if forall i :: i in s.wakeQueue ==> i !in s.rings.timeout {
      RingsAreDisjoint(t);
      assert t.rings.Get(Timeout) == t.rings.timeout;
      NoDuplicatesBag(t.rings.timeout, set i | i in t.rings.timeout);
      NoDuplicatesBag(Ids(t.sleepers), set i | i in t.rings.timeout);
    }
  }

  /** The state in which the wake queue is drained. */
  ghost predicate ReadyToDrain(s: State, b: State, now: int) {
    && Core(b) && Faithful(b) && !b.terminal
    && b.wakeQueue == s.wakeQueue
    && b.sleepers == s.sleepers[DueCount(s.sleepers, now)..]
    && (forall e :: e in s.sleepers ==> (e.id in b.rings.timeout <==> e.deadline > now))
  }

  lemma BeforeDrain(s: State, now: int)
    requires Core(s) && Faithful(s) && !s.terminal
    ensures ReadyToDrain(s, WakeBySelf(WakeByTimeout(s, now)), now)
  {
    var a := WakeByTimeout(s, now);
    OnTime(s, now);
    WakeByTimeoutFacts(s, now);
    WakeBySelfFacts(a);
    WakeBySelfWakes(a);
  }

  lemma Roused(s: State, b: State, t: State, now: int)
    requires ReadyToDrain(s, b, now) && SortedByDeadline(s.sleepers)
    requires t.sleepers == b.sleepers
    requires forall i :: i in t.rings.timeout <==> i in b.rings.timeout && i !in b.wakeQueue
    ensures (forall i :: i in b.wakeQueue ==> i !in b.rings.timeout) <==> NobodyRoused(s, now)
    ensures NobodyRoused(s, now) <==>
              forall e :: e in s.sleepers && e.deadline > now ==> e in t.sleepers && e.id in t.rings.timeout
  {
    DueIsAll(s.sleepers, now);
    forall i | i in b.rings.timeout ensures exists e :: e in s.sleepers && e.id == i && e.deadline > now {
      var e :| e in b.sleepers && e.id == i;
      assert e in s.sleepers;
    }
  }

  /** The wake-up phase keeps the bijection exactly when nobody is roused from a sleep that is not over. */
  lemma WakePhaseFaithful(s: State, now: int)
    requires Core(s) && Faithful(s) && !s.terminal
    ensures Faithful(WakePhase(s, now)) <==> NobodyRoused(s, now)
    ensures NobodyRoused(s, now) <==> forall e :: e in s.sleepers && e.deadline > now ==>
              e in WakePhase(s, now).sleepers && e.id in WakePhase(s, now).rings.timeout
  {
    BeforeDrain(s, now);
    var b := WakeBySelf(WakeByTimeout(s, now));
    WakeupFaithful(b);
    WakeupFacts(b);
    Roused(s, b, Wakeup(b), now);
  }

  lemma {:induction false} InsertSleeperIds(q: seq<Sleeper>, e: Sleeper)
    ensures multiset(Ids(InsertSleeper(q, e))) == multiset(Ids(q)) + multiset{e.id}
  {
    if q != [] && e.deadline >= q[0].deadline {
      var rest := InsertSleeper(q[1..], e);
      InsertSleeperIds(q[1..], e);
      IdsCons(q[0], rest);
      assert Ids(q) == [q[0].id] + Ids(q[1..]);
      BagCons(q[0].id, Ids(rest), Ids(q[1..]), e.id);
    } else {
      IdsCons(e, q);
    }
  }

  lemma IdsCons(e: Sleeper, q: seq<Sleeper>)
    ensures Ids([e] + q) == [e.id] + Ids(q)
  {
    assert ([e] + q)[1..] == q;
  }

  lemma BagCons(h: Id, p: seq<Id>, q: seq<Id>, x: Id)
    requires multiset(p) == multiset(q) + multiset{x}
    ensures multiset([h] + p) == multiset([h] + q) + multiset{x}
  {
    assert multiset([h] + p) == multiset{h} + multiset(p);
    assert multiset([h] + q) == multiset{h} + multiset(q);
  }

  /** The sleepers of `s` are asleep in `t` too. */
  ghost predicate Undisturbed(s: State, t: State) {
    && s.rings.timeout <= t.rings.timeout
    && (forall e :: e in s.sleepers ==> e in t.sleepers)
    && (Faithful(s) ==> Faithful(t))
  }

  /** What the end of a segment does to the sleepers. */
  ghost predicate Ended(m: State, t: State, e: Ending) {
    if e.Sleep? then
      && t.rings.timeout == m.rings.timeout + [m.current]
      && t.sleepers == InsertSleeper(m.sleepers, Sleeper(e.now + Abs(e.span), m.current))
    else
      t.rings.timeout == m.rings.timeout && t.sleepers == m.sleepers
  }

  lemma EndedUndisturbed(m: State, t: State, e: Ending)
    requires Ended(m, t, e)
    ensures Undisturbed(m, t)
  {
    if e.Sleep? {
      InsertSleeperBag(m.sleepers, Sleeper(e.now + Abs(e.span), m.current));
      InsertSleeperIds(m.sleepers, Sleeper(e.now + Abs(e.span), m.current));
    }
  }

  lemma EndEnded(m: State, st: Status, e: Ending)
    requires RunsFrom(m, st) && m.usedSize > 0
    requires End(m, e).rings == HeadLeft(m.rings, st, Destination(e))
    ensures Ended(m, End(m, e), e)
  {
    HeadLeftShape(m.rings, st, Destination(e));
    assert forall r: Rings :: r.Get(Timeout) == r.timeout;
  }

  lemma ResumeUndisturbed(s: State, st: Status, seg: Segment)
    requires Idle(s) && (st == Active || st == Avail) && s.rings.Get(st) != []
    requires OpsOk(s.(current := s.rings.Get(st)[0]), seg.ops)
    ensures Undisturbed(s, Resume(s, s.rings.Get(st)[0], seg))
    ensures s.rings.Get(st)[0] !in s.rings.timeout
  {
    RunningStatus(s.(current := s.rings.Get(st)[0]), st);
    RanUndisturbed(s, st, seg);
    ResumeKeepsIdle(s, st, seg);
    EndEnded(Ran(s, st, seg), st, seg.ending);
    EndedUndisturbed(Ran(s, st, seg), Resume(s, s.rings.Get(st)[0], seg), seg.ending);
    UndisturbedTransitive(s, Ran(s, st, seg), Resume(s, s.rings.Get(st)[0], seg));
  }

  lemma RanUndisturbed(s: State, st: Status, seg: Segment)
    requires s.rings.Get(st) != []
    ensures Undisturbed(s, Ran(s, st, seg))
  {
    ApplyAllFrame(s.(current := s.rings.Get(st)[0]), seg.ops);
  }

  lemma UndisturbedTransitive(s: State, t: State, u: State)
    requires Undisturbed(s, t) && Undisturbed(t, u)
    ensures Undisturbed(s, u)
  {}

  lemma {:induction false} DispatchUndisturbed(s: State, st: Status, quota: nat, beh: Behaviour, n: nat)
    requires Idle(s) && (st == Active || st == Avail) && DispatchOk(s, st, quota, beh, n)
    ensures Undisturbed(s, Dispatch(s, st, quota, beh, n).0)
    ensures forall i :: i in Dispatch(s, st, quota, beh, n).1 ==> i !in s.rings.timeout
    decreases quota
  {
    if quota > 0 && s.rings.Get(st) != [] {
      var t := Resume(s, s.rings.Get(st)[0], beh(n));
      ResumeFacts(s, st, beh(n));
      ResumeUndisturbed(s, st, beh(n));
      DispatchUndisturbed(t, st, quota - 1, beh, n + 1);
      UndisturbedTransitive(s, t, Dispatch(t, st, quota - 1, beh, n + 1).0);
    }
  }

  /** A coroutine that is to sleep on is neither resumed nor woken by the round. */
  ghost predicate SleepsOn(r: Round, e: Sleeper) {
    && e in r.after.sleepers && e.id in r.after.rings.timeout
    && e.id !in r.activeLog && e.id !in r.availLog
  }

  /** If and only if no request in the wake queue names a sleeper whose deadline is still to come, the wake-up
      phase of a round keeps the bijection, and keeps every such sleeper asleep; then so does the whole round. */
  lemma RoundFaithful(s: State, i: Input, availQuota: nat)
    requires Idle(s) && !s.terminal && RoundOk(s, i, availQuota) && Faithful(s)
    ensures var r := DoRound(s, i, availQuota);
      && (NobodyRoused(s, i.now) <==> Faithful(r.woken))
      && (NobodyRoused(s, i.now) <==> forall e :: e in s.sleepers && e.deadline > i.now ==>
           e in r.woken.sleepers && e.id in r.woken.rings.timeout)
      && (NobodyRoused(s, i.now) ==>
           Faithful(r.after) && forall e :: e in s.sleepers && e.deadline > i.now ==> SleepsOn(r, e))
  {
    var r := DoRound(s, i, availQuota);
    RoundFacts(s, i, availQuota);
    WakePhaseFaithful(s, i.now);
    DispatchUndisturbed(r.woken, Active, ROUND_QUOTA, i.active, 0);
    DispatchUndisturbed(r.midway, Avail, availQuota, i.avail, 0);
    UndisturbedTransitive(r.woken, r.midway, r.after);
    if NobodyRoused(s, i.now) {
      forall e | e in s.sleepers && e.deadline > i.now ensures SleepsOn(r, e) {
        assert e in r.woken.sleepers && e.id in r.woken.rings.timeout;
      }
    }
  }

  /** If the event is a round, no sleeper is roused before its deadline. */
  ghost predicate Unroused(s: State, e: Event) {
    match e
    case External(_) => true
    case TarsRun(i) => s.terminal || NobodyRoused(s, i.now)
    case RunOnce(i) => s.terminal || NobodyRoused(s, i.now)
  }

  ghost predicate NeverRoused(s: State, events: seq<Event>)
    decreases |events|
  {
    events != [] ==> Unroused(s, events[0]) && NeverRoused(Happen(s, events[0]), events[1..])
  }

  lemma HappenFaithful(s: State, e: Event)
    requires Idle(s) && Faithful(s) && EventOk(s, e) && Unroused(s, e)
    ensures Faithful(Happen(s, e))
  {
    match e
    case External(op) => ApplyFrame(s, op);
    case TarsRun(i) => if !s.terminal { RoundFaithful(s, i, ROUND_QUOTA); }
    case RunOnce(i) => if !s.terminal { RoundFaithful(s, i, 1); }
  }

  /** Over any run in which no sleeper is roused, entries and sleepers stay in bijection. */
  lemma {:induction false} RunFaithful(s: State, events: seq<Event>)
    requires Idle(s) && Faithful(s) && EventsOk(s, events) && NeverRoused(s, events)
    ensures Faithful(After(s, events))
    decreases |events|
  {
    if events != [] {
      HappenKeepsIdle(s, events[0]);
      HappenFaithful(s, events[0]);
      RunFaithful(Happen(s, events[0]), events[1..]);
    }
  }

  // ----- exactly when a sleep ends

  /** Some entry of the coroutine is due; there may be more than one. */
  ghost predicate HasDue(q: seq<Sleeper>, id: Id, now: int) {
    exists e :: e in q && e.id == id && e.deadline <= now
  }

  lemma DueIdsAre(q: seq<Sleeper>, now: int, id: Id)
    requires SortedByDeadline(q)
    ensures id in Ids(q[..DueCount(q, now)]) <==> HasDue(q, id, now)
  {
    var p := q[..DueCount(q, now)];
    DueIsAll(q, now);
    if id in Ids(p) {
      var k :| 0 <= k < |p| && Ids(p)[k] == id;
      assert p[k] in p;
    }
    if HasDue(q, id, now) {
      var e :| e in q && e.id == id && e.deadline <= now;
      IdsMember(p, e);
    }
  }

  /** Whatever entries there are: a sleeper sleeps on exactly if no request names it and none of its entries is
      due, and nobody falls asleep in the wake-up phase. */
  lemma SleepsOnIff(s: State, now: int, id: Id)
    requires Core(s) && !s.terminal
    ensures id in WakePhase(s, now).rings.timeout <==>
              id in s.rings.timeout && id !in s.wakeQueue && !HasDue(s.sleepers, id, now)
  {
    WhoSleepsOn(s, now);
    WithoutMembers(s.rings.timeout, Members(DueNow(s, now)) + Members(s.wakeQueue));
    DueIdsAre(s.sleepers, now, id);
  }

  /** A sleeper with an entry that is due is runnable after the wake-up phase. */
  lemma DueWakesUp(s: State, now: int, id: Id)
    requires Core(s) && !s.terminal && id in s.rings.timeout && HasDue(s.sleepers, id, now)
    ensures Runnable(WakePhase(s, now).rings, id)
  {
    var a := WakeByTimeout(s, now);
    DueIsActive(s, now, id);
    WakeByTimeoutFacts(s, now);
    WakeBySelfFacts(a);
    WakeupFacts(WakeBySelf(a));
    StaysActive(a.rings, WakeBySelf(a).rings, WakePhase(s, now).rings, id);
  }

  lemma DueIsActive(s: State, now: int, id: Id)
    requires Core(s) && !s.terminal && id in s.rings.timeout && HasDue(s.sleepers, id, now)
    ensures id in WakeByTimeout(s, now).rings.active
  {
    WakeByTimeoutWakes(s, now);
    DueIdsAre(s.sleepers, now, id);
    FirstHitsIn(Ids(s.sleepers[..DueCount(s.sleepers, now)]), Waiting(s.rings), id);
  }

  lemma StaysActive(r: Rings, t: Rings, u: Rings, id: Id)
    requires id in r.active && Woke(r, t) && Woke(t, u)
    ensures Runnable(u, id)
  {}

  lemma DueIsRunnable(s: State, calls: seq<Call>, q: nat, id: Id)
    requires Idle(s) && calls != [] && CallsOk(s, calls, q)
    requires var start := Start(s, calls[0]);
             id in start.rings.timeout && HasDue(start.sleepers, id, calls[0].input.now)
    ensures Runnable(CallRound(s, calls[0], q).woken.rings, id)
  {
    CallFacts(s, calls, q);
    DueWakesUp(Start(s, calls[0]), calls[0].input.now, id);
  }

  /** A sleeper with an entry that is due at a call of tars_run is resumed within poolSize / 100 further calls. */
  lemma DueIsServed(s: State, calls: seq<Call>, id: Id)
    requires Idle(s) && CallsOk(s, calls, ROUND_QUOTA) && s.poolSize / ROUND_QUOTA < |calls|
    requires var start := Start(s, calls[0]);
             id in start.rings.timeout && HasDue(start.sleepers, id, calls[0].input.now)
    ensures exists n :: 0 <= n <= s.poolSize / ROUND_QUOTA && ServedIn(Rounds(s, calls, ROUND_QUOTA)[n], id)
  {
    DueIsRunnable(s, calls, ROUND_QUOTA, id);
    RunnableIsServed(s, calls, id);
  }

  /** In run, within poolSize further iterations. */
  lemma DueIsServedInRun(s: State, calls: seq<Call>, id: Id)
    requires Idle(s) && CallsOk(s, calls, 1) && s.poolSize < |calls|
    requires var start := Start(s, calls[0]);
             id in start.rings.timeout && HasDue(start.sleepers, id, calls[0].input.now)
    ensures exists n :: 0 <= n <= s.poolSize && ServedIn(Rounds(s, calls, 1)[n], id)
  {
    DueIsRunnable(s, calls, 1, id);
    RunnableIsServedInRun(s, calls, id);
  }

  /** When the latest sleep of each coroutine is to end. */
  type Due = map<Id, int>

  function DueOf(due: Due, id: Id, e: Ending): Due {
    if e.Sleep? then due[id := e.now + Abs(e.span)] else due
  }

  /** After the resumes of a dispatch loop. */
  function DueAfter(due: Due, log: seq<Id>, beh: Behaviour, n: nat): Due
    decreases |log|
  {
    if log == [] then due else DueAfter(DueOf(due, log[0], beh(n).ending), log[1..], beh, n + 1)
  }

  function DueAfterRound(due: Due, r: Round, i: Input): Due {
    DueAfter(DueAfter(due, r.activeLog, i.active, 0), r.availLog, i.avail, 0)
  }

  /** Every sleeper still has the entry of the sleep it is in. */
  ghost predicate KnowsDue(s: State, due: Due) {
    forall id :: id in s.rings.timeout ==> id in due && Sleeper(due[id], id) in s.sleepers
  }

  lemma EndedKnowsDue(s: State, t: State, due: Due, id: Id, e: Ending)
    requires KnowsDue(s, due) && Ended(s, t, e) && s.current == id && id !in s.rings.timeout
    ensures KnowsDue(t, DueOf(due, id, e))
  {
    if e.Sleep? {
      InsertSleeperBag(s.sleepers, Sleeper(e.now + Abs(e.span), id));
    }
  }

  lemma ResumeKnowsDue(s: State, st: Status, seg: Segment, due: Due)
    requires Idle(s) && (st == Active || st == Avail) && s.rings.Get(st) != [] && KnowsDue(s, due)
    requires OpsOk(s.(current := s.rings.Get(st)[0]), seg.ops)
    ensures var id := s.rings.Get(st)[0];
            KnowsDue(Resume(s, id, seg), DueOf(due, id, seg.ending))
  {
    var id := s.rings.Get(st)[0];
    ResumeUndisturbed(s, st, seg);
    ResumeKeepsIdle(s, st, seg);
    ApplyAllFrame(s.(current := id), seg.ops);
    EndEnded(Ran(s, st, seg), st, seg.ending);
    EndedKnowsDue(Ran(s, st, seg), Resume(s, id, seg), due, id, seg.ending);
  }

  lemma DueAfterCons(due: Due, id: Id, log: seq<Id>, beh: Behaviour, n: nat)
    ensures DueAfter(due, [id] + log, beh, n) == DueAfter(DueOf(due, id, beh(n).ending), log, beh, n + 1)
  {
    assert ([id] + log)[1..] == log;
  }

  lemma {:induction false} DispatchKnowsDue(s: State, st: Status, quota: nat, beh: Behaviour, n: nat, due: Due)
    requires Idle(s) && (st == Active || st == Avail) && DispatchOk(s, st, quota, beh, n) && KnowsDue(s, due)
    ensures var (t, log) := Dispatch(s, st, quota, beh, n);
            KnowsDue(t, DueAfter(due, log, beh, n))
    decreases quota
  {
    if quota > 0 && s.rings.Get(st) != [] {
      var id := s.rings.Get(st)[0];
      var t := Resume(s, id, beh(n));
      ResumeFacts(s, st, beh(n));
      ResumeKnowsDue(s, st, beh(n), due);
      DispatchKnowsDue(t, st, quota - 1, beh, n + 1, DueOf(due, id, beh(n).ending));
      DueAfterCons(due, id, Dispatch(t, st, quota - 1, beh, n + 1).1, beh, n);
    }
  }

  /** The wake-up phase loses the entry of nobody who sleeps on. */
  lemma WakePhaseKnowsDue(s: State, now: int, due: Due)
    requires Core(s) && Parked(s) && !s.terminal && KnowsDue(s, due)
    ensures KnowsDue(WakePhase(s, now), due)
  {
    var t := WakePhase(s, now);
    WakePhaseSleepers(s, now);
    DueIsAll(s.sleepers, now);
    forall id | id in t.rings.timeout ensures id in due && Sleeper(due[id], id) in t.sleepers {
      SleepsOnIff(s, now, id);
      assert Sleeper(due[id], id).deadline > now;
    }
  }

  lemma WakePhaseSleepers(s: State, now: int)
    requires Core(s) && !s.terminal
    ensures WakePhase(s, now).sleepers == s.sleepers[DueCount(s.sleepers, now)..]
  {
    WakeByTimeoutDrops(s, now);
    WakeByTimeoutFacts(s, now);
    WakeBySelfFacts(WakeByTimeout(s, now));
    WakeupFacts(WakeBySelf(WakeByTimeout(s, now)));
  }

  /** Nobody is taken from its sleep before it is to end. */
  ghost predicate NobodyEarly(s: State, due: Due, now: int) {
    forall id :: id in s.rings.timeout && id in due && due[id] > now ==> id in WakePhase(s, now).rings.timeout
  }

  /** The exact condition, which can be read off the state before the round, stale entries or not. */
  ghost predicate NoEarlyCause(s: State, due: Due, now: int) {
    forall id :: id in s.rings.timeout && id in due && due[id] > now ==>
      id !in s.wakeQueue && !HasDue(s.sleepers, id, now)
  }

  lemma NobodyEarlyIff(s: State, due: Due, now: int)
    requires Core(s) && !s.terminal
    ensures NobodyEarly(s, due, now) <==> NoEarlyCause(s, due, now)
  {
    forall id | id in s.rings.timeout
      ensures id in WakePhase(s, now).rings.timeout <==> id !in s.wakeQueue && !HasDue(s.sleepers, id, now)
    {
      SleepsOnIff(s, now, id);
    }
  }

  /** A round takes nobody from its sleep early if and only if no request names a sleeper before its time and no
      sleeper has an older entry that is due. Whoever it leaves asleep it does not resume, and it keeps the
      entries of all sleeps. */
  lemma RoundEarlyIff(s: State, i: Input, availQuota: nat, due: Due)
    requires Idle(s) && !s.terminal && RoundOk(s, i, availQuota) && KnowsDue(s, due)
    ensures var r := DoRound(s, i, availQuota);
      && (NobodyEarly(s, due, i.now) <==> NoEarlyCause(s, due, i.now))
      && KnowsDue(r.after, DueAfterRound(due, r, i))
      && LetsSleep(r.woken.rings.timeout, r.after.rings.timeout, r.activeLog, r.availLog)
  {
    NobodyEarlyIff(s, due, i.now);
    RoundKnowsDue(s, i, availQuota, due);
    RoundLetsSleep(s, i, availQuota);
  }

  lemma RoundKnowsDue(s: State, i: Input, availQuota: nat, due: Due)
    requires Idle(s) && !s.terminal && RoundOk(s, i, availQuota) && KnowsDue(s, due)
    ensures KnowsDue(DoRound(s, i, availQuota).after, DueAfterRound(due, DoRound(s, i, availQuota), i))
  {
    var r := DoRound(s, i, availQuota);
    RoundFacts(s, i, availQuota);
    WakePhaseKnowsDue(s, i.now, due);
    DispatchKnowsDue(r.woken, Active, ROUND_QUOTA, i.active, 0, due);
    DispatchKnowsDue(r.midway, Avail, availQuota, i.avail, 0, DueAfter(due, r.activeLog, i.active, 0));
  }

  /** Who is asleep after the wake-up phase is so after the round, and is not resumed in it. */
  lemma RoundLetsSleep(s: State, i: Input, availQuota: nat)
    requires Idle(s) && !s.terminal && RoundOk(s, i, availQuota)
    ensures var r := DoRound(s, i, availQuota);
            LetsSleep(r.woken.rings.timeout, r.after.rings.timeout, r.activeLog, r.availLog)
  {
    var r := DoRound(s, i, availQuota);
    RoundFacts(s, i, availQuota);
    DispatchUndisturbed(r.woken, Active, ROUND_QUOTA, i.active, 0);
    DispatchUndisturbed(r.midway, Avail, availQuota, i.avail, 0);
    StillThere(r.woken.rings.timeout, r.midway.rings.timeout, r.after.rings.timeout, r.activeLog, r.availLog);
  }

  ghost predicate LetsSleep(before: seq<Id>, after: seq<Id>, log: seq<Id>, more: seq<Id>) {
    forall id :: id in before ==> id in after && id !in log && id !in more
  }

  lemma StillThere(a: seq<Id>, b: seq<Id>, c: seq<Id>, log: seq<Id>, more: seq<Id>)
    requires a <= b <= c && (forall id :: id in log ==> id !in a) && (forall id :: id in more ==> id !in b)
    ensures LetsSleep(a, c, log, more)
  {}

  // ----- sleeps over whole runs

  function DueAfterEvent(s: State, due: Due, e: Event): Due {
    match e
    case External(_) => due
    case TarsRun(i) => if s.terminal then due else DueAfterRound(due, DoRound(s, i, ROUND_QUOTA), i)
    case RunOnce(i) => if s.terminal then due else DueAfterRound(due, DoRound(s, i, 1), i)
  }

  ghost predicate EventOnTime(s: State, due: Due, e: Event) {
    match e
    case External(_) => true
    case TarsRun(i) => s.terminal || NobodyEarly(s, due, i.now)
    case RunOnce(i) => s.terminal || NobodyEarly(s, due, i.now)
  }

  /** No round of the run takes anybody from its sleep before it is to end. */
  ghost predicate AlwaysOnTime(s: State, due: Due, events: seq<Event>)
    decreases |events|
  {
    events != [] ==>
      && EventOnTime(s, due, events[0])
      && AlwaysOnTime(Happen(s, events[0]), DueAfterEvent(s, due, events[0]), events[1..])
  }

  lemma EventKnowsDue(s: State, due: Due, e: Event)
    requires Idle(s) && EventOk(s, e) && KnowsDue(s, due)
    ensures KnowsDue(Happen(s, e), DueAfterEvent(s, due, e))
  {
    match e
    case External(op) => ApplyFrame(s, op);
    case TarsRun(i) => if !s.terminal { RoundEarlyIff(s, i, ROUND_QUOTA, due); }
    case RunOnce(i) => if !s.terminal { RoundEarlyIff(s, i, 1, due); }
  }

  /** With one entry for each sleeper, its deadline is the end of the sleep, and only a request can be early. */
  lemma NobodyEarlyIfFaithful(s: State, due: Due, now: int)
    requires Core(s) && Faithful(s) && KnowsDue(s, due) && !s.terminal
    ensures NobodyEarly(s, due, now) <==> NobodyRoused(s, now)
  {
    FaithfulIds(s);
    NobodyEarlyIff(s, due, now);
    forall e | e in s.sleepers ensures e.id in s.rings.timeout && due[e.id] == e.deadline {
      OneEntry(s.sleepers, e, Sleeper(due[e.id], e.id));
    }
  }

  lemma OneEntry(q: seq<Sleeper>, e: Sleeper, f: Sleeper)
    requires NoDuplicates(Ids(q)) && e in q && f in q && e.id == f.id
    ensures e == f
  {
    var j :| 0 <= j < |q| && q[j] == e;
    var k :| 0 <= k < |q| && q[k] == f;
    assert Ids(q)[j] == Ids(q)[k];
  }

  lemma EventOnTimeIff(s: State, due: Due, e: Event)
    requires Idle(s) && Faithful(s) && KnowsDue(s, due)
    ensures EventOnTime(s, due, e) <==> Unroused(s, e)
  {
    if !s.terminal && !e.External? {
      NobodyEarlyIfFaithful(s, due, e.input.now);
    }
  }

  ghost function DueAfterRun(s: State, due: Due, events: seq<Event>): Due
    decreases |events|
  {
    if events == [] then due else DueAfterRun(Happen(s, events[0]), DueAfterEvent(s, due, events[0]), events[1..])
  }

  lemma {:induction false} RunKnowsDue(s: State, due: Due, events: seq<Event>)
    requires Idle(s) && KnowsDue(s, due) && EventsOk(s, events)
    ensures Idle(After(s, events)) && KnowsDue(After(s, events), DueAfterRun(s, due, events))
    decreases |events|
  {
    if events != [] {
      HappenKeepsIdle(s, events[0]);
      EventKnowsDue(s, due, events[0]);
      RunKnowsDue(Happen(s, events[0]), DueAfterEvent(s, due, events[0]), events[1..]);
    }
  }

  /** In every reachable state: the next round ends a sleep exactly if a request names the sleeper or one of its
      entries is due. The entry of the sleep itself is one of them; it is early if that is not due, so exactly if
      there is a request, or an entry is due that an earlier sleep left behind. */
  lemma EarlyExactlyIf(poolSize: nat, grants: nat, events: seq<Event>, now: int, id: Id)
    requires EventsOk(Initial(poolSize, grants), events)
    requires var s := After(Initial(poolSize, grants), events);
             !s.terminal && id in s.rings.timeout
    ensures var s := After(Initial(poolSize, grants), events);
            var due := DueAfterRun(Initial(poolSize, grants), map[], events);
      && id in due && Sleeper(due[id], id) in s.sleepers
      && (id !in WakePhase(s, now).rings.timeout <==> id in s.wakeQueue || HasDue(s.sleepers, id, now))
      && (due[id] <= now ==> HasDue(s.sleepers, id, now))
  {
    InitialInv(poolSize, grants);
    RunKnowsDue(Initial(poolSize, grants), map[], events);
    SleepsOnIff(After(Initial(poolSize, grants), events), now, id);
  }

  lemma {:induction false} OnTimeIff(s: State, due: Due, events: seq<Event>)
    requires Idle(s) && Faithful(s) && KnowsDue(s, due) && EventsOk(s, events)
    ensures AlwaysOnTime(s, due, events) <==> NeverRoused(s, events)
    decreases |events|
  {
    if events != [] {
      EventOnTimeIff(s, due, events[0]);
      if Unroused(s, events[0]) {
        HappenKeepsIdle(s, events[0]);
        HappenFaithful(s, events[0]);
        EventKnowsDue(s, due, events[0]);
        OnTimeIff(Happen(s, events[0]), DueAfterEvent(s, due, events[0]), events[1..]);
      }
    }
  }

  /** Over every run from init: no round takes anybody from its sleep early if and only if no round finds a request
      for somebody who is to sleep on. */
  lemma RunOnTimeIff(poolSize: nat, grants: nat, events: seq<Event>)
    requires EventsOk(Initial(poolSize, grants), events)
    ensures AlwaysOnTime(Initial(poolSize, grants), map[], events) <==> NeverRoused(Initial(poolSize, grants), events)
  {
    InitialInv(poolSize, grants);
    OnTimeIff(Initial(poolSize, grants), map[], events);
  }

  // ----- a sleep cut short

  const NAP: Behaviour := (n: nat) => Segment([], Sleep(0, 100))
  const LONG_SLEEP: Behaviour := (n: nat) => Segment([], Sleep(10, 500))

  const CREATED: State :=
    State(1, 1, 1, 1, false, MAIN, {1}, Rings([], [], [1], [], []), [], [], [])

  const NAPPING: State :=
    State(1, 1, 1, 1, false, MAIN, {1}, Rings([], [], [], [], [1]), [], [], [Sleeper(100, 1)])

  const ASLEEP: State := NAPPING.(wakeQueue := [1])

  const ROUSED: State :=
    State(1, 1, 1, 1, false, MAIN, {1}, Rings([], [1], [], [], []), [], [], [Sleeper(100, 1)])

  const ASLEEP_AGAIN: State := NAPPING.(sleepers := [Sleeper(100, 1), Sleeper(510, 1)])

  const FRESH: State :=
    State(1, 1, 0, 1, false, MAIN, {1}, Rings([1], [], [], [], []), [], [], [])

  lemma FirstInitial()
    ensures Initial(1, 1) == FRESH
  {
    assert Range(1, 1) == [1] && RangeSet(1, 1) == {1};
  }

  lemma FirstCreate()
    ensures EventOk(FRESH, External(Create(0))) && Happen(FRESH, External(Create(0))) == CREATED
  {
    CreateFromFree(FRESH, 0);
  }

  lemma DispatchNone(s: State, st: Status, quota: nat, beh: Behaviour, n: nat)
    requires s.rings.Get(st) == []
    ensures Dispatch(s, st, quota, beh, n) == (s, []) && DispatchOk(s, st, quota, beh, n)
  {}

  /** One coroutine that runs and leaves its ring. */
  lemma DispatchLast(s: State, st: Status, quota: nat, beh: Behaviour, n: nat, id: Id, t: State)
    requires quota > 0 && s.rings.Get(st) == [id] && t == Resume(s, id, beh(n)) && t.rings.Get(st) == []
    requires beh(n).ops == []
    ensures Dispatch(s, st, quota, beh, n) == (t, [id]) && DispatchOk(s, st, quota, beh, n)
  {
    DispatchNone(t, st, quota - 1, beh, n + 1);
    assert Dispatch(s, st, quota, beh, n) == (t, [id] + []);
    assert [id] + [] == [id];
    assert s.rings.Get(st)[0] == id && OpsOk(s.(current := id), beh(n).ops);
  }

  lemma NapResume()
    ensures Resume(CREATED, 1, NAP(0)) == NAPPING
  {
    assert Remove([1 as Id], 1) == [];
  }

  lemma FirstNap(quota: nat)
    requires quota > 0
    ensures RoundOk(CREATED, Input(0, NAP, NAP), quota)
    ensures DoRound(CREATED, Input(0, NAP, NAP), quota).after == NAPPING
  {
    assert WakePhase(CREATED, 0) == CREATED;
    NapResume();
    DispatchNone(CREATED, Active, ROUND_QUOTA, NAP, 0);
    DispatchLast(CREATED, Avail, quota, NAP, 0, 1, NAPPING);
  }

  lemma WakeAsleep()
    ensures WakePhase(ASLEEP, 10) == ROUSED
  {
    assert Remove([1 as Id], 1) == [];
    assert WakeByTimeout(ASLEEP, 10) == ASLEEP;
  }

  lemma SleepResume()
    ensures Resume(ROUSED, 1, LONG_SLEEP(0)) == ASLEEP_AGAIN
  {
    assert Remove([1 as Id], 1) == [];
  }

  lemma SecondSleep(quota: nat)
    ensures RoundOk(ASLEEP, Input(10, LONG_SLEEP, LONG_SLEEP), quota)
    ensures DoRound(ASLEEP, Input(10, LONG_SLEEP, LONG_SLEEP), quota).after == ASLEEP_AGAIN
  {
    WakeAsleep();
    SleepResume();
    DispatchLast(ROUSED, Active, ROUND_QUOTA, LONG_SLEEP, 0, 1, ASLEEP_AGAIN);
    DispatchNone(ASLEEP_AGAIN, Avail, quota, LONG_SLEEP, 0);
  }

  /** A coroutine that is created, naps from 0 to 100, is put at once, and at 10 goes to sleep until 510. */
  function RousedRun(): seq<Event> {
    [External(Create(0)), TarsRun(Input(0, NAP, NAP)), External(Put(1)), TarsRun(Input(10, LONG_SLEEP, LONG_SLEEP))]
  }

  lemma TickHappens(s: State, i: Input, t: State)
    requires !s.terminal && RoundOk(s, i, ROUND_QUOTA) && DoRound(s, i, ROUND_QUOTA).after == t
    ensures EventOk(s, TarsRun(i)) && Happen(s, TarsRun(i)) == t
  {}

  lemma PutHappens()
    ensures EventOk(NAPPING, External(Put(1))) && Happen(NAPPING, External(Put(1))) == ASLEEP
  {}

  lemma NapTick()
    ensures EventOk(CREATED, TarsRun(Input(0, NAP, NAP))) && Happen(CREATED, TarsRun(Input(0, NAP, NAP))) == NAPPING
  {
    FirstNap(ROUND_QUOTA);
    TickHappens(CREATED, Input(0, NAP, NAP), NAPPING);
  }

  lemma SleepTick()
    ensures var e := TarsRun(Input(10, LONG_SLEEP, LONG_SLEEP));
            EventOk(ASLEEP, e) && Happen(ASLEEP, e) == ASLEEP_AGAIN
  {
    SecondSleep(ROUND_QUOTA);
    TickHappens(ASLEEP, Input(10, LONG_SLEEP, LONG_SLEEP), ASLEEP_AGAIN);
  }

  lemma RousedRunEnds()
    ensures EventsOk(Initial(1, 1), RousedRun()) && After(Initial(1, 1), RousedRun()) == ASLEEP_AGAIN
  {
    FirstInitial();
    FirstCreate();
    NapTick();
    PutHappens();
    SleepTick();
    RunOfFour(FRESH, CREATED, NAPPING, ASLEEP, ASLEEP_AGAIN, External(Create(0)), TarsRun(Input(0, NAP, NAP)),
              External(Put(1)), TarsRun(Input(10, LONG_SLEEP, LONG_SLEEP)));
  }

  lemma RunOfFour(s: State, t: State, u: State, v: State, w: State, a: Event, b: Event, c: Event, d: Event)
    requires EventOk(s, a) && EventOk(t, b) && EventOk(u, c) && EventOk(v, d)
    requires Happen(s, a) == t && Happen(t, b) == u && Happen(u, c) == v && Happen(v, d) == w
    ensures EventsOk(s, [a, b, c, d]) && After(s, [a, b, c, d]) == w
  {
    RunCons(v, w, d, []);
    RunCons(u, v, c, [d]);
    RunCons(t, u, b, [c, d]);
    RunCons(s, t, a, [b, c, d]);
  }

  lemma RunCons(s: State, t: State, e: Event, events: seq<Event>)
    requires EventOk(s, e) && Happen(s, e) == t && EventsOk(t, events)
    ensures EventsOk(s, [e] + events) && After(s, [e] + events) == After(t, events)
  {
    assert ([e] + events)[1..] == events;
  }

  lemma StaleEntryWakes()
    ensures WakePhase(ASLEEP_AGAIN, 100).rings.active == [1] && WakePhase(ASLEEP_AGAIN, 100).rings.timeout == []
  {
    var s := ASLEEP_AGAIN;
    assert Remove([1 as Id], 1) == [];
    var t := Move(s, 1, Active).(sleepers := [Sleeper(510, 1)]);
    assert s.sleepers[1..] == [Sleeper(510, 1)];
    assert WakeByTimeout(s, 100) == WakeByTimeout(t, 100) == t;
    assert t.rings == Rings([], [1], [], [], []);
    assert WakeBySelf(t) == t && Wakeup(t) == t;
  }

  /** A stale entry at work, in a run from init: coroutine 1 sleeps until 100; it is put, resumed at 10, and sleeps
      until 510. The entry for 100 is still there, and wakes it at 100, though no request is pending. */
  lemma RousedSleeperWakesEarly()
    ensures EventsOk(Initial(1, 1), RousedRun())
    ensures var s := After(Initial(1, 1), RousedRun());
      && s.rings.timeout == [1] && s.sleepers == [Sleeper(100, 1), Sleeper(510, 1)]
      && s.wakeQueue == [] && NobodyRoused(s, 100)
      && WakePhase(s, 100).rings.active == [1] && WakePhase(s, 100).rings.timeout == []
  {
    RousedRunEnds();
    StaleEntryWakes();
  }
}
