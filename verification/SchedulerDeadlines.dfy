/** Sleepers with the same deadline: they are filed, and woken, in the order in which they fell asleep. */
module SchedulerDeadlines {
  import opened Folding
  import opened Sequences
  import opened CoroutineRing
  import opened SchedulerModel
  import opened SchedulerInvariant
  import opened SchedulerWaking
  import opened SchedulerRounds

  // ----- the history of sleeps

  function FiledBy(id: Id, e: Ending): seq<Sleeper> {
    if e.Sleep? then [Sleeper(e.now + Abs(e.span), id)] else []
  }

  /** The sleeps that begin in a dispatch loop, in order. */
  function FiledIn(log: seq<Id>, beh: Behaviour, n: nat): seq<Sleeper>
    decreases |log|
  {
    if log == [] then [] else FiledBy(log[0], beh(n).ending) + FiledIn(log[1..], beh, n + 1)
  }

  function FiledInRound(r: Round, i: Input): seq<Sleeper> {
    FiledIn(r.activeLog, i.active, 0) + FiledIn(r.availLog, i.avail, 0)
  }

  function FiledInEvent(s: State, e: Event): seq<Sleeper> {
    match e
    case External(_) => []
    case TarsRun(i) => if s.terminal then [] else FiledInRound(DoRound(s, i, ROUND_QUOTA), i)
    case RunOnce(i) => if s.terminal then [] else FiledInRound(DoRound(s, i, 1), i)
  }

  /** All sleeps of a run, in the order in which they began. */
  ghost function FiledInRun(s: State, events: seq<Event>): seq<Sleeper>
    decreases |events|
  {
    if events == [] then [] else FiledInEvent(s, events[0]) + FiledInRun(Happen(s, events[0]), events[1..])
  }

  /** The ids of the entries with one deadline, in order. */
  function AtDeadline(q: seq<Sleeper>, d: int): seq<Id> {
    if q == [] then [] else (if q[0].deadline == d then [q[0].id] else []) + AtDeadline(q[1..], d)
  }

  lemma AtDeadlineCons(e: Sleeper, q: seq<Sleeper>, d: int)
    ensures AtDeadline([e] + q, d) == (if e.deadline == d then [e.id] else []) + AtDeadline(q, d)
  {
    assert ([e] + q)[1..] == q;
  }

  lemma {:induction false} AtDeadlineAppend(p: seq<Sleeper>, q: seq<Sleeper>, whole: seq<Sleeper>, d: int)
    requires whole == p + q
    ensures AtDeadline(whole, d) == AtDeadline(p, d) + AtDeadline(q, d)
    decreases |p|
  {
    if p == [] {
      assert whole == q;
    } else {
      assert whole[0] == p[0];
      AtDeadlineAppend(p[1..], q, whole[1..], d);
      var head := if p[0].deadline == d then [p[0].id] else [];
      assert AtDeadline(whole, d) == head + AtDeadline(whole[1..], d);
      assert AtDeadline(p, d) == head + AtDeadline(p[1..], d);
    }
  }

  lemma {:induction false} NoneAtDeadline(q: seq<Sleeper>, d: int)
    requires forall e :: e in q ==> e.deadline != d
    ensures AtDeadline(q, d) == []
  {
    if q != [] {
      NoneAtDeadline(q[1..], d);
    }
  }

  /** Filing puts an entry behind those with the same deadline, and leaves the other deadlines alone. */
  lemma FiledBehind(q: seq<Sleeper>, e: Sleeper, d: int)
    requires SortedByDeadline(q)
    ensures AtDeadline(InsertSleeper(q, e), d) == AtDeadline(q, d) + if e.deadline == d then [e.id] else []
  {
    InsertSleeperPlace(q, e);
    var k :| 0 <= k <= |q| && FiledAt(q, e, k);
    assert q == q[..k] + q[k..];
    assert InsertSleeper(q, e) == q[..k] + ([e] + q[k..]);
    FiledBetween(q[..k], q[k..], e, d, q, InsertSleeper(q, e));
  }

  lemma FiledBetween(p: seq<Sleeper>, r: seq<Sleeper>, e: Sleeper, d: int, before: seq<Sleeper>, after: seq<Sleeper>)
    requires before == p + r && after == p + ([e] + r) && forall f :: f in r ==> f.deadline > e.deadline
    ensures AtDeadline(after, d) == AtDeadline(before, d) + if e.deadline == d then [e.id] else []
  {
    AtDeadlineAppend(p, r, before, d);
    AtDeadlineAppend(p, [e] + r, after, d);
    AtDeadlineCons(e, r, d);
    if e.deadline == d {
      NoneAtDeadline(r, d);
    }
  }

  ghost predicate IsSuffix(p: seq<Id>, q: seq<Id>) {
    |p| <= |q| && q[|q| - |p|..] == p
  }

  /** Of the sleeps filed for each deadline, the last ones are still in the multimap, in the order of filing. */
  ghost predicate InFilingOrder(q: seq<Sleeper>, filed: seq<Sleeper>) {
    SortedByDeadline(q) && forall d :: IsSuffix(AtDeadline(q, d), AtDeadline(filed, d))
  }

  /** The same, folded: mention ModelKey to unfold it. */
  ghost predicate Queued(s: State, filed: seq<Sleeper>) {
    forall k {:trigger ModelKey(k)} :: ModelKey(k) ==> InFilingOrder(s.sleepers, filed)
  }

  lemma SuffixAppend(p: seq<Id>, q: seq<Id>, r: seq<Id>)
    requires IsSuffix(p, q)
    ensures IsSuffix(p + r, q + r)
  {}

  lemma SuffixDrop(front: seq<Id>, p: seq<Id>, q: seq<Id>)
    requires IsSuffix(front + p, q)
    ensures IsSuffix(p, q)
  {}

  lemma FilingKeepsOrder(q: seq<Sleeper>, filed: seq<Sleeper>, e: Sleeper)
    requires InFilingOrder(q, filed)
    ensures InFilingOrder(InsertSleeper(q, e), filed + [e])
  {
    InsertSleeperSorted(q, e);
    forall d ensures IsSuffix(AtDeadline(InsertSleeper(q, e), d), AtDeadline(filed + [e], d)) {
      var one := if e.deadline == d then [e.id] else [];
      FiledBehind(q, e, d);
      AtDeadlineAppend(filed, [e], filed + [e], d);
      assert AtDeadline([e], d) == one;
      SuffixAppend(AtDeadline(q, d), AtDeadline(filed, d), one);
    }
  }

  lemma DroppingKeepsOrder(q: seq<Sleeper>, filed: seq<Sleeper>, n: nat)
    requires InFilingOrder(q, filed) && n <= |q|
    ensures InFilingOrder(q[n..], filed)
  {
    forall d ensures IsSuffix(AtDeadline(q[n..], d), AtDeadline(filed, d)) {
      AtDeadlineAppend(q[..n], q[n..], q, d);
      SuffixDrop(AtDeadline(q[..n], d), AtDeadline(q[n..], d), AtDeadline(filed, d));
    }
  }

  lemma ResumeQueues(s: State, id: Id, seg: Segment, filed: seq<Sleeper>)
    requires Queued(s, filed)
    ensures Queued(Resume(s, id, seg), filed + FiledBy(id, seg.ending))
  {
    assert ModelKey(0);
    var e := seg.ending;
    ApplyAllFrame(s.(current := id), seg.ops);
    if e.Sleep? {
      FilingKeepsOrder(s.sleepers, filed, Sleeper(e.now + Abs(e.span), id));
    } else {
      assert filed + [] == filed;
    }
  }

  lemma QueuesMore(s: State, id: Id, beh: Behaviour, n: nat, t: State, filed: seq<Sleeper>)
    requires Resumes(s, id, beh, n, t) && Queued(s, filed)
    ensures Queued(t, filed + FiledBy(id, beh(n).ending))
  {
    assert ResumeKey(0, id);
    ResumeQueues(s, id, beh(n), filed);
  }

  lemma FiledCons(filed: seq<Sleeper>, id: Id, log: seq<Id>, beh: Behaviour, n: nat, all: seq<Id>)
    requires all == [id] + log
    ensures filed + FiledIn(all, beh, n) == filed + FiledBy(id, beh(n).ending) + FiledIn(log, beh, n + 1)
  {
    assert all[1..] == log;
  }

  lemma {:induction false} DispatchQueues(s: State, st: Status, quota: nat, beh: Behaviour, n: nat,
                                          all: (State, seq<Id>), filed: seq<Sleeper>, more: seq<Sleeper>)
    requires Loops(s, st, quota, beh, n, all.0, all.1) && Queued(s, filed) && more == filed + FiledIn(all.1, beh, n)
    ensures Queued(all.0, more)
    decreases quota
  {
    if quota > 0 && s.rings.Get(st) != [] {
      var id := s.rings.Get(st)[0];
      var t, rest := LoopTurn(s, st, quota, beh, n, all);
      QueuesMore(s, id, beh, n, t, filed);
      FiledCons(filed, id, rest.1, beh, n, all.1);
      DispatchQueues(t, st, quota - 1, beh, n + 1, rest, filed + FiledBy(id, beh(n).ending), more);
    } else {
      LoopEnd(s, st, quota, beh, n, all);
      assert more == filed;
    }
  }

  lemma LoopQueues(s: State, st: Status, quota: nat, beh: Behaviour, filed: seq<Sleeper>)
    requires Queued(s, filed)
    ensures var all := Dispatch(s, st, quota, beh, 0);
            Queued(all.0, filed + FiledIn(all.1, beh, 0))
  {
    var all := Dispatch(s, st, quota, beh, 0);
    DispatchQueues(s, st, quota, beh, 0, all, filed, filed + FiledIn(all.1, beh, 0));
  }

  lemma WakingQueues(s: State, now: int, filed: seq<Sleeper>)
    requires Core(s) && !s.terminal && Queued(s, filed)
    ensures Queued(WakePhase(s, now), filed)
  {
    assert ModelKey(0);
    WakePhaseIs(s, now);
    DroppingKeepsOrder(s.sleepers, filed, DueCount(s.sleepers, now));
  }

  lemma RoundQueues(s: State, i: Input, availQuota: nat, filed: seq<Sleeper>)
    requires Core(s) && !s.terminal && Queued(s, filed)
    ensures var r := DoRound(s, i, availQuota);
            Queued(r.after, filed + FiledInRound(r, i))
  {
    var r := DoRound(s, i, availQuota);
    var active := FiledIn(r.activeLog, i.active, 0);
    WakingQueues(s, i.now, filed);
    LoopQueues(r.woken, Active, ROUND_QUOTA, i.active, filed);
    LoopQueues(r.midway, Avail, availQuota, i.avail, filed + active);
    assert filed + active + FiledIn(r.availLog, i.avail, 0) == filed + FiledInRound(r, i);
  }

  lemma HappenQueues(s: State, e: Event, filed: seq<Sleeper>)
    requires Idle(s) && EventOk(s, e) && Queued(s, filed)
    ensures Queued(Happen(s, e), filed + FiledInEvent(s, e))
  {
    assert filed + [] == filed;
    match e
    case External(op) =>
      ApplyFrame(s, op);
      SameQueue(s, Apply(s, op), filed);
    case TarsRun(i) => if !s.terminal { RoundQueues(s, i, ROUND_QUOTA, filed); }
    case RunOnce(i) => if !s.terminal { RoundQueues(s, i, 1, filed); }
  }

  lemma SameQueue(s: State, t: State, filed: seq<Sleeper>)
    requires Queued(s, filed) && t.sleepers == s.sleepers
    ensures Queued(t, filed)
  {
    assert ModelKey(0);
  }

  lemma {:induction false} RunQueues(s: State, events: seq<Event>, filed: seq<Sleeper>, all: seq<Sleeper>)
    requires Idle(s) && EventsOk(s, events) && Queued(s, filed) && all == filed + FiledInRun(s, events)
    ensures Queued(After(s, events), all)
    decreases |events|
  {
    if events == [] {
      assert all == filed;
    } else {
      var t := Happen(s, events[0]);
      HappenKeepsIdle(s, events[0]);
      HappenQueues(s, events[0], filed);
      RunQueues(t, events[1..], filed + FiledInEvent(s, events[0]), all);
    }
  }

  /** In every reachable state, for every deadline: the entries for it are in the order in which the sleeps until
      then began, and are the last of these. */
  lemma FiledInOrder(poolSize: nat, grants: nat, events: seq<Event>, d: int)
    requires EventsOk(Initial(poolSize, grants), events)
    ensures var s := Initial(poolSize, grants);
            IsSuffix(AtDeadline(After(s, events).sleepers, d), AtDeadline(FiledInRun(s, events), d))
  {
    var s := Initial(poolSize, grants);
    InitialInv(poolSize, grants);
    RunQueues(s, events, [], FiledInRun(s, events));
    assert ModelKey(0);
  }

  // ----- waking

  /** The first of the entries of `id` is for `d`. */
  ghost predicate FirstDue(q: seq<Sleeper>, id: Id, d: int) {
    Sleeper(d, id) in q && forall e :: e in q && e.id == id ==> e.deadline >= d
  }

  lemma {:induction false} AllAtDeadline(q: seq<Sleeper>, d: int)
    requires forall e :: e in q ==> e.deadline == d
    ensures AtDeadline(q, d) == Ids(q)
  {
    if q != [] {
      AllAtDeadline(q[1..], d);
    }
  }

  lemma {:induction false} IndexInAppend(p: seq<Id>, q: seq<Id>, id: Id)
    requires id in p + q
    ensures id in p ==> IndexOf(p + q, id) == IndexOf(p, id)
    ensures id !in p ==> id in q && IndexOf(p + q, id) == |p| + IndexOf(q, id)
  {
    if p == [] {
      assert p + q == q;
    } else if p[0] != id {
      assert (p + q)[1..] == p[1..] + q;
      IndexInAppend(p[1..], q, id);
    }
  }

  /** A sorted multimap is what is before a deadline, what is at it, and what is after it. */
  lemma AroundDeadline(q: seq<Sleeper>, d: int, now: int)
    requires SortedByDeadline(q) && d <= now
    ensures var lo, hi := DueCount(q, d - 1), DueCount(q, d);
      && lo <= hi <= DueCount(q, now)
      && Ids(q[..DueCount(q, now)]) == Ids(q[..lo]) + AtDeadline(q, d) + Ids(q[hi..DueCount(q, now)])
      && forall e :: e in q[..lo] ==> e.deadline < d
  {
    var lo, hi, n := DueCount(q, d - 1), DueCount(q, d), DueCount(q, now);
    DueMore(q, d - 1, d);
    DueMore(q, d, now);
    InParts(q, lo, hi, n);
    InTheMiddle(q, d);
    DueIsAll(q, d - 1);
  }

  lemma InParts(q: seq<Sleeper>, lo: nat, hi: nat, n: nat)
    requires lo <= hi <= n <= |q|
    ensures Ids(q[..n]) == Ids(q[..lo]) + Ids(q[lo..hi]) + Ids(q[hi..n])
  {
    assert q[..n] == q[..hi] + q[hi..n] && q[..hi] == q[..lo] + q[lo..hi];
    IdsAppend(q[..hi], q[hi..n]);
    IdsAppend(q[..lo], q[lo..hi]);
  }

  lemma DueMore(q: seq<Sleeper>, d: int, now: int)
    requires SortedByDeadline(q) && d <= now
    ensures DueCount(q, d) <= DueCount(q, now)
  {}

  lemma InTheMiddle(q: seq<Sleeper>, d: int)
    requires SortedByDeadline(q)
    ensures DueCount(q, d - 1) <= DueCount(q, d)
    ensures AtDeadline(q, d) == Ids(q[DueCount(q, d - 1)..DueCount(q, d)])
  {
    var lo, hi := DueCount(q, d - 1), DueCount(q, d);
    DueMore(q, d - 1, d);
    NotAtDeadline(q, d);
    DueIsAll(q, d);
    OnlyTheMiddle(q, lo, hi, d);
  }

  lemma OnlyTheMiddle(q: seq<Sleeper>, lo: nat, hi: nat, d: int)
    requires lo <= hi <= |q| && AtDeadline(q[..lo], d) == [] && AtDeadline(q[hi..], d) == []
    requires (forall e :: e in q[lo..] ==> e.deadline >= d) && forall e :: e in q[..hi] ==> e.deadline <= d
    ensures AtDeadline(q, d) == Ids(q[lo..hi])
  {
    assert q[..hi] == q[..lo] + q[lo..hi] && q == q[..hi] + q[hi..];
    AtDeadlineAppend(q[..lo], q[lo..hi], q[..hi], d);
    AtDeadlineAppend(q[..hi], q[hi..], q, d);
    assert forall e :: e in q[lo..hi] ==> e in q[lo..] && e in q[..hi];
    AllAtDeadline(q[lo..hi], d);
  }

  lemma NotAtDeadline(q: seq<Sleeper>, d: int)
    requires SortedByDeadline(q)
    ensures var lo, hi := DueCount(q, d - 1), DueCount(q, d);
            AtDeadline(q[..lo], d) == [] && AtDeadline(q[hi..], d) == []
    ensures forall e :: e in q[DueCount(q, d - 1)..] ==> e.deadline >= d
  {
    DueIsAll(q, d - 1);
    DueIsAll(q, d);
    NoneAtDeadline(q[..DueCount(q, d - 1)], d);
    NoneAtDeadline(q[DueCount(q, d)..], d);
  }

  lemma FirstDuePlace(q: seq<Sleeper>, id: Id, d: int, now: int)
    requires SortedByDeadline(q) && FirstDue(q, id, d) && d <= now
    ensures id in AtDeadline(q, d) && id in Ids(q[..DueCount(q, now)])
    ensures IndexOf(Ids(q[..DueCount(q, now)]), id) == DueCount(q, d - 1) + IndexOf(AtDeadline(q, d), id)
  {
    var lo, hi, n := DueCount(q, d - 1), DueCount(q, d), DueCount(q, now);
    AroundDeadline(q, d, now);
    HasEntryAt(q, id, d);
    NotBefore(q[..lo], q, id, d);
    IndexInMiddle(Ids(q[..lo]), AtDeadline(q, d), Ids(q[hi..n]), id);
  }

  lemma IndexInMiddle(before: seq<Id>, here: seq<Id>, after: seq<Id>, id: Id)
    requires id !in before && id in here
    ensures id in before + here + after
    ensures IndexOf(before + here + after, id) == |before| + IndexOf(here, id)
  {
    assert id in before + here;
    IndexInAppend(before + here, after, id);
    IndexInAppend(before, here, id);
  }

  lemma {:induction false} HasEntryAt(q: seq<Sleeper>, id: Id, d: int)
    requires Sleeper(d, id) in q
    ensures id in AtDeadline(q, d)
  {
    if q[0] != Sleeper(d, id) {
      HasEntryAt(q[1..], id, d);
    }
  }

  lemma NotBefore(p: seq<Sleeper>, q: seq<Sleeper>, id: Id, d: int)
    requires p <= q && (forall e :: e in p ==> e.deadline < d) && FirstDue(q, id, d)
    ensures id !in Ids(p)
  {
    forall k | 0 <= k < |p| ensures Ids(p)[k] != id {
      assert p[k] in p && q[k] in q;
    }
  }

  /** Two sleepers whose first deadlines are the same join the active ring in the order of their entries for it. */
  lemma EqualDeadlines(s: State, now: int, d: int, a: Id, b: Id)
    requires Core(s) && Parked(s) && !s.terminal && d <= now && a != b
    requires a in s.rings.timeout && FirstDue(s.sleepers, a, d)
    requires b in s.rings.timeout && FirstDue(s.sleepers, b, d)
    ensures a in AtDeadline(s.sleepers, d) && b in AtDeadline(s.sleepers, d)
    ensures Precedes(WakePhase(s, now).rings.active, a, b)
            <==> IndexOf(AtDeadline(s.sleepers, d), a) < IndexOf(AtDeadline(s.sleepers, d), b)
  {
    FirstDuePlace(s.sleepers, a, d, now);
    FirstDuePlace(s.sleepers, b, d, now);
    OneIsFirst(DueNow(s, now), Waiting(s.rings), a, b);
    WokenInOrder(s, now, a, b);
  }

  lemma OneIsFirst(ids: seq<Id>, waiting: set<Id>, a: Id, b: Id)
    requires a in ids && b in ids && a in waiting && b in waiting && a != b
    ensures Precedes(FirstHits(ids, waiting), a, b) <==> IndexOf(ids, a) < IndexOf(ids, b)
    ensures Precedes(FirstHits(ids, waiting), b, a) <==> IndexOf(ids, b) < IndexOf(ids, a)
    ensures IndexOf(ids, a) != IndexOf(ids, b)
  {
    FirstNamedFirst(ids, waiting, a, b);
    FirstNamedFirst(ids, waiting, b, a);
  }

  lemma WokenInOrder(s: State, now: int, a: Id, b: Id)
    requires Core(s) && Parked(s) && !s.terminal
    requires var woken := FirstHits(DueNow(s, now), Waiting(s.rings));
             Precedes(woken, a, b) != Precedes(woken, b, a)
    ensures Precedes(WakePhase(s, now).rings.active, a, b)
            <==> Precedes(FirstHits(DueNow(s, now), Waiting(s.rings)), a, b)
  {
    var t, woken := WakePhase(s, now), FirstHits(DueNow(s, now), Waiting(s.rings));
    WakeOrder(s, now);
    WakePhaseFacts(s, now);
    RingsAreDisjoint(t);
    assert NoDuplicates(t.rings.Get(Active)) && t.rings.Get(Active) == t.rings.active;
    var rest := FirstHits(s.wakeQueue, Waiting(s.rings) - Members(DueNow(s, now)) - Members(s.selfYielded));
    if Precedes(woken, a, b) {
      PrecedesInside(s.rings.active, woken, rest, a, b);
    } else {
      PrecedesInside(s.rings.active, woken, rest, b, a);
    }
  }

  lemma PrecedesInside(p: seq<Id>, q: seq<Id>, r: seq<Id>, a: Id, b: Id)
    requires Precedes(q, a, b)
    ensures Precedes(p + q + r, a, b)
    ensures NoDuplicates(p + q + r) ==> !Precedes(p + q + r, b, a)
  {
    var i, j :| 0 <= i < j < |q| && q[i] == a && q[j] == b;
    assert (p + q + r)[|p| + i] == a && (p + q + r)[|p| + j] == b;
  }
}
