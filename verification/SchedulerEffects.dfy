/** What running code and other threads ask for is done, and in the order in which they ask for it. */
module SchedulerEffects {
  import opened Basics
  import opened Sequences
  import opened CoroutineRing
  import opened SchedulerModel
  import opened SchedulerInvariant
  import opened SchedulerWaking
  import opened SchedulerRounds

  // ----- single operations

  /** Which moves there are; a coroutine leaves the free ring only by being created. */
  const MOVES: set<(Status, Status)> := {
    (Inactive, Active), (Timeout, Active), (Inactive, Avail),
    (Active, Inactive), (Avail, Inactive), (Active, Timeout), (Avail, Timeout),
    (Active, Free), (Avail, Free), (Inactive, Free), (Timeout, Free)
  }

  /** A move takes a coroutine from the ring it is in to the tail of another, or changes nothing. */
  lemma MoveOutcome(s: State, id: Id, to: Status)
    requires Population(s.rings, s.known) && id in s.known
    ensures var r, t, from := s.rings, MoveTo(s.rings, id, to), s.rings.StatusOf(id);
      && id in r.Get(from)
      && if (from, to) in MOVES then
           && t.Get(from) == Without(r.Get(from), {id}) && t.Get(to) == r.Get(to) + [id]
           && (forall st :: st != from && st != to ==> t.Get(st) == r.Get(st))
         else t == r
  {
    var r, from := s.rings, s.rings.StatusOf(id);
    MovesAre(from, to);
    RingsAreDisjoint(s);
    if from != Free && CanMove(from, to) {
      RelinkGet(r, id, from, to);
      RemoveIsWithout(r.Get(from), id);
    }
  }

  lemma MovesAre(from: Status, to: Status)
    ensures (from, to) in MOVES <==> from != Free && CanMove(from, to)
  {}

  /** After init the first ids are free, as many as were wanted at first and could be had, and nothing is going on. */
  lemma InitialOutcome(poolSize: nat, grants: nat)
    ensures var s := Initial(poolSize, grants);
      && (forall k :: 0 <= k < |s.rings.free| ==> s.rings.free[k] == k + 1)
      && |s.rings.free| <= poolSize && |s.rings.free| <= 100 && |s.rings.free| <= grants
      && (|s.rings.free| == poolSize || |s.rings.free| == 100 || |s.rings.free| == grants)
      && s == State(poolSize, |s.rings.free|, 0, |s.rings.free|, false, MAIN, Members(s.rings.free),
                    Rings(s.rings.free, [], [], [], []), [], [], [])
  {}

  /** Where a coroutine is once it has given up control: off the ring it ran from, and at the tail of another. */
  lemma EndPlace(s: State, st: Status, e: Ending, to: Status)
    requires Inv(s) && RunsFrom(s, st) && to == Destination(e)
    ensures var r, t := s.rings, End(s, e).rings;
      && t.Get(st) == r.Get(st)[1..] && t.Get(to) == r.Get(to) + [s.current]
      && forall x :: x != st && x != to ==> t.Get(x) == r.Get(x)
  {
    EndKeepsInv(s, st, e);
    HeadLeftShape(s.rings, st, to);
    HeadLeftFrom(s.rings, st, to);
  }

  lemma HeadLeftFrom(r: Rings, st: Status, to: Status)
    requires st != to && r.Get(st) != []
    ensures HeadLeft(r, st, to).Get(st) == r.Get(st)[1..]
  {}

  /** A yield leads to the inactive ring, and is noted if it is a self-yield; a sleep leads to the timeout ring, and
      the deadline is filed; a finished coroutine is free again. */
  lemma EndOutcome(s: State, st: Status, e: Ending)
    requires Inv(s) && RunsFrom(s, st)
    ensures var t, id := End(s, e), s.current;
      && match e
         case Yield(self) =>
           && t.rings.inactive == s.rings.inactive + [id] && t.sleepers == s.sleepers && t.usedSize == s.usedSize
           && t.selfYielded == s.selfYielded + if self && !s.terminal then [id] else []
         case Sleep(now, span) =>
           && t.rings.timeout == s.rings.timeout + [id] && t.selfYielded == s.selfYielded
           && t.usedSize == s.usedSize
           && multiset(t.sleepers) == multiset(s.sleepers) + multiset{Sleeper(now + Abs(span), id)}
         case Finish =>
           && t.rings.free == s.rings.free + [id] && t.sleepers == s.sleepers && t.selfYielded == s.selfYielded
           && t.usedSize == s.usedSize - 1
  {
    EndPlace(s, st, e, Destination(e));
    RunningStatus(s, st);
    match e
    case Yield(_) => assert End(s, e).rings.Get(Inactive) == End(s, e).rings.inactive;
    case Sleep(now, span) =>
      assert End(s, e).rings.Get(Timeout) == End(s, e).rings.timeout;
      InsertSleeperBag(s.sleepers, Sleeper(now + Abs(span), s.current));
    case Finish => assert End(s, e).rings.Get(Free) == End(s, e).rings.free;
  }

  /** Once terminated, a call of tars_run does nothing, nobody is woken, and no request is queued. */
  lemma TerminatedIsQuiet(s: State, i: Input, now: int, id: Id)
    requires s.terminal
    ensures Tick(s, i) == Round(s, s, s, [], []) && WakePhase(s, now) == s && Apply(s, Put(id)) == s
    ensures RunLoop(s, [i]) == (s, true)
  {}

  // ----- what a stretch of code asks for

  /** The ids put, until the scheduler is terminated. */
  function PutsOf(ops: seq<Op>): seq<Id> {
    if ops == [] || ops[0].Terminate? then []
    else (if ops[0].Put? then [ops[0].id] else []) + PutsOf(ops[1..])
  }

  predicate Terminates(ops: seq<Op>) {
    ops != [] && (ops[0].Terminate? || Terminates(ops[1..]))
  }

  lemma {:induction false} TerminatesIff(ops: seq<Op>)
    ensures Terminates(ops) <==> Terminate in ops
  {
    if ops != [] {
      TerminatesIff(ops[1..]);
      assert ops == [ops[0]] + ops[1..];
    }
  }

  /** The requests and the termination among `ops` show in the state after them. */
  ghost predicate Asked(s: State, t: State, ops: seq<Op>) {
    && (t.terminal <==> s.terminal || Terminates(ops))
    && t.wakeQueue == s.wakeQueue + if s.terminal then [] else PutsOf(ops)
  }

  lemma AskedOne(s: State, op: Op)
    ensures Asked(s, Apply(s, op), [op])
  {
    assert PutsOf([op]) == if op.Put? then [op.id] else [];
  }

  lemma {:induction false} PutsAppend(a: seq<Op>, b: seq<Op>, whole: seq<Op>)
    requires whole == a + b
    ensures PutsOf(whole) == PutsOf(a) + if Terminates(a) then [] else PutsOf(b)
    ensures Terminates(whole) <==> Terminates(a) || Terminates(b)
    decreases |a|
  {
    if a == [] {
      assert whole == b;
    } else {
      assert whole[0] == a[0] && whole[1..] == a[1..] + b;
      PutsAppend(a[1..], b, whole[1..]);
    }
  }

  lemma Regroup(a: seq<Id>, b: seq<Id>, c: seq<Id>)
    ensures a + b + c == a + (b + c)
  {}

  lemma AskedTransitive(s: State, t: State, u: State, a: seq<Op>, b: seq<Op>)
    requires Asked(s, t, a) && Asked(t, u, b)
    ensures Asked(s, u, a + b)
  {
    PutsAppend(a, b, a + b);
    Regroup(s.wakeQueue, if s.terminal then [] else PutsOf(a), if t.terminal then [] else PutsOf(b));
  }

  /** A terminated scheduler stays so; until it is, the wake queue grows by exactly the ids put, in order. */
  lemma {:induction false} ApplyAllAsked(s: State, ops: seq<Op>)
    ensures Asked(s, ApplyAll(s, ops), ops)
    decreases |ops|
  {
    if ops != [] {
      AskedOne(s, ops[0]);
      ApplyAllAsked(Apply(s, ops[0]), ops[1..]);
      AskedTransitive(s, Apply(s, ops[0]), ApplyAll(s, ops), [ops[0]], ops[1..]);
      assert [ops[0]] + ops[1..] == ops;
    }
  }

  /** Requests and a termination show once the coroutine that made them has given up control. */
  lemma ResumeAsked(s: State, id: Id, seg: Segment)
    ensures Asked(s, Resume(s, id, seg), seg.ops)
  {
    ApplyAllAsked(s.(current := id), seg.ops);
  }

  /** All that the coroutines resumed in a loop do, in order. */
  function OpsOf(log: seq<Id>, beh: Behaviour, n: nat): seq<Op>
    decreases |log|
  {
    if log == [] then [] else beh(n).ops + OpsOf(log[1..], beh, n + 1)
  }

  lemma AskedStep(s: State, id: Id, t: State, u: State, log: seq<Id>, beh: Behaviour, n: nat)
    requires Resumes(s, id, beh, n, t) && Asked(t, u, OpsOf(log, beh, n + 1))
    ensures Asked(s, u, OpsOf([id] + log, beh, n))
  {
    assert ResumeKey(0, id);
    ResumeAsked(s, id, beh(n));
    AskedTransitive(s, t, u, beh(n).ops, OpsOf(log, beh, n + 1));
    assert ([id] + log)[1..] == log;
  }

  lemma {:induction false} DispatchAsked(s: State, st: Status, quota: nat, beh: Behaviour, n: nat,
                                         all: (State, seq<Id>))
    requires Loops(s, st, quota, beh, n, all.0, all.1)
    ensures Asked(s, all.0, OpsOf(all.1, beh, n))
    decreases quota
  {
    if quota > 0 && s.rings.Get(st) != [] {
      var t, rest := LoopTurn(s, st, quota, beh, n, all);
      DispatchAsked(t, st, quota - 1, beh, n + 1, rest);
      AskedStep(s, s.rings.Get(st)[0], t, rest.0, rest.1, beh, n);
    } else {
      LoopEnd(s, st, quota, beh, n, all);
    }
  }

  /** All that is done in a round. */
  function OpsOfRound(r: Round, i: Input): seq<Op> {
    OpsOf(r.activeLog, i.active, 0) + OpsOf(r.availLog, i.avail, 0)
  }

  /** After a round the wake queue holds exactly the ids put in it, in order, until it was terminated if it was. */
  lemma RoundAsked(s: State, i: Input, availQuota: nat)
    requires Core(s) && !s.terminal
    ensures var r := DoRound(s, i, availQuota);
      && r.after.wakeQueue == PutsOf(OpsOfRound(r, i))
      && (r.after.terminal <==> Terminates(OpsOfRound(r, i)))
  {
    var r := DoRound(s, i, availQuota);
    WakePhaseIs(s, i.now);
    DispatchAsked(r.woken, Active, ROUND_QUOTA, i.active, 0, (r.midway, r.activeLog));
    DispatchAsked(r.midway, Avail, availQuota, i.avail, 0, (r.after, r.availLog));
    AskedTransitive(r.woken, r.midway, r.after, OpsOf(r.activeLog, i.active, 0), OpsOf(r.availLog, i.avail, 0));
  }

  lemma {:induction false} PutIsListed(ops: seq<Op>, id: Id)
    requires Put(id) in ops && !Terminates(ops)
    ensures id in PutsOf(ops)
  {
    if ops[0] != Put(id) {
      PutIsListed(ops[1..], id);
    }
  }

  lemma PutIsQueued(s: State, c: Call, id: Id)
    requires Put(id) in c.before && !Start(s, c).terminal
    ensures id in Start(s, c).wakeQueue
  {
    ApplyAllAsked(s, c.before);
    PutIsListed(c.before, id);
  }

  /** A put is served: if another thread puts a coroutine that is in use before a call of tars_run, that call or one
      of the poolSize / 100 after it resumes it. */
  lemma PutIsServed(s: State, calls: seq<Call>, id: Id)
    requires Idle(s) && CallsOk(s, calls, ROUND_QUOTA) && s.poolSize / ROUND_QUOTA < |calls|
    requires Put(id) in calls[0].before && id !in Start(s, calls[0]).rings.free
    ensures exists n :: 0 <= n <= s.poolSize / ROUND_QUOTA && ServedIn(Rounds(s, calls, ROUND_QUOTA)[n], id)
  {
    PutIsQueued(s, calls[0], id);
    WakeUpIsServed(s, calls, id);
  }

  /** In run, it is resumed in the next iteration or one of the poolSize after it. */
  lemma PutIsServedInRun(s: State, calls: seq<Call>, id: Id)
    requires Idle(s) && CallsOk(s, calls, 1) && s.poolSize < |calls|
    requires Put(id) in calls[0].before && id !in Start(s, calls[0]).rings.free
    ensures exists n :: 0 <= n <= s.poolSize && ServedIn(Rounds(s, calls, 1)[n], id)
  {
    PutIsQueued(s, calls[0], id);
    WakeUpIsServedInRun(s, calls, id);
  }

  lemma PutInRoundIsQueued(s: State, calls: seq<Call>, id: Id)
    requires Idle(s) && CallsOk(s, calls, ROUND_QUOTA) && |calls| > 1
    requires Put(id) in OpsOfRound(CallRound(s, calls[0], ROUND_QUOTA), calls[0].input)
    ensures var t := CallRound(s, calls[0], ROUND_QUOTA).after;
      && Idle(t) && CallsOk(t, calls[1..], ROUND_QUOTA) && t.poolSize == s.poolSize
      && id in Start(t, calls[1]).wakeQueue
  {
    var c, r := calls[0], CallRound(s, calls[0], ROUND_QUOTA);
    CallFacts(s, calls, ROUND_QUOTA);
    WakePhaseFacts(Start(s, c), c.input.now);
    RoundAsked(Start(s, c), c.input, ROUND_QUOTA);
    ApplyAllFrame(r.after, calls[1].before);
    PutIsListed(OpsOfRound(r, c.input), id);
  }

  /** So is one by a coroutine, from the next call on. */
  lemma PutInRoundIsServed(s: State, calls: seq<Call>, id: Id)
    requires Idle(s) && CallsOk(s, calls, ROUND_QUOTA) && s.poolSize / ROUND_QUOTA + 1 < |calls|
    requires var r := CallRound(s, calls[0], ROUND_QUOTA);
             Put(id) in OpsOfRound(r, calls[0].input) && id !in Start(r.after, calls[1]).rings.free
    ensures exists n :: 1 <= n <= s.poolSize / ROUND_QUOTA + 1 && ServedIn(Rounds(s, calls, ROUND_QUOTA)[n], id)
  {
    var t := CallRound(s, calls[0], ROUND_QUOTA).after;
    PutInRoundIsQueued(s, calls, id);
    WakeUpIsServed(t, calls[1..], id);
    var n :| 0 <= n <= s.poolSize / ROUND_QUOTA && ServedIn(Rounds(t, calls[1..], ROUND_QUOTA)[n], id);
    RoundsCons(s, calls, ROUND_QUOTA);
    assert Rounds(s, calls, ROUND_QUOTA)[n + 1] == Rounds(s, calls, ROUND_QUOTA)[1..][n];
  }

  // ----- coroutines created

  /** How many of the creations among `ops` succeed, given how many coroutines are free and how many more the pool
      may get. */
  function Successes(free: nat, room: nat, ops: seq<Op>): nat
    decreases |ops|
  {
    if ops == [] then 0
    else if !ops[0].Create? then Successes(free, room, ops[1..])
    else if free > 0 then 1 + Successes(free - 1, room, ops[1..])
    else
      var made := Min(Min(room, GROWTH_STEP), ops[0].grants);
      if made > 0 then 1 + Successes(made - 1, room - made, ops[1..]) else Successes(0, room, ops[1..])
  }

  /** `t` is `s` after `n` creations that succeeded: the coroutines are at the tail of avail, and they and those that
      are free now are, in this order, those that were free and then new ones. */
  ghost predicate Created(s: State, t: State, n: nat) {
    && t.usedSize == s.usedSize + n && t.poolSize == s.poolSize
    && s.rings.avail <= t.rings.avail && |t.rings.avail| == |s.rings.avail| + n
    && s.rings.free <= t.rings.avail[|s.rings.avail|..] + t.rings.free
  }

  /** What one operation does to the numbers that decide whether the next creations succeed. */
  ghost predicate Counts(s: State, t: State, op: Op, n: nat) {
    var free := |s.rings.free|;
    if !op.Create? then n == 0 && |t.rings.free| == free && t.currentSize == s.currentSize
    else if free > 0 then n == 1 && |t.rings.free| == free - 1 && t.currentSize == s.currentSize
    else
      s.currentSize <= s.poolSize &&
      var made := Min(Min(s.poolSize - s.currentSize, GROWTH_STEP), op.grants);
      if made > 0 then n == 1 && |t.rings.free| == made - 1 && t.currentSize == s.currentSize + made
      else n == 0 && |t.rings.free| == 0 && t.currentSize == s.currentSize
  }

  lemma CreatedOne(s: State, op: Op)
    requires Inv(s)
    ensures exists n :: Created(s, Apply(s, op), n) && Counts(s, Apply(s, op), op, n)
  {
    Accounting(s);
    var t := Apply(s, op);
    if op.Create? {
      var id := CreateCoroutine(s, op.grants).1;
      CreateOutcome(s, op.grants);
      if id == MAIN {
        CreatedNone(s, t);
        assert Counts(s, t, op, 0);
      } else {
        CreatedTail(s, t, id, Min(Min(s.poolSize - s.currentSize, 100), op.grants));
        CreatedCount(s, t, op, id);
      }
    } else {
      CreatedNone(s, t);
      assert Counts(s, t, op, 0);
    }
  }

  lemma CreatedNone(s: State, t: State)
    requires t.usedSize == s.usedSize && t.poolSize == s.poolSize
    requires t.rings.avail == s.rings.avail && t.rings.free == s.rings.free
    ensures Created(s, t, 0)
  {}

  lemma CreatedTail(s: State, t: State, id: Id, made: nat)
    requires TookOne(s, t, id, made) && t.poolSize == s.poolSize
    ensures Created(s, t, 1)
  {
    assert t.rings.avail[|s.rings.avail|..] == [id];
  }

  lemma CreatedCount(s: State, t: State, op: Op, id: Id)
    requires op.Create? && s.currentSize <= s.poolSize
    requires TookOne(s, t, id, Min(Min(s.poolSize - s.currentSize, 100), op.grants))
    ensures Counts(s, t, op, 1)
  {
    assert |[id] + t.rings.free| == 1 + |t.rings.free|;
  }

  lemma CreatedTransitive(s: State, t: State, u: State, m: nat, n: nat)
    requires Created(s, t, m) && Created(t, u, n)
    ensures Created(s, u, m + n)
  {
    var k := |s.rings.avail|;
    assert u.rings.avail[k..] == t.rings.avail[k..] + u.rings.avail[|t.rings.avail|..];
    FreePrefix(s.rings.free, t.rings.avail[k..], t.rings.free, u.rings.avail[|t.rings.avail|..], u.rings.free);
  }

  lemma FreePrefix(f: seq<Id>, a: seq<Id>, g: seq<Id>, b: seq<Id>, h: seq<Id>)
    requires f <= a + g && g <= b + h
    ensures f <= (a + b) + h
  {
    assert (a + b) + h == a + (b + h);
  }

  lemma CountsAdd(s: State, t: State, op: Op, n: nat, ops: seq<Op>, more: seq<Op>)
    requires Counts(s, t, op, n) && t.poolSize == s.poolSize && s.currentSize <= s.poolSize
    requires t.currentSize <= t.poolSize && ops != [] && op == ops[0] && more == ops[1..]
    ensures Successes(|s.rings.free|, s.poolSize - s.currentSize, ops)
            == n + Successes(|t.rings.free|, t.poolSize - t.currentSize, more)
  {}

  /** Of the creations in a stretch of code exactly those succeed for which a coroutine is free or the pool can grow,
      and each success shows at the tail of avail, in order; coroutines are handed out in the order in which they
      became free, and new ones after them. */
  lemma {:induction false} ApplyAllCreated(s: State, ops: seq<Op>)
    requires Inv(s) && OpsOk(s, ops)
    ensures s.currentSize <= s.poolSize
    ensures Created(s, ApplyAll(s, ops), Successes(|s.rings.free|, s.poolSize - s.currentSize, ops))
    decreases |ops|
  {
    if ops == [] {
      CreatedNone(s, s);
    } else {
      var t := Apply(s, ops[0]);
      CreatedOne(s, ops[0]);
      var n :| Created(s, t, n) && Counts(s, t, ops[0], n);
      ApplyKeepsInv(s, ops[0]);
      ApplyAllCreated(t, ops[1..]);
      CountsAdd(s, t, ops[0], n, ops, ops[1..]);
      CreatedTransitive(s, t, ApplyAll(s, ops), n, Successes(|t.rings.free|, t.poolSize - t.currentSize, ops[1..]));
    }
  }

  lemma EndShows(s: State, st: Status, e: Ending)
    requires Inv(s) && RunsFrom(s, st)
    ensures End(s, e).usedSize == s.usedSize - if e.Finish? then 1 else 0
    ensures |End(s, e).rings.avail| == |s.rings.avail| - if st == Avail then 1 else 0
  {
    EndOutcome(s, st, e);
    EndPlace(s, st, e, Destination(e));
    assert End(s, e).rings.Get(Avail) == End(s, e).rings.avail && s.rings.Get(Avail) == s.rings.avail;
  }

  /** The coroutines that a coroutine creates before it gives up control are there afterwards, however it does. */
  lemma ResumeCreates(s: State, st: Status, seg: Segment)
    requires Idle(s) && (st == Active || st == Avail) && s.rings.Get(st) != []
    requires OpsOk(s.(current := s.rings.Get(st)[0]), seg.ops)
    ensures s.currentSize <= s.poolSize
    ensures var t := Resume(s, s.rings.Get(st)[0], seg);
            var n := Successes(|s.rings.free|, s.poolSize - s.currentSize, seg.ops);
      && t.usedSize == s.usedSize + n - (if seg.ending.Finish? then 1 else 0)
      && |t.rings.avail| == |s.rings.avail| + n - (if st == Avail then 1 else 0)
  {
    var r := s.(current := s.rings.Get(st)[0]);
    Started(s, st, r);
    SegmentShows(r, ApplyAll(r, seg.ops), st, seg);
    assert r.rings == s.rings;
  }

  lemma Started(s: State, st: Status, r: State)
    requires Idle(s) && (st == Active || st == Avail) && s.rings.Get(st) != []
    requires r == s.(current := s.rings.Get(st)[0])
    ensures Inv(r) && RunsFrom(r, st)
  {}

  lemma SegmentShows(s: State, m: State, st: Status, seg: Segment)
    requires Inv(s) && RunsFrom(s, st) && OpsOk(s, seg.ops) && m == ApplyAll(s, seg.ops)
    ensures s.currentSize <= s.poolSize
    ensures var t := End(m, seg.ending);
            var n := Successes(|s.rings.free|, s.poolSize - s.currentSize, seg.ops);
      && t.usedSize == s.usedSize + n - (if seg.ending.Finish? then 1 else 0)
      && |t.rings.avail| == |s.rings.avail| + n - (if st == Avail then 1 else 0)
  {
    ApplyAllKeepsInv(s, seg.ops);
    ApplyAllFrame(s, seg.ops);
    ApplyAllCreated(s, seg.ops);
    EndShows(m, st, seg.ending);
  }
}
