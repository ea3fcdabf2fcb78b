/** What whole rounds of the scheduling loop guarantee: the invariant, FIFO dispatch and bounded waiting. */
module SchedulerRounds {
  import opened Basics
  import opened Sequences
  import opened CoroutineRing
  import opened SchedulerModel
  import opened SchedulerInvariant

  /** What a stretch of running code leaves alone. */
  ghost predicate Frame(s: State, t: State) {
    && t.rings.active == s.rings.active
    && t.rings.inactive == s.rings.inactive
    && t.rings.timeout == s.rings.timeout
    && s.rings.avail <= t.rings.avail
    && t.current == s.current
    && t.sleepers == s.sleepers && t.selfYielded == s.selfYielded
    && Onward(s, t)
  }

  ghost predicate Onward(s: State, t: State) {
    t.poolSize == s.poolSize && s.wakeQueue <= t.wakeQueue && (s.terminal ==> t.terminal)
  }

  lemma {:induction false} ApplyAllFrame(s: State, ops: seq<Op>)
    ensures Frame(s, ApplyAll(s, ops))
    decreases |ops|
  {
    if ops != [] {
      ApplyFrame(s, ops[0]);
      ApplyAllFrame(Apply(s, ops[0]), ops[1..]);
    }
  }

  lemma {:induction false} ApplyAllKeepsInv(s: State, ops: seq<Op>)
    requires Inv(s) && OpsOk(s, ops)
    ensures Inv(ApplyAll(s, ops))
    decreases |ops|
  {
    if ops != [] {
      ApplyKeepsInv(s, ops[0]);
      ApplyAllKeepsInv(Apply(s, ops[0]), ops[1..]);
    }
  }

  /** Between resumes control is in the scheduling loop. */
  ghost predicate Idle(s: State) {
    Inv(s) && s.current == MAIN
  }

  /** One resume takes the coroutine off the head of its ring and puts it where its segment's end says. */
  lemma ResumeKeepsIdle(s: State, st: Status, seg: Segment)
    requires Idle(s) && (st == Active || st == Avail) && s.rings.Get(st) != []
    requires OpsOk(s.(current := s.rings.Get(st)[0]), seg.ops)
    ensures var m, t := Ran(s, st, seg), Resume(s, s.rings.Get(st)[0], seg);
      && Idle(t)
      && RunsFrom(m, st) && m.usedSize > 0
      && t.rings == HeadLeft(m.rings, st, Destination(seg.ending))
      && t == m.(rings := t.rings, current := MAIN, usedSize := t.usedSize,
                 sleepers := t.sleepers, selfYielded := t.selfYielded)
  {
    var r := s.(current := s.rings.Get(st)[0]);
    ApplyAllKeepsInv(r, seg.ops);
    ApplyAllFrame(r, seg.ops);
    EndKeepsInv(ApplyAll(r, seg.ops), st, seg.ending);
  }

  /** The state just before a resumed coroutine gives up control. */
  ghost function Ran(s: State, st: Status, seg: Segment): State
    requires s.rings.Get(st) != []
  {
    ApplyAll(s.(current := s.rings.Get(st)[0]), seg.ops)
  }

  /** The runnable rings after one resume: coroutines created meanwhile are at the tail of avail. */
  ghost predicate Resumed(s: State, t: State, st: Status) {
    && Onward(s, t)
    && (st == Active ==>
          s.rings.active != [] && t.rings.active == s.rings.active[1..] && s.rings.avail <= t.rings.avail)
    && (st == Avail ==>
          s.rings.avail != [] && t.rings.active == s.rings.active && s.rings.avail[1..] <= t.rings.avail)
  }

  lemma ResumeShape(s: State, m: State, t: State, st: Status, e: Ending)
    requires (st == Active || st == Avail) && s.rings.Get(st) != [] && RunsFrom(m, st)
    requires Frame(s.(current := s.rings.Get(st)[0]), m)
    requires t.rings == HeadLeft(m.rings, st, Destination(e)) && t.wakeQueue == m.wakeQueue
    requires t.terminal == m.terminal && t.poolSize == m.poolSize
    ensures Resumed(s, t, st)
  {
    HeadLeftShape(m.rings, st, Destination(e));
  }

  lemma ResumeFacts(s: State, st: Status, seg: Segment)
    requires Idle(s) && (st == Active || st == Avail) && s.rings.Get(st) != []
    requires OpsOk(s.(current := s.rings.Get(st)[0]), seg.ops)
    ensures Idle(Resume(s, s.rings.Get(st)[0], seg))
    ensures Resumed(s, Resume(s, s.rings.Get(st)[0], seg), st)
  {
    ResumeKeepsIdle(s, st, seg);
    ApplyAllFrame(s.(current := s.rings.Get(st)[0]), seg.ops);
    ResumeShape(s, Ran(s, st, seg), Resume(s, s.rings.Get(st)[0], seg), st, seg.ending);
  }

  lemma {:induction false} DispatchKeepsIdle(s: State, st: Status, quota: nat, beh: Behaviour, n: nat)
    requires Idle(s) && (st == Active || st == Avail) && DispatchOk(s, st, quota, beh, n)
    ensures Idle(Dispatch(s, st, quota, beh, n).0)
    decreases quota
  {
    if quota > 0 && s.rings.Get(st) != [] {
      ResumeFacts(s, st, beh(n));
      DispatchKeepsIdle(Resume(s, s.rings.Get(st)[0], beh(n)), st, quota - 1, beh, n + 1);
    }
  }

  /** Unfolds what is folded about a loop with this log. */
  ghost predicate LoopKey(k: nat, log: seq<Id>) { true }

  /** Unfolds what is folded about a resume of this coroutine. */
  ghost predicate ResumeKey(k: nat, id: Id) { true }

  /** A dispatch loop that ends in `t` and has resumed `log`, folded: mention LoopKey to unfold it. */
  ghost predicate Loops(s: State, st: Status, quota: nat, beh: Behaviour, n: nat, t: State, log: seq<Id>) {
    forall k {:trigger LoopKey(k, log)} :: LoopKey(k, log) ==> (t, log) == Dispatch(s, st, quota, beh, n)
  }

  /** The n-th resume of a loop, folded: mention ResumeKey to unfold it. */
  ghost predicate Resumes(s: State, id: Id, beh: Behaviour, n: nat, t: State) {
    forall k {:trigger ResumeKey(k, id)} :: ResumeKey(k, id) ==> t == Resume(s, id, beh(n))
  }

  /** A loop that goes on resumes the head, and then goes on as a loop with one turn less. */
  lemma LoopTurn(s: State, st: Status, quota: nat, beh: Behaviour, n: nat, all: (State, seq<Id>))
    returns (t: State, rest: (State, seq<Id>))
    requires Loops(s, st, quota, beh, n, all.0, all.1) && quota > 0 && s.rings.Get(st) != []
    ensures Resumes(s, s.rings.Get(st)[0], beh, n, t)
    ensures Loops(t, st, quota - 1, beh, n + 1, rest.0, rest.1)
    ensures all.0 == rest.0 && all.1 == [s.rings.Get(st)[0]] + rest.1
  {
    assert LoopKey(0, all.1);
    t := Resume(s, s.rings.Get(st)[0], beh(n));
    rest := Dispatch(t, st, quota - 1, beh, n + 1);
  }

  lemma LoopEnd(s: State, st: Status, quota: nat, beh: Behaviour, n: nat, all: (State, seq<Id>))
    requires Loops(s, st, quota, beh, n, all.0, all.1) && (quota == 0 || s.rings.Get(st) == [])
    ensures all.0 == s && all.1 == []
  {
    assert LoopKey(0, all.1);
  }

  /** Dispatch from the active ring is FIFO: it resumes exactly the first `quota` coroutines, or all of them. */
  ghost predicate ActiveServed(s: State, t: State, log: seq<Id>, quota: nat) {
    && Onward(s, t)
    && log == s.rings.active[..Min(quota, |s.rings.active|)]
    && t.rings.active == s.rings.active[Min(quota, |s.rings.active|)..]
    && s.rings.avail <= t.rings.avail
  }

  lemma ActiveServedStep(s: State, t: State, u: State, log: seq<Id>, quota: nat)
    requires Resumed(s, t, Active) && quota > 0 && ActiveServed(t, u, log, quota - 1)
    ensures ActiveServed(s, u, [s.rings.active[0]] + log, quota)
  {}

  lemma {:induction false} DispatchActive(s: State, quota: nat, beh: Behaviour, n: nat)
    requires Idle(s) && DispatchOk(s, Active, quota, beh, n)
    ensures var (t, log) := Dispatch(s, Active, quota, beh, n);
            ActiveServed(s, t, log, quota)
    decreases quota
  {
    if quota > 0 && s.rings.Get(Active) != [] {
      var t := Resume(s, s.rings.Get(Active)[0], beh(n));
      ResumeFacts(s, Active, beh(n));
      DispatchActive(t, quota - 1, beh, n + 1);
      var rest := Dispatch(t, Active, quota - 1, beh, n + 1);
      ActiveServedStep(s, t, rest.0, rest.1, quota);
    }
  }

  /** Dispatch from the avail ring is FIFO as well; coroutines created meanwhile queue up behind. */
  ghost predicate AvailServed(s: State, t: State, log: seq<Id>, quota: nat) {
    && Onward(s, t)
    && s.rings.avail[..Min(quota, |s.rings.avail|)] <= log
    && |log| <= quota && (|log| < quota ==> t.rings.avail == [])
    && s.rings.avail[Min(quota, |s.rings.avail|)..] <= t.rings.avail
    && t.rings.active == s.rings.active
  }

  lemma AvailServedStep(s: State, t: State, u: State, log: seq<Id>, quota: nat)
    requires Resumed(s, t, Avail) && quota > 0 && AvailServed(t, u, log, quota - 1)
    ensures AvailServed(s, u, [s.rings.avail[0]] + log, quota)
  {
    var k := Min(quota, |s.rings.avail|);
    assert s.rings.avail[..k] == [s.rings.avail[0]] + s.rings.avail[1..][..k - 1];
    assert s.rings.avail[1..][..k - 1] <= t.rings.avail[..Min(quota - 1, |t.rings.avail|)];
    assert s.rings.avail[k..] == s.rings.avail[1..][k - 1..];
  }

  lemma {:induction false} DispatchAvail(s: State, quota: nat, beh: Behaviour, n: nat)
    requires Idle(s) && DispatchOk(s, Avail, quota, beh, n)
    ensures var (t, log) := Dispatch(s, Avail, quota, beh, n);
            AvailServed(s, t, log, quota)
    decreases quota
  {
    if quota > 0 && s.rings.Get(Avail) != [] {
      var t := Resume(s, s.rings.Get(Avail)[0], beh(n));
      ResumeFacts(s, Avail, beh(n));
      DispatchAvail(t, quota - 1, beh, n + 1);
      var rest := Dispatch(t, Avail, quota - 1, beh, n + 1);
      AvailServedStep(s, t, rest.0, rest.1, quota);
    }
  }

  // ----- whole rounds

  /** What one round, started from `s` and not terminated, is known to do. */
  ghost predicate RoundServed(s: State, r: Round, availQuota: nat) {
    && Woke(s.rings, r.woken.rings)
    && ActiveServed(r.woken, r.midway, r.activeLog, ROUND_QUOTA)
    && AvailServed(r.midway, r.after, r.availLog, availQuota)
  }

  /** A round keeps the invariant and serves both rings in order. */
  lemma RoundFacts(s: State, i: Input, availQuota: nat)
    requires Idle(s) && !s.terminal && RoundOk(s, i, availQuota)
    ensures var r := DoRound(s, i, availQuota);
            Idle(r.woken) && Idle(r.midway) && Idle(r.after) && RoundServed(s, r, availQuota)
  {
    WakePhaseFacts(s, i.now);
    var r := DoRound(s, i, availQuota);
    assert Idle(r.woken);
    DispatchKeepsIdle(r.woken, Active, ROUND_QUOTA, i.active, 0);
    DispatchActive(r.woken, ROUND_QUOTA, i.active, 0);
    DispatchKeepsIdle(r.midway, Avail, availQuota, i.avail, 0);
    DispatchAvail(r.midway, availQuota, i.avail, 0);
  }

  /** Something that happens to a scheduler: a call from outside, a call of tars_run, one iteration of run. */
  datatype Event = External(op: Op) | TarsRun(input: Input) | RunOnce(input: Input)

  function Happen(s: State, e: Event): State {
    match e
    case External(op) => Apply(s, op)
    case TarsRun(i) => Tick(s, i).after
    case RunOnce(i) => if s.terminal then s else DoRound(s, i, 1).after
  }

  /** No assertion of the source fails during the event. */
  ghost predicate EventOk(s: State, e: Event) {
    match e
    case External(op) => OpOk(s, op)
    case TarsRun(i) => s.terminal || RoundOk(s, i, ROUND_QUOTA)
    case RunOnce(i) => s.terminal || RoundOk(s, i, 1)
  }

  ghost function After(s: State, events: seq<Event>): State
    decreases |events|
  {
    if events == [] then s else After(Happen(s, events[0]), events[1..])
  }

  ghost predicate EventsOk(s: State, events: seq<Event>)
    decreases |events|
  {
    events != [] ==> EventOk(s, events[0]) && EventsOk(Happen(s, events[0]), events[1..])
  }

  lemma HappenKeepsIdle(s: State, e: Event)
    requires Idle(s) && EventOk(s, e)
    ensures Idle(Happen(s, e))
  {
    match e
    case External(op) =>
      ApplyKeepsInv(s, op);
      ApplyFrame(s, op);
    case TarsRun(i) =>
      if !s.terminal { RoundFacts(s, i, ROUND_QUOTA); }
    case RunOnce(i) =>
      if !s.terminal { RoundFacts(s, i, 1); }
  }

  lemma {:induction false} AfterKeepsIdle(s: State, events: seq<Event>)
    requires Idle(s) && EventsOk(s, events)
    ensures Idle(After(s, events))
    decreases |events|
  {
    if events != [] {
      HappenKeepsIdle(s, events[0]);
      AfterKeepsIdle(Happen(s, events[0]), events[1..]);
    }
  }

  /** Every reachable state satisfies the invariant, and so the pool accounting. */
  lemma Reachable(poolSize: nat, grants: nat, events: seq<Event>)
    requires EventsOk(Initial(poolSize, grants), events)
    ensures var s := After(Initial(poolSize, grants), events);
      && Inv(s)
      && |s.rings.free| + s.usedSize == s.currentSize <= s.poolSize
      && (s.usedSize >= s.currentSize <==> s.rings.free == [])
      && (s.usedSize == 0 <==> s.rings.active == s.rings.avail == s.rings.inactive == s.rings.timeout == [])
  {
    InitialInv(poolSize, grants);
    AfterKeepsIdle(Initial(poolSize, grants), events);
    Accounting(After(Initial(poolSize, grants), events));
  }

  /** The loop of run, given what each iteration meets: where it gets with these, and whether it is left. */
  function RunLoop(s: State, inputs: seq<Input>): (State, bool)
    decreases |inputs|
  {
    if s.terminal then (s, true)
    else if inputs == [] then (s, false)
    else
      var t := DoRound(s, inputs[0], 1).after;
      if t.usedSize == 0 then (t, true) else RunLoop(t, inputs[1..])
  }

  ghost predicate RunOk(s: State, inputs: seq<Input>)
    decreases |inputs|
  {
    !s.terminal && inputs != [] ==>
      RoundOk(s, inputs[0], 1) && RunOk(DoRound(s, inputs[0], 1).after, inputs[1..])
  }

  /** run keeps the invariant, and is left exactly when it is terminated or nothing is in use any more. */
  lemma {:induction false} RunEnds(s: State, inputs: seq<Input>)
    requires Idle(s) && RunOk(s, inputs) && (s.usedSize > 0 || inputs != [])
    ensures var (t, left) := RunLoop(s, inputs);
      && Idle(t)
      && (left <==> t.terminal || t.rings.active == t.rings.avail == t.rings.inactive == t.rings.timeout == [])
    decreases |inputs|
  {
    Accounting(s);
    if !s.terminal && inputs != [] {
      var t := DoRound(s, inputs[0], 1).after;
      RoundFacts(s, inputs[0], 1);
      Accounting(t);
      if t.usedSize > 0 {
        RunEnds(t, inputs[1..]);
      }
    }
  }

  /** So many iterations of run. */
  function Iterations(inputs: seq<Input>): (events: seq<Event>)
    ensures |events| == |inputs|
    ensures forall k :: 0 <= k < |inputs| ==> events[k] == RunOnce(inputs[k])
  {
    seq(|inputs|, k requires 0 <= k < |inputs| => RunOnce(inputs[k]))
  }

  /** run stops in `s` after so many iterations; the use is tested only after the first. */
  predicate Stops(s: State, iterations: nat) {
    s.terminal || (iterations > 0 && s.usedSize == 0)
  }

  /** run goes through its iterations one by one, up to the first after which it is terminated or nothing is in use;
      if there is none it goes through all of them. */
  lemma {:induction false} RunIterates(s: State, inputs: seq<Input>) returns (n: nat)
    ensures n <= |inputs|
    ensures RunLoop(s, inputs).0 == After(s, Iterations(inputs[..n]))
    ensures forall k :: 0 <= k < n ==> !Stops(After(s, Iterations(inputs[..k])), k)
    ensures RunLoop(s, inputs).1 <==> Stops(RunLoop(s, inputs).0, n)
    ensures n < |inputs| ==> RunLoop(s, inputs).1
    decreases |inputs|
  {
    if s.terminal || inputs == [] {
      n := 0;
    } else {
      var t, more := DoRound(s, inputs[0], 1).after, inputs[1..];
      if t.usedSize == 0 {
        n := 1;
        IterationsCons(s, inputs, 1);
        assert inputs[1..][..0] == [];
      } else {
        var m := RunIterates(t, more);
        n := m + 1;
        IterationsCons(s, inputs, n);
        forall k | 0 < k < n ensures !Stops(After(s, Iterations(inputs[..k])), k) {
          IterationsCons(s, inputs, k);
          assert !Stops(After(t, Iterations(more[..k - 1])), k - 1);
        }
      }
    }
  }

  lemma IterationsCons(s: State, inputs: seq<Input>, k: nat)
    requires !s.terminal && 0 < k <= |inputs|
    ensures After(s, Iterations(inputs[..k]))
            == After(DoRound(s, inputs[0], 1).after, Iterations(inputs[1..][..k - 1]))
  {
    assert Iterations(inputs[..k])[1..] == Iterations(inputs[1..][..k - 1]);
  }

  // ----- bounded waiting

  /** The operations of other threads since the last call of tars_run or iteration of run, and its input. */
  datatype Call = Call(before: seq<Op>, input: Input)

  function Start(s: State, c: Call): State { ApplyAll(s, c.before) }

  /** One round of the loop, with the quota for the avail ring: 100 in tars_run, 1 in run. */
  function CallRound(s: State, c: Call, q: nat): Round { DoRound(Start(s, c), c.input, q) }

  /** Calls are made while the scheduler is not terminated. */
  ghost predicate CallsOk(s: State, calls: seq<Call>, q: nat)
    decreases |calls|
  {
    calls != [] ==>
      && OpsOk(s, calls[0].before)
      && !Start(s, calls[0]).terminal
      && RoundOk(Start(s, calls[0]), calls[0].input, q)
      && CallsOk(CallRound(s, calls[0], q).after, calls[1..], q)
  }

  /** Such a call of tars_run is a round, and so is an iteration of run, with one turn for the avail ring. */
  lemma CallIsTick(s: State, c: Call)
    requires !Start(s, c).terminal
    ensures Tick(Start(s, c), c.input) == CallRound(s, c, ROUND_QUOTA)
    ensures Happen(Start(s, c), TarsRun(c.input)) == CallRound(s, c, ROUND_QUOTA).after
    ensures Happen(Start(s, c), RunOnce(c.input)) == CallRound(s, c, 1).after
  {}

  /** The rounds of a series of calls. */
  ghost function Rounds(s: State, calls: seq<Call>, q: nat): (rounds: seq<Round>)
    ensures |rounds| == |calls|
    decreases |calls|
  {
    if calls == [] then [] else [CallRound(s, calls[0], q)] + Rounds(CallRound(s, calls[0], q).after, calls[1..], q)
  }

  lemma CallFacts(s: State, calls: seq<Call>, q: nat)
    requires Idle(s) && calls != [] && CallsOk(s, calls, q)
    ensures var r := CallRound(s, calls[0], q);
      && Idle(Start(s, calls[0])) && Idle(r.woken) && Idle(r.midway) && Idle(r.after)
      && Frame(s, Start(s, calls[0]))
      && RoundServed(Start(s, calls[0]), r, q)
      && CallsOk(r.after, calls[1..], q)
  {
    ApplyAllKeepsInv(s, calls[0].before);
    ApplyAllFrame(s, calls[0].before);
    RoundFacts(Start(s, calls[0]), calls[0].input, q);
  }

  /** One round serves the front of both rings in order. */
  ghost predicate Served(r: Round, q: nat) {
    && ActiveServed(r.woken, r.midway, r.activeLog, ROUND_QUOTA)
    && AvailServed(r.midway, r.after, r.availLog, q)
  }

  /** What a quota leaves. */
  function Behind(line: seq<Id>, quota: nat): seq<Id> {
    if |line| <= quota then [] else line[quota..]
  }

  /** From one round to the next, what was not served has moved up by the quota. */
  ghost predicate MovedUp(r: Round, next: Round, q: nat) {
    && Behind(r.woken.rings.active, ROUND_QUOTA) <= next.woken.rings.active
    && Behind(r.midway.rings.avail, q) <= next.midway.rings.avail
  }

  lemma NextMovesUp(r: Round, s: State, next: Round, q: nat)
    requires Served(r, q) && Served(next, q)
    requires Frame(r.after, s) && Woke(s.rings, next.woken.rings)
    ensures MovedUp(r, next, q)
  {}

  ghost predicate FifoRounds(rounds: seq<Round>, q: nat)
    decreases |rounds|
  {
    rounds != [] ==>
      && Served(rounds[0], q)
      && (|rounds| > 1 ==> MovedUp(rounds[0], rounds[1], q))
      && FifoRounds(rounds[1..], q)
  }

  /** Two calls, one after the other. */
  lemma TwoCalls(s: State, calls: seq<Call>, q: nat)
    requires Idle(s) && CallsOk(s, calls, q) && |calls| > 1
    ensures var r := CallRound(s, calls[0], q);
            Idle(r.after) && CallsOk(r.after, calls[1..], q) && MovedUp(r, CallRound(r.after, calls[1], q), q)
  {
    CallFacts(s, calls, q);
    var r := CallRound(s, calls[0], q);
    CallFacts(r.after, calls[1..], q);
    NextMovesUp(r, Start(r.after, calls[1]), CallRound(r.after, calls[1], q), q);
  }

  lemma RoundsCons(s: State, calls: seq<Call>, q: nat)
    requires calls != []
    ensures Rounds(s, calls, q)[0] == CallRound(s, calls[0], q)
    ensures Rounds(s, calls, q)[1..] == Rounds(CallRound(s, calls[0], q).after, calls[1..], q)
  {}

  lemma {:induction false} RoundsAreFifo(s: State, calls: seq<Call>, q: nat)
    requires Idle(s) && CallsOk(s, calls, q)
    ensures FifoRounds(Rounds(s, calls, q), q)
    decreases |calls|
  {
    if calls != [] {
      var r := CallRound(s, calls[0], q);
      FirstCall(s, calls, q);
      RoundsCons(s, calls, q);
      RoundsAreFifo(r.after, calls[1..], q);
      if |calls| > 1 {
        TwoCalls(s, calls, q);
        RoundsCons(r.after, calls[1..], q);
      }
    }
  }

  lemma FirstCall(s: State, calls: seq<Call>, q: nat)
    requires Idle(s) && calls != [] && CallsOk(s, calls, q)
    ensures var r := CallRound(s, calls[0], q);
            Served(r, q) && Idle(r.after) && CallsOk(r.after, calls[1..], q)
  {
    CallFacts(s, calls, q);
  }

  /** What is k places from the head of the active ring when round `r` wakes is the m-th that round `s` resumes. */
  ghost predicate ActiveTurn(r: Round, s: Round, k: nat, m: nat) {
    k < |r.woken.rings.active| ==> m < |s.activeLog| && s.activeLog[m] == r.woken.rings.active[k]
  }

  /** The same for the avail ring, from the start of the loop over it. */
  ghost predicate AvailTurn(r: Round, s: Round, k: nat, m: nat) {
    k < |r.midway.rings.avail| ==> m < |s.availLog| && s.availLog[m] == r.midway.rings.avail[k]
  }

  lemma BehindAt(line: seq<Id>, quota: nat, next: seq<Id>, k: nat)
    requires Behind(line, quota) <= next && quota <= k < |line|
    ensures k - quota < |next| && next[k - quota] == line[k]
  {
    assert Behind(line, quota)[k - quota] == line[k];
  }

  /** In a series of rounds the coroutine `quota * n + m` places from the head is the m-th to be resumed in the
      n-th round. */
  lemma {:induction false} ActiveWait(rounds: seq<Round>, q: nat, n: nat, m: nat)
    requires FifoRounds(rounds, q) && n < |rounds| && m < ROUND_QUOTA
    ensures ActiveTurn(rounds[0], rounds[n], ROUND_QUOTA * n + m, m)
    decreases n
  {
    if n > 0 {
      var k := ROUND_QUOTA * n + m;
      ActiveWait(rounds[1..], q, n - 1, m);
      assert rounds[1..][n - 1] == rounds[n];
      assert ROUND_QUOTA * (n - 1) + m == k - ROUND_QUOTA;
      if k < |rounds[0].woken.rings.active| {
        BehindAt(rounds[0].woken.rings.active, ROUND_QUOTA, rounds[1].woken.rings.active, k);
      }
    }
  }

  lemma {:induction false} AvailWait(rounds: seq<Round>, q: nat, n: nat, m: nat)
    requires FifoRounds(rounds, q) && n < |rounds| && m < q
    ensures AvailTurn(rounds[0], rounds[n], q * n + m, m)
    decreases n
  {
    if n > 0 {
      var k := q * n + m;
      AvailWait(rounds[1..], q, n - 1, m);
      assert rounds[1..][n - 1] == rounds[n];
      Times(q, n);
      if k < |rounds[0].midway.rings.avail| {
        BehindAt(rounds[0].midway.rings.avail, q, rounds[1].midway.rings.avail, k);
      }
    }
  }

  lemma Times(q: nat, n: nat)
    requires n > 0
    ensures q * (n - 1) == q * n - q && q * n >= q
  {}

  lemma TurnOf(rounds: seq<Round>, q: nat, k: nat)
    requires FifoRounds(rounds, q) && k / ROUND_QUOTA < |rounds|
    ensures ActiveTurn(rounds[0], rounds[k / ROUND_QUOTA], k, k % ROUND_QUOTA)
    ensures q == ROUND_QUOTA ==> AvailTurn(rounds[0], rounds[k / ROUND_QUOTA], k, k % ROUND_QUOTA)
  {
    var n, m := k / ROUND_QUOTA, k % ROUND_QUOTA;
    assert ROUND_QUOTA * n + m == k;
    ActiveWait(rounds, q, n, m);
    if q == ROUND_QUOTA {
      AvailWait(rounds, q, n, m);
    }
  }

  /** Bounded waiting in tars_run: the coroutine at index k of the active ring after the wake-up phase of a call is
      resumed as the (k % 100)-th active one of the (k / 100)-th call from there; and the same for the avail ring,
      counted from the start of the avail loop. */
  lemma BoundedWaiting(s: State, calls: seq<Call>, k: nat)
    requires Idle(s) && CallsOk(s, calls, ROUND_QUOTA) && k / ROUND_QUOTA < |calls|
    ensures var rounds := Rounds(s, calls, ROUND_QUOTA);
      && ActiveTurn(rounds[0], rounds[k / ROUND_QUOTA], k, k % ROUND_QUOTA)
      && AvailTurn(rounds[0], rounds[k / ROUND_QUOTA], k, k % ROUND_QUOTA)
  {
    RoundsAreFifo(s, calls, ROUND_QUOTA);
    TurnOf(Rounds(s, calls, ROUND_QUOTA), ROUND_QUOTA, k);
  }

  lemma TurnInRun(rounds: seq<Round>, k: nat)
    requires FifoRounds(rounds, 1) && k < |rounds|
    ensures AvailTurn(rounds[0], rounds[k], k, 0)
  {
    AvailWait(rounds, 1, k, 0);
  }

  /** Bounded waiting in run: the same for the active ring, and what is k places back in the avail ring is resumed
      in the k-th further iteration. */
  lemma BoundedWaitingInRun(s: State, calls: seq<Call>, k: nat)
    requires Idle(s) && CallsOk(s, calls, 1) && k < |calls|
    ensures var rounds := Rounds(s, calls, 1);
      && ActiveTurn(rounds[0], rounds[k / ROUND_QUOTA], k, k % ROUND_QUOTA)
      && AvailTurn(rounds[0], rounds[k], k, 0)
  {
    RoundsAreFifo(s, calls, 1);
    TurnOf(Rounds(s, calls, 1), 1, k);
    TurnInRun(Rounds(s, calls, 1), k);
  }

  lemma RunnableBound(s: State)
    requires Idle(s)
    ensures |s.rings.active| <= s.poolSize && |s.rings.avail| <= s.poolSize
  {
    Accounting(s);
  }

  ghost predicate ServedIn(r: Round, id: Id) {
    id in r.activeLog || id in r.availLog
  }

  lemma RunnableBounds(s: State, calls: seq<Call>, q: nat)
    requires Idle(s) && calls != [] && CallsOk(s, calls, q)
    ensures var r := CallRound(s, calls[0], q);
            |r.woken.rings.active| <= s.poolSize && |r.midway.rings.avail| <= s.poolSize
  {
    CallFacts(s, calls, q);
    var r := CallRound(s, calls[0], q);
    RunnableBound(r.woken);
    RunnableBound(r.midway);
    WakePhaseFacts(Start(s, calls[0]), calls[0].input.now);
  }

  /** How far from the head of its ring a runnable coroutine is when the loop over that ring starts. */
  lemma PlaceInLine(r: Round, q: nat, id: Id, bound: nat) returns (k: nat)
    requires Served(r, q) && Runnable(r.woken.rings, id)
    requires |r.woken.rings.active| <= bound && |r.midway.rings.avail| <= bound
    ensures k <= bound
    ensures || (k < |r.woken.rings.active| && r.woken.rings.active[k] == id)
            || (k < |r.midway.rings.avail| && r.midway.rings.avail[k] == id)
  {
    if id in r.woken.rings.active {
      k :| 0 <= k < |r.woken.rings.active| && r.woken.rings.active[k] == id;
    } else {
      k :| 0 <= k < |r.woken.rings.avail| && r.woken.rings.avail[k] == id;
      assert r.midway.rings.avail[k] == id;
    }
  }

  lemma FirstPlace(s: State, calls: seq<Call>, q: nat, id: Id) returns (k: nat)
    requires Idle(s) && calls != [] && CallsOk(s, calls, q) && Runnable(CallRound(s, calls[0], q).woken.rings, id)
    ensures k <= s.poolSize
    ensures var r := Rounds(s, calls, q)[0];
            || (k < |r.woken.rings.active| && r.woken.rings.active[k] == id)
            || (k < |r.midway.rings.avail| && r.midway.rings.avail[k] == id)
  {
    FirstCall(s, calls, q);
    RunnableBounds(s, calls, q);
    RoundsCons(s, calls, q);
    k := PlaceInLine(CallRound(s, calls[0], q), q, id, s.poolSize);
  }

  /** What is runnable after the wake-up phase of a call of tars_run is resumed within poolSize / 100 further calls. */
  lemma RunnableIsServed(s: State, calls: seq<Call>, id: Id)
    requires Idle(s) && CallsOk(s, calls, ROUND_QUOTA) && s.poolSize / ROUND_QUOTA < |calls|
    requires Runnable(CallRound(s, calls[0], ROUND_QUOTA).woken.rings, id)
    ensures exists n :: 0 <= n <= s.poolSize / ROUND_QUOTA && ServedIn(Rounds(s, calls, ROUND_QUOTA)[n], id)
  {
    var k := FirstPlace(s, calls, ROUND_QUOTA, id);
    BoundedWaiting(s, calls, k);
    assert ServedIn(Rounds(s, calls, ROUND_QUOTA)[k / ROUND_QUOTA], id);
  }

  /** In run, it is resumed within poolSize further iterations. */
  lemma RunnableIsServedInRun(s: State, calls: seq<Call>, id: Id)
    requires Idle(s) && CallsOk(s, calls, 1) && s.poolSize < |calls|
    requires Runnable(CallRound(s, calls[0], 1).woken.rings, id)
    ensures exists n :: 0 <= n <= s.poolSize && ServedIn(Rounds(s, calls, 1)[n], id)
  {
    var k := FirstPlace(s, calls, 1, id);
    BoundedWaitingInRun(s, calls, k);
    var rounds := Rounds(s, calls, 1);
    assert ServedIn(rounds[k / ROUND_QUOTA], id) || ServedIn(rounds[k], id);
  }

  lemma WakesUp(s: State, calls: seq<Call>, q: nat, id: Id)
    requires Idle(s) && calls != [] && CallsOk(s, calls, q)
    requires var start := Start(s, calls[0]);
             id in start.selfYielded || (id in start.wakeQueue && id !in start.rings.free)
    ensures Runnable(CallRound(s, calls[0], q).woken.rings, id)
  {
    CallFacts(s, calls, q);
    WakePhaseFacts(Start(s, calls[0]), calls[0].input.now);
  }

  /** No lost wake-up, with a bound: a coroutine that yielded to itself, or that was put into the wake queue and
      is in use, is resumed within poolSize / 100 calls of tars_run after the next one. */
  lemma WakeUpIsServed(s: State, calls: seq<Call>, id: Id)
    requires Idle(s) && CallsOk(s, calls, ROUND_QUOTA) && s.poolSize / ROUND_QUOTA < |calls|
    requires var start := Start(s, calls[0]);
             id in start.selfYielded || (id in start.wakeQueue && id !in start.rings.free)
    ensures exists n :: 0 <= n <= s.poolSize / ROUND_QUOTA && ServedIn(Rounds(s, calls, ROUND_QUOTA)[n], id)
  {
    WakesUp(s, calls, ROUND_QUOTA, id);
    RunnableIsServed(s, calls, id);
  }

  /** In run, within poolSize iterations after the next one. */
  lemma WakeUpIsServedInRun(s: State, calls: seq<Call>, id: Id)
    requires Idle(s) && CallsOk(s, calls, 1) && s.poolSize < |calls|
    requires var start := Start(s, calls[0]);
             id in start.selfYielded || (id in start.wakeQueue && id !in start.rings.free)
    ensures exists n :: 0 <= n <= s.poolSize && ServedIn(Rounds(s, calls, 1)[n], id)
  {
    WakesUp(s, calls, 1, id);
    RunnableIsServedInRun(s, calls, id);
  }

  // ----- the list of coroutines that yielded to themselves

  /** The ids among a loop's resumes whose segment ended by yielding to itself. */
  function SelfYields(log: seq<Id>, beh: Behaviour, n: nat): seq<Id>
    decreases |log|
  {
    if log == [] then []
    else OwnYield(log[0], beh(n).ending) + SelfYields(log[1..], beh, n + 1)
  }

  lemma SelfYieldsCons(id: Id, log: seq<Id>, beh: Behaviour, n: nat)
    ensures SelfYields([id] + log, beh, n) == OwnYield(id, beh(n).ending) + SelfYields(log, beh, n + 1)
  {
    assert ([id] + log)[1..] == log;
  }

  ghost predicate Yielded(s: State, t: State, ids: seq<Id>) {
    && (s.terminal ==> t.terminal)
    && (!t.terminal ==> t.selfYielded == s.selfYielded + ids)
  }

  lemma YieldedTransitive(s: State, t: State, u: State, a: seq<Id>, b: seq<Id>)
    requires Yielded(s, t, a) && Yielded(t, u, b)
    ensures Yielded(s, u, a + b)
  {}

  function OwnYield(id: Id, e: Ending): seq<Id> {
    if e == Yield(true) then [id] else []
  }

  lemma ResumeYields(s: State, st: Status, seg: Segment)
    requires s.rings.Get(st) != []
    ensures Yielded(s, Resume(s, s.rings.Get(st)[0], seg), OwnYield(s.rings.Get(st)[0], seg.ending))
  {
    ApplyAllFrame(s.(current := s.rings.Get(st)[0]), seg.ops);
  }

  lemma YieldedStep(s: State, id: Id, t: State, u: State, st: Status, log: seq<Id>, beh: Behaviour, n: nat)
    requires s.rings.Get(st) != [] && id == s.rings.Get(st)[0]
    requires Resumes(s, id, beh, n, t) && Yielded(t, u, SelfYields(log, beh, n + 1))
    ensures Yielded(s, u, SelfYields([id] + log, beh, n))
  {
    assert ResumeKey(0, id);
    ResumeYields(s, st, beh(n));
    YieldedTransitive(s, t, u, OwnYield(id, beh(n).ending), SelfYields(log, beh, n + 1));
    SelfYieldsCons(id, log, beh, n);
  }

  lemma {:induction false} DispatchYields(s: State, st: Status, quota: nat, beh: Behaviour, n: nat,
                                          all: (State, seq<Id>))
    requires Loops(s, st, quota, beh, n, all.0, all.1)
    ensures Yielded(s, all.0, SelfYields(all.1, beh, n))
    decreases quota
  {
    if quota > 0 && s.rings.Get(st) != [] {
      var t, rest := LoopTurn(s, st, quota, beh, n, all);
      DispatchYields(t, st, quota - 1, beh, n + 1, rest);
      YieldedStep(s, s.rings.Get(st)[0], t, rest.0, st, rest.1, beh, n);
    } else {
      LoopEnd(s, st, quota, beh, n, all);
    }
  }

  /** After a round the list holds exactly the coroutines that yielded to themselves in it, in that order. */
  lemma RoundYields(s: State, i: Input, availQuota: nat)
    requires Idle(s) && !s.terminal && RoundOk(s, i, availQuota)
    requires !DoRound(s, i, availQuota).after.terminal
    ensures var r := DoRound(s, i, availQuota);
      && r.after.selfYielded == SelfYields(r.activeLog, i.active, 0) + SelfYields(r.availLog, i.avail, 0)
      && NoDuplicates(r.after.selfYielded)
  {
    WakePhaseFacts(s, i.now);
    RoundFacts(s, i, availQuota);
    var r := DoRound(s, i, availQuota);
    DispatchYields(r.woken, Active, ROUND_QUOTA, i.active, 0, (r.midway, r.activeLog));
    DispatchYields(r.midway, Avail, availQuota, i.avail, 0, (r.after, r.availLog));
    YieldedTransitive(r.woken, r.midway, r.after,
                      SelfYields(r.activeLog, i.active, 0), SelfYields(r.availLog, i.avail, 0));
  }
}
