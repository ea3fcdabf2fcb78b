/**
 What each operation of the coroutine scheduler does to its bookkeeping, as functions on values.

 A coroutine is named by its id. A context switch is a step: resuming a coroutine runs one segment of
 its code, some operations followed by exactly one yield, sleep or finish, after which control is back in
 the scheduling loop. Clock readings and the outcome of stack allocations are arguments.
 */
module SchedulerModel {
  import opened Basics
  import opened Sequences
  import opened CoroutineRing

  type Id = nat

  const GROWTH_STEP: nat := 100
  const ROUND_QUOTA: nat := 100
  const MAIN: Id := 0

  /** An entry of the deadline multimap. */
  datatype Sleeper = Sleeper(deadline: int, id: Id)

  /** The ids in each of the five rings, head first. */
  datatype Rings = Rings(free: seq<Id>, active: seq<Id>, avail: seq<Id>, inactive: seq<Id>, timeout: seq<Id>) {
    function Get(st: Status): seq<Id> {
      match st
      case Free => free
      case Active => active
      case Avail => avail
      case Inactive => inactive
      case Timeout => timeout
    }

    function Set(st: Status, q: seq<Id>): Rings {
      match st
      case Free => this.(free := q)
      case Active => this.(active := q)
      case Avail => this.(avail := q)
      case Inactive => this.(inactive := q)
      case Timeout => this.(timeout := q)
    }

    function StatusOf(id: Id): Status {
      if id in active then Active
      else if id in avail then Avail
      else if id in inactive then Inactive
      else if id in timeout then Timeout
      else Free
    }

    ghost function All(): multiset<Id> {
      multiset(free) + multiset(active) + multiset(avail) + multiset(inactive) + multiset(timeout)
    }
  }

  datatype State = State(
    poolSize: nat, currentSize: nat, usedSize: nat, uniqId: nat, terminal: bool,
    current: Id,               // the running coroutine, MAIN inside the scheduling loop
    known: set<Id>,            // the indices of allCoro_ that are not null
    rings: Rings,
    selfYielded: seq<Id>,      // needActiveCoroId_
    wakeQueue: seq<Id>,        // activeCoroQueue_
    sleepers: seq<Sleeper>)    // timeoutCoroId_, in iteration order

  // ----- moving a coroutine from ring to ring

  /** Which moves the moveTo functions perform; every other request is only logged. */
  predicate CanMove(from: Status, to: Status) {
    match to
    case Active => from == Inactive || from == Timeout
    case Avail => from == Inactive
    case Inactive => from == Active || from == Avail
    case Timeout => from == Active || from == Avail
    case Free => from != Free
  }

  function Relink(r: Rings, id: Id, from: Status, to: Status): Rings
    requires id in r.Get(from)
  {
    var unlinked := r.Set(from, Remove(r.Get(from), id));
    unlinked.Set(to, unlinked.Get(to) + [id])
  }

  function MoveTo(r: Rings, id: Id, to: Status): Rings {
    var from := r.StatusOf(id);
    if from != Free && CanMove(from, to) then Relink(r, id, from, to) else r
  }

  function Move(s: State, id: Id, to: Status): State {
    s.(rings := MoveTo(s.rings, id, to))
  }

  // ----- growing the pool and creating coroutines

  /** lo, lo + 1, ..., lo + n - 1 */
  function Range(lo: nat, n: nat): (q: seq<Id>)
    ensures |q| == n
    ensures forall i :: 0 <= i < n ==> q[i] == lo + i
  {
    if n == 0 then [] else Range(lo, n - 1) + [lo + n - 1]
  }

  function RangeSet(lo: nat, n: nat): set<Id> { set i | i in Range(lo, n) }

  /** The scheduler after init: `grants` is how many stacks can be allocated before one fails. */
  function Initial(poolSize: nat, grants: nat): State {
    var made := Min(Min(poolSize, GROWTH_STEP), grants);
    State(poolSize, made, 0, made, false, MAIN, RangeSet(1, made),
          Rings(Range(1, made), [], [], [], []), [], [], [])
  }

  function GrowthWanted(s: State): nat {
    if s.poolSize <= s.currentSize then 0 else Min(s.poolSize - s.currentSize, GROWTH_STEP)
  }

  /** The ids drawn by one growth: the id is drawn before the stack, so a failed allocation wastes it. */
  function IdsDrawn(s: State, grants: nat): nat {
    if grants < GrowthWanted(s) then grants + 1 else GrowthWanted(s)
  }

  function Grow(s: State, grants: nat): State {
    var made := Min(GrowthWanted(s), grants);
    s.(uniqId := s.uniqId + IdsDrawn(s, grants),
       currentSize := s.currentSize + made,
       known := s.known + RangeSet(s.uniqId + 1, made),
       rings := s.rings.(free := s.rings.free + Range(s.uniqId + 1, made)))
  }

  predicate NeedsGrowth(s: State) { s.usedSize >= s.currentSize || s.rings.free == [] }

  function CreateCoroutine(s: State, grants: nat): (State, Id) {
    var g := if NeedsGrowth(s) then Grow(s, grants) else s;
    if (NeedsGrowth(s) && Min(GrowthWanted(s), grants) == 0) || g.rings.free == [] then
      (g, MAIN)
    else
      var id := g.rings.free[0];
      (g.(usedSize := g.usedSize + 1, rings := Relink(g.rings, id, Free, Avail)), id)
  }

  // ----- what running code can do

  datatype Op = Create(grants: nat) | Put(id: Id) | Terminate

  /** The clock reading and the requested span belong to the call of sleep. */
  datatype Ending = Yield(self: bool) | Sleep(now: int, span: int) | Finish

  datatype Segment = Segment(ops: seq<Op>, ending: Ending)

  function Apply(s: State, op: Op): State {
    match op
    case Create(grants) => CreateCoroutine(s, grants).0
    case Put(id) => if s.terminal then s else s.(wakeQueue := s.wakeQueue + [id])
    case Terminate => s.(terminal := true)
  }

  function ApplyAll(s: State, ops: seq<Op>): State
    decreases |ops|
  {
    if ops == [] then s else ApplyAll(Apply(s, ops[0]), ops[1..])
  }

  function Abs(x: int): (r: nat)
    ensures r == x || r == -x
  {
    if x >= 0 then x else -x
  }

  /** Inserting into a multimap: after every entry with the same key. */
  function InsertSleeper(q: seq<Sleeper>, e: Sleeper): seq<Sleeper> {
    if q == [] || e.deadline < q[0].deadline then [e] + q else [q[0]] + InsertSleeper(q[1..], e)
  }

  function End(s: State, e: Ending): State {
    var c := s.current;
    match e
    case Yield(self) =>
      var s1 := if self && !s.terminal then s.(selfYielded := s.selfYielded + [c]) else s;
      Move(s1, c, Inactive).(current := MAIN)
    case Sleep(now, span) =>
      var s1 := s.(sleepers := InsertSleeper(s.sleepers, Sleeper(now + Abs(span), c)));
      Move(s1, c, Timeout).(current := MAIN)
    case Finish =>
      if s.usedSize == 0 then s  // excluded by the invariant
      else Move(s.(usedSize := s.usedSize - 1), c, Free).(current := MAIN)
  }

  function Resume(s: State, id: Id, seg: Segment): State {
    End(ApplyAll(s.(current := id), seg.ops), seg.ending)
  }

  // ----- one round of the scheduling loop

  function WakeByTimeout(s: State, now: int): State
    decreases |s.sleepers|
  {
    if s.terminal || s.sleepers == [] || s.sleepers[0].deadline > now then s
    else WakeByTimeout(Move(s, s.sleepers[0].id, Active).(sleepers := s.sleepers[1..]), now)
  }

  function MoveEach(s: State, ids: seq<Id>, to: Status): State
    decreases |ids|
  {
    if ids == [] then s else MoveEach(Move(s, ids[0], to), ids[1..], to)
  }

  function WakeBySelf(s: State): State {
    if s.terminal then s else MoveEach(s, s.selfYielded, Avail).(selfYielded := [])
  }

  function Wakeup(s: State): State {
    if s.terminal then s else MoveEach(s.(wakeQueue := []), s.wakeQueue, Active)
  }

  function WakePhase(s: State, now: int): State {
    Wakeup(WakeBySelf(WakeByTimeout(s, now)))
  }

  /** What the coroutine resumed as the n-th of a loop does until it gives up control. */
  type Behaviour = nat -> Segment

  /** Resumes the head of ring `st` until the ring is empty or `quota` resumes are done; also the ids resumed. */
  function Dispatch(s: State, st: Status, quota: nat, beh: Behaviour, n: nat): (State, seq<Id>)
    decreases quota
  {
    if quota == 0 || s.rings.Get(st) == [] then (s, [])
    else
      var id := s.rings.Get(st)[0];
      var rest := Dispatch(Resume(s, id, beh(n)), st, quota - 1, beh, n + 1);
      (rest.0, [id] + rest.1)
  }

  datatype Input = Input(now: int, active: Behaviour, avail: Behaviour)

  /** The stages of one round, with the ids resumed from each ring. */
  datatype Round = Round(woken: State, midway: State, after: State, activeLog: seq<Id>, availLog: seq<Id>)

  function DoRound(s: State, i: Input, availQuota: nat): Round {
    var woken := WakePhase(s, i.now);
    var d1 := Dispatch(woken, Active, ROUND_QUOTA, i.active, 0);
    var d2 := Dispatch(d1.0, Avail, availQuota, i.avail, 0);
    Round(woken, d1.0, d2.0, d1.1, d2.1)
  }

  /** A call of tars_run. */
  function Tick(s: State, i: Input): Round {
    if s.terminal then Round(s, s, s, [], []) else DoRound(s, i, ROUND_QUOTA)
  }

  // ----- when no assertion of the source fails

  predicate OpOk(s: State, op: Op) {
    match op
    case Create(grants) => NeedsGrowth(s) ==> s.uniqId + IdsDrawn(s, grants) <= s.poolSize
    case Put(id) => id in s.known
    case Terminate => true
  }

  predicate OpsOk(s: State, ops: seq<Op>)
    decreases |ops|
  {
    ops == [] || (OpOk(s, ops[0]) && OpsOk(Apply(s, ops[0]), ops[1..]))
  }

  predicate DispatchOk(s: State, st: Status, quota: nat, beh: Behaviour, n: nat)
    decreases quota
  {
    quota > 0 && s.rings.Get(st) != [] ==>
      var id := s.rings.Get(st)[0];
      && OpsOk(s.(current := id), beh(n).ops)
      && DispatchOk(Resume(s, id, beh(n)), st, quota - 1, beh, n + 1)
  }

  predicate RoundOk(s: State, i: Input, availQuota: nat) {
    var woken := WakePhase(s, i.now);
    && DispatchOk(woken, Active, ROUND_QUOTA, i.active, 0)
    && DispatchOk(Dispatch(woken, Active, ROUND_QUOTA, i.active, 0).0, Avail, availQuota, i.avail, 0)
  }

  // ----- the invariant

  /** Each known coroutine is in exactly one ring, exactly once, and nothing else is in any ring. */
  ghost predicate Population(r: Rings, known: set<Id>) {
    r.All() == multiset(known)
  }

  ghost predicate Core(s: State) {
    && Population(s.rings, s.known)
    && Books(s)
  }

  ghost predicate Books(s: State) {
    && s.currentSize == |s.known| <= s.uniqId <= s.poolSize
    && s.usedSize == |s.rings.active| + |s.rings.avail| + |s.rings.inactive| + |s.rings.timeout|
    && (forall i :: i in s.known ==> 1 <= i <= s.uniqId)
    && (forall i :: i in s.wakeQueue ==> i in s.known)
    && (forall e :: e in s.sleepers ==> e.id in s.known)
    && (forall i, j :: 0 <= i < j < |s.sleepers| ==> s.sleepers[i].deadline <= s.sleepers[j].deadline)
    && (forall i :: i in s.rings.timeout ==> HasEntry(s.sleepers, i))
  }

  ghost predicate HasEntry(q: seq<Sleeper>, id: Id) {
    exists e :: e in q && e.id == id
  }

  ghost predicate Parked(s: State) {
    && NoDuplicates(s.selfYielded)
    && forall i :: i in s.selfYielded ==> i in s.rings.inactive
  }

  ghost predicate RunningAtHead(s: State) {
    || (s.rings.active != [] && s.current == s.rings.active[0])
    || (s.rings.avail != [] && s.current == s.rings.avail[0])
  }

  ghost predicate Inv(s: State) {
    Core(s) && Parked(s) && (s.current == MAIN || RunningAtHead(s))
  }
}
