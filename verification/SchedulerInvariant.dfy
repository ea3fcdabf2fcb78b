/** The scheduler's invariant holds initially and is kept by every step. */
module SchedulerInvariant {
  import opened Basics
  import opened Sequences
  import opened CoroutineRing
  import opened SchedulerModel

  /** No coroutine is in two rings, or twice in one. */
  lemma RingsAreDisjoint(s: State)
    requires Population(s.rings, s.known)
    ensures forall st :: NoDuplicates(s.rings.Get(st))
    ensures forall st, i :: i in s.rings.Get(st) ==> i in s.known
    ensures forall st, i :: i in s.rings.Get(st) ==> s.rings.StatusOf(i) == st
    ensures forall i :: i in s.known ==> i in s.rings.Get(s.rings.StatusOf(i))
  {
    var r := s.rings;
    forall st ensures NoDuplicates(r.Get(st)) && forall i :: i in r.Get(st) ==> i in s.known {
      BagOfSet(r.Get(st), s.known);
    }
    forall st, i | i in r.Get(st) ensures r.StatusOf(i) == st {
      assert r.All()[i] <= 1;
      assert multiset(r.Get(st))[i] >= 1;
    }
    forall i | i in s.known ensures i in r.Get(r.StatusOf(i)) {
      assert r.All()[i] == 1;
    }
  }

  /** Replacing one ring changes the population by the difference of that ring. */
  lemma SetBag(r: Rings, st: Status, q: seq<Id>)
    ensures r.Set(st, q).All() + multiset(r.Get(st)) == r.All() + multiset(q)
  {
    match st
    case Free =>
    case Active =>
    case Avail =>
    case Inactive =>
    case Timeout =>
  }

  lemma BagCancel(u: multiset<Id>, v: multiset<Id>, r: multiset<Id>, rest: multiset<Id>, p: multiset<Id>, id: Id)
    requires u + (rest + multiset{id}) == r + rest
    requires v + p == u + (p + multiset{id})
    ensures v == r
  {
    forall x ensures v[x] == r[x] {
      assert (u + (rest + multiset{id}))[x] == (r + rest)[x];
      assert (v + p)[x] == (u + (p + multiset{id}))[x];
    }
  }

  /** A relink keeps the population. */
  lemma RelinkBag(r: Rings, id: Id, from: Status, to: Status)
    requires from != to && id in r.Get(from)
    ensures Relink(r, id, from, to).All() == r.All()
  {
    var q := r.Get(from);
    var rest := Remove(q, id);
    var u := r.Set(from, rest);
    var p := u.Get(to);
    RemoveAtBag(q, IndexOf(q, id));
    SetBag(r, from, rest);
    SetBag(u, to, p + [id]);
    BagCancel(u.All(), u.Set(to, p + [id]).All(), r.All(), multiset(rest), multiset(p), id);
  }

  /** A relink touches only the two rings. */
  lemma RelinkGet(r: Rings, id: Id, from: Status, to: Status)
    requires from != to && id in r.Get(from)
    ensures Relink(r, id, from, to).Get(from) == Remove(r.Get(from), id)
    ensures Relink(r, id, from, to).Get(to) == r.Get(to) + [id]
    ensures forall st :: st != from && st != to ==> Relink(r, id, from, to).Get(st) == r.Get(st)
  {}

  /** Which ids a ring holds after a relink. */
  lemma RelinkMembers(s: State, id: Id, from: Status, to: Status)
    requires Population(s.rings, s.known)
    requires from != to && id in s.rings.Get(from)
    ensures forall i :: i in Relink(s.rings, id, from, to).Get(from) <==> i in s.rings.Get(from) && i != id
    ensures forall i :: i in Relink(s.rings, id, from, to).Get(to) <==> i in s.rings.Get(to) || i == id
  {
    RingsAreDisjoint(s);
    RelinkGet(s.rings, id, from, to);
    RemoveMembers(s.rings.Get(from), id);
  }

  lemma MoveKeepsCore(s: State, id: Id, to: Status)
    requires Core(s)
    requires to != Free
    requires to == Timeout ==> HasEntry(s.sleepers, id)
    ensures Core(Move(s, id, to))
  {
    var from := s.rings.StatusOf(id);
    if from != Free && CanMove(from, to) {
      RelinkBag(s.rings, id, from, to);
      RelinkGet(s.rings, id, from, to);
      RelinkMembers(s, id, from, to);
    }
  }

  // ----- growing the pool and creating

  lemma RangeBag(lo: nat, n: nat)
    ensures multiset(Range(lo, n)) == multiset(RangeSet(lo, n))
    ensures |RangeSet(lo, n)| == n
    ensures forall i :: i in RangeSet(lo, n) <==> lo <= i < lo + n
  {
    forall i ensures i in Range(lo, n) <==> lo <= i < lo + n {
      if lo <= i < lo + n {
        assert Range(lo, n)[i - lo] == i;
      }
    }
    NoDuplicatesBag(Range(lo, n), RangeSet(lo, n));
  }

  lemma InitialInv(poolSize: nat, grants: nat)
    ensures Inv(Initial(poolSize, grants))
  {
    RangeBag(1, Min(Min(poolSize, GROWTH_STEP), grants));
  }

  lemma AddToFree(r: Rings, known: set<Id>, lo: nat, n: nat)
    requires Population(r, known)
    requires forall i :: i in known ==> i < lo
    ensures Population(r.(free := r.free + Range(lo, n)), known + RangeSet(lo, n))
    ensures |known + RangeSet(lo, n)| == |known| + n
  {
    RangeBag(lo, n);
    SetBag(r, Free, r.free + Range(lo, n));
    assert known !! RangeSet(lo, n);
    assert multiset(known + RangeSet(lo, n)) == multiset(known) + multiset(RangeSet(lo, n));
    BagExtend(r.Set(Free, r.free + Range(lo, n)).All(), r.All(), multiset(r.free), multiset(RangeSet(lo, n)));
  }

  lemma GrowKeepsBooks(s: State, grants: nat)
    requires Books(s)
    requires s.uniqId + IdsDrawn(s, grants) <= s.poolSize
    requires |Grow(s, grants).known| == |s.known| + Min(GrowthWanted(s), grants)
    ensures Books(Grow(s, grants))
  {
    RangeBag(s.uniqId + 1, Min(GrowthWanted(s), grants));
  }

  lemma GrowKeepsCore(s: State, grants: nat)
    requires Core(s)
    requires s.uniqId + IdsDrawn(s, grants) <= s.poolSize
    ensures Core(Grow(s, grants))
  {
    AddToFree(s.rings, s.known, s.uniqId + 1, Min(GrowthWanted(s), grants));
    GrowKeepsBooks(s, grants);
  }

  lemma BagExtend(u: multiset<Id>, r: multiset<Id>, q: multiset<Id>, more: multiset<Id>)
    requires u + q == r + (q + more)
    ensures u == r + more
  {
    forall x ensures u[x] == (r + more)[x] {
      assert (u + q)[x] == (r + (q + more))[x];
    }
  }

  /** The pool accounting: nothing is lost, and the free ring is what is not in use. */
  lemma Accounting(s: State)
    requires Core(s)
    ensures |s.rings.free| + s.usedSize == s.currentSize <= s.poolSize
    ensures s.usedSize >= s.currentSize <==> s.rings.free == []
    ensures s.usedSize == 0 <==>
            s.rings.active == s.rings.avail == s.rings.inactive == s.rings.timeout == []
  {
    assert |s.rings.All()| == |s.known|;
  }

  /** Taking the oldest free coroutine into use. */
  lemma TakeFree(r: Rings)
    requires r.free != []
    ensures Relink(r, r.free[0], Free, Avail) == r.(free := r.free[1..], avail := r.avail + [r.free[0]])
  {
    assert Remove(r.free, r.free[0]) == r.free[1..];
  }

  lemma TakeFreeKeepsCore(g: State)
    requires Core(g) && g.rings.free != []
    ensures Core(g.(usedSize := g.usedSize + 1, rings := Relink(g.rings, g.rings.free[0], Free, Avail)))
  {
    RelinkBag(g.rings, g.rings.free[0], Free, Avail);
    TakeFree(g.rings);
    TakeFreeKeepsBooks(g);
  }

  lemma TakeFreeKeepsBooks(g: State)
    requires Books(g) && g.rings.free != []
    ensures Books(g.(usedSize := g.usedSize + 1,
                     rings := g.rings.(free := g.rings.free[1..], avail := g.rings.avail + [g.rings.free[0]])))
  {}

  /** createCoroutine keeps the books and never reaches for the sentinel of an empty free ring. */
  lemma CreateKeepsCore(s: State, grants: nat)
    requires Core(s) && OpOk(s, Create(grants))
    ensures Core(CreateCoroutine(s, grants).0)
  {
    var g := if NeedsGrowth(s) then Grow(s, grants) else s;
    if NeedsGrowth(s) {
      GrowKeepsCore(s, grants);
    }
    if g.rings.free != [] {
      TakeFreeKeepsCore(g);
    }
  }

  /** With a free coroutine at hand, createCoroutine hands out the oldest, at the tail of the avail ring. */
  lemma CreateFromFree(s: State, grants: nat)
    requires !NeedsGrowth(s)
    ensures CreateCoroutine(s, grants) ==
            (s.(usedSize := s.usedSize + 1,
                rings := s.rings.(free := s.rings.free[1..], avail := s.rings.avail + [s.rings.free[0]])),
             s.rings.free[0])
  {
    TakeFree(s.rings);
  }

  /** It fails when the pool is exhausted or no stack can be had, and at worst wastes one id. */
  lemma CreateRefused(s: State, grants: nat)
    requires NeedsGrowth(s) && (GrowthWanted(s) == 0 || grants == 0)
    ensures CreateCoroutine(s, grants) ==
            (s.(uniqId := s.uniqId + if GrowthWanted(s) == 0 then 0 else 1), MAIN)
  {
    assert s.rings.free + Range(s.uniqId + 1, 0) == s.rings.free;
    assert s.known + RangeSet(s.uniqId + 1, 0) == s.known;
  }

  lemma GrownRings(s: State, grants: nat)
    requires s.rings.free == [] && GrowthWanted(s) > 0 && grants > 0
    ensures var g, made := Grow(s, grants), Min(GrowthWanted(s), grants);
            g.rings == s.rings.(free := Range(s.uniqId + 1, made)) && g.currentSize == s.currentSize + made
            && made > 0
  {
    var made := Min(GrowthWanted(s), grants);
    assert [] + Range(s.uniqId + 1, made) == Range(s.uniqId + 1, made);
  }

  lemma CreateTaken(s: State, grants: nat, g: State)
    requires g == if NeedsGrowth(s) then Grow(s, grants) else s
    requires g.rings.free != [] && !(NeedsGrowth(s) && Min(GrowthWanted(s), grants) == 0)
    ensures CreateCoroutine(s, grants)
            == (g.(usedSize := g.usedSize + 1, rings := Relink(g.rings, g.rings.free[0], Free, Avail)),
                g.rings.free[0])
  {}

  lemma CreateFailed(s: State, grants: nat)
    requires NeedsGrowth(s) && Min(GrowthWanted(s), grants) == 0
    ensures CreateCoroutine(s, grants) == (Grow(s, grants), MAIN)
  {}

  /** `id` was free, or is the first of `made` new ones, and is now in use, at the tail of avail. */
  ghost predicate TookOne(s: State, t: State, id: Id, made: nat) {
    && t.usedSize == s.usedSize + 1 && t.rings.avail == s.rings.avail + [id]
    && t.rings.active == s.rings.active && t.rings.inactive == s.rings.inactive && t.rings.timeout == s.rings.timeout
    && if s.rings.free != [] then
         [id] + t.rings.free == s.rings.free && t.currentSize == s.currentSize && t.uniqId == s.uniqId
       else
         [id] + t.rings.free == Range(s.uniqId + 1, made) && t.currentSize == s.currentSize + made
         && s.uniqId + made <= t.uniqId <= s.uniqId + made + 1
  }

  lemma TookFree(s: State, grants: nat)
    requires !NeedsGrowth(s)
    ensures var (t, id) := CreateCoroutine(s, grants);
            id == s.rings.free[0] && TookOne(s, t, id, Min(GrowthWanted(s), grants))
  {
    CreateFromFree(s, grants);
  }

  lemma TookNew(s: State, grants: nat)
    requires s.rings.free == [] && GrowthWanted(s) > 0 && grants > 0
    ensures var (t, id) := CreateCoroutine(s, grants);
            id == s.uniqId + 1 && TookOne(s, t, id, Min(GrowthWanted(s), grants))
  {
    var g := Grow(s, grants);
    var line := Range(s.uniqId + 1, Min(GrowthWanted(s), grants));
    GrownRings(s, grants);
    CreateTaken(s, grants, g);
    TakeFree(g.rings);
    TookHead(s, g, line, CreateCoroutine(s, grants).0, Min(GrowthWanted(s), grants));
  }

  lemma TookHead(s: State, g: State, line: seq<Id>, t: State, made: nat)
    requires s.rings.free == [] && line == Range(s.uniqId + 1, made) && made > 0
    requires g.rings == s.rings.(free := line) && g.usedSize == s.usedSize && g.currentSize == s.currentSize + made
    requires s.uniqId + made <= g.uniqId <= s.uniqId + made + 1
    requires t == g.(usedSize := g.usedSize + 1,
                     rings := g.rings.(free := line[1..], avail := g.rings.avail + [line[0]]))
    ensures line[0] == s.uniqId + 1 && TookOne(s, t, line[0], made)
  {
    assert [line[0]] + line[1..] == line;
  }

  lemma FreeIsNotMain(s: State)
    requires Core(s) && s.rings.free != []
    ensures s.rings.free[0] != MAIN
  {
    RingsAreDisjoint(s);
    assert s.rings.Get(Free) == s.rings.free;
    assert s.rings.free[0] in s.rings.Get(Free);
    assert s.rings.free[0] in s.known;
  }

  /** What createCoroutine does. It fails exactly when no coroutine is free and the pool is full or no stack can be
      had, and then changes no ring. Otherwise it hands out a coroutine that was not in use, the oldest free one or
      else the first of those it makes, as many as are missing, as there is memory for, and at most 100 at a time;
      and it changes no other ring but free and avail. */
  lemma CreateOutcome(s: State, grants: nat)
    requires Inv(s)
    ensures s.currentSize <= s.poolSize
    ensures var (t, id) := CreateCoroutine(s, grants);
      if s.rings.free == [] && (s.currentSize == s.poolSize || grants == 0)
      then id == MAIN && Refused(s, t)
      else id != MAIN && TookOne(s, t, id, Min(Min(s.poolSize - s.currentSize, 100), grants))
  {
    Accounting(s);
    Wanted(s);
    if s.rings.free != [] {
      FreeIsNotMain(s);
      TookFree(s, grants);
    } else if GrowthWanted(s) == 0 || grants == 0 {
      RefusedNew(s, grants);
    } else {
      TookNew(s, grants);
    }
  }

  lemma Wanted(s: State)
    requires s.currentSize <= s.poolSize
    ensures GrowthWanted(s) == Min(s.poolSize - s.currentSize, 100)
  {}

  /** Nothing was created; an id was drawn in vain if there was room in the pool. */
  ghost predicate Refused(s: State, t: State) {
    && t.rings == s.rings && t.usedSize == s.usedSize && t.currentSize == s.currentSize
    && t.uniqId == s.uniqId + if s.currentSize == s.poolSize then 0 else 1
  }

  lemma RefusedNew(s: State, grants: nat)
    requires NeedsGrowth(s) && s.currentSize <= s.poolSize && (GrowthWanted(s) == 0 || grants == 0)
    ensures CreateCoroutine(s, grants).1 == MAIN && Refused(s, CreateCoroutine(s, grants).0)
  {
    CreateRefused(s, grants);
  }

  // ----- running code

  /** What an operation of running code leaves alone. */
  lemma ApplyFrame(s: State, op: Op)
    ensures var t := Apply(s, op);
            && t.rings.active == s.rings.active
            && t.rings.inactive == s.rings.inactive
            && t.rings.timeout == s.rings.timeout
            && s.rings.avail <= t.rings.avail
            && t.current == s.current && t.poolSize == s.poolSize
            && t.sleepers == s.sleepers && t.selfYielded == s.selfYielded
            && s.wakeQueue <= t.wakeQueue
            && (s.terminal ==> t.terminal)
  {
    match op
    case Create(grants) =>
      var g := if NeedsGrowth(s) then Grow(s, grants) else s;
      if g.rings.free != [] {
        TakeFree(g.rings);
      }
    case Put(id) =>
    case Terminate =>
  }

  lemma ApplyKeepsInv(s: State, op: Op)
    requires Inv(s) && OpOk(s, op)
    ensures Inv(Apply(s, op))
  {
    ApplyFrame(s, op);
    match op
    case Create(grants) => CreateKeepsCore(s, grants);
    case Put(id) =>
    case Terminate =>
  }

  /** Coroutine `c` is the one being run, dispatched from the ring `st`. */
  ghost predicate RunsFrom(s: State, st: Status) {
    && (st == Active || st == Avail)
    && s.rings.Get(st) != []
    && s.current == s.rings.Get(st)[0]
  }

  /** The rings after the head of `st` went to the tail of `to`. */
  ghost function HeadLeft(r: Rings, st: Status, to: Status): Rings
    requires r.Get(st) != []
  {
    r.Set(st, r.Get(st)[1..]).Set(to, r.Get(to) + [r.Get(st)[0]])
  }

  lemma RelinkHead(r: Rings, st: Status, to: Status)
    requires st != to && r.Get(st) != []
    ensures Relink(r, r.Get(st)[0], st, to) == HeadLeft(r, st, to)
  {
    assert Remove(r.Get(st), r.Get(st)[0]) == r.Get(st)[1..];
  }

  /** The status of a running coroutine names the ring it was dispatched from. */
  lemma RunningStatus(s: State, st: Status)
    requires Core(s) && RunsFrom(s, st)
    ensures s.rings.StatusOf(s.current) == st
    ensures s.current in s.known && s.usedSize > 0
    ensures s.current !in s.rings.inactive && s.current !in s.rings.timeout
  {
    RingsAreDisjoint(s);
    assert s.current in s.rings.Get(st);
    assert s.rings.StatusOf(s.current) == st;
    assert s.rings.Get(Inactive) == s.rings.inactive && s.rings.Get(Timeout) == s.rings.timeout;
  }

  /** A running coroutine leaves the head of its ring for the tail of another. */
  lemma LeaveHead(s: State, st: Status, to: Status)
    requires Core(s) && RunsFrom(s, st)
    requires to == Inactive || to == Timeout || to == Free
    ensures MoveTo(s.rings, s.current, to) == HeadLeft(s.rings, st, to)
    ensures Population(HeadLeft(s.rings, st, to), s.known)
  {
    RunningStatus(s, st);
    RelinkHead(s.rings, st, to);
    RelinkBag(s.rings, s.current, st, to);
  }

  ghost predicate SortedByDeadline(q: seq<Sleeper>) {
    forall i, j :: 0 <= i < j < |q| ==> q[i].deadline <= q[j].deadline
  }

  lemma {:induction false} InsertSleeperBag(q: seq<Sleeper>, e: Sleeper)
    ensures multiset(InsertSleeper(q, e)) == multiset(q) + multiset{e}
    ensures forall x :: x in InsertSleeper(q, e) <==> x in q || x == e
  {
    if q != [] && e.deadline >= q[0].deadline {
      InsertSleeperBag(q[1..], e);
      assert q == [q[0]] + q[1..];
    }
  }

  /** A deadline is filed behind every one that is not later, equal ones included, and in front of the later ones. */
  lemma {:induction false} InsertSleeperPlace(q: seq<Sleeper>, e: Sleeper)
    requires SortedByDeadline(q)
    ensures exists k :: 0 <= k <= |q| && FiledAt(q, e, k)
  {
    if q == [] || e.deadline < q[0].deadline {
      assert FiledAt(q, e, 0);
    } else {
      InsertSleeperPlace(q[1..], e);
      var k :| 0 <= k <= |q| - 1 && FiledAt(q[1..], e, k);
      assert q[..k + 1] == [q[0]] + q[1..][..k];
      assert FiledAt(q, e, k + 1);
    }
  }

  ghost predicate FiledAt(q: seq<Sleeper>, e: Sleeper, k: nat)
    requires k <= |q|
  {
    && InsertSleeper(q, e) == q[..k] + [e] + q[k..]
    && (forall f :: f in q[..k] ==> f.deadline <= e.deadline)
    && (forall f :: f in q[k..] ==> f.deadline > e.deadline)
  }

  lemma {:induction false} InsertSleeperSorted(q: seq<Sleeper>, e: Sleeper)
    requires SortedByDeadline(q)
    ensures SortedByDeadline(InsertSleeper(q, e))
  {
    if q != [] && e.deadline >= q[0].deadline {
      InsertSleeperSorted(q[1..], e);
      InsertSleeperBag(q[1..], e);
      var rest := InsertSleeper(q[1..], e);
      forall i | 0 <= i < |rest| ensures q[0].deadline <= rest[i].deadline {
        assert rest[i] in rest;
      }
    }
  }

  lemma EndKeepsBooks(s: State, st: Status, e: Ending)
    requires Books(s) && RunsFrom(s, st) && s.current in s.known && s.usedSize > 0
    requires MoveTo(s.rings, s.current, Destination(e)) == HeadLeft(s.rings, st, Destination(e))
    ensures Books(End(s, e))
  {
    if e.Sleep? {
      var entry := Sleeper(e.now + Abs(e.span), s.current);
      InsertSleeperBag(s.sleepers, entry);
      InsertSleeperSorted(s.sleepers, entry);
      assert forall i :: HasEntry(s.sleepers, i) ==> HasEntry(InsertSleeper(s.sleepers, entry), i);
      assert HasEntry(InsertSleeper(s.sleepers, entry), s.current);
    }
  }

  ghost function Destination(e: Ending): Status {
    match e
    case Yield(_) => Inactive
    case Sleep(_, _) => Timeout
    case Finish => Free
  }

  /** The runnable rings after the head of `st` is gone. */
  ghost predicate HeadGone(r: Rings, t: Rings, st: Status) {
    && t.active == (if st == Active && r.active != [] then r.active[1..] else r.active)
    && t.avail == (if st == Avail && r.avail != [] then r.avail[1..] else r.avail)
  }

  lemma HeadLeftShape(r: Rings, st: Status, to: Status)
    requires (st == Active || st == Avail) && r.Get(st) != []
    requires to == Inactive || to == Timeout || to == Free
    ensures HeadGone(r, HeadLeft(r, st, to), st)
    ensures HeadLeft(r, st, to).Get(to) == r.Get(to) + [r.Get(st)[0]]
    ensures forall x :: x != st && x != to ==> HeadLeft(r, st, to).Get(x) == r.Get(x)
  {}

  lemma EndShape(s: State, st: Status, e: Ending)
    requires RunsFrom(s, st) && s.usedSize > 0
    requires MoveTo(s.rings, s.current, Destination(e)) == HeadLeft(s.rings, st, Destination(e))
    ensures End(s, e).rings == HeadLeft(s.rings, st, Destination(e))
    ensures End(s, e) == s.(rings := End(s, e).rings, current := MAIN, usedSize := End(s, e).usedSize,
                            sleepers := End(s, e).sleepers, selfYielded := End(s, e).selfYielded)
    ensures End(s, e).selfYielded == s.selfYielded + if e == Yield(true) && !s.terminal then [s.current] else []
  {}

  lemma EndKeepsParked(s: State, t: State, st: Status, e: Ending)
    requires Parked(s) && RunsFrom(s, st) && s.current !in s.rings.inactive
    requires t.rings == HeadLeft(s.rings, st, Destination(e))
    requires t.selfYielded == s.selfYielded + if e == Yield(true) && !s.terminal then [s.current] else []
    ensures Parked(t)
  {
    HeadLeftShape(s.rings, st, Destination(e));
    assert t.rings.Get(Inactive) == t.rings.inactive && s.rings.Get(Inactive) == s.rings.inactive;
    if e == Yield(true) {
      assert t.rings.inactive == s.rings.inactive + [s.current];
    }
  }

  /** Suspending or finishing keeps the invariant and takes the coroutine off the head of its ring. */
  lemma EndKeepsInv(s: State, st: Status, e: Ending)
    requires Inv(s) && RunsFrom(s, st)
    ensures s.usedSize > 0
    ensures Inv(End(s, e)) && End(s, e).current == MAIN
    ensures End(s, e).rings == HeadLeft(s.rings, st, Destination(e))
    ensures End(s, e) == s.(rings := End(s, e).rings, current := MAIN, usedSize := End(s, e).usedSize,
                            sleepers := End(s, e).sleepers, selfYielded := End(s, e).selfYielded)
  {
    RunningStatus(s, st);
    LeaveHead(s, st, Destination(e));
    EndKeepsBooks(s, st, e);
    EndShape(s, st, e);
    EndKeepsParked(s, End(s, e), st, e);
  }

  // ----- the wake-up phase

  ghost predicate Runnable(r: Rings, id: Id) {
    id in r.active || id in r.avail
  }

  /** `t` is `r` with some waiting coroutines appended to the runnable rings. */
  ghost predicate Woke(r: Rings, t: Rings) {
    && t.free == r.free
    && r.active <= t.active
    && r.avail <= t.avail
    && (forall i :: i in t.timeout ==> i in r.timeout)
    && (forall i :: i in r.inactive ==> i in t.inactive || Runnable(t, i))
  }

  lemma WokeTransitive(r: Rings, t: Rings, u: Rings)
    requires Woke(r, t) && Woke(t, u)
    ensures Woke(r, u)
    ensures forall i :: Runnable(r, i) ==> Runnable(u, i)
  {}

  /** A wake-up appends to a runnable ring and takes the coroutine out of a waiting one. */
  lemma WakeMove(s: State, id: Id, to: Status)
    requires Population(s.rings, s.known) && (to == Active || to == Avail)
    ensures var t := MoveTo(s.rings, id, to);
      && Woke(s.rings, t)
      && (id in s.known && id !in s.rings.free && to == Active ==> Runnable(t, id))
      && (id in s.rings.inactive ==> Runnable(t, id))
      && (to == Active ==> id !in t.timeout)
  {
    RingsAreDisjoint(s);
    var r := s.rings;
    var from := r.StatusOf(id);
    assert r.Get(Inactive) == r.inactive && r.Get(Timeout) == r.timeout;
    assert r.Get(Active) == r.active && r.Get(Avail) == r.avail && r.Get(Free) == r.free;
    if from != Free && CanMove(from, to) {
      RelinkMembers(s, id, from, to);
    }
  }

  lemma MoveKeepsPopulation(s: State, id: Id, to: Status)
    requires Population(s.rings, s.known)
    ensures Population(MoveTo(s.rings, id, to), s.known)
  {
    var from := s.rings.StatusOf(id);
    if from != Free && CanMove(from, to) {
      RelinkBag(s.rings, id, from, to);
    }
  }

  lemma {:induction false} MoveEachKeepsCore(s: State, ids: seq<Id>, to: Status)
    requires Core(s) && (to == Active || to == Avail)
    ensures Core(MoveEach(s, ids, to))
    decreases |ids|
  {
    if ids != [] {
      MoveKeepsCore(s, ids[0], to);
      MoveEachKeepsCore(Move(s, ids[0], to), ids[1..], to);
    }
  }

  lemma {:induction false} MoveEachWakes(s: State, ids: seq<Id>, to: Status)
    requires Population(s.rings, s.known) && (to == Active || to == Avail)
    ensures var t := MoveEach(s, ids, to);
      && Woke(s.rings, t.rings)
      && t == s.(rings := t.rings)
      && (forall i :: i in ids && i in s.known && i !in s.rings.free && to == Active ==> Runnable(t.rings, i))
      && (forall i :: i in ids && (i in s.rings.inactive || Runnable(s.rings, i)) ==> Runnable(t.rings, i))
    decreases |ids|
  {
    if ids != [] {
      var m := Move(s, ids[0], to);
      WakeMove(s, ids[0], to);
      MoveKeepsPopulation(s, ids[0], to);
      MoveEachWakes(m, ids[1..], to);
      WokeTransitive(s.rings, m.rings, MoveEach(s, ids, to).rings);
    }
  }

  /** Dropping the first deadline entry once its coroutine has been woken. */
  lemma PopSleeper(s: State)
    requires Core(s) && s.sleepers != []
    ensures Core(Move(s, s.sleepers[0].id, Active).(sleepers := s.sleepers[1..]))
  {
    var id := s.sleepers[0].id;
    var m := Move(s, id, Active);
    WakeMove(s, id, Active);
    MoveKeepsCore(s, id, Active);
    forall i | i in m.rings.timeout ensures HasEntry(s.sleepers[1..], i) {
      var e :| e in s.sleepers && e.id == i;
      assert e in s.sleepers[1..];
    }
  }

  lemma {:induction false} WakeByTimeoutFacts(s: State, now: int)
    requires Core(s)
    ensures var t := WakeByTimeout(s, now);
      && Core(t) && Woke(s.rings, t.rings)
      && t == s.(rings := t.rings, sleepers := t.sleepers)
      && (s.terminal || t.sleepers == [] || t.sleepers[0].deadline > now)
    decreases |s.sleepers|
  {
    if !(s.terminal || s.sleepers == [] || s.sleepers[0].deadline > now) {
      var m := Move(s, s.sleepers[0].id, Active).(sleepers := s.sleepers[1..]);
      PopSleeper(s);
      WakeMove(s, s.sleepers[0].id, Active);
      WakeByTimeoutFacts(m, now);
      WokeTransitive(s.rings, m.rings, WakeByTimeout(s, now).rings);
    }
  }

  lemma WakeBySelfFacts(s: State)
    requires Core(s) && !s.terminal
    ensures var t := WakeBySelf(s);
      && Core(t) && Woke(s.rings, t.rings)
      && t == s.(rings := t.rings, selfYielded := [])
      && (forall i :: i in s.selfYielded && (i in s.rings.inactive || Runnable(s.rings, i)) ==> Runnable(t.rings, i))
  {
    MoveEachKeepsCore(s, s.selfYielded, Avail);
    MoveEachWakes(s, s.selfYielded, Avail);
  }

  lemma WakeupFacts(s: State)
    requires Core(s) && !s.terminal
    ensures var t := Wakeup(s);
      && Core(t) && Woke(s.rings, t.rings)
      && t == s.(rings := t.rings, wakeQueue := [])
      && (forall i :: i in s.wakeQueue && i !in s.rings.free ==> Runnable(t.rings, i))
  {
    MoveEachKeepsCore(s.(wakeQueue := []), s.wakeQueue, Active);
    MoveEachWakes(s.(wakeQueue := []), s.wakeQueue, Active);
  }

  /** No lost wake-up: after the wake-up phase every coroutine that yielded to itself, and every one that
      another thread asked for and that is in use, is in a runnable ring; the requests are all consumed. */
  lemma WakePhaseFacts(s: State, now: int)
    requires Core(s) && Parked(s) && !s.terminal
    ensures var t := WakePhase(s, now);
      && Core(t) && Woke(s.rings, t.rings)
      && t == s.(rings := t.rings, sleepers := t.sleepers, selfYielded := [], wakeQueue := [])
      && (forall i :: i in s.selfYielded ==> Runnable(t.rings, i))
      && (forall i :: i in s.wakeQueue && i !in s.rings.free ==> Runnable(t.rings, i))
      && (t.sleepers == [] || t.sleepers[0].deadline > now)
  {
    var a := WakeByTimeout(s, now);
    WakeByTimeoutFacts(s, now);
    WakeBySelfFacts(a);
    var b := WakeBySelf(a);
    WakeupFacts(b);
    WokeTransitive(a.rings, b.rings, Wakeup(b).rings);
    WokeTransitive(s.rings, a.rings, Wakeup(b).rings);
  }
}
