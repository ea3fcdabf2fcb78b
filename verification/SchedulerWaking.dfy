/** Who is woken, and in which order: the wake-up phase of a round in closed form. */
module SchedulerWaking {
  import opened Sequences
  import opened CoroutineRing
  import opened SchedulerModel
  import opened SchedulerInvariant

  function Ids(q: seq<Sleeper>): (ids: seq<Id>)
    ensures |ids| == |q|
    ensures forall i :: 0 <= i < |q| ==> ids[i] == q[i].id
  {
    if q == [] then [] else [q[0].id] + Ids(q[1..])
  }

  lemma {:induction false} IdsAppend(p: seq<Sleeper>, q: seq<Sleeper>)
    ensures Ids(p + q) == Ids(p) + Ids(q)
  {}

  /** How many entries at the front of the multimap are due. */
  function DueCount(q: seq<Sleeper>, now: int): (n: nat)
    ensures n <= |q|
    ensures forall i :: 0 <= i < n ==> q[i].deadline <= now
    ensures n < |q| ==> q[n].deadline > now
  {
    if q == [] || q[0].deadline > now then 0 else 1 + DueCount(q[1..], now)
  }

  /** In a sorted multimap the entries at the front that are due are all that are due. */
  lemma DueIsAll(q: seq<Sleeper>, now: int)
    requires SortedByDeadline(q)
    ensures forall e :: e in q[..DueCount(q, now)] <==> e in q && e.deadline <= now
    ensures forall e :: e in q[DueCount(q, now)..] <==> e in q && e.deadline > now
  {
    var n := DueCount(q, now);
    assert q == q[..n] + q[n..];
    forall i | n <= i < |q| ensures q[i].deadline > now {
      assert q[n].deadline <= q[i].deadline;
    }
  }

  // ----- joining a runnable ring

  ghost function Waiting(r: Rings): set<Id> {
    (set i | i in r.inactive) + (set i | i in r.timeout)
  }

  /** The coroutines that a request to move to the active or the avail ring moves. */
  ghost function Movable(r: Rings, to: Status): set<Id> {
    if to == Active then Waiting(r) else set i | i in r.inactive
  }

  ghost function Members(ids: seq<Id>): set<Id> { set i | i in ids }

  /** The ids of the list that are waiting, each at its first occurrence. */
  ghost function FirstHits(ids: seq<Id>, waiting: set<Id>): seq<Id> {
    if ids == [] then []
    else (if ids[0] in waiting then [ids[0]] else []) + FirstHits(ids[1..], waiting - {ids[0]})
  }

  /** The rings after each of `ids` was asked to join the active or the avail ring, in that order: those that can
      have left where they waited, and are at the tail. */
  ghost function Woken(r: Rings, ids: seq<Id>, to: Status): Rings {
    var joining := FirstHits(ids, Movable(r, to));
    if to == Active then
      r.(active := r.active + joining,
         inactive := Without(r.inactive, Members(ids)), timeout := Without(r.timeout, Members(ids)))
    else
      r.(avail := r.avail + joining, inactive := Without(r.inactive, Members(ids)))
  }

  /** One move. */
  lemma WakeOne(s: State, id: Id, to: Status)
    requires Population(s.rings, s.known) && (to == Active || to == Avail)
    ensures MoveTo(s.rings, id, to) == Woken(s.rings, [id], to)
  {
    RingsAreDisjoint(s);
    var r := s.rings;
    assert r.Get(Inactive) == r.inactive && r.Get(Timeout) == r.timeout;
    assert Members([id]) == {id};
    assert FirstHits([id], Movable(r, to)) == if id in Movable(r, to) then [id] else [];
    LeavesRing(r.inactive, id);
    LeavesRing(r.timeout, id);
    if to == Active {
      WakeToActive(s, id);
    } else {
      WakeToAvail(s, id);
    }
  }

  lemma LeavesRing(q: seq<Id>, id: Id)
    requires NoDuplicates(q)
    ensures Without(q, {id}) == if id in q then Remove(q, id) else q
  {
    if id in q {
      RemoveIsWithout(q, id);
    } else {
      WithoutNone(q, {id});
    }
  }

  lemma WakeToActive(s: State, id: Id)
    requires Population(s.rings, s.known)
    ensures var r := s.rings;
      MoveTo(r, id, Active) ==
        r.(active := r.active + (if id in Waiting(r) then [id] else []),
           inactive := if id in r.inactive then Remove(r.inactive, id) else r.inactive,
           timeout := if id in r.timeout then Remove(r.timeout, id) else r.timeout)
  {
    RingsAreDisjoint(s);
    var r := s.rings;
    assert r.Get(Inactive) == r.inactive && r.Get(Timeout) == r.timeout;
    assert r.active + [] == r.active;
  }

  lemma WakeToAvail(s: State, id: Id)
    requires Population(s.rings, s.known)
    ensures var r := s.rings;
      MoveTo(r, id, Avail) ==
        r.(avail := r.avail + (if id in r.inactive then [id] else []),
           inactive := if id in r.inactive then Remove(r.inactive, id) else r.inactive)
  {
    RingsAreDisjoint(s);
    var r := s.rings;
    assert r.Get(Inactive) == r.inactive;
    assert r.avail + [] == r.avail;
  }

  lemma WokenNone(r: Rings, to: Status)
    ensures Woken(r, [], to) == r
  {
    WithoutNone(r.inactive, Members([]));
    WithoutNone(r.timeout, Members([]));
  }

  lemma MovableAfter(r: Rings, id: Id, to: Status)
    ensures Movable(Woken(r, [id], to), to) == Movable(r, to) - {id}
  {
    WithoutMembers(r.inactive, Members([id]));
    WithoutMembers(r.timeout, Members([id]));
  }

  lemma LeaveCons(q: seq<Id>, id: Id, ids: seq<Id>)
    ensures Without(Without(q, Members([id])), Members(ids)) == Without(q, Members([id] + ids))
  {
    assert Members([id] + ids) == Members([id]) + Members(ids);
    WithoutTwice(q, Members([id]), Members(ids));
  }

  lemma HitsCons(id: Id, ids: seq<Id>, waiting: set<Id>)
    ensures FirstHits([id] + ids, waiting) == FirstHits([id], waiting) + FirstHits(ids, waiting - {id})
  {
    assert ([id] + ids)[1..] == ids;
    assert FirstHits([id], waiting) == if id in waiting then [id] else [];
  }

  lemma JoinCons(q: seq<Id>, id: Id, ids: seq<Id>, waiting: set<Id>)
    ensures q + FirstHits([id], waiting) + FirstHits(ids, waiting - {id}) == q + FirstHits([id] + ids, waiting)
  {
    HitsCons(id, ids, waiting);
  }

  /** One request and then the others. */
  lemma WokenCons(r: Rings, id: Id, ids: seq<Id>, to: Status)
    ensures Woken(Woken(r, [id], to), ids, to) == Woken(r, [id] + ids, to)
  {
    MovableAfter(r, id, to);
    LeaveCons(r.inactive, id, ids);
    LeaveCons(r.timeout, id, ids);
    JoinCons(if to == Active then r.active else r.avail, id, ids, Movable(r, to));
  }

  /** Asking each of a list to become runnable. */
  lemma {:induction false} MoveEachWokes(s: State, ids: seq<Id>, to: Status)
    requires Population(s.rings, s.known) && (to == Active || to == Avail)
    ensures MoveEach(s, ids, to) == s.(rings := Woken(s.rings, ids, to))
    decreases |ids|
  {
    if ids == [] {
      WokenNone(s.rings, to);
    } else {
      WakeOne(s, ids[0], to);
      MoveKeepsPopulation(s, ids[0], to);
      MoveEachWokes(Move(s, ids[0], to), ids[1..], to);
      WokenCons(s.rings, ids[0], ids[1..], to);
      assert [ids[0]] + ids[1..] == ids;
    }
  }

  lemma {:induction false} WakeByTimeoutDrops(s: State, now: int)
    requires !s.terminal
    ensures WakeByTimeout(s, now).sleepers == s.sleepers[DueCount(s.sleepers, now)..]
    decreases |s.sleepers|
  {
    if s.sleepers != [] && s.sleepers[0].deadline <= now {
      WakeByTimeoutDrops(Move(s, s.sleepers[0].id, Active).(sleepers := s.sleepers[1..]), now);
    }
  }

  lemma DueIds(q: seq<Sleeper>, now: int)
    requires q != [] && q[0].deadline <= now
    ensures DueCount(q, now) == 1 + DueCount(q[1..], now)
    ensures Ids(q[..DueCount(q, now)]) == [q[0].id] + Ids(q[1..][..DueCount(q[1..], now)])
  {
    assert q[..DueCount(q, now)] == [q[0]] + q[1..][..DueCount(q[1..], now)];
  }

  /** The ids of the entries that are due, earliest deadline first and equal ones as they were filed. */
  ghost function DueNow(s: State, now: int): seq<Id> {
    Ids(s.sleepers[..DueCount(s.sleepers, now)])
  }

  /** wakeupbytimeout appends to the active ring the waiting coroutines named by the due entries, in deadline order. */
  lemma {:induction false} WakeByTimeoutWakes(s: State, now: int)
    requires Population(s.rings, s.known) && !s.terminal
    ensures WakeByTimeout(s, now).rings == Woken(s.rings, DueNow(s, now), Active)
    decreases |s.sleepers|
  {
    if s.sleepers != [] && s.sleepers[0].deadline <= now {
      var id := s.sleepers[0].id;
      var m := Move(s, id, Active).(sleepers := s.sleepers[1..]);
      WakeOne(s, id, Active);
      MoveKeepsPopulation(s, id, Active);
      WakeByTimeoutWakes(m, now);
      DueIds(s.sleepers, now);
      WokenCons(s.rings, id, DueNow(m, now), Active);
    } else {
      WokenNone(s.rings, Active);
      assert DueNow(s, now) == [];
    }
  }

  /** wakeupbyself appends the listed coroutines that are inactive to the avail ring, in the order of the list. */
  lemma WakeBySelfWakes(s: State)
    requires Population(s.rings, s.known) && !s.terminal
    ensures WakeBySelf(s) == s.(rings := Woken(s.rings, s.selfYielded, Avail), selfYielded := [])
  {
    MoveEachWokes(s, s.selfYielded, Avail);
  }

  /** wakeup appends the waiting coroutines among the requested ones to the active ring, in the order of the
      requests. */
  lemma WakeupWakes(s: State)
    requires Population(s.rings, s.known) && !s.terminal
    ensures Wakeup(s) == s.(rings := Woken(s.rings, s.wakeQueue, Active), wakeQueue := [])
  {
    MoveEachWokes(s.(wakeQueue := []), s.wakeQueue, Active);
  }

  /** The whole wake-up phase: first the sleepers that are due, then the self-yields, then the requests. */
  lemma WakePhaseIs(s: State, now: int)
    requires Core(s) && !s.terminal
    ensures WakePhase(s, now) ==
              s.(rings := Woken(Woken(Woken(s.rings, DueNow(s, now), Active), s.selfYielded, Avail),
                                s.wakeQueue, Active),
                 sleepers := s.sleepers[DueCount(s.sleepers, now)..], selfYielded := [], wakeQueue := [])
  {
    var a := WakeByTimeout(s, now);
    WakeByTimeoutFacts(s, now);
    WakeByTimeoutWakes(s, now);
    WakeByTimeoutDrops(s, now);
    WakeBySelfFacts(a);
    WakeBySelfWakes(a);
    WakeupWakes(WakeBySelf(a));
  }

  /** Who sleeps on, in the same order. */
  lemma WhoSleepsOn(s: State, now: int)
    requires Core(s) && !s.terminal
    ensures WakePhase(s, now).rings.timeout ==
              Without(s.rings.timeout, Members(DueNow(s, now)) + Members(s.wakeQueue))
  {
    WakePhaseIs(s, now);
    WithoutTwice(s.rings.timeout, Members(DueNow(s, now)), Members(s.wakeQueue));
  }

  /** What the phase comes to for the runnable rings: avail gets the self-yields that no entry has woken, in their
      order; active gets the due sleepers and then those requested that still wait, each at its first mention. */
  lemma WakeOrder(s: State, now: int)
    requires Core(s) && Parked(s) && !s.terminal
    ensures var t, due, waiting := WakePhase(s, now), DueNow(s, now), Waiting(s.rings);
      && t.rings.avail == s.rings.avail + Without(s.selfYielded, Members(due))
      && t.rings.active ==
           s.rings.active + FirstHits(due, waiting)
           + FirstHits(s.wakeQueue, waiting - Members(due) - Members(s.selfYielded))
  {
    WakePhaseIs(s, now);
    var due := DueNow(s, now);
    NotAsleep(s);
    WithoutMembers(s.rings.inactive, Members(due));
    FirstHitsWithout(s.selfYielded, Movable(Woken(s.rings, due, Active), Avail), Members(due));
    StillWaiting(s.rings, due, s.selfYielded);
  }

  lemma StillWaiting(r: Rings, due: seq<Id>, yielded: seq<Id>)
    requires forall i :: i in yielded ==> i !in r.timeout
    ensures Waiting(Woken(Woken(r, due, Active), yielded, Avail)) == Waiting(r) - Members(due) - Members(yielded)
  {
    WithoutMembers(r.inactive, Members(due));
    WithoutMembers(r.timeout, Members(due));
    WithoutMembers(Without(r.inactive, Members(due)), Members(yielded));
  }

  lemma NotAsleep(s: State)
    requires Core(s) && Parked(s)
    ensures forall i :: i in s.selfYielded ==> i !in s.rings.timeout
  {
    RingsAreDisjoint(s);
    assert s.rings.Get(Inactive) == s.rings.inactive && s.rings.Get(Timeout) == s.rings.timeout;
  }

  lemma {:induction false} FirstHitsWithout(ids: seq<Id>, waiting: set<Id>, gone: set<Id>)
    requires NoDuplicates(ids) && forall i :: i in ids ==> (i in waiting <==> i !in gone)
    ensures FirstHits(ids, waiting) == Without(ids, gone)
  {
    if ids != [] {
      FirstHitsWithout(ids[1..], waiting - {ids[0]}, gone);
    }
  }

  lemma {:induction false} FirstHitsIn(ids: seq<Id>, waiting: set<Id>, id: Id)
    ensures id in FirstHits(ids, waiting) <==> id in ids && id in waiting
  {
    if ids != [] {
      FirstHitsIn(ids[1..], waiting - {ids[0]}, id);
    }
  }

  ghost predicate Precedes(q: seq<Id>, a: Id, b: Id) {
    exists i, j :: 0 <= i < j < |q| && q[i] == a && q[j] == b
  }

  lemma PrecedesLater(p: seq<Id>, q: seq<Id>, a: Id, b: Id)
    requires Precedes(q, a, b) || (a in p && b in q)
    ensures Precedes(p + q, a, b)
  {
    if Precedes(q, a, b) {
      var i, j :| 0 <= i < j < |q| && q[i] == a && q[j] == b;
      assert (p + q)[|p| + i] == a && (p + q)[|p| + j] == b;
    } else {
      var i :| 0 <= i < |p| && p[i] == a;
      var j :| 0 <= j < |q| && q[j] == b;
      assert (p + q)[i] == a && (p + q)[|p| + j] == b;
    }
  }

  lemma {:induction false} FirstHitsOrder(ids: seq<Id>, waiting: set<Id>, a: Id, b: Id)
    requires a in ids && b in ids && a in waiting && b in waiting && IndexOf(ids, a) < IndexOf(ids, b)
    ensures Precedes(FirstHits(ids, waiting), a, b)
  {
    var head := if ids[0] in waiting then [ids[0]] else [];
    if ids[0] == a {
      FirstHitsIn(ids[1..], waiting - {a}, b);
    } else {
      FirstHitsOrder(ids[1..], waiting - {ids[0]}, a, b);
    }
    PrecedesLater(head, FirstHits(ids[1..], waiting - {ids[0]}), a, b);
  }

  lemma {:induction false} FirstHitsDistinct(ids: seq<Id>, waiting: set<Id>)
    ensures NoDuplicates(FirstHits(ids, waiting))
  {
    if ids != [] {
      FirstHitsDistinct(ids[1..], waiting - {ids[0]});
      FirstHitsIn(ids[1..], waiting - {ids[0]}, ids[0]);
    }
  }

  /** Of two coroutines that wait and are named, the one named first joins first. */
  lemma FirstNamedFirst(ids: seq<Id>, waiting: set<Id>, a: Id, b: Id)
    requires a in ids && b in ids && a in waiting && b in waiting && a != b
    ensures Precedes(FirstHits(ids, waiting), a, b) <==> IndexOf(ids, a) < IndexOf(ids, b)
  {
    FirstHitsDistinct(ids, waiting);
    if IndexOf(ids, a) < IndexOf(ids, b) {
      FirstHitsOrder(ids, waiting, a, b);
    } else {
      FirstHitsOrder(ids, waiting, b, a);
    }
  }
}
