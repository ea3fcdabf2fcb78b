/**
 The ring queue between two threads: one pushes, one pops, and their steps interleave in any way. The indices are
 shared, and memory is sequentially consistent.
 */
module SpscRing {
  import opened Basics
  import opened Folding
  import opened LoopRing

  /** Where push_back is. `held` remembers how many items were stored when it read the other thread's index. */
  datatype Producer<T> =
    | Resting
    | Snapped(items: seq<T>, bulk: bool, end: nat, held: nat)
    | Writing(items: seq<T>, i: nat)
    | Written(items: seq<T>, i: nat)

  /** Where pop_front is. */
  datatype Consumer<T> = Waiting | Found | Taken(value: T)

  /** The shared memory, the two threads, the items of the calls of push_back that were not refused, and what was
      pushed and popped so far. */
  datatype State<T> = State(p: seq<T>, begin: nat, end: nat, producer: Producer<T>, consumer: Consumer<T>,
                            accepted: seq<T>, pushed: seq<T>, popped: seq<T>)

  datatype Step<T> =
    | Snapshot(items: seq<T>, bulk: bool) | TestRoom | WriteSlot | Publish
    | TestItem | ReadSlot | Advance

  predicate Shaped<T>(s: State<T>) {
    2 <= |s.p| <= UINT32 && s.begin < |s.p| && s.end < |s.p|
  }

  predicate Enabled<T>(s: State<T>, step: Step<T>) {
    Shaped(s) && match step
    case Snapshot(items, bulk) => s.producer.Resting? && (bulk || |items| == 1)
    case TestRoom => s.producer.Snapped?
    case WriteSlot => s.producer.Writing? && s.producer.i < |s.producer.items|
    case Publish => s.producer.Written? && s.producer.i < |s.producer.items|
    case TestItem => s.consumer.Waiting?
    case ReadSlot => s.consumer.Found?
    case Advance => s.consumer.Taken?
  }

  predicate Refuses<T>(s: State<T>)
    requires s.producer.Snapped?
  {
    if s.producer.bulk then TooMany(s.begin, s.producer.end, |s.p|, |s.producer.items|)
    else Full(s.begin, s.producer.end, |s.p|)
  }

  function NextItem<T>(items: seq<T>, i: nat): Producer<T> {
    if i < |items| then Writing(items, i) else Resting
  }

  function Do<T>(s: State<T>, step: Step<T>): State<T>
    requires Enabled(s, step)
  {
    match step
    case Snapshot(items, bulk) => s.(producer := Snapped(items, bulk, s.end, Count(s.begin, s.end, |s.p|)))
    case TestRoom =>
      if Refuses(s) then s.(producer := Resting)
      else s.(producer := NextItem(s.producer.items, 0), accepted := s.accepted + s.producer.items)
    case WriteSlot =>
      s.(p := s.p[s.begin := s.producer.items[s.producer.i]], producer := Written(s.producer.items, s.producer.i))
    case Publish =>
      s.(begin := Next(s.begin, |s.p|), pushed := s.pushed + [s.producer.items[s.producer.i]],
         producer := NextItem(s.producer.items, s.producer.i + 1))
    case TestItem => s.(consumer := if s.end == s.begin then Waiting else Found)
    case ReadSlot => s.(consumer := Taken(s.p[s.end]))
    case Advance =>
      s.(end := Next(s.end, |s.p|), popped := s.popped + [s.consumer.value], consumer := Waiting)
  }

  // ----- positions

  /** The slot of the k-th item ever pushed. */
  function Pos(k: nat, capacity: nat): (i: nat)
    requires capacity > 0
    ensures i < capacity
  {
    if k == 0 then 0 else Next(Pos(k - 1, capacity), capacity)
  }

  lemma {:induction false} PosSlot(j: nat, d: nat, capacity: nat)
    requires d <= capacity && capacity > 0
    ensures Pos(j + d, capacity) == Slot(Pos(j, capacity), d, capacity)
  {
    if d > 0 {
      PosSlot(j, d - 1, capacity);
    }
  }

  /** Fewer than `capacity` items apart, no two share a slot. */
  lemma PosDistinct(j: nat, k: nat, capacity: nat)
    requires j < k < j + capacity
    ensures Pos(j, capacity) != Pos(k, capacity)
  {
    PosSlot(j, k - j, capacity);
  }

  lemma PosCount(j: nat, k: nat, capacity: nat)
    requires j <= k < j + capacity
    ensures Count(Pos(k, capacity), Pos(j, capacity), capacity) == k - j
  {
    PosSlot(j, k - j, capacity);
  }

  // ----- the invariant

  ghost predicate Indices<T>(s: State<T>) {
    && Shaped(s)
    && |s.popped| <= |s.pushed| < |s.popped| + |s.p|
    && s.begin == Pos(|s.pushed|, |s.p|) && s.end == Pos(|s.popped|, |s.p|)
  }

  /** Each item pushed and not yet popped is in its slot; the popped ones were the first. */
  ghost predicate Holds<T>(s: State<T>) {
    && Indices(s)
    && s.popped == s.pushed[..|s.popped|]
    && forall k {:trigger s.pushed[k]} :: |s.popped| <= k < |s.pushed| ==> s.p[Pos(k, |s.p|)] == s.pushed[k]
  }

  /** What is still to be pushed of the call under way. */
  function Left<T>(producer: Producer<T>): seq<T> {
    if (producer.Writing? || producer.Written?) && producer.i <= |producer.items| then producer.items[producer.i..]
    else []
  }

  /** The producer's snapshot may be old, but what it counted then bounds what is stored now. */
  ghost predicate ProducerHolds<T>(s: State<T>) {
    Indices(s) && match s.producer
    case Resting => true
    case Snapped(items, bulk, end, held) =>
      && |s.pushed| - |s.popped| <= held < |s.p| && held <= |s.pushed|
      && end == Pos(|s.pushed| - held, |s.p|) && (bulk || |items| == 1)
    case Writing(items, i) => i < |items| && |s.pushed| - |s.popped| + |items| - i < |s.p|
    case Written(items, i) =>
      i < |items| && |s.pushed| - |s.popped| + |items| - i < |s.p| && s.p[s.begin] == items[i]
  }

  ghost predicate ConsumerHolds<T>(s: State<T>) {
    Indices(s) && match s.consumer
    case Waiting => true
    case Found => |s.popped| < |s.pushed|
    case Taken(value) => |s.popped| < |s.pushed| && value == s.pushed[|s.popped|]
  }

  ghost predicate Accounts<T>(s: State<T>) {
    s.accepted == s.pushed + Left(s.producer)
  }

  ghost predicate Inv<T>(s: State<T>) {
    Holds(s) && ProducerHolds(s) && ConsumerHolds(s) && Accounts(s)
  }

  /** The queue the two threads share, as a value. */
  ghost function Queue<T>(s: State<T>): seq<T>
    requires Inv(s)
  {
    s.pushed[|s.popped|..]
  }

  /** What the producer sees is what was stored when it looked: it refuses exactly if the items would not have
      fitted then. */
  lemma RefusesIff<T>(s: State<T>)
    requires Inv(s) && s.producer.Snapped?
    ensures Refuses(s) <==> s.producer.held + |s.producer.items| > |s.p| - 1
  {
    PosCount(|s.pushed| - s.producer.held, |s.pushed|, |s.p|);
    TooManyIff(s.begin, s.producer.end, |s.p|, |s.producer.items|);
  }

  /** The slot that is about to be written holds no item that is still to be popped. */
  lemma WriteIsSafe<T>(s: State<T>, k: nat)
    requires Inv(s) && |s.popped| <= k < |s.pushed|
    ensures Pos(k, |s.p|) != s.begin
  {
    PosDistinct(k, |s.pushed|, |s.p|);
  }

  lemma StepAccounts<T>(s: State<T>, step: Step<T>)
    requires Accounts(s) && Enabled(s, step)
    ensures Accounts(Do(s, step))
  {
    if step.TestRoom? && !Refuses(s) {
      LeftAtStart(s.producer.items);
      assert s.pushed + [] == s.pushed;
    } else if step.Publish? {
      LeftAfter(s.pushed, s.producer.items, s.producer.i);
    }
  }

  lemma LeftAtStart<T>(items: seq<T>)
    ensures Left(NextItem(items, 0)) == items
  {}

  lemma LeftAfter<T>(pushed: seq<T>, items: seq<T>, i: nat)
    requires i < |items|
    ensures pushed + Left(Written(items, i)) == (pushed + [items[i]]) + Left(NextItem(items, i + 1))
  {
    assert items[i..] == [items[i]] + items[i + 1..];
  }

  lemma SnapshotKeeps<T>(s: State<T>, step: Step<T>)
    requires Inv(s) && Enabled(s, step) && (step.Snapshot? || step.TestRoom?)
    ensures Inv(Do(s, step))
  {
    StepAccounts(s, step);
    if step.Snapshot? {
      PosCount(|s.popped|, |s.pushed|, |s.p|);
    } else {
      RefusesIff(s);
    }
  }

  lemma WriteKeeps<T>(s: State<T>)
    requires Inv(s) && Enabled(s, WriteSlot)
    ensures Inv(Do(s, WriteSlot))
  {
    StepAccounts(s, WriteSlot);
    var r := Do(s, WriteSlot);
    forall k | |r.popped| <= k < |r.pushed| ensures r.p[Pos(k, |r.p|)] == r.pushed[k] {
      WriteIsSafe(s, k);
      assert s.p[Pos(k, |s.p|)] == s.pushed[k];
    }
  }

  lemma PublishKeeps<T>(s: State<T>)
    requires Inv(s) && Enabled(s, Publish)
    ensures Inv(Do(s, Publish))
  {
    StepAccounts(s, Publish);
    var r := Do(s, Publish);
    assert r.begin == Pos(|r.pushed|, |r.p|);
    forall k | |r.popped| <= k < |r.pushed| ensures r.p[Pos(k, |r.p|)] == r.pushed[k] {
      if k < |s.pushed| {
        assert s.p[Pos(k, |s.p|)] == s.pushed[k];
      }
    }
  }

  lemma PopKeeps<T>(s: State<T>, step: Step<T>)
    requires Inv(s) && Enabled(s, step) && (step.TestItem? || step.ReadSlot?)
    ensures Inv(Do(s, step))
  {
    StepAccounts(s, step);
    PosCount(|s.popped|, |s.pushed|, |s.p|);
    if step.ReadSlot? {
      assert s.p[Pos(|s.popped|, |s.p|)] == s.pushed[|s.popped|];
    }
  }

  lemma AdvanceKeeps<T>(s: State<T>)
    requires Inv(s) && Enabled(s, Advance)
    ensures Inv(Do(s, Advance))
  {
    StepAccounts(s, Advance);
    var r := Do(s, Advance);
    assert r.end == Pos(|r.popped|, |r.p|);
    assert r.popped == r.pushed[..|r.popped|];
  }

  lemma StepKeeps<T>(s: State<T>, step: Step<T>)
    requires Inv(s) && Enabled(s, step)
    ensures Inv(Do(s, step))
  {
    match step
    case Snapshot(_, _) => SnapshotKeeps(s, step);
    case TestRoom => SnapshotKeeps(s, step);
    case WriteSlot => WriteKeeps(s);
    case Publish => PublishKeeps(s);
    case TestItem => PopKeeps(s, step);
    case ReadSlot => PopKeeps(s, step);
    case Advance => AdvanceKeeps(s);
  }

  /** Publishing appends to the queue, advancing takes its first item, and no other step changes it. */
  lemma StepRefines<T>(s: State<T>, step: Step<T>)
    requires Inv(s) && Enabled(s, step)
    ensures Inv(Do(s, step))
    ensures var q, r := Queue(s), Queue(Do(s, step));
            match step
            case Publish => |q| < |s.p| - 1 && r == q + [s.producer.items[s.producer.i]]
            case Advance => q != [] && s.consumer.value == q[0] && r == q[1..]
            case TestItem => r == q && (Do(s, step).consumer.Waiting? <==> q == [])
            case _ => r == q
  {
    StepKeeps(s, step);
    PosCount(|s.popped|, |s.pushed|, |s.p|);
  }

  // ----- runs

  ghost predicate Run<T>(states: seq<State<T>>, steps: seq<Step<T>>) {
    && |states| == |steps| + 1
    && states[0] == State(states[0].p, 0, 0, Resting, Waiting, [], [], []) && 2 <= |states[0].p| <= UINT32
    && forall k {:trigger steps[k]} :: 0 <= k < |steps| ==>
         Enabled(states[k], steps[k]) && states[k + 1] == Do(states[k], steps[k])
  }

  lemma {:induction false} RunKeeps<T>(states: seq<State<T>>, steps: seq<Step<T>>, k: nat)
    requires Run(states, steps) && k < |states|
    ensures Inv(states[k])
  {
    if k > 0 {
      RunKeeps(states, steps, k - 1);
      StepKeeps(states[k - 1], steps[k - 1]);
    }
  }

  /** However the threads interleave: what was popped, then what the slots between the indices hold, then what is
      left of the call under way, is what the accepted calls were given, in order; nothing is lost, repeated or
      overtaken. */
  lemma AlwaysFifo<T>(states: seq<State<T>>, steps: seq<Step<T>>, k: nat)
    requires Run(states, steps) && k < |states|
    ensures var s := states[k];
      && Shaped(s) && s.popped + Stored(s.p, s.end, Count(s.begin, s.end, |s.p|)) == s.pushed
      && s.pushed + Left(s.producer) == s.accepted
  {
    RunKeeps(states, steps, k);
    SlotsHoldQueue(states[k]);
  }

  /** The items between the indices are the queue. */
  lemma SlotsHoldQueue<T>(s: State<T>)
    requires Inv(s)
    ensures Stored(s.p, s.end, Count(s.begin, s.end, |s.p|)) == Queue(s)
  {
    var n := |s.pushed| - |s.popped|;
    PosCount(|s.popped|, |s.pushed|, |s.p|);
    forall k | 0 <= k < n ensures Stored(s.p, s.end, n)[k] == Queue(s)[k] {
      StoredAt(s.p, s.end, n, k);
      PosSlot(|s.popped|, k, |s.p|);
      assert s.p[Pos(|s.popped| + k, |s.p|)] == s.pushed[|s.popped| + k];
    }
  }

  /** The read of the other thread's index that a call of push_back relies on. */
  lemma {:induction false} SnapshotOf<T>(states: seq<State<T>>, steps: seq<Step<T>>, j: nat) returns (i: nat)
    requires Run(states, steps) && j < |states| && states[j].producer.Snapped?
    ensures i < j && steps[i] == Snapshot(states[j].producer.items, states[j].producer.bulk)
    ensures Inv(states[i]) && states[j].producer.held == |Queue(states[i])|
    ensures states[i].pushed == states[j].pushed
  {
    assert j > 0;
    RunKeeps(states, steps, j - 1);
    var before, step := states[j - 1], steps[j - 1];
    PosCount(|before.popped|, |before.pushed|, |before.p|);
    if step.Snapshot? {
      i := j - 1;
    } else {
      assert before.producer == states[j].producer;
      i := SnapshotOf(states, steps, j - 1);
    }
  }

  /** The items fit into the queue as it is. */
  ghost predicate Fits<T>(s: State<T>, items: seq<T>)
    requires Inv(s)
  {
    |Queue(s)| + |items| <= |s.p| - 1
  }

  /** The test lets a call go on, with all of its items, or sends it back with nothing done. */
  lemma TestDecides<T>(s: State<T>)
    requires Inv(s) && s.producer.Snapped?
    ensures var t, items := Do(s, TestRoom), s.producer.items;
      && t == s.(producer := t.producer, accepted := t.accepted)
      && if s.producer.held + |items| <= |s.p| - 1
         then t.accepted == s.accepted + items && Left(t.producer) == items
         else t.accepted == s.accepted && t.producer.Resting?
  {
    RefusesIff(s);
    LeftAtStart(s.producer.items);
  }

  /** A call of push_back goes on exactly if its items fitted into the queue as it was when the call read the other
      thread's index, however long ago that was; then all of them are to be pushed, and otherwise none. */
  lemma RefusedIffFull<T>(states: seq<State<T>>, steps: seq<Step<T>>, j: nat)
    requires Run(states, steps) && j < |steps| && steps[j].TestRoom?
    ensures states[j].producer.Snapped?
    ensures var items := states[j].producer.items;
      exists i :: 0 <= i < j
        && steps[i] == Snapshot(items, states[j].producer.bulk)
        && states[i].pushed == states[j].pushed
        && Inv(states[i])
        && if Fits(states[i], items)
           then states[j + 1].accepted == states[j].accepted + items && Left(states[j + 1].producer) == items
           else states[j + 1].accepted == states[j].accepted && states[j + 1].producer.Resting?
  {
    assert Enabled(states[j], steps[j]);
    RunKeeps(states, steps, j);
    TestDecides(states[j]);
    var i := SnapshotOf(states, steps, j);
    SameSize(states, steps, i, j);
  }

  // ----- whole calls

  /** A thread that is to make a step can make it, whatever the other one does: neither ever waits. */
  lemma NeverStuck<T>(s: State<T>, items: seq<T>, bulk: bool)
    requires Inv(s) && (bulk || |items| == 1)
    ensures match s.producer
            case Resting => Enabled(s, Snapshot(items, bulk))
            case Snapped(_, _, _, _) => Enabled(s, TestRoom)
            case Writing(_, _) => Enabled(s, WriteSlot)
            case Written(_, _) => Enabled(s, Publish)
    ensures match s.consumer
            case Waiting => Enabled(s, TestItem)
            case Found => Enabled(s, ReadSlot)
            case Taken(_) => Enabled(s, Advance)
  {}

  /** A run, folded: mention ModelKey to unfold it. */
  ghost predicate Runs<T>(states: seq<State<T>>, steps: seq<Step<T>>) {
    forall k {:trigger ModelKey(k)} :: ModelKey(k) ==> Run(states, steps)
  }

  predicate Pushes<T>(step: Step<T>) { step.TestRoom? || step.WriteSlot? || step.Publish? }

  predicate Pops<T>(step: Step<T>) { step.ReadSlot? || step.Advance? }

  /** How many of the steps from the i-th up to the k-th belong to a call of push_back that has begun. */
  function PushSteps<T>(steps: seq<Step<T>>, i: nat, k: nat): nat
    requires k <= |steps|
    decreases k
  {
    if k <= i then 0 else PushSteps(steps, i, k - 1) + if Pushes(steps[k - 1]) then 1 else 0
  }

  /** The same for pop_front. */
  function PopSteps<T>(steps: seq<Step<T>>, i: nat, k: nat): nat
    requires k <= |steps|
    decreases k
  {
    if k <= i then 0 else PopSteps(steps, i, k - 1) + if Pops(steps[k - 1]) then 1 else 0
  }

  /** Where a call that may push `items` is after `n` steps. */
  function PushingAt<T>(items: seq<T>, n: nat): Producer<T> {
    if n >= 2 * |items| then Resting else if n % 2 == 0 then Writing(items, n / 2) else Written(items, n / 2)
  }

  /** A call that read the other index in `s` has made `n` more steps, and the state is now `t`. */
  ghost predicate Pushing<T>(s: State<T>, items: seq<T>, n: nat, t: State<T>)
    requires Inv(s)
  {
    && |t.p| == |s.p|
    && if n == 0 then
         t.producer.Snapped? && t.producer.items == items && t.producer.held == |Queue(s)|
         && t.pushed == s.pushed && t.accepted == s.accepted
       else if Fits(s, items) then
         && n - 1 <= 2 * |items| && t.producer == PushingAt(items, n - 1)
         && t.pushed == s.pushed + items[..(n - 1) / 2] && t.accepted == s.accepted + items
       else
         n == 1 && t.producer.Resting? && t.pushed == s.pushed && t.accepted == s.accepted
  }

  lemma PushStep<T>(s: State<T>, items: seq<T>, n: nat, t: State<T>, step: Step<T>)
    requires Inv(s) && Inv(t) && Pushing(s, items, n, t) && Enabled(t, step)
    requires Pushes(step)
    ensures Pushing(s, items, n + 1, Do(t, step))
  {
    match step
    case TestRoom => TestDecides(t);
    case WriteSlot =>
    case Publish =>
      var i := (n - 1) / 2;
      assert items[..i + 1] == items[..i] + [items[i]];
  }

  lemma PopsAside<T>(s: State<T>, items: seq<T>, n: nat, t: State<T>, step: Step<T>)
    requires Inv(s) && Inv(t) && Pushing(s, items, n, t) && Enabled(t, step)
    requires !Pushes(step) && !step.Snapshot?
    ensures Pushing(s, items, n, Do(t, step))
  {}

  /** Unfolds what is folded about a call after `n` steps. */
  ghost predicate CallKey(k: nat, n: nat) { true }

  /** The same, folded: mention CallKey to unfold it. */
  ghost predicate PushGoesOn<T>(s: State<T>, items: seq<T>, n: nat, t: State<T>) {
    forall k {:trigger CallKey(k, n)} :: CallKey(k, n) ==> Inv(s) && Inv(t) && Pushing(s, items, n, t)
  }

  lemma PushMore<T>(s: State<T>, items: seq<T>, n: nat, t: State<T>, step: Step<T>)
    requires PushGoesOn(s, items, n, t) && Enabled(t, step) && !step.Snapshot?
    ensures PushGoesOn(s, items, n + if Pushes(step) then 1 else 0, Do(t, step))
  {
    assert CallKey(0, n);
    StepKeeps(t, step);
    if Pushes(step) {
      PushStep(s, items, n, t, step);
    } else {
      PopsAside(s, items, n, t, step);
    }
  }

  lemma PushBegins<T>(s: State<T>, items: seq<T>, bulk: bool)
    requires Inv(s) && Enabled(s, Snapshot(items, bulk))
    ensures PushGoesOn(s, items, 0, Do(s, Snapshot(items, bulk)))
  {
    StepKeeps(s, Snapshot(items, bulk));
    PosCount(|s.popped|, |s.pushed|, |s.p|);
  }

  lemma PushFirst<T>(states: seq<State<T>>, steps: seq<Step<T>>, i: nat)
    requires Runs(states, steps) && i < |steps| && steps[i].Snapshot?
    ensures |states| == |steps| + 1 && PushGoesOn(states[i], steps[i].items, 0, states[i + 1])
  {
    assert ModelKey(0);
    RunKeeps(states, steps, i);
    PushBegins(states[i], steps[i].items, steps[i].bulk);
  }

  lemma PushNext<T>(states: seq<State<T>>, steps: seq<Step<T>>, items: seq<T>, i: nat, k: nat)
    requires Runs(states, steps) && i + 1 < k <= |steps| == |states| - 1 && !steps[k - 1].Snapshot?
    requires PushGoesOn(states[i], items, PushSteps(steps, i + 1, k - 1), states[k - 1])
    ensures PushGoesOn(states[i], items, PushSteps(steps, i + 1, k), states[k])
  {
    assert ModelKey(0);
    PushMore(states[i], items, PushSteps(steps, i + 1, k - 1), states[k - 1], steps[k - 1]);
  }

  lemma {:induction false} PushFollows<T>(states: seq<State<T>>, steps: seq<Step<T>>, items: seq<T>, i: nat, k: nat)
    requires Runs(states, steps) && i < k <= |steps| && steps[i].Snapshot? && steps[i].items == items
    requires forall m :: i < m < k ==> !steps[m].Snapshot?
    ensures |states| == |steps| + 1
    ensures PushGoesOn(states[i], items, PushSteps(steps, i + 1, k), states[k])
    decreases k
  {
    if k == i + 1 {
      PushFirst(states, steps, i);
    } else {
      PushFollows(states, steps, items, i, k - 1);
      PushNext(states, steps, items, i, k);
    }
  }

  /** A whole call of push_back, whatever the other thread does meanwhile: if the items fitted when the call began
      it takes two steps for each of them after the test, the k-th pair of which pushes the k-th item; if they did
      not, the call ends with the test and has pushed nothing. */
  lemma PushCall<T>(states: seq<State<T>>, steps: seq<Step<T>>, i: nat, k: nat)
    requires Run(states, steps) && i < k <= |steps| && steps[i].Snapshot?
    requires forall m :: i < m < k ==> !steps[m].Snapshot?
    ensures Inv(states[i]) && Pushing(states[i], steps[i].items, PushSteps(steps, i + 1, k), states[k])
  {
    PushFollows(states, steps, steps[i].items, i, k);
    assert CallKey(0, PushSteps(steps, i + 1, k));
  }

  /** A call of pop_front that tested for an item in `s` has made `n` more steps, and the state is now `t`. */
  ghost predicate Popping<T>(s: State<T>, n: nat, t: State<T>)
    requires Inv(s)
  {
    && s.pushed <= t.pushed
    && if Queue(s) == [] then n == 0 && t.consumer.Waiting? && t.popped == s.popped
       else
         && n <= 2 && t.popped == s.popped + (if n < 2 then [] else [Queue(s)[0]])
         && t.consumer == if n == 0 then Found else if n == 1 then Taken(Queue(s)[0]) else Waiting
  }

  lemma PopStep<T>(s: State<T>, n: nat, t: State<T>, step: Step<T>)
    requires Inv(s) && Inv(t) && Popping(s, n, t) && Enabled(t, step) && Pops(step)
    ensures Popping(s, n + 1, Do(t, step))
  {
    if step.ReadSlot? {
      assert t.p[Pos(|t.popped|, |t.p|)] == t.pushed[|t.popped|];
    }
  }

  lemma PushesAside<T>(s: State<T>, n: nat, t: State<T>, step: Step<T>)
    requires Inv(s) && Inv(t) && Popping(s, n, t) && Enabled(t, step)
    requires !Pops(step) && !step.TestItem?
    ensures Popping(s, n, Do(t, step))
  {}

  /** The same, folded in the same way. */
  ghost predicate PopGoesOn<T>(s: State<T>, n: nat, t: State<T>) {
    forall k {:trigger CallKey(k, n)} :: CallKey(k, n) ==> Inv(s) && Inv(t) && Popping(s, n, t)
  }

  lemma PopMore<T>(s: State<T>, n: nat, t: State<T>, step: Step<T>)
    requires PopGoesOn(s, n, t) && Enabled(t, step) && !step.TestItem?
    ensures PopGoesOn(s, n + if Pops(step) then 1 else 0, Do(t, step))
  {
    assert CallKey(0, n);
    StepKeeps(t, step);
    if Pops(step) {
      PopStep(s, n, t, step);
    } else {
      PushesAside(s, n, t, step);
    }
  }

  lemma PopBegins<T>(s: State<T>)
    requires Inv(s) && Enabled(s, TestItem)
    ensures PopGoesOn(s, 0, Do(s, TestItem))
  {
    StepRefines(s, TestItem);
  }

  lemma PopFirst<T>(states: seq<State<T>>, steps: seq<Step<T>>, i: nat)
    requires Runs(states, steps) && i < |steps| && steps[i].TestItem?
    ensures |states| == |steps| + 1 && PopGoesOn(states[i], 0, states[i + 1])
  {
    assert ModelKey(0);
    RunKeeps(states, steps, i);
    PopBegins(states[i]);
  }

  lemma PopNext<T>(states: seq<State<T>>, steps: seq<Step<T>>, i: nat, k: nat)
    requires Runs(states, steps) && i + 1 < k <= |steps| == |states| - 1 && !steps[k - 1].TestItem?
    requires PopGoesOn(states[i], PopSteps(steps, i + 1, k - 1), states[k - 1])
    ensures PopGoesOn(states[i], PopSteps(steps, i + 1, k), states[k])
  {
    assert ModelKey(0);
    PopMore(states[i], PopSteps(steps, i + 1, k - 1), states[k - 1], steps[k - 1]);
  }

  lemma {:induction false} PopFollows<T>(states: seq<State<T>>, steps: seq<Step<T>>, i: nat, k: nat)
    requires Runs(states, steps) && i < k <= |steps| && steps[i].TestItem?
    requires forall m :: i < m < k ==> !steps[m].TestItem?
    ensures |states| == |steps| + 1 && PopGoesOn(states[i], PopSteps(steps, i + 1, k), states[k])
    decreases k
  {
    if k == i + 1 {
      PopFirst(states, steps, i);
    } else {
      PopFollows(states, steps, i, k - 1);
      PopNext(states, steps, i, k);
    }
  }

  /** A whole call of pop_front: if the queue was empty when it looked, it ends at once; otherwise it has popped the
      item that was first then after two more steps. */
  lemma PopCall<T>(states: seq<State<T>>, steps: seq<Step<T>>, i: nat, k: nat)
    requires Run(states, steps) && i < k <= |steps| && steps[i].TestItem?
    requires forall m :: i < m < k ==> !steps[m].TestItem?
    ensures Inv(states[i]) && Popping(states[i], PopSteps(steps, i + 1, k), states[k])
  {
    PopFollows(states, steps, i, k);
    assert CallKey(0, PopSteps(steps, i + 1, k));
  }

  lemma {:induction false} SameSize<T>(states: seq<State<T>>, steps: seq<Step<T>>, i: nat, j: nat)
    requires Run(states, steps) && i <= j < |states|
    ensures |states[i].p| == |states[j].p|
    decreases j
  {
    if i < j {
      SameSize(states, steps, i, j - 1);
      assert Enabled(states[j - 1], steps[j - 1]);
    }
  }
}
