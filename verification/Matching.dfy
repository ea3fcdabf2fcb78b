/** Requests in flight and the responses that end them, over whole runs. */
module Matching {
  import opened Basics
  import opened Folding
  import opened Framing
  import opened RequestIds
  import opened TimeoutQueues

  /** The id counter, how often it was advanced, the queue, and for each registered id the request it is:
      born[i] == k for the k-th request. */
  datatype Flight<T> = Flight(id: nat, gens: nat, born: map<Id, nat>, queue: Queue<T>)

  datatype Event<T> = Ask(msg: T, deadline: int, sent: bool) | Answer(response: Bytes)

  /** sendReqMessage: a new id, registered unless that id is still in flight. */
  function Asked<T>(f: Flight<T>, msg: T, deadline: int, sent: bool): Flight<T>
    requires f.id < UINT32
  {
    var i := NextId(f.id);
    Flight(i, f.gens + 1, if i in f.queue.entries then f.born else f.born[i := f.gens + 1],
           Pushed(f.queue, i, msg, deadline, sent))
  }

  /** finishInvoke: erases what the response's prefix names. */
  function Answered<T>(f: Flight<T>, response: Bytes): Flight<T> {
    f.(queue := Erased(f.queue, KeyOf(response)))
  }

  ghost predicate Consistent<T>(f: Flight<T>) {
    && f.id == NthId(f.gens)
    && Conserved(f.queue)
    && forall i :: i in f.queue.entries ==> i in f.born && 0 < f.born[i] <= f.gens && NthId(f.born[i]) == i
  }

  /** Consistency, folded: mention ModelKey to unfold it. */
  ghost predicate Sound<T>(f: Flight<T>) {
    forall k {:trigger ModelKey(k)} :: ModelKey(k) ==> Consistent(f)
  }

  function Start<T>(): Flight<T> { Flight(0, 0, map[], Queue(map[], 0, [])) }

  lemma AskKeeps<T>(f: Flight<T>, msg: T, deadline: int, sent: bool)
    requires Consistent(f)
    ensures Consistent(Asked(f, msg, deadline, sent))
  {
    PushConserves(f.queue, NextId(f.id), msg, deadline, sent);
    assert NthId(f.gens + 1) == NextId(f.id);
  }

  lemma AnswerKeeps<T>(f: Flight<T>, response: Bytes)
    requires Consistent(f)
    ensures Consistent(Answered(f, response))
  {
    EraseConserves(f.queue, KeyOf(response));
  }

  /** An id is taken, but nothing registered under it yet. */
  function Drawn<T>(f: Flight<T>): Flight<T>
    requires f.id < UINT32
  {
    f.(id := NextId(f.id), gens := f.gens + 1)
  }

  lemma StartSound<T>()
    ensures Sound(Start<T>())
  {}

  lemma DrawSound<T>(f: Flight<T>)
    requires Sound(f)
    ensures f.id < UINT32 && Sound(Drawn(f))
  {
    assert ModelKey(0);
    assert NthId(f.gens + 1) == NextId(f.id);
  }

  lemma AskSound<T>(f: Flight<T>, msg: T, deadline: int, sent: bool)
    requires Sound(f)
    ensures f.id < UINT32 && Sound(Asked(f, msg, deadline, sent))
  {
    assert ModelKey(0);
    AskKeeps(f, msg, deadline, sent);
  }

  lemma AnswerSound<T>(f: Flight<T>, response: Bytes)
    requires Sound(f)
    ensures Sound(Answered(f, response))
  {
    assert ModelKey(0);
    AnswerKeeps(f, response);
  }

  /** A request cannot be registered exactly when one is still in flight that was sent some multiple of 2^32 - 1
      requests ago. */
  lemma AskFailsIff<T>(f: Flight<T>)
    requires Consistent(f)
    ensures NextId(f.id) in f.queue.entries <==>
            exists i :: i in f.queue.entries && (f.gens + 1 - f.born[i]) % CYCLE == 0
  {
    forall i | i in f.queue.entries ensures i == NextId(f.id) <==> (f.gens + 1 - f.born[i]) % CYCLE == 0 {
      assert NthId(f.gens + 1) == NextId(f.id);
      IdsRepeat(f.born[i], f.gens + 1);
    }
  }

  /** The k-th request is registered and has not ended. */
  predicate InFlight<T>(f: Flight<T>, k: nat) {
    NthId(k) in f.queue.entries && NthId(k) in f.born && f.born[NthId(k)] == k
  }

  /** The queue once the k-th request has ended and no other; it may have ended before. */
  function WithoutRequest<T>(f: Flight<T>, k: nat): Queue<T> {
    if InFlight(f, k) then Erased(f.queue, NthId(k)) else f.queue
  }

  /** What that means: every other request is as it was, and if the k-th one was there it is removed once. */
  lemma WithoutRequestIs<T>(f: Flight<T>, k: nat)
    requires Consistent(f)
    ensures var q := WithoutRequest(f, k);
      && q.entries == (map i | i in f.queue.entries && f.born[i] != k :: f.queue.entries[i])
      && q.pushes == f.queue.pushes
      && q.gone == f.queue.gone + if InFlight(f, k) then [f.queue.entries[NthId(k)].stamp] else []
    ensures InFlight(f, k) <==> exists i :: i in f.queue.entries && f.born[i] == k
  {
    if InFlight(f, k) {
      assert NthId(k) in f.queue.entries && f.born[NthId(k)] == k;
    }
  }

  /** How many requests lie between two. */
  function Gap(j: nat, k: nat): nat {
    if j < k then k - j else j - k
  }

  /** No other request in flight has the id of the k-th. */
  ghost predicate NoTwin<T>(f: Flight<T>, k: nat) {
    forall i :: i in f.queue.entries && i in f.born && f.born[i] != k ==> Gap(f.born[i], k) % CYCLE != 0
  }

  lemma TwinIff<T>(f: Flight<T>, k: nat)
    requires Consistent(f) && k > 0
    ensures forall i :: i in f.queue.entries ==> (Gap(f.born[i], k) % CYCLE == 0 <==> i == NthId(k))
  {
    forall i | i in f.queue.entries ensures Gap(f.born[i], k) % CYCLE == 0 <==> i == NthId(k) {
      if f.born[i] < k {
        IdsRepeat(f.born[i], k);
      } else {
        IdsRepeat(k, f.born[i]);
      }
    }
  }

  /** A response that echoes the prefix of a request in flight ends that request and no other, however many
      requests there have been. */
  lemma EchoMatches<T>(f: Flight<T>, k: nat, rest: Bytes)
    requires Consistent(f) && InFlight(f, k)
    ensures Answered(f, Tagged(NthId(k), rest)).queue == WithoutRequest(f, k)
  {
    TagRoundTrip(NthId(k), rest);
  }

  /** For any request, in flight or not: the echo ends it and no other exactly if no other request in flight lies
      a multiple of 2^32 - 1 requests from it. */
  lemma EchoMatchesIff<T>(f: Flight<T>, k: nat, rest: Bytes)
    requires Consistent(f) && 0 < k
    ensures Answered(f, Tagged(NthId(k), rest)).queue == WithoutRequest(f, k) <==> NoTwin(f, k)
  {
    TagRoundTrip(NthId(k), rest);
    TwinIff(f, k);
    var id := NthId(k);
    if id in f.queue.entries && f.born[id] != k {
      assert Erased(f.queue, id).gone != f.queue.gone;
    }
  }

  /** So in particular while every request in flight is fewer than 2^32 - 1 requests from it. */
  lemma NoTwinNearby<T>(f: Flight<T>, k: nat)
    requires Consistent(f) && 0 < k <= f.gens
    requires forall i :: i in f.queue.entries ==> Gap(f.born[i], k) < CYCLE
    ensures NoTwin(f, k)
  {
    forall i | i in f.queue.entries && f.born[i] != k ensures Gap(f.born[i], k) % CYCLE != 0 {
      SmallGap(Gap(f.born[i], k));
    }
  }

  lemma SmallGap(d: nat)
    requires 0 < d < CYCLE
    ensures d % CYCLE != 0
  {}

  /** Whatever a response says, it removes at most one request, and zero is never in flight. */
  lemma AnswerRemovesAtMostOne<T>(f: Flight<T>, response: Bytes)
    requires Consistent(f)
    ensures var g := Answered(f, response);
      && g.queue.entries == f.queue.entries - {KeyOf(response)}
      && (KeyOf(response) == 0 ==> g == f)
  {
    if KeyOf(response) == 0 {
      assert 0 !in f.queue.entries;
    }
  }

  // ----- runs

  function Happen<T>(f: Flight<T>, e: Event<T>): Flight<T>
    requires f.id < UINT32
  {
    match e
    case Ask(msg, deadline, sent) => Asked(f, msg, deadline, sent)
    case Answer(response) => Answered(f, response)
  }

  function After<T>(events: seq<Event<T>>): (f: Flight<T>)
    ensures f.id < UINT32
  {
    if events == [] then Start() else Happen(After(events[..|events| - 1]), events[|events| - 1])
  }

  function Asks<T>(events: seq<Event<T>>): nat {
    if events == [] then 0 else Asks(events[..|events| - 1]) + if events[|events| - 1].Ask? then 1 else 0
  }

  /** Over a run of fewer than 2^32 requests, whatever the responses: every request is registered, under an id
      of its own, and keeps its place: the k-th request is the k-th push. */
  lemma {:induction false} AllAreRegistered<T>(events: seq<Event<T>>)
    requires Asks(events) <= CYCLE
    ensures var f := After(events);
      && Consistent(f) && f.gens == Asks(events) == f.queue.pushes
      && forall i :: i in f.queue.entries ==> f.queue.entries[i].stamp == f.born[i] - 1
  {
    if events != [] {
      var n := |events| - 1;
      var before := After(events[..n]);
      AllAreRegistered(events[..n]);
      match events[n]
      case Ask(msg, deadline, sent) =>
        AskKeeps(before, msg, deadline, sent);
        NewIdIsFree(before);
      case Answer(response) =>
        AnswerKeeps(before, response);
    }
  }

  lemma NewIdIsFree<T>(f: Flight<T>)
    requires Consistent(f) && f.gens < CYCLE
    ensures NextId(f.id) !in f.queue.entries
  {
    AskFailsIff(f);
    forall i | i in f.queue.entries ensures (f.gens + 1 - f.born[i]) % CYCLE != 0 {
      assert 0 < f.gens + 1 - f.born[i] < CYCLE;
    }
  }

  /** Over any run at all, every request in flight has the id it was made with. */
  lemma {:induction false} RunConsistent<T>(events: seq<Event<T>>)
    ensures Consistent(After(events)) && After(events).gens == Asks(events)
  {
    if events != [] {
      var before := After(events[..|events| - 1]);
      RunConsistent(events[..|events| - 1]);
      match events[|events| - 1]
      case Ask(msg, deadline, sent) => AskKeeps(before, msg, deadline, sent);
      case Answer(response) => AnswerKeeps(before, response);
    }
  }

  lemma AnswerHappens<T>(events: seq<Event<T>>, response: Bytes)
    ensures After(events + [Answer(response)]) == Answered(After(events), response)
  {
    assert (events + [Answer(response)])[..|events|] == events;
  }

  /** Over any run at all, a response to a request in flight ends that request and no other. */
  lemma ResponsesMatch<T>(events: seq<Event<T>>, k: nat, rest: Bytes)
    requires InFlight(After(events), k)
    ensures After(events + [Answer(Tagged(NthId(k), rest))]).queue == WithoutRequest(After(events), k)
  {
    RunConsistent(events);
    AnswerHappens(events, Tagged(NthId(k), rest));
    EchoMatches(After(events), k, rest);
  }

  /** Over any run, a response to any request made in it ends that request, if it has not ended, and no other,
      exactly if no other one in flight lies a multiple of 2^32 - 1 requests from it. */
  lemma ResponsesMatchIff<T>(events: seq<Event<T>>, k: nat, rest: Bytes)
    requires 0 < k <= Asks(events)
    ensures After(events + [Answer(Tagged(NthId(k), rest))]).queue == WithoutRequest(After(events), k)
            <==> NoTwin(After(events), k)
  {
    RunConsistent(events);
    AnswerHappens(events, Tagged(NthId(k), rest));
    EchoMatchesIff(After(events), k, rest);
  }

  /** For the first 2^32 - 1 requests the condition always holds. */
  lemma ResponsesMatchAtFirst<T>(events: seq<Event<T>>, k: nat, rest: Bytes)
    requires Asks(events) <= CYCLE && 0 < k <= Asks(events)
    ensures After(events + [Answer(Tagged(NthId(k), rest))]).queue == WithoutRequest(After(events), k)
  {
    RunConsistent(events);
    NoTwinNearby(After(events), k);
    ResponsesMatchIff(events, k, rest);
  }

  /** Whatever went before, a response that does not start with a number changes nothing. */
  lemma GarbageIsIgnored<T>(events: seq<Event<T>>, response: Bytes)
    requires response == [] || !(IsDigit(response[0]) || IsSpace(response[0]) || response[0] in {MINUS, PLUS})
    ensures After(events + [Answer(response)]) == After(events)
  {
    RunConsistent(events);
    NoNumberIsZero(response);
    AnswerRemovesAtMostOne(After(events), response);
    AnswerHappens(events, response);
  }

  // ----- a request that cannot be registered

  function Repeat<T>(e: Event<T>, n: nat): seq<Event<T>> {
    if n == 0 then [] else Repeat(e, n - 1) + [e]
  }

  /** Requests that nobody answers stay in flight. */
  lemma {:induction false} Unanswered<T>(e: Event<T>, n: nat)
    requires e.Ask? && n <= CYCLE
    ensures Asks(Repeat(e, n)) == n && After(Repeat(e, n)).queue.gone == []
    ensures n > 0 ==> Live(After(Repeat(e, n)).queue, 0)
  {
    if n > 0 {
      Unanswered(e, n - 1);
      assert Repeat(e, n)[..|Repeat(e, n)| - 1] == Repeat(e, n - 1);
    }
    AllAreRegistered(Repeat(e, n));
  }

  lemma NextIsRefused<T>(f: Flight<T>, e: Event<T>, i: Id)
    requires e.Ask? && Consistent(f) && f.gens == CYCLE && i in f.queue.entries && f.born[i] == 1
    ensures Happen(f, e).queue == f.queue && Happen(f, e).id == i == NthId(1)
  {
    var n := f.gens + 1;
    IdsRepeat(1, n);
    assert NextId(f.id) == NthId(n);
  }

  /** After 2^32 - 1 requests the first of which was never answered, the next one draws its id and is not
      registered. */
  lemma FirstIdComesBack<T>(e: Event<T>, n: nat)
    requires e.Ask? && n == CYCLE
    ensures var f, g := After(Repeat(e, n)), After(Repeat(e, n + 1));
      f.queue.pushes == n && g.gens == n + 1 && g.id == NthId(1) && g.queue == f.queue
  {
    var f := After(Repeat(e, n));
    Unanswered(e, n);
    AllAreRegistered(Repeat(e, n));
    var i :| i in f.queue.entries && f.queue.entries[i].stamp == 0;
    NextIsRefused(f, e, i);
    assert (Repeat(e, n) + [e])[..|Repeat(e, n)|] == Repeat(e, n);
  }

  // ----- a response that ends another request

  /** A request and a response, and then `n` requests that are not answered. */
  function AnsweredThen<T>(e: Event<T>, response: Bytes, n: nat): seq<Event<T>> {
    if n == 0 then [e] + [Answer(response)] else AnsweredThen(e, response, n - 1) + [e]
  }

  /** The first request has ended, and `n` more were made, the last of which is in flight. */
  ghost predicate SecondLap<T>(f: Flight<T>, n: nat) {
    && Consistent(f) && f.gens == n + 1
    && (forall i :: i in f.queue.entries ==> f.born[i] >= 2)
    && (n > 0 ==> InFlight(f, n + 1))
  }

  /** Where such a run gets. */
  function Lap<T>(start: Flight<T>, e: Event<T>, n: nat): (f: Flight<T>)
    requires start.id < UINT32
    ensures f.id < UINT32
  {
    if n == 0 then start else Happen(Lap(start, e, n - 1), e)
  }

  lemma {:induction false} LapIs<T>(e: Event<T>, response: Bytes, n: nat)
    ensures After(AnsweredThen(e, response, n)) == Lap(After([e] + [Answer(response)]), e, n)
  {
    if n > 0 {
      var before := AnsweredThen(e, response, n - 1);
      LapIs(e, response, n - 1);
      assert (before + [e])[..|before|] == before;
    }
  }

  lemma FirstAnswered<T>(e: Event<T>, response: Bytes, first: nat)
    requires e.Ask? && first == 1 && KeyOf(response) == NthId(first)
    ensures OnSecondLap(After([e] + [Answer(response)]), 0)
  {
    RunConsistent([e] + [Answer(response)]);
    assert [e][..0] == [];
    assert After([e]) == Happen(Start(), e);
    AnswerHappens([e], response);
  }

  lemma {:induction false} LaterOnes<T>(start: Flight<T>, e: Event<T>, n: nat) returns (f: Flight<T>)
    requires e.Ask? && n <= CYCLE && start.id < UINT32 && OnSecondLap(start, 0)
    ensures f == Lap(start, e, n) && OnSecondLap(f, n)
  {
    if n == 0 {
      f := start;
    } else {
      var before := LaterOnes(start, e, n - 1);
      f := Happen(before, e);
      LaterFolded(before, f, e, n - 1, n);
    }
  }

  /** The same, folded: mention ModelKey to unfold it. */
  ghost predicate OnSecondLap<T>(f: Flight<T>, n: nat) {
    forall k {:trigger ModelKey(k)} :: ModelKey(k) ==> SecondLap(f, n)
  }

  lemma LaterFolded<T>(f: Flight<T>, g: Flight<T>, e: Event<T>, n: nat, next: nat)
    requires e.Ask? && OnSecondLap(f, n) && next == n + 1 <= CYCLE && f.id < UINT32 && g == Happen(f, e)
    ensures OnSecondLap(g, next)
  {
    assert ModelKey(0);
    LaterOne(f, e, n);
  }

  lemma LaterOne<T>(f: Flight<T>, e: Event<T>, n: nat)
    requires e.Ask? && SecondLap(f, n) && n < CYCLE
    ensures SecondLap(Happen(f, e), n + 1)
  {
    AskKeeps(f, e.msg, e.deadline, e.sent);
    AskFailsIff(f);
    forall i | i in f.queue.entries ensures (f.gens + 1 - f.born[i]) % CYCLE != 0 {
      SmallGap(f.gens + 1 - f.born[i]);
    }
    assert NthId(f.gens + 1) == NextId(f.id);
  }

  /** A response meant for the k-th request, which has ended, ends the m-th. */
  ghost predicate EndsAnother<T>(f: Flight<T>, k: nat, m: nat, response: Bytes) {
    && !InFlight(f, k) && InFlight(f, m) && !NoTwin(f, k)
    && Answered(f, response).queue == WithoutRequest(f, m) != f.queue
  }

  lemma TwinIsEnded<T>(f: Flight<T>, k: nat, m: nat, response: Bytes)
    requires Consistent(f) && InFlight(f, m) && 0 < k < m && Gap(m, k) % CYCLE == 0
    requires KeyOf(response) == NthId(k)
    ensures EndsAnother(f, k, m, response)
  {
    IdsRepeat(k, m);
    assert Erased(f.queue, NthId(m)).gone != f.queue.gone;
  }

  /** The first request is answered; 2^32 - 1 requests later its id is drawn again; and a second response with
      the first one's tag ends the new request. */
  lemma LateEchoEndsAnother<T>(e: Event<T>, rest: Bytes, first: nat, n: nat)
    requires e.Ask? && first == 1 && n == CYCLE
    ensures var response := Tagged(NthId(first), rest);
            EndsAnother(After(AnsweredThen(e, response, n)), first, first + n, response)
  {
    var response := Tagged(NthId(first), rest);
    TagRoundTrip(NthId(first), rest);
    FirstAnswered(e, response, first);
    var f := LaterOnes(After([e] + [Answer(response)]), e, n);
    LapIs(e, response, n);
    LapEnds(f, first, first + n, response);
  }

  lemma FullGap(k: nat, m: nat)
    requires m == k + CYCLE
    ensures Gap(m, k) % CYCLE == 0
  {}

  lemma LapEnds<T>(f: Flight<T>, first: nat, m: nat, response: Bytes)
    requires first == 1 && m == first + CYCLE && OnSecondLap(f, m - 1) && KeyOf(response) == NthId(first)
    ensures EndsAnother(f, first, m, response)
  {
    FullGap(first, m);
    SecondLapUnfolds(f, m - 1);
    TwinIsEnded(f, first, m, response);
  }

  lemma SecondLapUnfolds<T>(f: Flight<T>, n: nat)
    requires OnSecondLap(f, n) && n > 0
    ensures Consistent(f) && InFlight(f, n + 1)
  {
    assert ModelKey(0);
  }
}
