/**
 Calls from a client to a server, end to end: requests are tagged with an id, framed and written to a socket that
 takes what it likes; the server decodes whatever has arrived; a response that echoes the tag ends its request.
 */
module RemoteCalls {
  import opened Basics
  import opened Framing
  import opened RequestIds
  import opened TimeoutQueues
  import Matching
  import Outgoing

  const DEADLINE: int := 1000

  // ----- the bytes of a request

  /** The length goes through a signed 32-bit number. */
  function Frame(text: Bytes): Bytes {
    Be32(|text| % UINT32) + [COLON] + text
  }

  lemma {:induction false} DigitsFit(n: nat, k: nat, top: nat)
    requires n < top && top == Power10(k) && k > 0
    ensures |Digits(n)| <= k
  {
    if n >= 10 {
      DigitsFit(n / 10, k - 1, Power10(k - 1));
    }
  }

  lemma TagFits(id: nat, request: Bytes)
    requires id < UINT32
    ensures |Tagged(id, request)| <= 12 + |request|
  {
    var i := ToInt32(id);
    TenDigits();
    DigitsFit(if i < 0 then -i else i, 10, Power10(10));
  }

  lemma TenDigits()
    ensures Power10(10) == 10000000000
  {
    assert Power10(5) == 100000;
    assert Power10(10) == 100000 * Power10(5);
  }

  /** No id takes more than eleven characters, so a request of up to 2^31 - 18 bytes makes a frame that sendRequest
      can keep whole, and its length field is its length. */
  lemma FrameIsEncoding(id: nat, request: Bytes)
    requires id < UINT32 && |request| < INT32_LIMIT - 17
    ensures |Tagged(id, request)| < INT32_LIMIT
    ensures Frame(Tagged(id, request)) == Encode(Tagged(id, request))
    ensures |Frame(Tagged(id, request))| < INT32_LIMIT
  {
    TagFits(id, request);
    ShortFrame(Tagged(id, request));
  }

  lemma ShortFrame(text: Bytes)
    requires |text| < INT32_LIMIT - 5
    ensures Frame(text) == Encode(text) && |Frame(text)| == |text| + 5
  {
    assert |text| % UINT32 == |text|;
  }

  // ----- the client

  datatype Client<T> = Client(flight: Matching.Flight<T>, line: Outgoing.Line)

  /** What happens to a client: a request, with the socket's answer to its write; a response; and a chance to write
      what is kept. */
  datatype Act<T> =
    | Request(msg: T, text: Bytes, begin: int, socket: int)
    | Response(text: Bytes)
    | Writable(socket: int)

  ghost predicate AllSent<T>(q: Queue<T>) {
    forall i :: i in q.entries ==> q.entries[i].sent
  }

  /** The frame of the next request. */
  function NextFrame<T>(c: Client<T>, text: Bytes): Bytes
    requires c.flight.id < UINT32
  {
    Frame(Tagged(NextId(c.flight.id), text))
  }

  /** Whether a request is written now: none must be waiting, and the socket must not refuse it. */
  ghost predicate GoesOut<T>(c: Client<T>, text: Bytes, socket: int)
    requires c.flight.id < UINT32 && Outgoing.SocketMay(|NextFrame(c, text)|, socket)
  {
    AllSent(c.flight.queue) && Outgoing.SendRequest(c.line, NextFrame(c, text), socket).1 != Outgoing.RET_ERROR
  }

  ghost function LineAfter<T>(c: Client<T>, text: Bytes, socket: int): Outgoing.Line
    requires c.flight.id < UINT32 && Outgoing.SocketMay(|NextFrame(c, text)|, socket)
  {
    if AllSent(c.flight.queue) then Outgoing.SendRequest(c.line, NextFrame(c, text), socket).0 else c.line
  }

  ghost function Requested<T>(c: Client<T>, msg: T, text: Bytes, begin: int, socket: int): Client<T>
    requires c.flight.id < UINT32 && Outgoing.SocketMay(|NextFrame(c, text)|, socket)
  {
    Client(Matching.Asked(c.flight, msg, DEADLINE + begin, GoesOut(c, text, socket)), LineAfter(c, text, socket))
  }

  ghost predicate May<T>(c: Client<T>, a: Act<T>) {
    && c.flight.id < UINT32
    && match a
       case Request(_, text, _, socket) =>
         |text| < INT32_LIMIT - 17 && Outgoing.SocketMay(|NextFrame(c, text)|, socket)
       case Response(_) => true
       case Writable(socket) => Outgoing.SocketMay(|c.line.pending|, socket)
  }

  ghost function Happen<T>(c: Client<T>, a: Act<T>): Client<T>
    requires May(c, a)
  {
    match a
    case Request(msg, text, begin, socket) => Requested(c, msg, text, begin, socket)
    case Response(text) => c.(flight := Matching.Answered(c.flight, text))
    case Writable(socket) => c.(line := Outgoing.DoRequest(c.line, socket))
  }

  // ----- runs

  /** A run of a client: its states, and in between what happens. */
  ghost predicate Run<T>(states: seq<Client<T>>, acts: seq<Act<T>>) {
    && |states| == |acts| + 1 && states[0] == Client(Matching.Start(), Outgoing.Line([], []))
    && forall k {:trigger acts[k]} :: 0 <= k < |acts| ==>
         May(states[k], acts[k]) && states[k + 1] == Happen(states[k], acts[k])
  }

  /** The run before its last act, and that act. */
  lemma RunPrefix<T>(states: seq<Client<T>>, acts: seq<Act<T>>)
    requires Run(states, acts) && acts != []
    ensures var n := |acts| - 1;
      && Run(states[..n + 1], acts[..n]) && states[..n + 1][n] == states[n]
      && May(states[n], acts[n]) && states[|acts|] == Happen(states[n], acts[n])
  {
    var n := |acts| - 1;
    assert acts[n] == acts[n];
    forall k | 0 <= k < n
      ensures May(states[..n + 1][k], acts[..n][k])
      ensures states[..n + 1][k + 1] == Happen(states[..n + 1][k], acts[..n][k])
    {
      assert acts[k] == acts[..n][k];
    }
  }

  /** A request that was written: the how-manieth of all requests it is, and the payload of its frame. */
  datatype Written = Written(number: nat, payload: Bytes)

  function Payloads(ws: seq<Written>): seq<Bytes> {
    if ws == [] then [] else Payloads(ws[..|ws| - 1]) + [ws[|ws| - 1].payload]
  }

  /** The requests written over a run, in order. */
  ghost function AllWritten<T>(states: seq<Client<T>>, acts: seq<Act<T>>): seq<Written>
    requires Run(states, acts)
    decreases |acts|
  {
    if acts == [] then []
    else
      var n := |acts| - 1;
      AllWritten(states[..n + 1], acts[..n]) + WrittenBy(states[n], acts[n])
  }

  ghost function WrittenBy<T>(c: Client<T>, a: Act<T>): seq<Written>
    requires May(c, a)
  {
    if a.Request? && GoesOut(c, a.text, a.socket)
    then [Written(c.flight.gens + 1, Tagged(NextId(c.flight.id), a.text))] else []
  }

  function Requests<T>(acts: seq<Act<T>>): nat {
    if acts == [] then 0 else Requests(acts[..|acts| - 1]) + if acts[|acts| - 1].Request? then 1 else 0
  }

  /** Distinct requests, in the order they were made, each short enough. */
  ghost predicate InOrder(ws: seq<Written>, last: nat) {
    && (forall k :: 0 <= k < |ws| ==> 0 < ws[k].number <= last && |ws[k].payload| < INT32_LIMIT)
    && (forall j, k :: 0 <= j < k < |ws| ==> ws[j].number < ws[k].number)
  }

  lemma {:induction false} PayloadAt(ws: seq<Written>, k: nat)
    requires k < |ws|
    ensures |Payloads(ws)| == |ws| && Payloads(ws)[k] == ws[k].payload
  {
    var n := |ws| - 1;
    if n > 0 {
      PayloadAt(ws[..n], if k < n then k else 0);
    }
  }

  lemma PayloadsFit(ws: seq<Written>, last: nat)
    requires InOrder(ws, last)
    ensures |Payloads(ws)| == |ws| && Sendable(Payloads(ws))
  {
    if ws != [] {
      PayloadAt(ws, 0);
    }
    forall k | 0 <= k < |ws| ensures |Payloads(ws)[k]| < INT32_LIMIT {
      PayloadAt(ws, k);
    }
  }

  lemma EncodeAllCons(all: seq<Bytes>, p: Bytes, rest: seq<Bytes>)
    requires Sendable(rest) && |p| < INT32_LIMIT && all == [p] + rest
    ensures Sendable(all) && EncodeAll(all) == Encode(p) + EncodeAll(rest)
  {
    assert all[1..] == rest;
  }

  lemma {:induction false} EncodeAllAppend(a: seq<Bytes>, p: Bytes)
    requires Sendable(a) && |p| < INT32_LIMIT
    ensures Sendable(a + [p]) && EncodeAll(a + [p]) == EncodeAll(a) + Encode(p)
  {
    if a == [] {
      assert [] + [p] == [p] && [p][1..] == [];
      assert EncodeAll([p]) == Encode(p) + EncodeAll([]) == Encode(p);
    } else {
      EncodeAllAppend(a[1..], p);
      EncodeAllCons(a + [p], a[0], a[1..] + [p]);
      EncodeAllCons(a, a[0], a[1..]);
      assert Encode(a[0]) + (EncodeAll(a[1..]) + Encode(p)) == (Encode(a[0]) + EncodeAll(a[1..])) + Encode(p);
    }
  }

  /** What one act adds to the stream. */
  lemma ActAdds<T>(c: Client<T>, a: Act<T>)
    requires May(c, a)
    ensures Outgoing.Stream(Happen(c, a).line)
            == Outgoing.Stream(c.line) + if WrittenBy(c, a) == [] then [] else NextFrame(c, a.text)
  {
    match a
    case Request(msg, text, begin, socket) =>
      if AllSent(c.flight.queue) {
        FrameIsEncoding(NextId(c.flight.id), text);
        Outgoing.StepIntact(c.line, Outgoing.Send(NextFrame(c, text), socket));
        ConcatOne(NextFrame(c, text));
      }
    case Response(text) =>
    case Writable(socket) =>
      Outgoing.StepIntact(c.line, Outgoing.Flush(socket));
      ConcatOne([]);
  }

  /** The stream of a client is the encoding of the requests it wrote. */
  ghost predicate Streams<T>(c: Client<T>, ws: seq<Written>) {
    && c.flight.id == NthId(c.flight.gens) && InOrder(ws, c.flight.gens)
    && Sendable(Payloads(ws)) && Outgoing.Stream(c.line) == EncodeAll(Payloads(ws))
  }

  lemma PayloadsAppend(ws: seq<Written>, last: nat, w: Written)
    requires InOrder(ws, last) && w.number == last + 1 && |w.payload| < INT32_LIMIT
    ensures InOrder(ws + [w], last + 1) && Payloads(ws + [w]) == Payloads(ws) + [w.payload]
  {
    assert (ws + [w])[..|ws|] == ws;
  }

  lemma ActIds<T>(c: Client<T>, a: Act<T>)
    requires May(c, a) && c.flight.id == NthId(c.flight.gens)
    ensures var f := Happen(c, a).flight;
            f.id == NthId(f.gens) && f.gens == c.flight.gens + if a.Request? then 1 else 0
  {}

  lemma ActStreams<T>(c: Client<T>, a: Act<T>, ws: seq<Written>)
    requires May(c, a) && Streams(c, ws)
    ensures Streams(Happen(c, a), ws + WrittenBy(c, a))
  {
    ActAdds(c, a);
    ActIds(c, a);
    if WrittenBy(c, a) == [] {
      assert ws + WrittenBy(c, a) == ws;
    } else {
      var w := WrittenBy(c, a)[0];
      FrameIsEncoding(NextId(c.flight.id), a.text);
      PayloadsAppend(ws, c.flight.gens, w);
      EncodeAllAppend(Payloads(ws), w.payload);
    }
  }

  lemma {:induction false} RunStreams<T>(states: seq<Client<T>>, acts: seq<Act<T>>)
    requires Run(states, acts)
    ensures Streams(states[|acts|], AllWritten(states, acts))
    ensures states[|acts|].flight.gens == Requests(acts)
    decreases |acts|
  {
    if acts != [] {
      var n := |acts| - 1;
      RunPrefix(states, acts);
      RunStreams(states[..n + 1], acts[..n]);
      ActIds(states[n], acts[n]);
      ActStreams(states[n], acts[n], AllWritten(states[..n + 1], acts[..n]));
    }
  }

  // ----- the two halves together

  ghost function FlightEvent<T>(c: Client<T>, a: Act<T>): seq<Matching.Event<T>>
    requires May(c, a)
  {
    match a
    case Request(msg, text, begin, socket) => [Matching.Ask(msg, DEADLINE + begin, GoesOut(c, text, socket))]
    case Response(text) => [Matching.Answer(text)]
    case Writable(_) => []
  }

  /** A run as the in-flight requests see it. */
  ghost function FlightEvents<T>(states: seq<Client<T>>, acts: seq<Act<T>>): seq<Matching.Event<T>>
    requires Run(states, acts)
    decreases |acts|
  {
    if acts == [] then []
    else
      var n := |acts| - 1;
      FlightEvents(states[..n + 1], acts[..n]) + FlightEvent(states[n], acts[n])
  }

  lemma FlightStep<T>(c: Client<T>, a: Act<T>, before: seq<Matching.Event<T>>)
    requires May(c, a) && c.flight == Matching.After(before)
    ensures Happen(c, a).flight == Matching.After(before + FlightEvent(c, a))
    ensures Matching.Asks(before + FlightEvent(c, a)) == Matching.Asks(before) + if a.Request? then 1 else 0
  {
    var e := FlightEvent(c, a);
    FlightHappens(c, a);
    if e == [] {
      assert before + e == before;
    } else {
      assert e == [e[0]];
      RunOneMore(before, e[0]);
    }
  }

  lemma FlightHappens<T>(c: Client<T>, a: Act<T>)
    requires May(c, a)
    ensures var e := FlightEvent(c, a);
            if e == [] then !a.Request? && Happen(c, a).flight == c.flight
            else |e| == 1 && (a.Request? <==> e[0].Ask?) && Happen(c, a).flight == Matching.Happen(c.flight, e[0])
  {}

  lemma RunOneMore<T>(before: seq<Matching.Event<T>>, e: Matching.Event<T>)
    ensures Matching.After(before + [e]) == Matching.Happen(Matching.After(before), e)
    ensures Matching.Asks(before + [e]) == Matching.Asks(before) + if e.Ask? then 1 else 0
  {
    assert (before + [e])[..|before|] == before;
  }

  lemma {:induction false} FlightFollows<T>(states: seq<Client<T>>, acts: seq<Act<T>>)
    requires Run(states, acts)
    ensures states[|acts|].flight == Matching.After(FlightEvents(states, acts))
    ensures Matching.Asks(FlightEvents(states, acts)) == Requests(acts)
    decreases |acts|
  {
    if acts != [] {
      var n := |acts| - 1;
      RunPrefix(states, acts);
      FlightFollows(states[..n + 1], acts[..n]);
      FlightStep(states[n], acts[n], FlightEvents(states[..n + 1], acts[..n]));
    }
  }

  /** The k-th request, counted from one. */
  function NthRequest<T>(acts: seq<Act<T>>, k: nat): (a: Act<T>)
    requires 0 < k <= Requests(acts)
    ensures a.Request?
  {
    if acts[|acts| - 1].Request? && k == Requests(acts) then acts[|acts| - 1]
    else NthRequest(acts[..|acts| - 1], k)
  }

  /** What was written for a request is its text, tagged. */
  ghost predicate AsMade<T>(w: Written, acts: seq<Act<T>>) {
    0 < w.number <= Requests(acts) && w.payload == Tagged(NthId(w.number), NthRequest(acts, w.number).text)
  }

  lemma {:induction false} WrittenAsMade<T>(states: seq<Client<T>>, acts: seq<Act<T>>, j: nat)
    requires Run(states, acts) && j < |AllWritten(states, acts)|
    ensures AsMade(AllWritten(states, acts)[j], acts)
    decreases |acts|
  {
    var n := |acts| - 1;
    var before := AllWritten(states[..n + 1], acts[..n]);
    RunPrefix(states, acts);
    if j < |before| {
      WrittenAsMade(states[..n + 1], acts[..n], j);
      AsMadeEarlier(before[j], acts);
    } else {
      RunStreams(states[..n + 1], acts[..n]);
      AsMadeLast(states[n], acts);
    }
  }

  lemma AsMadeEarlier<T>(w: Written, acts: seq<Act<T>>)
    requires acts != [] && AsMade(w, acts[..|acts| - 1])
    ensures AsMade(w, acts)
  {}

  lemma AsMadeLast<T>(c: Client<T>, acts: seq<Act<T>>)
    requires acts != [] && May(c, acts[|acts| - 1]) && WrittenBy(c, acts[|acts| - 1]) != []
    requires c.flight.gens == Requests(acts[..|acts| - 1]) && c.flight.id == NthId(c.flight.gens)
    ensures |WrittenBy(c, acts[|acts| - 1])| == 1 && AsMade(WrittenBy(c, acts[|acts| - 1])[0], acts)
  {
    var a := acts[|acts| - 1];
    assert Requests(acts) == c.flight.gens + 1;
    assert NthRequest(acts, Requests(acts)) == a;
    assert NthId(c.flight.gens + 1) == NextId(c.flight.id);
  }

  /** What is in flight for a request is its message, and its time is up 1000 after it was made. */
  ghost predicate HoldsMessages<T>(f: Matching.Flight<T>, acts: seq<Act<T>>) {
    && f.gens == Requests(acts)
    && forall i :: i in f.queue.entries ==>
         && i in f.born && 0 < f.born[i] <= Requests(acts)
         && f.queue.entries[i].value == NthRequest(acts, f.born[i]).msg
         && f.queue.entries[i].deadline == DEADLINE + NthRequest(acts, f.born[i]).begin
  }

  lemma HoldsStep<T>(c: Client<T>, a: Act<T>, before: seq<Act<T>>, acts: seq<Act<T>>)
    requires May(c, a) && HoldsMessages(c.flight, before)
    requires acts != [] && acts[..|acts| - 1] == before && acts[|acts| - 1] == a
    ensures HoldsMessages(Happen(c, a).flight, acts)
  {
    var f, g := c.flight, Happen(c, a).flight;
    assert a.Request? ==> NthRequest(acts, Requests(acts)) == a;
    forall i | i in g.queue.entries
      ensures i in g.born && 0 < g.born[i] <= Requests(acts)
      ensures g.queue.entries[i].value == NthRequest(acts, g.born[i]).msg
      ensures g.queue.entries[i].deadline == DEADLINE + NthRequest(acts, g.born[i]).begin
    {
      if i in f.queue.entries {
        assert g.queue.entries[i] == f.queue.entries[i] && g.born[i] == f.born[i];
        NthEarlier(acts, f.born[i]);
      }
    }
  }

  lemma NthEarlier<T>(acts: seq<Act<T>>, k: nat)
    requires acts != [] && 0 < k <= Requests(acts[..|acts| - 1])
    ensures k <= Requests(acts) && NthRequest(acts, k) == NthRequest(acts[..|acts| - 1], k)
  {}

  lemma {:induction false} InFlightAsMade<T>(states: seq<Client<T>>, acts: seq<Act<T>>)
    requires Run(states, acts)
    ensures HoldsMessages(states[|acts|].flight, acts)
    decreases |acts|
  {
    if acts != [] {
      var n := |acts| - 1;
      RunPrefix(states, acts);
      InFlightAsMade(states[..n + 1], acts[..n]);
      HoldsStep(states[n], acts[n], acts[..n], acts);
    }
  }

  // ----- which requests are written

  /** A request in flight is marked as sent exactly if it was written, and none was written after one that is still
      to be sent. */
  ghost predicate Marked<T>(f: Matching.Flight<T>, ws: seq<Written>) {
    forall i :: i in f.queue.entries ==>
      && i in f.born && f.born[i] <= f.gens
      && (f.queue.entries[i].sent <==> WasWritten(ws, f.born[i]))
      && (!f.queue.entries[i].sent ==> forall w :: w in ws ==> w.number < f.born[i])
  }

  ghost predicate WasWritten(ws: seq<Written>, number: nat) {
    exists w :: w in ws && w.number == number
  }

  lemma MarkedStep<T>(c: Client<T>, a: Act<T>, ws: seq<Written>)
    requires May(c, a) && Marked(c.flight, ws) && InOrder(ws, c.flight.gens)
    ensures Marked(Happen(c, a).flight, ws + WrittenBy(c, a))
  {
    var g, more := Happen(c, a).flight, ws + WrittenBy(c, a);
    assert forall w :: w in more <==> w in ws || w in WrittenBy(c, a);
    assert forall w :: w in ws ==> w.number <= c.flight.gens;
    forall i | i in g.queue.entries
      ensures i in g.born && g.born[i] <= g.gens && (g.queue.entries[i].sent <==> WasWritten(more, g.born[i]))
      ensures !g.queue.entries[i].sent ==> forall w :: w in more ==> w.number < g.born[i]
    {
      if i in c.flight.queue.entries {
        StillMarked(ws, WrittenBy(c, a), c.flight.born[i], c.flight.gens);
      } else {
        NewlyMarked(ws, WrittenBy(c, a), c.flight.gens);
      }
    }
  }

  /** What is written next is not an earlier request. */
  lemma StillMarked(ws: seq<Written>, added: seq<Written>, number: nat, last: nat)
    requires number <= last && forall w :: w in added ==> w.number == last + 1
    ensures WasWritten(ws + added, number) <==> WasWritten(ws, number)
  {}

  lemma NewlyMarked(ws: seq<Written>, added: seq<Written>, last: nat)
    requires |added| <= 1 && forall w :: w in added ==> w.number == last + 1
    requires forall w :: w in ws ==> w.number <= last
    ensures WasWritten(ws + added, last + 1) <==> added != []
  {
    if added != [] {
      assert (ws + added)[|ws|] == added[0];
    }
  }

  /** Over any run: a request in flight is marked as sent exactly if its frame was written, and no request was
      written after one that is in flight and still to be sent. */
  lemma {:induction false} MarkedAsWritten<T>(states: seq<Client<T>>, acts: seq<Act<T>>)
    requires Run(states, acts)
    ensures Marked(states[|acts|].flight, AllWritten(states, acts))
    decreases |acts|
  {
    if acts != [] {
      var n := |acts| - 1;
      RunPrefix(states, acts);
      MarkedAsWritten(states[..n + 1], acts[..n]);
      RunStreams(states[..n + 1], acts[..n]);
      MarkedStep(states[n], acts[n], AllWritten(states[..n + 1], acts[..n]));
    }
  }

  lemma {:induction false} RequestsGrow<T>(acts: seq<Act<T>>, n: nat)
    requires n <= |acts|
    ensures Requests(acts[..n]) <= Requests(acts)
    decreases |acts|
  {
    if n == |acts| {
      assert acts[..n] == acts;
    } else {
      RequestsGrow(acts[..|acts| - 1], n);
      assert acts[..|acts| - 1][..n] == acts[..n];
    }
  }

  /** Nothing keeps the request of an act from being written. */
  ghost predicate WayIsClear<T>(c: Client<T>, a: Act<T>) {
    a.Request? && AllSent(c.flight.queue) && c.line.pending == [] && a.socket >= 0
  }

  lemma LastWritten<T>(c: Client<T>, a: Act<T>, ws: seq<Written>)
    requires May(c, a) && a.Request? && InOrder(ws, c.flight.gens)
    ensures WasWritten(ws + WrittenBy(c, a), c.flight.gens + 1) <==> WayIsClear(c, a)
  {
    assert forall w :: w in ws ==> w.number <= c.flight.gens;
    NewlyMarked(ws, WrittenBy(c, a), c.flight.gens);
  }

  lemma EarlierWritten<T>(c: Client<T>, a: Act<T>, ws: seq<Written>, number: nat)
    requires May(c, a) && number <= c.flight.gens
    ensures WasWritten(ws + WrittenBy(c, a), number) <==> WasWritten(ws, number)
  {
    StillMarked(ws, WrittenBy(c, a), number, c.flight.gens);
  }

  lemma WrittenLast<T>(states: seq<Client<T>>, acts: seq<Act<T>>)
    requires Run(states, acts) && acts != [] && acts[|acts| - 1].Request?
    ensures WasWritten(AllWritten(states, acts), Requests(acts)) <==> WayIsClear(states[|acts| - 1], acts[|acts| - 1])
  {
    var m := |acts| - 1;
    RunPrefix(states, acts);
    RunStreams(states[..m + 1], acts[..m]);
    LastWritten(states[m], acts[m], AllWritten(states[..m + 1], acts[..m]));
  }

  lemma WrittenBefore<T>(states: seq<Client<T>>, acts: seq<Act<T>>, number: nat)
    requires Run(states, acts) && acts != [] && number <= Requests(acts[..|acts| - 1])
    ensures Run(states[..|acts|], acts[..|acts| - 1])
    ensures WasWritten(AllWritten(states, acts), number) <==>
            WasWritten(AllWritten(states[..|acts|], acts[..|acts| - 1]), number)
  {
    var m := |acts| - 1;
    RunPrefix(states, acts);
    RunStreams(states[..m + 1], acts[..m]);
    EarlierWritten(states[m], acts[m], AllWritten(states[..m + 1], acts[..m]), number);
  }

  /** Whether a request was written is settled by the act it is made in. */
  lemma {:induction false} WrittenThen<T>(states: seq<Client<T>>, acts: seq<Act<T>>, n: nat, number: nat)
    requires Run(states, acts) && n <= |acts| && number <= Requests(acts[..n])
    ensures Run(states[..n + 1], acts[..n])
    ensures WasWritten(AllWritten(states, acts), number)
            <==> WasWritten(AllWritten(states[..n + 1], acts[..n]), number)
    decreases |acts|
  {
    if n == |acts| {
      assert states[..n + 1] == states && acts[..n] == acts;
    } else {
      var states', acts' := states[..|acts|], acts[..|acts| - 1];
      assert acts'[..n] == acts[..n] && states'[..n + 1] == states[..n + 1];
      RequestsGrow(acts', n);
      WrittenBefore(states, acts, number);
      WrittenThen(states', acts', n, number);
    }
  }

  /** The request made in the n-th act of a run is written exactly if no request in flight is still to be sent then,
      nothing of an earlier one is kept, and the socket does not refuse it. */
  lemma WrittenIff<T>(states: seq<Client<T>>, acts: seq<Act<T>>, n: nat)
    requires Run(states, acts) && n < |acts| && acts[n].Request?
    ensures WasWritten(AllWritten(states, acts), Requests(acts[..n + 1])) <==> WayIsClear(states[n], acts[n])
  {
    WrittenThen(states, acts, n + 1, Requests(acts[..n + 1]));
    WrittenLast(states[..n + 2], acts[..n + 1]);
  }

  lemma RunIsConsistent<T>(states: seq<Client<T>>, acts: seq<Act<T>>)
    requires Run(states, acts)
    ensures Matching.Consistent(states[|acts|].flight) && states[|acts|].flight.gens == Requests(acts)
  {
    FlightFollows(states, acts);
    Matching.RunConsistent(FlightEvents(states, acts));
  }

  /** What a server may answer to a payload: what stands before its colon, and then anything. */
  function Reply(payload: Bytes, rest: Bytes): Bytes {
    BeforeColon(payload) + [COLON] + rest
  }

  lemma ReplyIsTagged(id: nat, text: Bytes, rest: Bytes)
    requires id < UINT32
    ensures Reply(Tagged(id, text), rest) == Tagged(id, rest)
  {
    DecimalRoundTrip(ToInt32(id));
    BeforeColonStops(Decimal(ToInt32(id)), text);
  }

  /** A reply to the k-th request ends that request and no other if it is in flight; and for any request made,
      exactly if no other one in flight lies a multiple of 2^32 - 1 requests from it. */
  ghost predicate EndsIt<T>(f: Matching.Flight<T>, k: nat, reply: Bytes) {
    && (Matching.InFlight(f, k) ==> Matching.Answered(f, reply).queue == Matching.WithoutRequest(f, k))
    && (Matching.Answered(f, reply).queue == Matching.WithoutRequest(f, k) <==> Matching.NoTwin(f, k))
  }

  /** The whole way there and back. Take any run of a client, however long, and any cutting of the bytes the socket
      took into reads and calls of recv. The j-th payload the server got is the tagged text of the j-th written
      request, and a reply to it ends that request, whose message is still the one it was made with. */
  lemma CallsMatch<T>(states: seq<Client<T>>, acts: seq<Act<T>>, chunks: seq<Bytes>, j: nat, rest: Bytes)
    requires Run(states, acts)
    requires Concat(chunks) <= states[|acts|].line.wire && j < |Delivered(chunks)|
    ensures j < |AllWritten(states, acts)|
    ensures var f, k := states[|acts|].flight, AllWritten(states, acts)[j].number;
      && 0 < k <= Requests(acts)
      && Delivered(chunks)[j] == Tagged(NthId(k), NthRequest(acts, k).text)
      && HoldsMessages(f, acts)
      && EndsIt(f, k, Reply(Delivered(chunks)[j], rest))
  {
    var f := states[|acts|].flight;
    DeliveredInOrder(states, acts, chunks, j);
    WrittenAsMade(states, acts, j);
    InFlightAsMade(states, acts);
    RunIsConsistent(states, acts);
    var k := AllWritten(states, acts)[j].number;
    ReplyIsTagged(NthId(k), NthRequest(acts, k).text, rest);
    ReplyEnds(f, k, rest);
  }

  lemma ReplyEnds<T>(f: Matching.Flight<T>, k: nat, rest: Bytes)
    requires Matching.Consistent(f) && k > 0
    ensures EndsIt(f, k, Tagged(NthId(k), rest))
  {
    Matching.EchoMatchesIff(f, k, rest);
    if Matching.InFlight(f, k) {
      Matching.EchoMatches(f, k, rest);
    }
  }

  /** For the first 2^32 - 1 requests of a client, a reply to any of them ends it and no other. */
  lemma CallsMatchAtFirst<T>(states: seq<Client<T>>, acts: seq<Act<T>>, chunks: seq<Bytes>, j: nat, rest: Bytes)
    requires Run(states, acts) && Requests(acts) <= CYCLE
    requires Concat(chunks) <= states[|acts|].line.wire && j < |Delivered(chunks)|
    ensures j < |AllWritten(states, acts)|
    ensures var f, k := states[|acts|].flight, AllWritten(states, acts)[j].number;
            Matching.Answered(f, Reply(Delivered(chunks)[j], rest)).queue == Matching.WithoutRequest(f, k)
  {
    CallsMatch(states, acts, chunks, j, rest);
    RunIsConsistent(states, acts);
    Matching.NoTwinNearby(states[|acts|].flight, AllWritten(states, acts)[j].number);
  }

  lemma DeliveredInOrder<T>(states: seq<Client<T>>, acts: seq<Act<T>>, chunks: seq<Bytes>, j: nat)
    requires Run(states, acts) && Concat(chunks) <= states[|acts|].line.wire && j < |Delivered(chunks)|
    ensures j < |AllWritten(states, acts)| && Delivered(chunks)[j] == AllWritten(states, acts)[j].payload
  {
    var c, ws := states[|acts|], AllWritten(states, acts);
    RunStreams(states, acts);
    PayloadsFit(ws, c.flight.gens);
    Outgoing.PrefixTrans(Concat(chunks), c.line.wire, EncodeAll(Payloads(ws)));
    RoundTrip(Payloads(ws), chunks);
    PayloadAt(ws, j);
  }
}
