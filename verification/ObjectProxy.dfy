/** The client's view of a remote object: sends requests and matches the responses to them. */
module ObjectProxies {
  import opened Basics
  import opened Framing
  import opened RequestIds
  import opened TimeoutQueues
  import opened Transceivers
  import Matching
  import RemoteCalls

  datatype CallType = SyncCall | AsyncCall | OneWay
  datatype ReqStatus = ReqReq | ReqExc

  class ReqMessage {
    const callType: CallType
    const request: Bytes
    const beginTime: int
    var requestId: int
    var reqData: Bytes
    var status: ReqStatus
    var response: Bytes
    var monitorFin: bool

    constructor (callType: CallType, request: Bytes, beginTime: int)
      ensures this.callType == callType && this.request == request && this.beginTime == beginTime
      ensures requestId == 1 && reqData == [] && status == ReqReq && response == [] && !monitorFin
    {
      this.callType, this.request, this.beginTime := callType, request, beginTime;
      requestId, reqData, status, response, monitorFin := 1, [], ReqReq, [], false;
    }
  }

  lemma RequestedIs<T>(c: RemoteCalls.Client<T>, msg: T, text: Bytes, begin: int, socket: int, hasSend: bool,
                       d: RemoteCalls.Client<T>)
    requires c.flight.id < UINT32 && Outgoing.SocketMay(|RemoteCalls.NextFrame(c, text)|, socket)
    requires hasSend <==> RemoteCalls.GoesOut(c, text, socket)
    requires d.flight == Matching.Asked(c.flight, msg, RemoteCalls.DEADLINE + begin, hasSend)
    requires d.line == RemoteCalls.LineAfter(c, text, socket)
    ensures d == RemoteCalls.Requested(c, msg, text, begin, socket)
  {}

  class ObjectProxy {
    const trans: Transceiver
    const timeoutQueue: TimeoutQueue<ReqMessage>
    var id: nat
    var asyncQueue: seq<ReqMessage>  // handed to the callback threads
    ghost var gens: nat
    ghost var born: map<Id, nat>

    ghost function Flight(): Matching.Flight<ReqMessage>
      reads `id, `gens, `born, timeoutQueue
    {
      Matching.Flight(id, gens, born, timeoutQueue.model)
    }

    ghost predicate Valid()
      reads `id, `gens, `born, timeoutQueue, trans.sendBuffer, trans.receiveBuffer
    {
      && timeoutQueue.Valid() && trans.Valid()
      && id < UINT32 && Matching.Sound(Flight())
    }

    ghost function Model(): RemoteCalls.Client<ReqMessage>
      reads `id, `gens, `born, timeoutQueue, trans`wire, trans.sendBuffer, trans.receiveBuffer, trans.sendBuffer.buffer
      requires Valid()
    {
      RemoteCalls.Client(Flight(), trans.TheLine())
    }

    constructor ()
      ensures Valid() && Model() == RemoteCalls.Client(Matching.Start(), Outgoing.Line([], []))
      ensures asyncQueue == [] && fresh(trans) && fresh(timeoutQueue)
      ensures fresh(trans.sendBuffer.Repr() + trans.receiveBuffer.Repr())
    {
      trans := new Transceiver();
      timeoutQueue := new TimeoutQueue<ReqMessage>();
      id, asyncQueue, gens, born := 0, [], 0, map[];
      Matching.StartSound<ReqMessage>();
    }

    method GenerateId() returns (r: nat)
      requires Valid()
      modifies `id, `gens
      ensures Valid() && r == id && Flight() == Matching.Drawn(old(Flight()))
    {
      Matching.DrawSound(Flight());
      id := (id + 1) % UINT32;
      if id == 0 {
        id := (id + 1) % UINT32;
      }
      gens := gens + 1;
      return id;
    }

    /** finishInvoke(msg): wakes the caller or hands the message to a callback thread. */
    method FinishMessage(msg: ReqMessage)
      requires Valid()
      modifies msg`monitorFin, `asyncQueue
      ensures Valid() && Model() == old(Model())
      ensures msg.monitorFin == (old(msg.monitorFin) || msg.callType.SyncCall?)
      ensures asyncQueue == old(asyncQueue) + if msg.callType.AsyncCall? then [msg] else []
    {
      if msg.callType.SyncCall? {
        msg.monitorFin := true;
      } else if msg.callType.AsyncCall? {
        asyncQueue := asyncQueue + [msg];
      }
    }

    /** Gives a request its id and writes its frame. */
    method Prepare(msg: ReqMessage)
      requires Valid()
      modifies `id, `gens, msg`requestId, msg`reqData
      ensures Valid() && Flight() == Matching.Drawn(old(Flight()))
      ensures msg.requestId == ToInt32(id) && msg.reqData == RemoteCalls.Frame(Tagged(id, msg.request))
    {
      var uniqId := GenerateId();
      msg.requestId := ToInt32(uniqId);
      var temp := Decimal(msg.requestId) + [COLON] + msg.request;
      msg.reqData := Be32(|temp| % UINT32) + [COLON] + temp;
    }

    /** Writes a frame unless requests are waiting to be sent. */
    method Transmit(frame: Bytes, socket: int) returns (hasSend: bool)
      requires Valid() && Outgoing.SocketMay(|frame|, socket) && |frame| < SIZE_T
      modifies trans`wire, trans.sendBuffer, trans.sendBuffer.buffer
      ensures Valid() && fresh(trans.sendBuffer.Repr() - old(trans.sendBuffer.Repr()))
      ensures var go := RemoteCalls.AllSent(timeoutQueue.model);
        && trans.TheLine() == (if go then Outgoing.SendRequest(old(trans.TheLine()), frame, socket).0
                               else old(trans.TheLine()))
        && (hasSend <==> go && Outgoing.SendRequest(old(trans.TheLine()), frame, socket).1 != Outgoing.RET_ERROR)
      ensures Flight() == old(Flight())
    {
      hasSend := timeoutQueue.SendListEmpty();
      if hasSend {
        var ret := trans.SendRequest(frame, socket);
        hasSend := ret != Outgoing.RET_ERROR;
      }
    }

    /** The part up to the registration. */
    method Issue(msg: ReqMessage, socket: int) returns (hasSend: bool)
      requires Valid()
      requires var frame := RemoteCalls.NextFrame(Model(), msg.request);
               Outgoing.SocketMay(|frame|, socket) && |frame| < SIZE_T
      modifies `id, `gens, msg`requestId, msg`reqData
      modifies trans`connected, trans`valid, trans`wire, trans.sendBuffer, trans.sendBuffer.buffer
      ensures Valid() && trans.connected && fresh(trans.sendBuffer.Repr() - old(trans.sendBuffer.Repr()))
      ensures Flight() == Matching.Drawn(old(Flight()))
      ensures trans.TheLine() == RemoteCalls.LineAfter(old(Model()), msg.request, socket)
      ensures hasSend <==> RemoteCalls.GoesOut(old(Model()), msg.request, socket)
      ensures msg.requestId == ToInt32(id) && msg.reqData == RemoteCalls.Frame(Tagged(id, msg.request))
    {
      if !trans.connected {
        trans.Connect();
      }
      Prepare(msg);
      hasSend := Transmit(msg.reqData, socket);
    }

    /** Registers a request that has just got its id; a request that cannot be registered ends in an error. */
    method Register(msg: ReqMessage, hasSend: bool, ghost before: Matching.Flight<ReqMessage>)
      requires Valid() && Matching.Sound(before) && before.id < UINT32
      requires Flight() == Matching.Drawn(before) && msg.requestId == ToInt32(id)
      modifies `born, `asyncQueue, msg`status, msg`monitorFin, timeoutQueue
      ensures Valid() && trans.TheLine() == old(trans.TheLine())
      ensures Flight() == Matching.Asked(before, msg, RemoteCalls.DEADLINE + msg.beginTime, hasSend)
      ensures var ok := id !in before.queue.entries;
        && msg.status == (if ok then old(msg.status) else ReqExc)
        && msg.monitorFin == (old(msg.monitorFin) || (!ok && msg.callType.SyncCall?))
        && asyncQueue == old(asyncQueue) + if !ok && msg.callType.AsyncCall? then [msg] else []
    {
      assert ToUint32(msg.requestId) == id;
      Matching.AskSound(before, msg, RemoteCalls.DEADLINE + msg.beginTime, hasSend);
      var flag := timeoutQueue.Push(msg, ToUint32(msg.requestId), RemoteCalls.DEADLINE + msg.beginTime, hasSend);
      if flag {
        born := born[id := gens];
      }
      assert Flight() == Matching.Asked(before, msg, RemoteCalls.DEADLINE + msg.beginTime, hasSend);
      if !flag {
        msg.status := ReqExc;
        FinishMessage(msg);
      }
    }

    /** Tags, frames and sends a request, and registers it; `socket` is what send would return. */
    method SendReqMessage(msg: ReqMessage, socket: int)
      requires Valid()
      requires var frame := RemoteCalls.NextFrame(Model(), msg.request);
               Outgoing.SocketMay(|frame|, socket) && |frame| < SIZE_T
      modifies `id, `gens, `born, `asyncQueue, msg, timeoutQueue
      modifies trans`connected, trans`valid, trans`wire, trans.sendBuffer, trans.sendBuffer.buffer
      ensures Valid() && trans.connected && fresh(trans.sendBuffer.Repr() - old(trans.sendBuffer.Repr()))
      ensures Model() == RemoteCalls.Requested(old(Model()), msg, msg.request, msg.beginTime, socket)
      ensures msg.requestId == ToInt32(id) && msg.reqData == RemoteCalls.Frame(Tagged(id, msg.request))
      ensures var ok := id !in old(timeoutQueue.model).entries;
        && msg.status == (if ok then old(msg.status) else ReqExc)
        && msg.monitorFin == (old(msg.monitorFin) || (!ok && msg.callType.SyncCall?))
        && asyncQueue == old(asyncQueue) + if !ok && msg.callType.AsyncCall? then [msg] else []
    {
      ghost var c := Model();
      var hasSend := Issue(msg, socket);
      Register(msg, hasSend, c.flight);
      RequestedIs(c, msg, msg.request, msg.beginTime, socket, hasSend, Model());
    }

    /** The message that a response is for. */
    ghost function Addressed(response: Bytes): set<ReqMessage>
      reads timeoutQueue
    {
      if KeyOf(response) in timeoutQueue.model.entries then {timeoutQueue.model.entries[KeyOf(response)].value} else {}
    }

    /** finishInvoke(response): ends the request that the response names, if it is in flight. */
    method FinishInvoke(response: Bytes)
      requires Valid()
      modifies `asyncQueue, timeoutQueue, Addressed(response)`response, Addressed(response)`monitorFin
      ensures Valid()
      ensures Model() == old(Model()).(flight := Matching.Answered(old(Model()).flight, response))
      ensures forall msg :: msg in old(Addressed(response)) ==>
                && msg.response == response
                && msg.monitorFin == (old(msg.monitorFin) || msg.callType.SyncCall?)
                && asyncQueue == old(asyncQueue) + if msg.callType.AsyncCall? then [msg] else []
      ensures old(Addressed(response)) == {} ==> asyncQueue == old(asyncQueue)
    {
      Matching.AnswerSound(Flight(), response);
      var requestId := BeforeColon(response);
      var erased := timeoutQueue.Erase(ToUint32(Strtol(requestId)));
      if erased.None? {
        return;
      }
      var msg := erased.value;
      msg.response := response;
      FinishMessage(msg);
    }
  }
}
