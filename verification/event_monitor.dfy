/** One pass of `event_monitor` in src/service.rs, run sequentially: remove
    the connection the last worker found dead, pop the next heartbeat event,
    monitor it, and decide whether it goes back into the queue.

    The tokio tasks, the `Notify` handshake and the shared mutexes are not
    modelled; a pass runs start to finish before the next one. The reply to
    each heartbeat and the clocks are parameters. */
module EventMonitor {
  import opened Wrappers
  import opened Connection
  import opened Events
  import opened Registry
  import Decimal

  const U64_MODULUS: int := 0x1_0000_0000_0000_0000

  /** The shared `(fail_count, key, id, service_id)` of the event the last
      worker handled. */
  datatype Data = Data(failCount: int, key: nat, id: nat, serviceId: nat)

  /** The loop's state: the registry, the shared data, and `service_id`,
      the i64 id of the last service removed (-1 before any). */
  datatype Loop = Loop(state: State, data: Data, tracked: int)

  function Start(s: State): (m: Loop)
    ensures m.state == s && m.data.failCount == 0 && m.tracked == -1
  {
    Loop(s, Data(0, 0, 0, 0), -1)
  }

  /** Rust's `x as u64` for an i64: wraps modulo 2^64. */
  function AsU64(x: int): (r: nat)
    ensures 0 <= x < U64_MODULUS ==> r == x
    ensures -U64_MODULUS <= x < 0 ==> r == x + U64_MODULUS
  {
    x % U64_MODULUS
  }

  /** Why a pass can end the whole monitor loop: `rmv` failed (the loop
      returns BAD_REQUEST) or the PUB body did not parse (`unwrap` panics). */
  datatype Halt = RemoveError | ParsePanic

  /** Start of a pass: when the last worker reported ten failures, the
      connection is removed. Removing a service records its id, read back
      from the PUB body, as the service whose clients must move. */
  function RemoveDead(m: Loop): (r: Result<Loop, Halt>)
    ensures m.data.failCount != MAX_FAILS ==> r == Ok(m)
    ensures m.data.failCount == MAX_FAILS ==>
              var (t, msg) := Rmv(m.state, m.data.key, m.data.id, m.data.serviceId);
              && (msg.Err? ==> r == Err(RemoveError))
              && (r.Ok? ==> r.value.state == t && r.value.data.failCount == 0 &&
                            r.value.data == m.data.(failCount := 0))
              && (msg.Ok? && msg.value.header != PUB ==> r.Ok? && r.value.tracked == m.tracked)
  {
    if m.data.failCount != MAX_FAILS then Ok(m)
    else
      var (t, msg) := Rmv(m.state, m.data.key, m.data.id, m.data.serviceId);
      match msg
      case Err(_) => Err(RemoveError)
      case Ok(message) =>
        if message.header == PUB then
          match Decimal.ParseI64(message.body)
          case None => Err(ParsePanic)
          case Some(v) => Ok(Loop(t, m.data.(failCount := 0), v))
        else Ok(Loop(t, m.data.(failCount := 0), m.tracked))
  }

  /** Removing a dead service makes the monitor track exactly that
      service's id: the decimal body of the PUB message reads back. */
  lemma RemoveDeadTracksService(m: Loop)
    requires m.data.failCount == MAX_FAILS
    requires var k := m.data.key; k in m.state.clients && IndexOfId(m.state.clients[k], m.data.id).Some?
    requires var list := m.state.clients[m.data.key];
             var item := list[IndexOfId(list, m.data.id).value];
             item.serviceId == item.id && item.id <= Decimal.I64_MAX
    ensures var list := m.state.clients[m.data.key];
            var item := list[IndexOfId(list, m.data.id).value];
            RemoveDead(m).Ok? && RemoveDead(m).value.tracked == item.id
  {
    var list := m.state.clients[m.data.key];
    var item := list[IndexOfId(list, m.data.id).value];
    RmvEffect(m.state, m.data.key, m.data.id, m.data.serviceId);
    Decimal.ParseI64OfNatToString(item.id);
  }

  /** The event-loop half of a pass: pop the front event; an empty queue
      puts the loop to sleep (`running` false). */
  function Pop(m: Loop): (r: (Loop, Option<Heartbeat>))
    ensures |m.state.deque| == 0 ==> r.1.None? && r.0 == m.(state := m.state.(running := false))
    ensures |m.state.deque| > 0 ==>
              r.1 == Some(m.state.deque[0]) &&
              r.0 == m.(state := m.state.(deque := m.state.deque[1..], running := true))
    ensures r.1.Some? ==> [r.1.value] + r.0.state.deque == m.state.deque
    ensures r.1.None? <==> |m.state.deque| == 0
  {
    if |m.state.deque| == 0 then (m.(state := m.state.(running := false)), None)
    else (m.(state := m.state.(deque := m.state.deque[1..], running := true)), Some(m.state.deque[0]))
  }

  /** The heartbeat a client gets after its service died and another entry
      was claimed for it, as the source builds it: fresh counter, every
      other field copied, including the dead service's id. */
  function ReclaimedAsWritten(hb: Heartbeat, claimed: Payload, now: nat): (h: Heartbeat)
    ensures h.serviceId == hb.serviceId
    ensures h.failCounter == NewFailCounter(now)
  {
    hb.(failCounter := NewFailCounter(now))
  }

  /** The heartbeat the re-claim evidently means to build ("new
      service_id"): it follows the service just claimed. */
  function Reclaimed(hb: Heartbeat, claimed: Payload, now: nat): (h: Heartbeat)
    ensures h.serviceId == claimed.serviceId
    ensures h.failCounter == NewFailCounter(now)
    ensures h == hb.(serviceId := h.serviceId, failCounter := h.failCounter)
  {
    hb.(serviceId := claimed.serviceId, failCounter := NewFailCounter(now))
  }

  /** Whether a handled heartbeat belongs to the service last removed, so
      that the worker tries to claim a new service for it. */
  predicate ReclaimDue(hb: Heartbeat, tracked: int)
  {
    hb.serviceId == AsU64(tracked)
  }

  /** The worker after `monitor`: records the event in `data`; an event
      below ten failures goes back into the queue, re-claimed first if it
      belongs to the removed service. The claim runs on a copy of the
      registry, so its stamp is not kept; if nothing can be claimed the
      event is dropped and marked dead. `fixed` selects the corrected
      re-claim. */
  function Work(m: Loop, hb: Heartbeat, reply: Reply, now: nat, epochNow: nat, fixed: bool): (r: Loop)
    requires StampsNotAfter(m.state, hb.key, epochNow)
    ensures r.tracked == m.tracked && r.state.clients == m.state.clients
    ensures r.state.seqNo == m.state.seqNo && r.state.running == m.state.running
    ensures var h := Monitor(hb, reply, now).0;
            && r.data.key == h.key && r.data.id == h.id && r.data.serviceId == h.serviceId
            && (!ReclaimDue(h, m.tracked) ==>
                  r.data.failCount == h.failCounter.failCount &&
                  r.state.deque == m.state.deque + (if Requeue(h) then [h] else []))
            && (ReclaimDue(h, m.tracked) && Requeue(h) ==>
                  match Claim(m.state, h.key, epochNow).1
                  case Err(_) => r.data.failCount == MAX_FAILS && r.state.deque == m.state.deque
                  case Ok(c) =>
                    r.data.failCount == h.failCounter.failCount &&
                    r.state.deque == m.state.deque +
                      [if fixed then Reclaimed(h, c.payload, now) else ReclaimedAsWritten(h, c.payload, now)])
            && (!Requeue(h) ==> r.state.deque == m.state.deque && r.data.failCount == h.failCounter.failCount)
  {
    var h := Monitor(hb, reply, now).0;
    var data := Data(h.failCounter.failCount, h.key, h.id, h.serviceId);
    if data.failCount < MAX_FAILS then
      if ReclaimDue(h, m.tracked) then
        match Claim(m.state, h.key, epochNow).1
        case Ok(c) =>
          var next := if fixed then Reclaimed(h, c.payload, now) else ReclaimedAsWritten(h, c.payload, now);
          Loop(m.state.(deque := m.state.deque + [next]), data, m.tracked)
        case Err(_) =>
          Loop(m.state, data.(failCount := MAX_FAILS), m.tracked)
      else Loop(m.state.(deque := m.state.deque + [h]), data, m.tracked)
    else Loop(m.state, data, m.tracked)
  }

  /** One whole pass of the loop: it halts only when removing a dead entry
      fails, and it never lengthens the queue (one event is taken, at most
      one put back). */
  function Pass(m: Loop, reply: Reply, now: nat, epochNow: nat, fixed: bool): (r: Result<Loop, Halt>)
    requires AllStampsNotAfter(m.state, epochNow)
    ensures r.Err? <==> RemoveDead(m).Err?
    ensures r.Ok? ==> |r.value.state.deque| <= |m.state.deque| && r.value.state.seqNo == m.state.seqNo
  {
    match RemoveDead(m)
    case Err(h) => Err(h)
    case Ok(m1) =>
      RemoveDeadKeepsStamps(m, epochNow);
      var (m2, event) := Pop(m1);
      match event
      case None => Ok(m2)
      case Some(hb) => Ok(Work(m2, hb, reply, now, epochNow, fixed))
  }

  lemma RemoveDeadKeepsStamps(m: Loop, epochNow: nat)
    requires AllStampsNotAfter(m.state, epochNow)
    ensures RemoveDead(m).Ok? ==> AllStampsNotAfter(RemoveDead(m).value.state, epochNow)
  {
    RmvKeepsStamps(m.state, m.data.key, m.data.id, m.data.serviceId, epochNow);
  }

  /** The queue holds only live events: none has reached ten failures. */
  predicate QueueHealthy(deque: seq<Heartbeat>)
  {
    forall i :: 0 <= i < |deque| ==> Requeue(deque[i])
  }

  /** A worker only queues live events. */
  lemma WorkKeepsQueueHealthy(m: Loop, hb: Heartbeat, reply: Reply, now: nat, epochNow: nat, fixed: bool)
    requires StampsNotAfter(m.state, hb.key, epochNow)
    requires QueueHealthy(m.state.deque)
    ensures QueueHealthy(Work(m, hb, reply, now, epochNow, fixed).state.deque)
  {
    var h := Monitor(hb, reply, now).0;
    var r := Work(m, hb, reply, now, epochNow, fixed);
    if Requeue(h) && ReclaimDue(h, m.tracked) && Claim(m.state, h.key, epochNow).1.Ok? {
      var c := Claim(m.state, h.key, epochNow).1.value;
      var next := if fixed then Reclaimed(h, c.payload, now) else ReclaimedAsWritten(h, c.payload, now);
      assert Requeue(next);
      assert r.state.deque == m.state.deque + [next];
    }
  }

  /** A pass never puts a dead event into the queue. */
  lemma PassKeepsQueueHealthy(m: Loop, reply: Reply, now: nat, epochNow: nat, fixed: bool)
    requires AllStampsNotAfter(m.state, epochNow)
    requires QueueHealthy(m.state.deque)
    ensures var r := Pass(m, reply, now, epochNow, fixed);
            r.Ok? ==> QueueHealthy(r.value.state.deque)
  {
    if RemoveDead(m).Ok? {
      var m1 := RemoveDead(m).value;
      RemoveDeadKeepsStamps(m, epochNow);
      assert m1.state.deque == m.state.deque;
      var (m2, event) := Pop(m1);
      if event.Some? {
        assert QueueHealthy(m2.state.deque);
        WorkKeepsQueueHealthy(m2, event.value, reply, now, epochNow, fixed);
      }
    }
  }

  /** Registration queues a live event. */
  lemma AddKeepsQueueHealthy(s: State, p: Payload, serviceId: nat, com: ComType, now: nat, connected: bool)
    requires |p.serviceAddr| == 1 && QueueHealthy(s.deque)
    ensures QueueHealthy(Add(s, p, serviceId, com, now, connected).0.deque)
  {
  }

  /** As written, a re-claimed client keeps the dead service's id, so the
      next time it is handled it is due for a re-claim again. */
  lemma ReclaimAsWrittenStaysDue(hb: Heartbeat, claimed: Payload, now: nat, tracked: int)
    requires ReclaimDue(hb, tracked)
    ensures ReclaimDue(ReclaimedAsWritten(hb, claimed, now), tracked)
  {
  }

  /** A concrete case: service 1 is dead, a client of it (id 2) is handled,
      and service 3 is free under the same key. The source re-queues the
      client still pointing at service 1. */
  lemma ReclaimAsWrittenExample()
    ensures var s3 := Payload(["10.0.0.3"], 8020, 0, [], 8010, 7, 3, 3, None);
            var st := State(map[7 := [s3]], 60, 4, [], true);
            var hb := Heartbeat(7, 2, 1, "10.0.0.2:8015", TCP, false, NewFailCounter(0), DefaultMsgBody);
            var m := Loop(st, Data(0, 0, 0, 0), 1);
            var r := Work(m, hb, ApiResponse(AckMessage), 5, 100, false);
            r.state.deque == [hb.(failCounter := NewFailCounter(5))] && r.state.deque[0].serviceId == 1
  {
    var s3 := Payload(["10.0.0.3"], 8020, 0, [], 8010, 7, 3, 3, None);
    var st := State(map[7 := [s3]], 60, 4, [], true);
    assert FirstExpired(st.clients[7], 100, 60) == Some(0);
  }

  /** With the correction, a client re-claimed onto a service that is not
      the dead one is no longer due for a re-claim, and it carries the
      claimed service's id. */
  lemma ReclaimedMovesOn(hb: Heartbeat, claimed: Payload, now: nat, tracked: int)
    requires claimed.serviceId != AsU64(tracked)
    ensures !ReclaimDue(Reclaimed(hb, claimed, now), tracked)
    ensures Reclaimed(hb, claimed, now).serviceId == claimed.serviceId
  {
  }
}
