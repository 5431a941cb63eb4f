/** Heartbeat failure accounting of src/service.rs: the rate-limited
    `FailCounter`, the `Heartbeat` event record, and what one call of
    `Heartbeat::monitor` does to the counter for each kind of reply.

    `Instant::now()` becomes a parameter `now`, in milliseconds on a
    monotonic clock. Sending the heartbeat and reading the reply are not
    modelled: the reply is a parameter. */
module Events {
  import opened Wrappers
  import opened Connection
  import Framing

  /** `FailCounter::new` sets the interval to 10 seconds. */
  const INTERVAL_MS: nat := 10_000

  /** At this many failures an event is dropped from the queue. */
  const MAX_FAILS: int := 10

  const OK: nat := 200
  const BAD_REQUEST: nat := 400
  const REQUEST_TIMEOUT: nat := 408

  datatype FailCounter = FailCounter(failCount: int, firstIncrement: nat, lastIncrement: nat, interval: nat)

  /** `FailCounter::new`: no failures, both time stamps at `now`. */
  function NewFailCounter(now: nat): (c: FailCounter)
    ensures c.failCount == 0 && c.interval == INTERVAL_MS
    ensures c.firstIncrement == now && c.lastIncrement == now
  {
    FailCounter(0, now, now, INTERVAL_MS)
  }

  /** `Instant::duration_since`, which saturates at zero. */
  function ElapsedSince(now: nat, earlier: nat): nat
  {
    if now >= earlier then now - earlier else 0
  }

  /** `FailCounter::increment`: counts a failure only when a whole interval
      has passed since the last one that counted. */
  function Increment(c: FailCounter, now: nat): (d: FailCounter)
    ensures d.interval == c.interval && d.firstIncrement == c.firstIncrement
    ensures d.failCount == c.failCount + 1 <==> ElapsedSince(now, c.lastIncrement) >= c.interval
    ensures d.failCount == c.failCount <==> ElapsedSince(now, c.lastIncrement) < c.interval
    ensures d.failCount == c.failCount ==> d == c
    ensures d.failCount != c.failCount ==> d.lastIncrement == now
  {
    if ElapsedSince(now, c.lastIncrement) >= c.interval then
      c.(failCount := c.failCount + 1, lastIncrement := now)
    else c
  }

  /** Applies `Increment` at each of the given times in turn. */
  function IncrementAll(c: FailCounter, times: seq<nat>): FailCounter
    decreases |times|
  {
    if |times| == 0 then c else IncrementAll(Increment(c, times[0]), times[1..])
  }

  predicate NonDecreasing(times: seq<nat>)
  {
    forall i, j :: 0 <= i < j < |times| ==> times[i] <= times[j]
  }

  /** The rate limit: however often `increment` is called, the count rises
      by at most one per interval of elapsed time. */
  lemma {:induction false} IncrementRateLimited(c: FailCounter, times: seq<nat>)
    requires c.interval > 0 && |times| > 0
    requires NonDecreasing(times) && c.lastIncrement <= times[0]
    ensures var d := IncrementAll(c, times);
            (d.failCount - c.failCount) * c.interval <= times[|times| - 1] - c.lastIncrement
    decreases |times|
  {
    var d1 := Increment(c, times[0]);
    if |times| > 1 {
      var rest := times[1..];
      assert rest[|rest| - 1] == times[|times| - 1];
      IncrementRateLimited(d1, rest);
      var x := IncrementAll(d1, rest).failCount - d1.failCount;
      if d1.failCount != c.failCount {
        assert (x + 1) * c.interval == x * c.interval + c.interval;
      }
    }
  }

  /** `MsgBody`: a message for the service and the id it is meant for. */
  datatype MsgBody = MsgBody(msg: string, id: nat)

  const DefaultMsgBody: MsgBody := MsgBody("", 0)

  /** `Heartbeat`, without its stream or HTTP client (only which of the two
      it holds is kept, as `com`) and without the `ping` flag, which every
      heartbeat the broker creates has set to false. */
  datatype Heartbeat = Heartbeat(key: nat, id: nat, serviceId: nat, addr: string, com: ComType,
                                 tls: bool, failCounter: FailCounter, msgBody: MsgBody)

  /** What came back for one heartbeat: on the TCP integration the framed
      bytes or the read error; on the API integration the decoded response,
      a failed request, or the 10-second request timeout. */
  datatype Reply =
    | StreamReply(read: Result<seq<Framing.byte>, IoError>)
    | ApiResponse(msg: Message)
    | ApiFailure
    | ApiTimeout

  datatype MonitorResult = Status(code: nat) | Failed(err: IoError)

  /** A reply proving the peer alive: non-empty bytes on the stream, or any
      response to the HTTP request (a serialised message is never empty). */
  predicate Alive(reply: Reply)
  {
    (reply.StreamReply? && reply.read.Ok? && |reply.read.value| > 0) || reply.ApiResponse?
  }

  /** The read errors `monitor` counts without touching `first_increment`. */
  predicate TransportError(e: IoError)
  {
    e.kind in {ConnectionReset, ConnectionAborted, TimedOut}
  }

  /** A counted failure that may be the first of a run: `first_increment`
      is set to `now` when the count is still zero, then `increment`. */
  function RecordFailure(c: FailCounter, now: nat): (d: FailCounter)
    ensures c.failCount == 0 ==> d.firstIncrement == now
    ensures c.failCount != 0 ==> d.firstIncrement == c.firstIncrement
    ensures d.failCount - c.failCount == Increment(c, now).failCount - c.failCount
  {
    Increment(if c.failCount == 0 then c.(firstIncrement := now) else c, now)
  }

  /** `Heartbeat::monitor` (the non-ping branch), given the reply. */
  function Monitor(hb: Heartbeat, reply: Reply, now: nat): (out: (Heartbeat, MonitorResult))
    ensures out.0 == hb.(failCounter := out.0.failCounter)
    ensures Alive(reply) ==> out.0.failCounter == hb.failCounter.(failCount := 0) && out.1 == Status(OK)
    ensures reply.ApiTimeout? ==> out.0 == hb && out.1 == Status(REQUEST_TIMEOUT)
    ensures !Alive(reply) && !reply.ApiTimeout? ==>
              out.0.failCounter.failCount == Increment(hb.failCounter, now).failCount &&
              out.0.failCounter.lastIncrement == Increment(hb.failCounter, now).lastIncrement
    ensures out.1 == Status(OK) <==> Alive(reply)
    ensures reply.StreamReply? && reply.read.Err? ==> out.1 == Failed(reply.read.error)
  {
    var c := hb.failCounter;
    match reply
    case StreamReply(Err(e)) =>
      if TransportError(e) then (hb.(failCounter := Increment(c, now)), Failed(e))
      else (hb.(failCounter := RecordFailure(c, now)), Failed(e))
    case StreamReply(Ok(bytes)) =>
      if |bytes| == 0 then (hb.(failCounter := RecordFailure(c, now)), Status(BAD_REQUEST))
      else (hb.(failCounter := c.(failCount := 0)), Status(OK))
    case ApiResponse(_) => (hb.(failCounter := c.(failCount := 0)), Status(OK))
    case ApiFailure => (hb.(failCounter := RecordFailure(c, now)), Status(BAD_REQUEST))
    case ApiTimeout => (hb, Status(REQUEST_TIMEOUT))
  }

  /** The worker's decision after `monitor`: back into the queue while the
      count is below ten, dropped from then on. */
  predicate Requeue(hb: Heartbeat)
  {
    hb.failCounter.failCount < MAX_FAILS
  }

  /** A heartbeat that keeps failing is dropped in bounded time: one more
      counted failure at nine failures ends its life in the queue, while a
      live reply always keeps it. */
  lemma MonitorThenRequeue(hb: Heartbeat, reply: Reply, now: nat)
    ensures Alive(reply) ==> Requeue(Monitor(hb, reply, now).0)
    ensures (hb.failCounter.failCount == MAX_FAILS - 1 && !Alive(reply) && !reply.ApiTimeout? &&
             ElapsedSince(now, hb.failCounter.lastIncrement) >= hb.failCounter.interval)
            ==> !Requeue(Monitor(hb, reply, now).0)
  {
  }
}
