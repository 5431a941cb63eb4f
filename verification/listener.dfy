/** The standalone heartbeat listener, heartbeat_monitor/src/listener.rs:
    accepted connections wait in a queue; a worker takes the front client,
    reads one framed message from it, and puts it back unless it has failed
    ten times. Threads, the pool and the sockets are not modelled; each
    connection is named by a number and the reads it answers are given. */
module Listener {
  import opened Wrappers
  import opened Connection
  import Framing

  const MAX_FAILS: int := 10

  datatype Client = Client(conn: nat, failCount: int)

  /** The accept loop: a new connection joins the back of the queue with no
      failures. */
  function Accept(queue: seq<Client>, conn: nat): (q: seq<Client>)
    ensures |q| == |queue| + 1 && q[..|queue|] == queue
    ensures q[|queue|].conn == conn && q[|queue|].failCount == 0
  {
    queue + [Client(conn, 0)]
  }

  const HbFailed: IoError := IoError(InvalidInput, "HB Failed")

  /** What `handle_connection` did: the updated client, its result, and
      whether the acknowledgement was written back. */
  datatype Handled = Handled(client: Client, result: Result<(), IoError>, acked: bool)

  /** `handle_connection`, given what the client's stream answers: a
      read error is passed on with the count unchanged; an empty message
      counts one failure; anything else clears the count and is
      acknowledged. */
  function HandleConnection(c: Client, answers: seq<Framing.StdRead>): (h: Handled)
    ensures h.client.conn == c.conn
    ensures Framing.HbStreamRead(answers).Err? ==>
              h == Handled(c, Err(Framing.HbStreamRead(answers).error), false)
    ensures Framing.HbStreamRead(answers) == Ok([]) ==>
              h == Handled(c.(failCount := c.failCount + 1), Err(HbFailed), false)
    ensures h.acked <==> Framing.HbStreamRead(answers).Ok? && |Framing.HbStreamRead(answers).value| > 0
    ensures h.acked ==> h.client.failCount == 0 && h.result == Ok(())
  {
    match Framing.HbStreamRead(answers)
    case Err(e) => Handled(c, Err(e), false)
    case Ok(message) =>
      if |message| == 0 then Handled(c.(failCount := c.failCount + 1), Err(HbFailed), false)
      else Handled(c.(failCount := 0), Ok(()), true)
  }

  /** One worker step: the front client is handled and pushed to the back
      while below ten failures, otherwise dropped. An empty queue is left
      as it is. */
  function Step(queue: seq<Client>, answers: seq<Framing.StdRead>): (q: seq<Client>)
    ensures |queue| == 0 ==> q == []
    ensures |queue| > 0 ==> |queue| - 1 <= |q| <= |queue| && q[..|queue| - 1] == queue[1..]
    ensures |queue| > 0 ==>
              var c := HandleConnection(queue[0], answers).client;
              (|q| == |queue| <==> c.failCount < MAX_FAILS) &&
              (|q| == |queue| ==> q[|q| - 1] == c)
  {
    if |queue| == 0 then []
    else
      var c := HandleConnection(queue[0], answers).client;
      if c.failCount < MAX_FAILS then queue[1..] + [c] else queue[1..]
  }

  /** Every queued client has a count in 0..9. */
  predicate Healthy(queue: seq<Client>)
  {
    forall i :: 0 <= i < |queue| ==> 0 <= queue[i].failCount < MAX_FAILS
  }

  /** Accepting and stepping keep every queued count in 0..9. */
  lemma StepKeepsHealthy(queue: seq<Client>, answers: seq<Framing.StdRead>, conn: nat)
    requires Healthy(queue)
    ensures Healthy(Step(queue, answers))
    ensures Healthy(Accept(queue, conn))
  {
  }

  /** `n` worker steps in which every client sends an empty message. */
  function Rounds(queue: seq<Client>, n: nat): seq<Client>
    decreases n
  {
    if n == 0 then queue else Rounds(Step(queue, [Framing.StdData([])]), n - 1)
  }

  /** A client whose every message is empty, handled alone, survives
      while its count is below ten and is dropped on the handling that
      brings it to ten. */
  lemma {:induction false} SilentClientDropped(conn: nat, k: nat)
    requires k < MAX_FAILS
    ensures Rounds([Client(conn, k)], MAX_FAILS - k - 1) == [Client(conn, MAX_FAILS - 1)]
    ensures Rounds([Client(conn, k)], MAX_FAILS - k) == []
    decreases MAX_FAILS - k
  {
    assert Framing.HbStreamRead([Framing.StdData([])]) == Ok([]);
    if k < MAX_FAILS - 1 {
      assert Step([Client(conn, k)], [Framing.StdData([])]) == [Client(conn, k + 1)];
      SilentClientDropped(conn, k + 1);
    } else {
      assert Step([Client(conn, k)], [Framing.StdData([])]) == [];
    }
  }
}
