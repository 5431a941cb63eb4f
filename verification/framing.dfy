/** Chunked framing of a message on a TCP stream: `stream_read` in
    src/connection.rs (tokio, with a 6-second timeout on each read) and in
    heartbeat_monitor/src/hb_connection.rs (std, no timeout of its own).

    Both read into a 1024-byte buffer and append what each read returned,
    stopping after the first read that did not fill the buffer. The reads a
    stream will answer are given as a sequence of events; once the sequence
    is used up the stream is at end of file, where a read returns 0 bytes.
    Bytes are kept as bytes: the UTF-8 decoding of each chunk is left out. */
module Framing {
  import opened Wrappers
  import opened Connection

  const BUF_LEN: nat := 1024

  type byte = x: int | 0 <= x < 256

  /** What one read can hand back: at most a buffer's worth of bytes. */
  type Chunk = s: seq<byte> | |s| <= BUF_LEN

  /** One read on the tokio stream: data, an I/O error, or the timeout
      firing before the read completed. */
  datatype ReadEvent = Data(bytes: Chunk) | Failure(err: IoError) | Timeout

  const TimeoutError: IoError := IoError(TimedOut, "Read timed out")

  predicate IsFull(e: ReadEvent) { e.Data? && |e.bytes| == BUF_LEN }

  /** How many reads at the front of `events` filled the whole buffer. */
  function FullPrefix(events: seq<ReadEvent>): (k: nat)
    ensures k <= |events|
    ensures forall i :: 0 <= i < k ==> IsFull(events[i])
    ensures k < |events| ==> !IsFull(events[k])
  {
    if |events| == 0 || !IsFull(events[0]) then 0 else 1 + FullPrefix(events[1..])
  }

  /** The bytes one read contributes to the message. */
  function Bytes(e: ReadEvent): seq<byte>
  {
    if e.Data? then e.bytes else []
  }

  /** The bytes of a run of reads, in order. */
  function Concat(events: seq<ReadEvent>): seq<byte>
  {
    if |events| == 0 then [] else Bytes(events[0]) + Concat(events[1..])
  }

  /** The outcome of `stream_read`, stated without the loop: the full chunks
      at the front, then whatever the first non-full read returned; a read
      error or a timeout there discards everything read so far. */
  function ReadMessage(events: seq<ReadEvent>): (r: Result<seq<byte>, IoError>)
    ensures r.Err? <==> FullPrefix(events) < |events| && !events[FullPrefix(events)].Data?
    ensures r.Ok? ==> BUF_LEN * FullPrefix(events) <= |r.value| < BUF_LEN * (FullPrefix(events) + 1)
    ensures r.Ok? ==> r.value[..BUF_LEN * FullPrefix(events)] == Concat(events[..FullPrefix(events)])
  {
    var k := FullPrefix(events);
    ConcatFullLength(events[..k]);
    var full := Concat(events[..k]);
    if k == |events| then Ok(full)
    else match events[k]
      case Data(b) => Ok(full + b)
      case Failure(e) => Err(e)
      case Timeout => Err(TimeoutError)
  }

  /** Full chunks contribute exactly a buffer's worth of bytes each. */
  lemma {:induction false} ConcatFullLength(events: seq<ReadEvent>)
    requires forall i :: 0 <= i < |events| ==> IsFull(events[i])
    ensures |Concat(events)| == BUF_LEN * |events|
  {
    if |events| > 0 {
      ConcatFullLength(events[1..]);
    }
  }

  lemma ConcatSnoc(events: seq<ReadEvent>, e: ReadEvent)
    ensures Concat(events + [e]) == Concat(events) + Bytes(e)
  {
    if |events| > 0 {
      assert (events + [e])[1..] == events[1..] + [e];
      ConcatSnoc(events[1..], e);
    }
  }

  /** `stream_read` of src/connection.rs, loop for loop. Returns the message
      or the error, and how many reads it made. */
  method StreamRead(events: seq<ReadEvent>) returns (r: Result<seq<byte>, IoError>, readCount: nat)
    ensures r == ReadMessage(events)
    ensures readCount == if FullPrefix(events) == |events| then |events| + 1 else FullPrefix(events) + 1
  {
    var message: seq<byte> := [];
    var pos := 0;
    while true
      invariant 0 <= pos <= |events|
      invariant forall i :: 0 <= i < pos ==> IsFull(events[i])
      invariant message == Concat(events[..pos])
      decreases |events| - pos
    {
      var event := if pos < |events| then events[pos] else Data([]);
      var bytesRead: seq<byte>;
      match event {
        case Failure(e) =>
          FullPrefixIs(events, pos);
          return Err(e), pos + 1;
        case Timeout =>
          FullPrefixIs(events, pos);
          return Err(TimeoutError), pos + 1;
        case Data(b) =>
          bytesRead := b;
      }
      message := message + bytesRead;
      if |bytesRead| < BUF_LEN {
        FullPrefixIs(events, pos);
        if pos < |events| {
          assert events[pos] == Data(bytesRead);
        } else {
          assert events[..pos] == events;
          assert message == Concat(events);
        }
        return Ok(message), pos + 1;
      }
      ConcatSnoc(events[..pos], events[pos]);
      assert events[..pos + 1] == events[..pos] + [events[pos]];
      pos := pos + 1;
    }
  }

  /** The full reads counted by `FullPrefix` are exactly the ones before
      the first non-full read. */
  lemma FullPrefixIs(events: seq<ReadEvent>, k: nat)
    requires k <= |events|
    requires forall i :: 0 <= i < k ==> IsFull(events[i])
    requires k < |events| ==> !IsFull(events[k])
    ensures FullPrefix(events) == k
  {
    if k > 0 {
      FullPrefixIs(events[1..], k - 1);
    }
  }

  /** A full 1024-byte chunk always triggers another read: its bytes come
      first, followed by whatever the rest of the stream yields. */
  lemma {:induction false} FullChunkReadsOn(b: Chunk, rest: seq<ReadEvent>)
    requires |b| == BUF_LEN
    ensures ReadMessage([Data(b)] + rest) ==
            match ReadMessage(rest)
            case Ok(m) => Ok(b + m)
            case Err(e) => Err(e)
  {
    var events := [Data(b)] + rest;
    assert events[1..] == rest;
    var k := FullPrefix(rest);
    assert FullPrefix(events) == k + 1;
    assert events[..k + 1][1..] == rest[..k];
    assert Concat(events[..k + 1]) == b + Concat(rest[..k]);
    if k < |rest| {
      assert events[k + 1] == rest[k];
      if rest[k].Data? {
        var c := rest[k].bytes;
        assert b + Concat(rest[..k]) + c == b + (Concat(rest[..k]) + c);
      }
    }
  }

  /** Reading stops after the first chunk shorter than the buffer: the
      events after it are never looked at. */
  lemma {:induction false} ShortChunkEndsMessage(front: seq<ReadEvent>, b: Chunk, later: seq<ReadEvent>)
    requires forall i :: 0 <= i < |front| ==> IsFull(front[i])
    requires |b| < BUF_LEN
    ensures ReadMessage(front + [Data(b)] + later) == Ok(Concat(front) + b)
  {
    var events := front + [Data(b)] + later;
    FullPrefixIs(events, |front|);
    assert events[..|front|] == front;
  }

  /** A read error or timeout after any number of full chunks aborts the
      whole read; the partial message is discarded. */
  lemma {:induction false} FailureAbortsMessage(front: seq<ReadEvent>, e: ReadEvent, later: seq<ReadEvent>)
    requires forall i :: 0 <= i < |front| ==> IsFull(front[i])
    requires !e.Data?
    ensures ReadMessage(front + [e] + later).Err?
    ensures e.Timeout? ==> ReadMessage(front + [e] + later) == Err(TimeoutError)
    ensures e.Failure? ==> ReadMessage(front + [e] + later) == Err(e.err)
  {
    var events := front + [e] + later;
    FullPrefixIs(events, |front|);
    assert events[|front|] == e;
  }

  /** One read on the blocking std stream of the heartbeat monitor: data or
      an error (a read timeout set on the socket surfaces as an error). */
  datatype StdRead = StdData(bytes: Chunk) | StdFailure(err: IoError)

  /** `stream_read` of heartbeat_monitor/src/hb_connection.rs. */
  function HbStreamRead(rs: seq<StdRead>): (r: Result<seq<byte>, IoError>)
    ensures r.Ok? ==> |r.value| <= BUF_LEN * |rs|
    ensures r.Err? ==> exists i :: 0 <= i < |rs| && rs[i] == StdFailure(r.error)
  {
    if |rs| == 0 then Ok([])
    else match rs[0]
      case StdFailure(e) => Err(e)
      case StdData(b) =>
        if |b| < BUF_LEN then Ok(b)
        else match HbStreamRead(rs[1..])
          case Ok(m) => Ok(b + m)
          case Err(e) => Err(e)
  }

  function Lift(r: StdRead): ReadEvent
  {
    match r
    case StdData(b) => Data(b)
    case StdFailure(e) => Failure(e)
  }

  /** The heartbeat monitor frames messages exactly as the broker does,
      on streams that never time out. */
  lemma {:induction false} HbStreamReadAgrees(rs: seq<StdRead>)
    ensures HbStreamRead(rs) == ReadMessage(seq(|rs|, i requires 0 <= i < |rs| => Lift(rs[i])))
  {
    var events := seq(|rs|, i requires 0 <= i < |rs| => Lift(rs[i]));
    if |rs| == 0 {
    } else {
      match rs[0]
      case StdFailure(e) =>
        FailureAbortsMessage([], events[0], events[1..]);
        assert [] + [events[0]] + events[1..] == events;
      case StdData(b) =>
        if |b| < BUF_LEN {
          assert events[0] == Data(b);
          ShortChunkEndsMessage([], b, events[1..]);
          assert [] + [Data(b)] + events[1..] == events;
          assert Concat([]) + b == b;
        } else {
          HbStreamReadAgrees(rs[1..]);
          var rest := seq(|rs[1..]|, i requires 0 <= i < |rs[1..]| => Lift(rs[1..][i]));
          assert events == [Data(b)] + rest;
          FullChunkReadsOn(b, rest);
        }
    }
  }
}
