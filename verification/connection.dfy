/** The message protocol of the broker (src/connection.rs): addresses,
    message headers and their printed names, the ACK/NULL handshake rules of
    `send` and `receive`, and the method/path routing of `api_server`.

    The TCP stream is not modelled. What `send` and `receive` read from it is
    given as a parameter (the reply after framing and JSON decoding), and what
    they write is returned as the list of messages written, in order. */
module Connection {
  import opened Wrappers
  import opened Strings

  datatype Transport = SOCKET | HTTP | HTTPS

  datatype Addr = Addr(transport: Transport, host: string, port: int)

  /** `Addr::new`: a socket address with the given host and port. */
  function NewAddr(host: string, port: int): (a: Addr)
    ensures a.transport == SOCKET
    ensures a.host == host && a.port == port
  {
    Addr(SOCKET, host, port)
  }

  /** Which of the two integrations (raw TCP or HTTP API) a peer uses. */
  datatype ComType = TCP | API

  datatype MessageHeader = HB | ACK | PUB | CLAIM | COL | MSG | NULL

  datatype Message = Message(header: MessageHeader, body: string)

  /** The kinds of `std::io::Error` the broker distinguishes. */
  datatype ErrorKind = ConnectionReset | ConnectionAborted | TimedOut | InvalidInput | OtherKind

  datatype IoError = IoError(kind: ErrorKind, text: string)

  /** `impl Display for MessageHeader`: the variant's own name. */
  function HeaderName(h: MessageHeader): (s: string)
    ensures 2 <= |s| <= 5
    ensures forall i :: 0 <= i < |s| ==> 'A' <= s[i] <= 'Z'
  {
    match h
    case HB => "HB"
    case ACK => "ACK"
    case PUB => "PUB"
    case CLAIM => "CLAIM"
    case COL => "COL"
    case MSG => "MSG"
    case NULL => "NULL"
  }

  /** Reads a printed name back as a header; the partner of `HeaderName`
      (serde's derived encoding of the enum uses the same names). */
  function HeaderFromName(s: string): (r: Option<MessageHeader>)
    ensures r.Some? ==> HeaderName(r.value) == s
    ensures r.None? ==> forall h :: HeaderName(h) != s
  {
    if s == "HB" then Some(HB)
    else if s == "ACK" then Some(ACK)
    else if s == "PUB" then Some(PUB)
    else if s == "CLAIM" then Some(CLAIM)
    else if s == "COL" then Some(COL)
    else if s == "MSG" then Some(MSG)
    else if s == "NULL" then Some(NULL)
    else None
  }

  /** The printed names tell the headers apart, and each name reads back as
      its own header. */
  lemma HeaderNameRoundTrip(h: MessageHeader)
    ensures HeaderFromName(HeaderName(h)) == Some(h)
    ensures forall g :: HeaderName(g) == HeaderName(h) ==> g == h
  {
  }

  /** What one call of `send` or `receive` did on the stream. */
  datatype Exchange = Exchange(written: seq<Message>, readReply: bool, result: Result<Message, IoError>)

  const NullMessage: Message := Message(NULL, "")
  const AckMessage: Message := Message(ACK, "")

  /** `send`: writes `msg` (the write's own result is ignored); an ACK is
      answered locally with an empty NULL message and nothing is read;
      otherwise the reply read from the stream is the result, errors
      included. */
  function Send(msg: Message, reply: Result<Message, IoError>): (x: Exchange)
    ensures x.written == [msg]
    ensures msg.header == ACK ==> !x.readReply && x.result == Ok(NullMessage)
    ensures msg.header != ACK ==> x.readReply && x.result == reply
  {
    if msg.header == ACK then Exchange([msg], false, Ok(NullMessage))
    else Exchange([msg], true, reply)
  }

  /** `receive`: the message read is the result; an ACK is written back
      exactly when the message read is neither an ACK nor a heartbeat. A
      failed read is returned as is and nothing is written. */
  function Receive(read: Result<Message, IoError>): (x: Exchange)
    ensures x.readReply && x.result == read
    ensures read.Err? ==> x.written == []
    ensures read.Ok? ==> (x.written == [AckMessage] <==> read.value.header !in {ACK, HB})
    ensures read.Ok? ==> (x.written == [] <==> read.value.header in {ACK, HB})
  {
    match read
    case Err(e) => Exchange([], true, read)
    case Ok(m) =>
      if m.header == ACK || m.header == HB then Exchange([], true, read)
      else Exchange([AckMessage], true, read)
  }

  /** Two peers talking: whatever `send` writes (other than an ACK) and the
      peer's `receive` reads, the peer acknowledges it unless it is a
      heartbeat, and the sender then reads that ACK as its reply. */
  lemma SendReceiveHandshake(msg: Message)
    requires msg.header !in {ACK, HB}
    ensures var peer := Receive(Ok(msg));
            peer.written == [AckMessage] &&
            Send(msg, Ok(peer.written[0])).result == Ok(AckMessage)
  {
  }

  datatype Method = GET | POST | OtherMethod

  /** What `api_server` does with one request: call the handler or answer
      404 without calling it. */
  datatype ServerAction = CallHandler | NotFound

  /** The server's state as far as routing touches it: the time of the last
      heartbeat request (the process-wide `GLOBAL_LAST_HEARTBEAT`). */
  datatype ServerOutcome = ServerOutcome(action: ServerAction, lastHeartbeat: Option<nat>)

  /** `api_server`: POST under "/request_handler" and GET under
      "/heartbeat_handler" reach the handler, the latter after recording
      `now` as the last heartbeat; every other request is a 404. */
  function ApiServer(verb: Method, path: string, now: nat, lastHeartbeat: Option<nat>): (o: ServerOutcome)
    ensures o.action == CallHandler <==>
              (verb == POST && StartsWith(path, "/request_handler")) ||
              (verb == GET && StartsWith(path, "/heartbeat_handler"))
    ensures verb == GET && StartsWith(path, "/heartbeat_handler") ==> o.lastHeartbeat == Some(now)
    ensures !(verb == GET && StartsWith(path, "/heartbeat_handler")) ==> o.lastHeartbeat == lastHeartbeat
  {
    if verb == POST && StartsWith(path, "/request_handler") then
      ServerOutcome(CallHandler, lastHeartbeat)
    else if verb == GET && StartsWith(path, "/heartbeat_handler") then
      ServerOutcome(CallHandler, Some(now))
    else
      ServerOutcome(NotFound, lastHeartbeat)
  }

  /** The right path with the wrong method is not routed. */
  lemma ApiServerNeedsMethod(path: string, now: nat, last: Option<nat>)
    requires StartsWith(path, "/request_handler") && !StartsWith(path, "/heartbeat_handler")
    ensures ApiServer(GET, path, now, last).action == NotFound
    ensures ApiServer(POST, path, now, last).action == CallHandler
  {
  }
}
