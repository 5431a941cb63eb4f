/** The sequential logic inside the client-side operations of
    src/operations.rs: the interface listing with its per-version
    de-duplication, the `Payload` that `publish` and `claim` send to the
    broker, and the retry counters of their request loops. Reading the
    host's interfaces, the clock, sleeping and the network are parameters
    or left out. */
module Operations {
  import opened Wrappers
  import opened Connection
  import opened Network
  import Registry

  /** The distinct elements of `s`, each where it first occurs, in order of
      first occurrence. */
  function FirstOccurrences<T(==)>(s: seq<T>): (r: seq<T>)
    ensures |r| <= |s|
    ensures forall x :: x in r ==> x in s
    decreases |s|
  {
    if |s| == 0 then []
    else
      var front := FirstOccurrences(s[..|s| - 1]);
      if s[|s| - 1] in s[..|s| - 1] then front else front + [s[|s| - 1]]
  }

  predicate NoDuplicates<T(==)>(s: seq<T>)
  {
    forall i, j :: 0 <= i < j < |s| ==> s[i] != s[j]
  }

  /** The first position of `x` in `s`. */
  function IndexOf<T(==)>(s: seq<T>, x: T): (i: nat)
    requires x in s
    ensures i < |s| && s[i] == x && x !in s[..i]
  {
    if s[0] == x then 0 else 1 + IndexOf(s[1..], x)
  }

  /** The de-duplicated list has the same elements as the input, none
      twice, ordered by where each first occurs in the input. */
  lemma FirstOccurrencesProperties<T>(s: seq<T>)
    ensures var r := FirstOccurrences(s);
            && NoDuplicates(r)
            && (forall x :: x in r <==> x in s)
            && (forall i, j :: 0 <= i < j < |r| ==> IndexOf(s, r[i]) < IndexOf(s, r[j]))
  {
    FirstOccurrencesElements(s);
    FirstOccurrencesNoDuplicates(s);
    FirstOccurrencesOrdered(s);
  }

  lemma {:induction false} FirstOccurrencesElements<T>(s: seq<T>)
    ensures forall x :: x in FirstOccurrences(s) <==> x in s
    decreases |s|
  {
    if |s| > 0 {
      var p := s[..|s| - 1];
      FirstOccurrencesElements(p);
      assert s == p + [s[|s| - 1]];
    }
  }

  lemma {:induction false} FirstOccurrencesNoDuplicates<T>(s: seq<T>)
    ensures NoDuplicates(FirstOccurrences(s))
    decreases |s|
  {
    if |s| > 0 {
      var p := s[..|s| - 1];
      FirstOccurrencesNoDuplicates(p);
      FirstOccurrencesElements(p);
    }
  }

  lemma {:induction false} FirstOccurrencesOrdered<T>(s: seq<T>)
    ensures forall i :: 0 <= i < |FirstOccurrences(s)| ==> FirstOccurrences(s)[i] in s
    ensures forall i, j :: 0 <= i < j < |FirstOccurrences(s)| ==>
              IndexOf(s, FirstOccurrences(s)[i]) < IndexOf(s, FirstOccurrences(s)[j])
    decreases |s|
  {
    if |s| > 0 {
      var p := s[..|s| - 1];
      var x := s[|s| - 1];
      var front := FirstOccurrences(p);
      var r := FirstOccurrences(s);
      FirstOccurrencesOrdered(p);
      assert s == p + [x];
      forall i | 0 <= i < |front|
        ensures front[i] in s && IndexOf(s, front[i]) == IndexOf(p, front[i])
      {
        IndexOfPrefix(p, x, front[i]);
      }
      if x !in p {
        assert IndexOf(s, x) == |s| - 1 by {
          assert s[..|s| - 1] == p;
        }
        assert r == front + [x];
      } else {
        assert r == front;
      }
    }
  }

  lemma {:induction false} IndexOfPrefix<T>(p: seq<T>, x: T, y: T)
    requires y in p
    ensures y in p + [x] && IndexOf(p + [x], y) == IndexOf(p, y)
    decreases |p|
  {
    if p[0] != y {
      assert (p + [x])[1..] == p[1..] + [x];
      IndexOfPrefix(p[1..], x, y);
    }
  }

  /** The loop of `list_interfaces` for one IP version: each interface name
      (a missing one counting as "") is kept the first time it is seen. */
  method DistinctNames(ips: seq<LocalInterface>) returns (names: seq<string>)
    ensures names == FirstOccurrences(NamesOf(ips))
  {
    names := [];
    var i := 0;
    while i < |ips|
      invariant 0 <= i <= |ips|
      invariant names == FirstOccurrences(NamesOf(ips)[..i])
    {
      var name := ips[i].name.GetOr("");
      var seen := NamesOf(ips)[..i];
      var next := NamesOf(ips)[..i + 1];
      assert next[..|next| - 1] == seen && next[|next| - 1] == name;
      FirstOccurrencesElements(seen);
      if name !in names {
        names := names + [name];
      }
      i := i + 1;
    }
    assert NamesOf(ips)[..|ips|] == NamesOf(ips);
  }

  /** The interface name of each entry, "" where it has none. */
  function NamesOf(ips: seq<LocalInterface>): (r: seq<string>)
    ensures |r| == |ips| && forall i :: 0 <= i < |ips| ==> r[i] == ips[i].name.GetOr("")
  {
    if |ips| == 0 then [] else [ips[0].name.GetOr("")] + NamesOf(ips[1..])
  }

  /** `ListInterfaces` inputs. */
  datatype ListInterfacesInputs = ListInterfacesInputs(verbose: bool, printV4: bool, printV6: bool)

  function Lines(names: seq<string>, verbose: bool): (r: seq<string>)
    ensures |r| == |names|
    ensures forall i :: 0 <= i < |names| ==> r[i] == (if verbose then " - " + names[i] else names[i])
  {
    if |names| == 0 then []
    else [if verbose then " - " + names[0] else names[0]] + Lines(names[1..], verbose)
  }

  /** The lines printed for one IP version: the header when verbose, then
      each distinct interface name once. */
  function VersionLines(header: string, addrs: seq<LocalInterface>, verbose: bool): seq<string>
  {
    (if verbose then [header] else []) + Lines(FirstOccurrences(NamesOf(addrs)), verbose)
  }

  /** The part of `list_interfaces` for one IP version. */
  method ListVersion(header: string, addrs: seq<LocalInterface>, verbose: bool) returns (lines: seq<string>)
    ensures lines == VersionLines(header, addrs, verbose)
  {
    var names := DistinctNames(addrs);
    lines := (if verbose then [header] else []) + Lines(names, verbose);
  }

  /** The lines `list_interfaces` prints: per requested version, an optional
      header and each distinct interface name once, IPv4 first. The two
      versions are de-duplicated independently. */
  method ListInterfaces(inputs: ListInterfacesInputs, ips: LocalIpAddresses) returns (out: seq<string>)
    ensures out == (if inputs.printV4 then VersionLines("IPv4 Interfaces:", ips.ipv4Addrs, inputs.verbose) else []) +
                   (if inputs.printV6 then VersionLines("IPv6 Interfaces:", ips.ipv6Addrs, inputs.verbose) else [])
  {
    var v4: seq<string> := [];
    var v6: seq<string> := [];
    if inputs.printV4 {
      v4 := ListVersion("IPv4 Interfaces:", ips.ipv4Addrs, inputs.verbose);
    }
    if inputs.printV6 {
      v6 := ListVersion("IPv6 Interfaces:", ips.ipv6Addrs, inputs.verbose);
    }
    out := v4 + v6;
  }

  /** The inputs `publish` and `claim` share (`publish` also takes the
      service port). */
  datatype Inputs = Inputs(printV4: bool, printV6: bool, host: string, port: int, name: Option<string>,
                           startingOctets: Option<string>, bindPort: int, key: nat, rootCa: Option<string>)

  /** The addresses of the version the inputs select (IPv4 when asked for,
      IPv6 otherwise). */
  function VersionAddrs(inputs: Inputs, ips: LocalIpAddresses): seq<LocalInterface>
  {
    if inputs.printV4 then ips.ipv4Addrs else ips.ipv6Addrs
  }

  /** The payload `publish` registers: the prefix-filtered addresses to be
      reached at, every address of the interface, and no id or claim yet. */
  function PublishPayload(inputs: Inputs, servicePort: int, ips: LocalIpAddresses): (p: Registry.Payload)
    ensures p.serviceAddr == GetMatchingIpStr(VersionAddrs(inputs, ips), inputs.name, inputs.startingOctets)
    ensures p.interfaceAddr == GetMatchingIpStr(VersionAddrs(inputs, ips), inputs.name, None)
    ensures p.serviceClaim == 0 && p.id == 0 && p.serviceId == 0
    ensures p.servicePort == servicePort && p.bindPort == inputs.bindPort
    ensures p.key == inputs.key && p.rootCa == inputs.rootCa
  {
    var addrs := VersionAddrs(inputs, ips);
    Registry.Payload(GetMatchingIpStr(addrs, inputs.name, inputs.startingOctets), servicePort, 0,
                     GetMatchingIpStr(addrs, inputs.name, None), inputs.bindPort, inputs.key, 0, 0,
                     inputs.rootCa)
  }

  /** Every address a service publishes is among its interface addresses:
      the prefix only narrows the selection. */
  lemma PublishAddrsAmongInterfaceAddrs(inputs: Inputs, servicePort: int, ips: LocalIpAddresses)
    ensures var p := PublishPayload(inputs, servicePort, ips);
            forall a :: a in p.serviceAddr ==> a in p.interfaceAddr
  {
    var addrs := VersionAddrs(inputs, ips);
    forall a | a in PublishPayload(inputs, servicePort, ips).serviceAddr
      ensures a in PublishPayload(inputs, servicePort, ips).interfaceAddr
    {
      MatchingMembers(addrs, inputs.name, inputs.startingOctets, a);
      MatchingMembers(addrs, inputs.name, None, a);
    }
  }

  /** The payload `claim` sends: the client's own address, stamped with the
      time of the claim. As written the `service_port` field carries the
      broker's port from the inputs. */
  function ClaimPayload(inputs: Inputs, ips: LocalIpAddresses, epochNow: nat): (p: Registry.Payload)
    ensures p.serviceAddr == GetMatchingIpStr(VersionAddrs(inputs, ips), inputs.name, inputs.startingOctets)
    ensures p.interfaceAddr == [] && p.serviceClaim == epochNow && p.id == 0 && p.serviceId == 0
    ensures p.servicePort == inputs.port && p.bindPort == inputs.bindPort
    ensures p.key == inputs.key && p.rootCa == inputs.rootCa
  {
    Registry.Payload(GetMatchingIpStr(VersionAddrs(inputs, ips), inputs.name, inputs.startingOctets),
                     inputs.port, epochNow, [], inputs.bindPort, inputs.key, 0, 0, inputs.rootCa)
  }

  /** The outcome of one HTTP request to the broker. */
  datatype Attempt = Answered(msg: Message) | RequestFailed | RequestTimedOut

  /** How a request loop ended: acknowledged (with the reply's body), given
      up with the panic or error text, or still retrying when the given
      attempts ran out. */
  datatype RetryOutcome = Acked(body: string, used: nat) | GaveUp(reason: string, used: nat) | StillTrying

  const MAX_READ_FAILS: nat := 5

  /** The API request loops of `publish` and `claim`: an ACK ends the loop;
      a failed or timed-out request counts; a reply of another kind counts
      only when `nonAckReason` is given (in `claim`); the sixth counted
      failure gives up. */
  function ApiRetry(attempts: seq<Attempt>, readFail: nat, used: nat, nonAckReason: Option<string>): (r: RetryOutcome)
    requires readFail <= MAX_READ_FAILS
    ensures !r.StillTrying? ==> used < r.used <= used + |attempts|
    ensures r.Acked? ==> Answered(Message(ACK, r.body)) in attempts
    decreases |attempts|
  {
    if |attempts| == 0 then StillTrying
    else
      var a := attempts[0];
      match a
      case Answered(m) =>
        if m.header == ACK then Acked(m.body, used + 1)
        else if nonAckReason.None? then ApiRetry(attempts[1..], readFail, used + 1, nonAckReason)
        else if readFail + 1 > MAX_READ_FAILS then GaveUp(nonAckReason.value, used + 1)
        else ApiRetry(attempts[1..], readFail + 1, used + 1, nonAckReason)
      case RequestFailed =>
        if readFail + 1 > MAX_READ_FAILS then GaveUp("Failed to send request to listener", used + 1)
        else ApiRetry(attempts[1..], readFail + 1, used + 1, nonAckReason)
      case RequestTimedOut =>
        if readFail + 1 > MAX_READ_FAILS then GaveUp("Requests to listener timed out", used + 1)
        else ApiRetry(attempts[1..], readFail + 1, used + 1, nonAckReason)
  }

  /** Whether an attempt counts towards giving up. */
  predicate Counts(a: Attempt, nonAckCounts: bool)
  {
    !a.Answered? || (a.msg.header != ACK && nonAckCounts)
  }

  /** The number of counted failures among the attempts. */
  function CountedFailures(attempts: seq<Attempt>, nonAckCounts: bool): nat
  {
    if |attempts| == 0 then 0
    else (if Counts(attempts[0], nonAckCounts) then 1 else 0) + CountedFailures(attempts[1..], nonAckCounts)
  }

  predicate NoAck(attempts: seq<Attempt>)
  {
    forall i :: 0 <= i < |attempts| ==> !(attempts[i].Answered? && attempts[i].msg.header == ACK)
  }

  /** Without an ACK, a request loop gives up exactly when it has seen six
      counted failures: it never gives up earlier, and the sixth ends it. */
  lemma {:induction false} ApiRetryGivesUpOnSixth(attempts: seq<Attempt>, readFail: nat, used: nat, nonAckReason: Option<string>)
    requires readFail <= MAX_READ_FAILS && NoAck(attempts)
    ensures ApiRetry(attempts, readFail, used, nonAckReason).GaveUp? <==>
              readFail + CountedFailures(attempts, nonAckReason.Some?) > MAX_READ_FAILS
    ensures ApiRetry(attempts, readFail, used, nonAckReason).Acked? == false
    decreases |attempts|
  {
    if |attempts| > 0 {
      var a := attempts[0];
      if !Counts(a, nonAckReason.Some?) || readFail + 1 <= MAX_READ_FAILS {
        ApiRetryGivesUpOnSixth(attempts[1..], if Counts(a, nonAckReason.Some?) then readFail + 1 else readFail, used + 1, nonAckReason);
      }
    }
  }

  /** In `publish`, unexpected replies are retried for ever: only request
      failures and timeouts can make it give up. */
  lemma {:induction false} PublishIgnoresNonAck(attempts: seq<Attempt>, readFail: nat, used: nat)
    requires readFail <= MAX_READ_FAILS
    requires forall i :: 0 <= i < |attempts| ==> attempts[i].Answered? && attempts[i].msg.header != ACK
    ensures ApiRetry(attempts, readFail, used, None) == StillTrying
    decreases |attempts|
  {
    if |attempts| > 0 {
      PublishIgnoresNonAck(attempts[1..], readFail, used + 1);
    }
  }

  const KeyNotFound: IoError := IoError(InvalidInput, "Key not found")

  /** The TCP `claim` loop after the broker acknowledged the request: each
      framed message read is either the ACK carrying the service's payload,
      or counts as a failure until the sixth gives up; a read error ends the
      loop with that error. */
  function ClaimTcpWait(msgs: seq<Result<Message, IoError>>, readFail: nat): (r: Option<Result<string, IoError>>)
    requires readFail <= MAX_READ_FAILS
    ensures r.Some? && r.value.Ok? ==> Ok(Message(ACK, r.value.value)) in msgs
    ensures r.Some? && r.value.Err? && r.value.error != KeyNotFound ==> Err(r.value.error) in msgs
    decreases |msgs|
  {
    if |msgs| == 0 then None
    else match msgs[0]
      case Err(e) => Some(Err(e))
      case Ok(m) =>
        if m.header == ACK then Some(Ok(m.body))
        else if readFail + 1 > MAX_READ_FAILS then Some(Err(KeyNotFound))
        else ClaimTcpWait(msgs[1..], readFail + 1)
  }

  predicate AllNonAck(msgs: seq<Result<Message, IoError>>)
  {
    forall i :: 0 <= i < |msgs| ==> msgs[i].Ok? && msgs[i].value.header != ACK
  }

  /** Non-ACK messages alone end the TCP claim with "Key not found" once
      six have been counted, and not before; an ACK that comes before then
      ends it with the service's payload. */
  lemma {:induction false} ClaimTcpWaitBound(msgs: seq<Result<Message, IoError>>, readFail: nat, payload: string)
    requires readFail <= MAX_READ_FAILS && AllNonAck(msgs)
    ensures ClaimTcpWait(msgs, readFail) ==
              if readFail + |msgs| > MAX_READ_FAILS then Some(Err(KeyNotFound)) else None
    ensures readFail + |msgs| <= MAX_READ_FAILS ==>
              ClaimTcpWait(msgs + [Ok(Message(ACK, payload))], readFail) == Some(Ok(payload))
    decreases |msgs|
  {
    if |msgs| > 0 {
      assert (msgs + [Ok(Message(ACK, payload))])[1..] == msgs[1..] + [Ok(Message(ACK, payload))];
      if readFail + 1 <= MAX_READ_FAILS {
        ClaimTcpWaitBound(msgs[1..], readFail + 1, payload);
      }
    }
  }
}
