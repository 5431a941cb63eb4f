/** The broker's registry, `State` in src/service.rs: a map from key to the
    ordered list of `Payload` records registered under it, the sequence
    counter that hands out connection ids, and the heartbeat event queue.

    The wall clock becomes a parameter: `now` in milliseconds of monotonic
    time for new heartbeats, `epochNow` in seconds since the epoch for
    claims. Opening the heartbeat connection is a parameter too: whether it
    succeeded within the source's six attempts. */
module Registry {
  import opened Wrappers
  import opened Connection
  import opened Events
  import Decimal

  /** `Payload`: what a service or client told the broker about itself. */
  datatype Payload = Payload(serviceAddr: seq<string>, servicePort: int, serviceClaim: nat,
                             interfaceAddr: seq<string>, bindPort: int, key: nat, id: nat,
                             serviceId: nat, rootCa: Option<string>)

  datatype State = State(clients: map<nat, seq<Payload>>, timeout: nat, seqNo: nat,
                         deque: seq<Heartbeat>, running: bool)

  /** `State::new`: nothing registered, a 60-second claim timeout, ids
      starting at 1. */
  function New(): (s: State)
    ensures s.clients == map[] && s.deque == [] && !s.running
    ensures s.timeout == 60 && s.seqNo == 1
  {
    State(map[], 60, 1, [], false)
  }

  /** Every list is non-empty. */
  ghost predicate NonEmptyLists(c: map<nat, seq<Payload>>)
  {
    forall k :: k in c ==> |c[k]| > 0
  }

  /** Every payload is filed under its own key, with an id below `bound`. */
  ghost predicate Filed(c: map<nat, seq<Payload>>, bound: nat)
  {
    forall k, i :: k in c && 0 <= i < |c[k]| ==> c[k][i].key == k && c[k][i].id < bound
  }

  /** No id is stored twice, under one key or under two. */
  ghost predicate UniqueIds(c: map<nat, seq<Payload>>)
  {
    forall k1, i1, k2, i2 ::
      k1 in c && k2 in c && 0 <= i1 < |c[k1]| && 0 <= i2 < |c[k2]| && c[k1][i1].id == c[k2][i2].id
      ==> k1 == k2 && i1 == i2
  }

  /** The registry's invariant: every list is non-empty and filed under its
      payloads' key, every stored id is below the counter, and no id is
      stored twice. */
  ghost predicate Valid(s: State)
  {
    s.seqNo >= 1 && NonEmptyLists(s.clients) && Filed(s.clients, s.seqNo) && UniqueIds(s.clients)
  }

  lemma NewValid()
    ensures Valid(New())
  {
  }

  /** The list under `k`, empty when the key is absent. */
  function ListAt(s: State, k: nat): seq<Payload>
  {
    if k in s.clients then s.clients[k] else []
  }

  const ConnectFailed: IoError := IoError(InvalidInput, "Service failed to connect to bind port")

  /** The `"{ip}:{bind_port}"` address the broker sends heartbeats to. */
  function BindAddress(ip: string, bindPort: int): string
  {
    ip + ":" + Decimal.IntToString(bindPort)
  }

  /** `State::add` for a connection the broker has not seen before:
      registers `p` under its key with the next id, queues a heartbeat for
      it, and returns that heartbeat. A service passes `serviceId` 0 and
      becomes its own service; a client passes its service's id and
      inherits it. */
  function Add(s: State, p: Payload, serviceId: nat, com: ComType, now: nat, connected: bool): (out: (State, Result<Heartbeat, IoError>))
    requires |p.serviceAddr| == 1
    ensures com == TCP && !connected ==> out == (s, Err(ConnectFailed))
    ensures !(com == TCP && !connected) ==>
              var t := out.0;
              var stored := p.(id := s.seqNo, serviceId := if serviceId == 0 then s.seqNo else serviceId);
              && out.1.Ok?
              && t.seqNo == s.seqNo + 1
              && t.clients == s.clients[p.key := ListAt(s, p.key) + [stored]]
              && t.deque == s.deque + [out.1.value]
              && t.timeout == s.timeout && t.running == s.running
    ensures out.1.Ok? ==>
              var hb := out.1.value;
              && hb.key == p.key && hb.id == s.seqNo
              && hb.serviceId == (if serviceId == 0 then s.seqNo else serviceId)
              && hb.addr == BindAddress(p.serviceAddr[0], p.bindPort)
              && hb.com == com && hb.tls == p.rootCa.Some?
              && hb.failCounter == NewFailCounter(now) && hb.msgBody == DefaultMsgBody
  {
    if com == TCP && !connected then (s, Err(ConnectFailed))
    else
      var ip := p.serviceAddr[0];
      var tempId := if serviceId != 0 then serviceId else s.seqNo;
      var hb := Heartbeat(p.key, s.seqNo, tempId, BindAddress(ip, p.bindPort), com,
                          p.rootCa.Some?, NewFailCounter(now), DefaultMsgBody);
      var stored := p.(id := s.seqNo, serviceId := tempId);
      var list := if p.key in s.clients then s.clients[p.key] else [];
      (s.(clients := s.clients[p.key := list + [stored]], seqNo := s.seqNo + 1, deque := s.deque + [hb]),
       Ok(hb))
  }

  /** Where an entry of the lists after appending `stored` under `key`
      comes from: the appended entry, or the same position before. */
  lemma AppendedEntry(c: map<nat, seq<Payload>>, key: nat, stored: Payload, k: nat, i: nat)
    requires k in c[key := (if key in c then c[key] else []) + [stored]]
    requires i < |c[key := (if key in c then c[key] else []) + [stored]][k]|
    ensures var d := c[key := (if key in c then c[key] else []) + [stored]];
            if k == key && i == |d[k]| - 1 then d[k][i] == stored
            else k in c && i < |c[k]| && d[k][i] == c[k][i]
  {
  }

  /** Appending an entry with a fresh id, filed under its key, keeps the
      lists valid with the counter one higher. */
  lemma AppendKeepsValid(c: map<nat, seq<Payload>>, bound: nat, stored: Payload)
    requires NonEmptyLists(c) && Filed(c, bound) && UniqueIds(c) && stored.id == bound
    ensures var d := c[stored.key := (if stored.key in c then c[stored.key] else []) + [stored]];
            NonEmptyLists(d) && Filed(d, bound + 1) && UniqueIds(d)
  {
    var key := stored.key;
    var d: map<nat, seq<Payload>> := c[key := (if key in c then c[key] else []) + [stored]];
    forall k, i | k in d && 0 <= i < |d[k]|
      ensures d[k][i].key == k && d[k][i].id < bound + 1
    {
      AppendedEntry(c, key, stored, k, i);
    }
    forall k1, i1, k2, i2 |
        k1 in d && k2 in d && 0 <= i1 < |d[k1]| && 0 <= i2 < |d[k2]| && d[k1][i1].id == d[k2][i2].id
      ensures k1 == k2 && i1 == i2
    {
      AppendedEntry(c, key, stored, k1, i1);
      AppendedEntry(c, key, stored, k2, i2);
    }
  }

  /** Registration keeps the invariant; in particular the new id is fresh,
      because every id already stored is below the old counter. */
  lemma AddKeepsValid(s: State, p: Payload, serviceId: nat, com: ComType, now: nat, connected: bool)
    requires Valid(s) && |p.serviceAddr| == 1
    ensures Valid(Add(s, p, serviceId, com, now, connected).0)
    ensures forall k, i :: k in s.clients && 0 <= i < |s.clients[k]| ==> s.clients[k][i].id != s.seqNo
  {
    if !(com == TCP && !connected) {
      var stored := p.(id := s.seqNo, serviceId := if serviceId == 0 then s.seqNo else serviceId);
      AppendKeepsValid(s.clients, s.seqNo, stored);
    }
  }

  /** The first position in `list` holding id `id`. */
  function IndexOfId(list: seq<Payload>, id: nat): (r: Option<nat>)
    ensures r.Some? ==> r.value < |list| && list[r.value].id == id &&
                        forall j :: 0 <= j < r.value ==> list[j].id != id
    ensures r.None? ==> forall j :: 0 <= j < |list| ==> list[j].id != id
  {
    if |list| == 0 then None
    else if list[0].id == id then Some(0)
    else match IndexOfId(list[1..], id)
      case Some(i) => Some(i + 1)
      case None => None
  }

  /** The first position in `list` whose payload carries service id `sid`. */
  function IndexOfService(list: seq<Payload>, sid: nat): (r: Option<nat>)
    ensures r.Some? ==> r.value < |list| && list[r.value].serviceId == sid &&
                        forall j :: 0 <= j < r.value ==> list[j].serviceId != sid
    ensures r.None? ==> forall j :: 0 <= j < |list| ==> list[j].serviceId != sid
  {
    if |list| == 0 then None
    else if list[0].serviceId == sid then Some(0)
    else match IndexOfService(list[1..], sid)
      case Some(i) => Some(i + 1)
      case None => None
  }

  const RemoveFailed: IoError := IoError(InvalidInput, "Failed to remove item from state")

  /** `State::rmv`: removes the first payload with id `id` under key `k`,
      dropping the key when its list empties. A removed service (its own
      service id) yields PUB with its id in decimal; a removed client yields
      CLAIM after clearing the claim stamp of the first payload left under
      `k` whose service id is `serviceId`. */
  function Rmv(s: State, k: nat, id: nat, serviceId: nat): (out: (State, Result<Message, IoError>))
    ensures out.1.Err? <==> (k !in s.clients || IndexOfId(s.clients[k], id).None?)
    ensures out.1.Err? ==> out.0 == s && out.1 == Err(RemoveFailed)
    ensures out.0.seqNo == s.seqNo && out.0.deque == s.deque && out.0.timeout == s.timeout
    ensures out.0.running == s.running
    ensures forall j :: j != k ==> (j in out.0.clients <==> j in s.clients)
    ensures forall j :: j != k && j in s.clients ==> out.0.clients[j] == s.clients[j]
  {
    if k !in s.clients then (s, Err(RemoveFailed))
    else match IndexOfId(s.clients[k], id)
      case None => (s, Err(RemoveFailed))
      case Some(pos) =>
        var list := s.clients[k];
        var item := list[pos];
        var clients: map<nat, seq<Payload>> := DeleteAt(s.clients, k, pos);
        if item.serviceId == item.id then
          (s.(clients := clients), Ok(Message(PUB, Decimal.NatToString(item.serviceId))))
        else
          var freed :=
            if k in clients then
              match IndexOfService(clients[k], serviceId)
              case Some(q) => clients[k := clients[k][q := clients[k][q].(serviceClaim := 0)]]
              case None => clients
            else clients;
          (s.(clients := freed), Ok(Message(CLAIM, "")))
  }

  /** What a successful `rmv` does to the list under `k`: exactly the first
      payload with the id is gone, the key is dropped iff nothing is left,
      and the answer tells a service (PUB, its id in decimal) from a client
      (CLAIM, whose service's entry gets its claim stamp cleared). */
  lemma RmvEffect(s: State, k: nat, id: nat, serviceId: nat)
    requires k in s.clients && IndexOfId(s.clients[k], id).Some?
    ensures var out := Rmv(s, k, id, serviceId);
            var pos := IndexOfId(s.clients[k], id).value;
            var list := s.clients[k];
            var item := list[pos];
            var rest := list[..pos] + list[pos + 1..];
            && (k in out.0.clients <==> |list| > 1)
            && (item.serviceId == item.id ==>
                  out == (s.(clients := out.0.clients), Ok(Message(PUB, Decimal.NatToString(item.id)))) &&
                  (k in out.0.clients ==> out.0.clients[k] == rest))
            && (item.serviceId != item.id ==>
                  out.1 == Ok(Message(CLAIM, "")) &&
                  (k in out.0.clients ==>
                    |out.0.clients[k]| == |rest| &&
                    match IndexOfService(rest, serviceId)
                    case None => out.0.clients[k] == rest
                    case Some(q) =>
                      out.0.clients[k] == rest[q := rest[q].(serviceClaim := 0)]))
  {
  }

  /** Two lists holding the same ids under the same keys, position by
      position (they may differ in claim stamps). */
  ghost predicate SameIds(a: seq<Payload>, b: seq<Payload>)
  {
    |a| == |b| && forall i :: 0 <= i < |a| ==> a[i].id == b[i].id && a[i].key == b[i].key
  }

  /** Position `i` of a list with position `pos` deleted, in the original. */
  function Skip(i: nat, pos: nat): nat
  {
    if i < pos then i else i + 1
  }

  /** The list with position `pos` deleted. */
  function Delete(list: seq<Payload>, pos: nat): (r: seq<Payload>)
    requires pos < |list|
    ensures |r| == |list| - 1
    ensures forall i :: 0 <= i < |r| ==> r[i] == list[Skip(i, pos)]
  {
    list[..pos] + list[pos + 1..]
  }

  /** The lists after deleting position `pos` under `k`, the key dropped
      when its list empties. */
  function DeleteAt(c: map<nat, seq<Payload>>, k: nat, pos: nat): map<nat, seq<Payload>>
    requires k in c && pos < |c[k]|
  {
    var rest := Delete(c[k], pos);
    if |rest| == 0 then c - {k} else c[k := rest]
  }

  /** Where an entry of the lists after a deletion comes from. */
  lemma DeletedEntry(c: map<nat, seq<Payload>>, k: nat, pos: nat, j: nat, i: nat)
    requires k in c && pos < |c[k]|
    requires j in DeleteAt(c, k, pos) && i < |DeleteAt(c, k, pos)[j]|
    ensures j in c
    ensures j == k ==> Skip(i, pos) < |c[j]| && DeleteAt(c, k, pos)[j][i] == c[j][Skip(i, pos)]
    ensures j != k ==> i < |c[j]| && DeleteAt(c, k, pos)[j][i] == c[j][i]
  {
  }

  /** Deleting one entry keeps the lists valid. */
  lemma DeleteKeepsValid(c: map<nat, seq<Payload>>, bound: nat, k: nat, pos: nat)
    requires NonEmptyLists(c) && Filed(c, bound) && UniqueIds(c)
    requires k in c && pos < |c[k]|
    ensures var d := DeleteAt(c, k, pos); NonEmptyLists(d) && Filed(d, bound) && UniqueIds(d)
  {
    var d: map<nat, seq<Payload>> := DeleteAt(c, k, pos);
    forall j, i | j in d && 0 <= i < |d[j]|
      ensures d[j][i].key == j && d[j][i].id < bound
    {
      DeletedEntry(c, k, pos, j, i);
    }
    forall k1, i1, k2, i2 |
        k1 in d && k2 in d && 0 <= i1 < |d[k1]| && 0 <= i2 < |d[k2]| && d[k1][i1].id == d[k2][i2].id
      ensures k1 == k2 && i1 == i2
    {
      DeletedEntry(c, k, pos, k1, i1);
      DeletedEntry(c, k, pos, k2, i2);
    }
  }

  /** Setting one claim stamp keeps ids and keys in place. */
  lemma StampSameIds(list: seq<Payload>, q: nat, stamp: nat)
    requires q < |list|
    ensures SameIds(list[q := list[q].(serviceClaim := stamp)], list)
  {
  }

  /** Replacing one list by another with the same ids and keys keeps the
      lists valid. */
  lemma ReplaceKeepsValid(c: map<nat, seq<Payload>>, bound: nat, k: nat, list: seq<Payload>)
    requires NonEmptyLists(c) && Filed(c, bound) && UniqueIds(c)
    requires k in c && SameIds(list, c[k])
    ensures NonEmptyLists(c[k := list]) && Filed(c[k := list], bound) && UniqueIds(c[k := list])
  {
    var d: map<nat, seq<Payload>> := c[k := list];
    assert forall j, i :: j in d && 0 <= i < |d[j]| ==> d[j][i].id == c[j][i].id && d[j][i].key == c[j][i].key;
  }

  /** Removal keeps the invariant: nothing is added, and no key is left
      with an empty list. */
  lemma RmvKeepsValid(s: State, k: nat, id: nat, serviceId: nat)
    requires Valid(s)
    ensures Valid(Rmv(s, k, id, serviceId).0)
  {
    if k in s.clients && IndexOfId(s.clients[k], id).Some? {
      var pos := IndexOfId(s.clients[k], id).value;
      var clients: map<nat, seq<Payload>> := DeleteAt(s.clients, k, pos);
      var item := s.clients[k][pos];
      var t := Rmv(s, k, id, serviceId).0;
      DeleteKeepsValid(s.clients, s.seqNo, k, pos);
      if item.serviceId != item.id && k in clients && IndexOfService(clients[k], serviceId).Some? {
        var q := IndexOfService(clients[k], serviceId).value;
        var freed := clients[k][q := clients[k][q].(serviceClaim := 0)];
        StampSameIds(clients[k], q, 0);
        ReplaceKeepsValid(clients, s.seqNo, k, freed);
        assert t == s.(clients := clients[k := freed]);
      } else {
        assert t == s.(clients := clients);
      }
    }
  }

  /** Every claim stamp in the registry lies at or before `epochNow`. */
  predicate AllStampsNotAfter(s: State, epochNow: nat)
  {
    forall k :: k in s.clients ==> StampsNotAfter(s, k, epochNow)
  }

  /** Removal never sets a claim stamp later than those already stored: it
      deletes one entry and may clear one stamp. */
  lemma RmvKeepsStamps(s: State, k: nat, id: nat, serviceId: nat, epochNow: nat)
    requires AllStampsNotAfter(s, epochNow)
    ensures AllStampsNotAfter(Rmv(s, k, id, serviceId).0, epochNow)
  {
    if k in s.clients && IndexOfId(s.clients[k], id).Some? {
      var pos := IndexOfId(s.clients[k], id).value;
      var clients: map<nat, seq<Payload>> := DeleteAt(s.clients, k, pos);
      var item := s.clients[k][pos];
      var t := Rmv(s, k, id, serviceId).0;
      forall j, i | j in clients && 0 <= i < |clients[j]|
        ensures clients[j][i].serviceClaim <= epochNow
      {
        DeletedEntry(s.clients, k, pos, j, i);
        assert StampsNotAfter(s, j, epochNow);
      }
      if item.serviceId != item.id && k in clients && IndexOfService(clients[k], serviceId).Some? {
        var q := IndexOfService(clients[k], serviceId).value;
        assert t == s.(clients := clients[k := clients[k][q := clients[k][q].(serviceClaim := 0)]]);
      } else {
        assert t == s.(clients := clients);
      }
    }
  }

  /** The first position in `list` whose claim has been held for longer
      than `timeout` seconds at `epochNow`. */
  function FirstExpired(list: seq<Payload>, epochNow: nat, timeout: nat): (r: Option<nat>)
    requires forall i :: 0 <= i < |list| ==> list[i].serviceClaim <= epochNow
    ensures r.Some? ==> r.value < |list| && epochNow - list[r.value].serviceClaim > timeout &&
                        forall j :: 0 <= j < r.value ==> epochNow - list[j].serviceClaim <= timeout
    ensures r.None? ==> forall j :: 0 <= j < |list| ==> epochNow - list[j].serviceClaim <= timeout
  {
    if |list| == 0 then None
    else if epochNow - list[0].serviceClaim > timeout then Some(0)
    else match FirstExpired(list[1..], epochNow, timeout)
      case Some(i) => Some(i + 1)
      case None => None
  }

  /** Which entry `claim` handed out, and that entry after stamping. */
  datatype Claimed = Claimed(index: nat, payload: Payload)

  /** Every claim stamp under `k` lies at or before `epochNow`, so the
      source's unsigned subtraction does not underflow. */
  predicate StampsNotAfter(s: State, k: nat, epochNow: nat)
  {
    k in s.clients ==> forall i :: 0 <= i < |s.clients[k]| ==> s.clients[k][i].serviceClaim <= epochNow
  }

  /** `State::claim`: stamps the first entry under `k` whose claim has
      expired with `epochNow` and hands it out; error 2 when the key is
      unknown, error 1 when nothing under it is free. */
  function Claim(s: State, k: nat, epochNow: nat): (out: (State, Result<Claimed, nat>))
    requires StampsNotAfter(s, k, epochNow)
    ensures k !in s.clients ==> out == (s, Err(2))
    ensures k in s.clients && FirstExpired(s.clients[k], epochNow, s.timeout).None? ==> out == (s, Err(1))
    ensures out.1.Ok? ==>
              var i := out.1.value.index;
              && k in s.clients
              && FirstExpired(s.clients[k], epochNow, s.timeout) == Some(i)
              && out.1.value.payload == s.clients[k][i].(serviceClaim := epochNow)
              && out.0 == s.(clients := s.clients[k := s.clients[k][i := out.1.value.payload]])
    ensures out.1.Err? ==> out.0 == s
  {
    if k !in s.clients then (s, Err(2))
    else match FirstExpired(s.clients[k], epochNow, s.timeout)
      case None => (s, Err(1))
      case Some(i) =>
        var stamped := s.clients[k][i].(serviceClaim := epochNow);
        (s.(clients := s.clients[k := s.clients[k][i := stamped]]), Ok(Claimed(i, stamped)))
  }

  /** Claiming only touches a claim stamp, so the invariant holds after. */
  lemma ClaimKeepsValid(s: State, k: nat, epochNow: nat)
    requires Valid(s) && StampsNotAfter(s, k, epochNow)
    ensures Valid(Claim(s, k, epochNow).0)
  {
    var out := Claim(s, k, epochNow);
    if out.1.Ok? {
      StampSameIds(s.clients[k], out.1.value.index, epochNow);
      ReplaceKeepsValid(s.clients, s.seqNo, k, out.0.clients[k]);
    }
  }

  /** The entry just handed out cannot be handed out again at the same
      time: a second claim picks a later entry or fails. */
  lemma ClaimNotTwice(s: State, k: nat, epochNow: nat)
    requires StampsNotAfter(s, k, epochNow)
    requires Claim(s, k, epochNow).1.Ok?
    ensures var first := Claim(s, k, epochNow);
            StampsNotAfter(first.0, k, epochNow) &&
            var second := Claim(first.0, k, epochNow);
            second.1.Ok? ==> second.1.value.index > first.1.value.index
  {
  }
}
