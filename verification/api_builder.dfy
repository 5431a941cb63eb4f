/** The request handlers of src/api_builder.rs: how each one pulls its
    parameters out of the query string or the JSON body, which defaults it
    applies, and which error it answers when a required parameter is
    missing. Query strings arrive as the map `form_urlencoded` builds; JSON
    bodies as a map from field name to a value that is a string, a number
    or something else. The operations the handlers start are not run: the
    handler's outcome records which one it starts and with what inputs, and
    for the two it awaits, their result is a parameter. The interface
    listing `get_interfaces` is not part of this model; its two name lists
    are parameters. */
module ApiBuilder {
  import opened Wrappers
  import opened Strings
  import opened Network
  import Decimal
  import Operations

  const OK: nat := 200
  const BAD_REQUEST: nat := 400

  datatype Json = JStr(s: string) | JNum(n: int) | JOther

  datatype Body = Text(text: string) | Listing(data: map<string, seq<string>>)

  datatype Response = Response(status: nat, body: Body)

  /** The operation a handler starts, with its inputs. */
  datatype Launch =
    | LaunchPublish(inputs: Operations.Inputs, servicePort: int)
    | LaunchClaim(inputs: Operations.Inputs)
    | LaunchCollect(inputs: Operations.Inputs)
    | LaunchSend(inputs: Operations.Inputs, msg: string)

  datatype Handled = Handled(response: Response, launched: Option<Launch>)

  /** The error text for a missing required parameter. */
  function Required(name: string): string
  {
    "Error: '" + name + "' parameter is required."
  }

  /** A missing parameter: the default 200 status, the error text, nothing
      started. */
  function Missing(name: string): Handled
  {
    Handled(Response(OK, Text(Required(name))), None)
  }

  /** `params.get(key).map_or(default, |v| v == "true")` on a query map. */
  function QueryFlag(q: map<string, string>, key: string, default: bool): bool
  {
    if key in q then q[key] == "true" else default
  }

  /** The same on a JSON body: only the JSON string "true" counts. */
  function JsonFlag(data: map<string, Json>, key: string, default: bool): bool
  {
    if key in data then data[key] == JStr("true") else default
  }

  /** `data.get(key).and_then(as_str)`. */
  function AsStr(data: map<string, Json>, key: string): Option<string>
  {
    if key in data && data[key].JStr? then Some(data[key].s) else None
  }

  /** `data.get(key).and_then(as_i64)`: a number within the i64 range. */
  function AsI64(data: map<string, Json>, key: string): (r: Option<int>)
    ensures r.Some? ==> Decimal.I64_MIN <= r.value <= Decimal.I64_MAX
  {
    if key in data && data[key].JNum? && Decimal.I64_MIN <= data[key].n <= Decimal.I64_MAX
    then Some(data[key].n) else None
  }

  /** `x as i32` on an i64: keeps the low 32 bits, read as signed. */
  function WrapI32(x: int): (r: int)
    ensures Decimal.I32_MIN <= r <= Decimal.I32_MAX
    ensures (r - x) % 0x1_0000_0000 == 0
    ensures Decimal.I32_MIN <= x <= Decimal.I32_MAX ==> r == x
  {
    var low := x % 0x1_0000_0000;
    if low <= Decimal.I32_MAX then low else low - 0x1_0000_0000
  }

  /** `x as u64` on an i64: negative values wrap around. */
  function WrapU64(x: int): (r: nat)
    ensures r < Decimal.U64_LIMIT && (r - x) % Decimal.U64_LIMIT == 0
    ensures 0 <= x < Decimal.U64_LIMIT ==> r == x
  {
    x % Decimal.U64_LIMIT
  }

  function Trim(s: string): string
  {
    TrimMatches(s, '"')
  }

  function TrimOpt(v: Option<string>): Option<string>
  {
    match v
    case Some(s) => Some(Trim(s))
    case None => None
  }

  function QueryGet(q: map<string, string>, key: string): Option<string>
  {
    if key in q then Some(q[key]) else None
  }

  /** `r` is what `raw.trim_matches('"')` leaves: `raw` with runs of
      quotes cut off at either end, and no quote left at either end. */
  predicate QuotesStripped(raw: string, r: string)
  {
    (exists i, j :: 0 <= i <= j <= |raw| && PaddedAt(raw, r, '"', i, j)) &&
    (|r| > 0 ==> r[0] != '"' && r[|r| - 1] != '"')
  }

  /** An optional string field: present exactly when the raw field is, and
      then stripped of quotes. */
  predicate OptStripped(raw: Option<string>, r: Option<string>)
  {
    (r.Some? <==> raw.Some?) && (raw.Some? ==> QuotesStripped(raw.value, r.value))
  }

  lemma TrimStrips(raw: string)
    ensures QuotesStripped(raw, Trim(raw))
  {
    TrimMatchesSplits(raw, '"');
  }

  lemma TrimOptStrips(raw: Option<string>)
    ensures OptStripped(raw, TrimOpt(raw))
  {
    if raw.Some? {
      TrimStrips(raw.value);
    }
  }

  /** `handle_list_interfaces`: IPv4 is listed unless `v4` says otherwise,
      IPv6 only when `v6` is "true". */
  function HandleListInterfaces(q: map<string, string>, ipv4Names: seq<string>, ipv6Names: seq<string>): (r: Response)
    ensures r.status == OK && r.body.Listing?
    ensures "ipv4_interfaces" in r.body.data <==> QueryFlag(q, "v4", true)
    ensures "ipv6_interfaces" in r.body.data <==> QueryFlag(q, "v6", false)
    ensures "ipv4_interfaces" in r.body.data ==> r.body.data["ipv4_interfaces"] == ipv4Names
    ensures "ipv6_interfaces" in r.body.data ==> r.body.data["ipv6_interfaces"] == ipv6Names
    ensures r.body.data.Keys <= {"ipv4_interfaces", "ipv6_interfaces"}
  {
    var d4: map<string, seq<string>> := if QueryFlag(q, "v4", true) then map["ipv4_interfaces" := ipv4Names] else map[];
    var d := if QueryFlag(q, "v6", false) then d4["ipv6_interfaces" := ipv6Names] else d4;
    Response(OK, Listing(d))
  }

  /** The defaults: no parameters list IPv4 only; a value other than
      "true" switches IPv4 off. */
  lemma ListInterfacesDefaults(ipv4Names: seq<string>, ipv6Names: seq<string>, v: string)
    requires v != "true"
    ensures HandleListInterfaces(map[], ipv4Names, ipv6Names).body.data == map["ipv4_interfaces" := ipv4Names]
    ensures HandleListInterfaces(map["v4" := v], ipv4Names, ipv6Names).body.data == map[]
  {
  }

  /** `handle_list_ips`: without `name` the request is refused before any
      address is looked at; otherwise the matching addresses of each
      requested version are listed. */
  function HandleListIps(q: map<string, string>, ips: LocalIpAddresses): (r: Response)
    ensures "name" !in q ==> r == Response(BAD_REQUEST, Text(Required("name")))
    ensures "name" in q ==>
              (r.status == OK && r.body.Listing? &&
               ("ipv4_addresses" in r.body.data <==> QueryFlag(q, "get_v4", true)) &&
               ("ipv6_addresses" in r.body.data <==> QueryFlag(q, "get_v6", false)) &&
               r.body.data.Keys <= {"ipv4_addresses", "ipv6_addresses"})
    ensures "name" in q && r.body.Listing? && "ipv4_addresses" in r.body.data ==>
              r.body.data["ipv4_addresses"] ==
                GetMatchingIpStr(ips.ipv4Addrs, Some(q["name"]), QueryGet(q, "starting_octets"))
    ensures "name" in q && r.body.Listing? && "ipv6_addresses" in r.body.data ==>
              r.body.data["ipv6_addresses"] ==
                GetMatchingIpStr(ips.ipv6Addrs, Some(q["name"]), QueryGet(q, "starting_octets"))
  {
    if "name" !in q then Response(BAD_REQUEST, Text(Required("name")))
    else
      var name := Some(q["name"]);
      var octets := QueryGet(q, "starting_octets");
      var d4: map<string, seq<string>> :=
        if QueryFlag(q, "get_v4", true) then map["ipv4_addresses" := GetMatchingIpStr(ips.ipv4Addrs, name, octets)]
        else map[];
      var d := if QueryFlag(q, "get_v6", false) then d4["ipv6_addresses" := GetMatchingIpStr(ips.ipv6Addrs, name, octets)]
               else d4;
      Response(OK, Listing(d))
  }

  /** A request without `name` gets the same answer whatever the host's
      addresses are: nothing is looked up. */
  lemma ListIpsNeedsName(q: map<string, string>, ips1: LocalIpAddresses, ips2: LocalIpAddresses)
    requires "name" !in q
    ensures HandleListIps(q, ips1) == HandleListIps(q, ips2)
  {
  }

  /** An IPv4 address text is listed exactly when some IPv4 entry with that
      text is on the named interface (or has no name) and starts with the
      requested octets. */
  lemma ListIpsMembers(q: map<string, string>, ips: LocalIpAddresses, s: string)
    requires "name" in q && QueryFlag(q, "get_v4", true)
    ensures var r := HandleListIps(q, ips);
            r.body.Listing? && "ipv4_addresses" in r.body.data &&
            (s in r.body.data["ipv4_addresses"] <==>
               exists i :: 0 <= i < |ips.ipv4Addrs| && ips.ipv4Addrs[i].ip.text == s &&
                           (ips.ipv4Addrs[i].name == Some(q["name"]) || ips.ipv4Addrs[i].name.None?) &&
                           ("starting_octets" in q ==> StartsWith(ips.ipv4Addrs[i].ip.text, q["starting_octets"])))
  {
    MatchingMembers(ips.ipv4Addrs, Some(q["name"]), QueryGet(q, "starting_octets"), s);
  }

  /** `handle_publish`: host, port, bind_port, service_port and key must be
      present with the right JSON type, checked in that order; strings lose
      surrounding quotes and numbers are cast to the field widths. */
  function HandlePublish(data: map<string, Json>): (h: Handled)
    ensures h.launched.Some? <==> h.response.body == Text("Successful request to publish")
    ensures h.response.status == OK
  {
    if AsStr(data, "host").None? then Missing("host")
    else if AsI64(data, "port").None? then Missing("port")
    else if AsI64(data, "bind_port").None? then Missing("bind_port")
    else if AsI64(data, "service_port").None? then Missing("service_port")
    else if AsI64(data, "key").None? then Missing("key")
    else
      var inputs := Operations.Inputs(
        JsonFlag(data, "print_v4", true), JsonFlag(data, "print_v6", true),
        Trim(AsStr(data, "host").value), WrapI32(AsI64(data, "port").value),
        TrimOpt(AsStr(data, "name")), TrimOpt(AsStr(data, "starting_octets")),
        WrapI32(AsI64(data, "bind_port").value), WrapU64(AsI64(data, "key").value),
        TrimOpt(AsStr(data, "root_ca")));
      Handled(Response(OK, Text("Successful request to publish")),
              Some(LaunchPublish(inputs, WrapI32(AsI64(data, "service_port").value))))
  }

  /** A publish request starts `publish` exactly when its five required
      fields are there, and reports the first one missing otherwise. */
  lemma PublishRequires(data: map<string, Json>)
    ensures HandlePublish(data).launched.Some? <==>
              AsStr(data, "host").Some? && AsI64(data, "port").Some? && AsI64(data, "bind_port").Some? &&
              AsI64(data, "service_port").Some? && AsI64(data, "key").Some?
    ensures AsStr(data, "host").None? ==> HandlePublish(data) == Missing("host")
    ensures AsStr(data, "host").Some? && AsI64(data, "port").None? ==> HandlePublish(data) == Missing("port")
    ensures (AsStr(data, "host").Some? && AsI64(data, "port").Some? && AsI64(data, "bind_port").None?) ==>
              HandlePublish(data) == Missing("bind_port")
    ensures (AsStr(data, "host").Some? && AsI64(data, "port").Some? && AsI64(data, "bind_port").Some? &&
             AsI64(data, "service_port").None?) ==>
              HandlePublish(data) == Missing("service_port")
    ensures (AsStr(data, "host").Some? && AsI64(data, "port").Some? && AsI64(data, "bind_port").Some? &&
             AsI64(data, "service_port").Some? && AsI64(data, "key").None?) ==>
              HandlePublish(data) == Missing("key")
  {
  }

  /** The numbers and flags a started publish receives: the ports are cast
      `as i32` and the key `as u64`; both version flags are on unless the
      body holds something other than the string "true" for them. */
  lemma PublishNumbers(data: map<string, Json>)
    requires HandlePublish(data).launched.Some?
    ensures var l := HandlePublish(data).launched.value;
            l.LaunchPublish? &&
            AsI64(data, "port").Some? && l.inputs.port == WrapI32(AsI64(data, "port").value) &&
            AsI64(data, "bind_port").Some? && l.inputs.bindPort == WrapI32(AsI64(data, "bind_port").value) &&
            AsI64(data, "service_port").Some? && l.servicePort == WrapI32(AsI64(data, "service_port").value) &&
            AsI64(data, "key").Some? && l.inputs.key == WrapU64(AsI64(data, "key").value) &&
            (l.inputs.printV4 <==> "print_v4" !in data || data["print_v4"] == JStr("true")) &&
            (l.inputs.printV6 <==> "print_v6" !in data || data["print_v6"] == JStr("true"))
  {
  }

  /** The strings a started publish receives: host, name, starting_octets
      and root_ca lose surrounding quotes. */
  lemma PublishStrings(data: map<string, Json>)
    requires HandlePublish(data).launched.Some?
    ensures var i := HandlePublish(data).launched.value.inputs;
            AsStr(data, "host").Some? && QuotesStripped(AsStr(data, "host").value, i.host) &&
            OptStripped(AsStr(data, "name"), i.name) &&
            OptStripped(AsStr(data, "starting_octets"), i.startingOctets) &&
            OptStripped(AsStr(data, "root_ca"), i.rootCa)
  {
    var i := HandlePublish(data).launched.value.inputs;
    assert i.host == Trim(AsStr(data, "host").value);
    assert i.name == TrimOpt(AsStr(data, "name"));
    assert i.startingOctets == TrimOpt(AsStr(data, "starting_octets"));
    assert i.rootCa == TrimOpt(AsStr(data, "root_ca"));
    TrimStrips(AsStr(data, "host").value);
    TrimOptStrips(AsStr(data, "name"));
    TrimOptStrips(AsStr(data, "starting_octets"));
    TrimOptStrips(AsStr(data, "root_ca"));
  }

  /** The required parameters of a claim: host, then port and bind_port as
      i32, then key as u64. */
  function ClaimParams(q: map<string, string>): (r: Result<(string, int, int, nat), string>)
    ensures r.Ok? ==> "host" in q && r.value.0 == q["host"] &&
                      "port" in q && Decimal.ParseI32(q["port"]) == Some(r.value.1) &&
                      "bind_port" in q && Decimal.ParseI32(q["bind_port"]) == Some(r.value.2) &&
                      "key" in q && Decimal.ParseU64(q["key"]) == Some(r.value.3)
  {
    if "host" !in q then Err("host")
    else match QueryGet(q, "port")
      case None => Err("port")
      case Some(p) =>
        match Decimal.ParseI32(p)
        case None => Err("port")
        case Some(port) =>
          match QueryGet(q, "bind_port")
          case None => Err("bind_port")
          case Some(b) =>
            match Decimal.ParseI32(b)
            case None => Err("bind_port")
            case Some(bindPort) =>
              match QueryGet(q, "key")
              case None => Err("key")
              case Some(k) =>
                match Decimal.ParseU64(k)
                case None => Err("key")
                case Some(key) => Ok((q["host"], port, bindPort, key))
  }

  /** A parameter that is there and reads as a number of its type. */
  predicate Parses(q: map<string, string>, key: string, asU64: bool)
  {
    key in q && (if asU64 then Decimal.ParseU64(q[key]).Some? else Decimal.ParseI32(q[key]).Some?)
  }

  /** `handle_claim`: on success, `claim` is started with the parameters
      as given (only root_ca loses surrounding quotes); IPv4 is on unless
      switched off, IPv6 off unless switched on. */
  function HandleClaim(q: map<string, string>): (h: Handled)
    ensures h.response.status == OK
    ensures ClaimParams(q).Err? ==> h == Missing(ClaimParams(q).error)
    ensures ClaimParams(q).Ok? ==>
              h.response.body == Text("Successful request to claim") &&
              h.launched.Some? && h.launched.value.LaunchClaim? &&
              "host" in q && "port" in q && "bind_port" in q && "key" in q &&
              (var i := h.launched.value.inputs;
               i.host == q["host"] &&
               Decimal.ParseI32(q["port"]) == Some(i.port) &&
               Decimal.ParseI32(q["bind_port"]) == Some(i.bindPort) &&
               Decimal.ParseU64(q["key"]) == Some(i.key) &&
               (i.printV4 <==> "print_v4" !in q || q["print_v4"] == "true") &&
               (i.printV6 <==> "print_v6" in q && q["print_v6"] == "true") &&
               i.name == (if "name" in q then Some(q["name"]) else None) &&
               i.startingOctets == (if "starting_octets" in q then Some(q["starting_octets"]) else None) &&
               (i.rootCa.Some? <==> "root_ca" in q))
  {
    match ClaimParams(q)
    case Err(name) => Missing(name)
    case Ok((host, port, bindPort, key)) =>
      Handled(Response(OK, Text("Successful request to claim")),
              Some(LaunchClaim(Operations.Inputs(
                QueryFlag(q, "print_v4", true), QueryFlag(q, "print_v6", false), host, port,
                QueryGet(q, "name"), QueryGet(q, "starting_octets"), bindPort, key,
                TrimOpt(QueryGet(q, "root_ca"))))))
  }

  /** The claim handler checks host, port, bind_port and key in that order
      and names the first one that is missing or does not parse. */
  lemma ClaimChecksInOrder(q: map<string, string>)
    ensures "host" !in q ==> HandleClaim(q) == Missing("host")
    ensures "host" in q && !Parses(q, "port", false) ==> HandleClaim(q) == Missing("port")
    ensures ("host" in q && Parses(q, "port", false) && !Parses(q, "bind_port", false)) ==>
              HandleClaim(q) == Missing("bind_port")
    ensures ("host" in q && Parses(q, "port", false) && Parses(q, "bind_port", false) && !Parses(q, "key", true)) ==>
              HandleClaim(q) == Missing("key")
    ensures HandleClaim(q).launched.Some? <==>
              "host" in q && Parses(q, "port", false) && Parses(q, "bind_port", false) && Parses(q, "key", true)
  {
  }

  /** A port that does not parse is answered exactly as a missing one. */
  lemma UnparseablePortIsMissing(q: map<string, string>)
    requires "port" in q && Decimal.ParseI32(q["port"]).None?
    ensures HandleClaim(q) == HandleClaim(q - {"port"})
  {
    assert QueryGet(q - {"port"}, "port").None?;
  }

  /** The root certificate path reaches `claim` without surrounding quotes. */
  lemma ClaimRootCaUnquoted(q: map<string, string>)
    requires HandleClaim(q).launched.Some? && "root_ca" in q
    ensures var r := HandleClaim(q).launched.value.inputs.rootCa;
            r.Some? && QuotesStripped(q["root_ca"], r.value)
  {
    assert ClaimParams(q).Ok?;
    assert TrimOpt(QueryGet(q, "root_ca")) == Some(Trim(q["root_ca"]));
    TrimStrips(q["root_ca"]);
  }

  /** The required parameters of a collect: host, port as i32, key as u64. */
  function CollectParams(q: map<string, string>): (r: Result<(string, int, nat), string>)
    ensures r.Ok? ==> "host" in q && r.value.0 == q["host"] &&
                      "port" in q && Decimal.ParseI32(q["port"]) == Some(r.value.1) &&
                      "key" in q && Decimal.ParseU64(q["key"]) == Some(r.value.2)
    ensures r.Err? ==> r.error in {"host", "port", "key"}
  {
    if "host" !in q then Err("host")
    else if "port" !in q || Decimal.ParseI32(q["port"]).None? then Err("port")
    else if "key" !in q || Decimal.ParseU64(q["key"]).None? then Err("key")
    else Ok((q["host"], Decimal.ParseI32(q["port"]).value, Decimal.ParseU64(q["key"]).value))
  }

  function CollectInputs(q: map<string, string>, host: string, port: int, key: nat): Operations.Inputs
  {
    Operations.Inputs(QueryFlag(q, "print_v4", true), QueryFlag(q, "print_v6", false), host, port,
                      QueryGet(q, "name"), QueryGet(q, "starting_octets"), 0, key,
                      TrimOpt(QueryGet(q, "root_ca")))
  }

  /** The body for an operation that failed with `e`; never mistaken for
      a success text. */
  function ErrorText(e: string): (t: string)
    ensures |t| > 0 && t[0] == 'E'
  {
    "Error processing request: " + e
  }

  /** `handle_collect` as written: the body chosen from the outcome of
      `collect` is overwritten afterwards with the success text. */
  function HandleCollectAsWritten(q: map<string, string>, outcome: Result<(), string>): (h: Handled)
    ensures CollectParams(q).Err? ==> h == Missing(CollectParams(q).error)
    ensures CollectParams(q).Ok? ==> h.launched.Some? && h.launched.value.LaunchCollect?
  {
    match CollectParams(q)
    case Err(name) => Missing(name)
    case Ok((host, port, key)) =>
      // The body the match on the outcome chooses; the source then
      // overwrites it unconditionally, so it never reaches the response.
      var chosen := match outcome
        case Ok(_) => "Successful request to collect"
        case Err(e) => ErrorText(e);
      var body := "Successful request to collect";
      Handled(Response(OK, Text(body)), Some(LaunchCollect(CollectInputs(q, host, port, key))))
  }

  /** As written, a failed collect is reported as a success. */
  lemma CollectFailureReportedAsSuccess(q: map<string, string>, e: string)
    requires CollectParams(q).Ok?
    ensures HandleCollectAsWritten(q, Err(e)).response.body == Text("Successful request to collect")
    ensures HandleCollectAsWritten(q, Err(e)) == HandleCollectAsWritten(q, Ok(()))
  {
  }

  /** `handle_collect` as its error branch means it: the body reports the
      outcome of `collect`. */
  function HandleCollect(q: map<string, string>, outcome: Result<(), string>): (h: Handled)
    ensures CollectParams(q).Err? ==> h == Missing(CollectParams(q).error)
    ensures CollectParams(q).Ok? ==>
              h.launched.Some? && h.launched.value.LaunchCollect? &&
              (h.response.body == Text("Successful request to collect") <==> outcome.Ok?) &&
              (outcome.Err? ==> h.response.body == Text(ErrorText(outcome.error))) &&
              "host" in q && "port" in q && "key" in q &&
              h.launched.value.inputs.host == q["host"] &&
              Decimal.ParseI32(q["port"]) == Some(h.launched.value.inputs.port) &&
              Decimal.ParseU64(q["key"]) == Some(h.launched.value.inputs.key)
  {
    match CollectParams(q)
    case Err(name) => Missing(name)
    case Ok((host, port, key)) =>
      var body := match outcome
        case Ok(_) => "Successful request to collect"
        case Err(e) => ErrorText(e);
      Handled(Response(OK, Text(body)), Some(LaunchCollect(CollectInputs(q, host, port, key))))
  }

  /** The collect handler checks host, port and key in that order and
      names the first one that is missing or does not parse; the response
      to a bad request does not depend on what collect would have done. */
  lemma CollectChecksInOrder(q: map<string, string>, outcome: Result<(), string>)
    ensures "host" !in q ==> HandleCollect(q, outcome) == Missing("host")
    ensures "host" in q && !Parses(q, "port", false) ==> HandleCollect(q, outcome) == Missing("port")
    ensures ("host" in q && Parses(q, "port", false) && !Parses(q, "key", true)) ==>
              HandleCollect(q, outcome) == Missing("key")
    ensures HandleCollect(q, outcome).launched.Some? <==>
              "host" in q && Parses(q, "port", false) && Parses(q, "key", true)
  {
  }

  /** The fields of a send request, host, port, msg and key, checked in
      that order: the inputs for `send_msg` and the trimmed message. */
  function SendParams(data: map<string, Json>): (r: Result<(Operations.Inputs, string), string>)
    ensures r.Ok? ==> AsStr(data, "msg").Some? && r.value.1 == Trim(AsStr(data, "msg").value)
    ensures r.Ok? <==> AsStr(data, "host").Some? && AsI64(data, "port").Some? &&
                       AsStr(data, "msg").Some? && AsI64(data, "key").Some?
    ensures AsStr(data, "host").None? ==> r == Err("host")
    ensures AsStr(data, "host").Some? && AsI64(data, "port").None? ==> r == Err("port")
    ensures (AsStr(data, "host").Some? && AsI64(data, "port").Some? && AsStr(data, "msg").None?) ==>
              r == Err("msg")
    ensures (AsStr(data, "host").Some? && AsI64(data, "port").Some? && AsStr(data, "msg").Some? &&
             AsI64(data, "key").None?) ==>
              r == Err("key")
  {
    if AsStr(data, "host").None? then Err("host")
    else if AsI64(data, "port").None? then Err("port")
    else if AsStr(data, "msg").None? then Err("msg")
    else if AsI64(data, "key").None? then Err("key")
    else
      Ok((Operations.Inputs(
            JsonFlag(data, "print_v4", true), JsonFlag(data, "print_v6", true),
            Trim(AsStr(data, "host").value), WrapI32(AsI64(data, "port").value),
            TrimOpt(AsStr(data, "name")), TrimOpt(AsStr(data, "starting_octets")), 0,
            WrapU64(AsI64(data, "key").value), TrimOpt(AsStr(data, "root_ca"))),
          Trim(AsStr(data, "msg").value)))
  }

  /** What a started send receives: host, msg, name, starting_octets and
      root_ca lose surrounding quotes; the port is cast `as i32` and the key
      `as u64`; there is no bind port; both version flags are on unless the
      body holds something other than the string "true" for them. */
  lemma SendInputs(data: map<string, Json>)
    requires SendParams(data).Ok?
    ensures var (i, msg) := SendParams(data).value;
            AsStr(data, "host").Some? && QuotesStripped(AsStr(data, "host").value, i.host) &&
            AsStr(data, "msg").Some? && QuotesStripped(AsStr(data, "msg").value, msg) &&
            AsI64(data, "port").Some? && i.port == WrapI32(AsI64(data, "port").value) &&
            AsI64(data, "key").Some? && i.key == WrapU64(AsI64(data, "key").value) &&
            i.bindPort == 0 &&
            (i.printV4 <==> "print_v4" !in data || data["print_v4"] == JStr("true")) &&
            (i.printV6 <==> "print_v6" !in data || data["print_v6"] == JStr("true")) &&
            OptStripped(AsStr(data, "name"), i.name) &&
            OptStripped(AsStr(data, "starting_octets"), i.startingOctets) &&
            OptStripped(AsStr(data, "root_ca"), i.rootCa)
  {
    TrimStrips(AsStr(data, "host").value);
    TrimStrips(AsStr(data, "msg").value);
    TrimOptStrips(AsStr(data, "name"));
    TrimOptStrips(AsStr(data, "starting_octets"));
    TrimOptStrips(AsStr(data, "root_ca"));
  }

  /** `handle_send`: with all four fields present, `send_msg` is started
      and the body reports its outcome; otherwise the first missing field
      is named. */
  function HandleSend(data: map<string, Json>, outcome: Result<(), string>): (h: Handled)
    ensures h.response.status == OK
    ensures SendParams(data).Err? ==> h == Missing(SendParams(data).error)
    ensures SendParams(data).Ok? ==>
              h.launched == Some(LaunchSend(SendParams(data).value.0, SendParams(data).value.1)) &&
              (h.response.body == Text("Successful request to send") <==> outcome.Ok?) &&
              (outcome.Err? ==> h.response.body == Text(ErrorText(outcome.error)))
  {
    match SendParams(data)
    case Err(name) => Missing(name)
    case Ok((inputs, msg)) =>
      var body := match outcome
        case Ok(_) => "Successful request to send"
        case Err(e) => ErrorText(e);
      Handled(Response(OK, Text(body)), Some(LaunchSend(inputs, msg)))
  }
}
