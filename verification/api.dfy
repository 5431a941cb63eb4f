/** `handle_requests` of src/api.rs: which handler a request reaches, by
    method and path prefix. */
module Api {
  import opened Connection
  import opened Strings

  /** Where a request goes; `NoRoute` is the 404 answer. */
  datatype Route = ListInterfacesRoute | ListIpsRoute | PublishRoute | ClaimRoute | CollectRoute | SendRoute | NoRoute

  const NOT_FOUND: nat := 404

  /** The routing table, checked top to bottom: GET for the two listings,
      claim and collect; POST for publish and send; everything else 404. */
  function HandleRequests(verb: Method, path: string): (r: Route)
    ensures r != NoRoute ==> verb != OtherMethod
    ensures r == PublishRoute || r == SendRoute ==> verb == POST
    ensures r != NoRoute && r != PublishRoute && r != SendRoute ==> verb == GET
  {
    if verb == GET && StartsWith(path, "/list_interfaces") then ListInterfacesRoute
    else if verb == GET && StartsWith(path, "/list_ips") then ListIpsRoute
    else if verb == POST && StartsWith(path, "/publish") then PublishRoute
    else if verb == GET && StartsWith(path, "/claim") then ClaimRoute
    else if verb == GET && StartsWith(path, "/collect") then CollectRoute
    else if verb == POST && StartsWith(path, "/send") then SendRoute
    else NoRoute
  }

  /** No path starts with two of the route prefixes, so the order of the
      table does not matter and each route has a one-line condition. */
  lemma HandleRequestsRoutes(verb: Method, path: string)
    ensures HandleRequests(verb, path) == ListInterfacesRoute <==> verb == GET && StartsWith(path, "/list_interfaces")
    ensures HandleRequests(verb, path) == ListIpsRoute <==> verb == GET && StartsWith(path, "/list_ips")
    ensures HandleRequests(verb, path) == PublishRoute <==> verb == POST && StartsWith(path, "/publish")
    ensures HandleRequests(verb, path) == ClaimRoute <==> verb == GET && StartsWith(path, "/claim")
    ensures HandleRequests(verb, path) == CollectRoute <==> verb == GET && StartsWith(path, "/collect")
    ensures HandleRequests(verb, path) == SendRoute <==> verb == POST && StartsWith(path, "/send")
  {
    if StartsWith(path, "/list_interfaces") {
      CharAt(path, "/list_interfaces", 1);
      CharAt(path, "/list_interfaces", 7);
    }
    if StartsWith(path, "/list_ips") {
      CharAt(path, "/list_ips", 1);
      CharAt(path, "/list_ips", 7);
    }
    if StartsWith(path, "/publish") {
      CharAt(path, "/publish", 1);
    }
    if StartsWith(path, "/claim") {
      CharAt(path, "/claim", 1);
      CharAt(path, "/claim", 2);
    }
    if StartsWith(path, "/collect") {
      CharAt(path, "/collect", 1);
      CharAt(path, "/collect", 2);
    }
    if StartsWith(path, "/send") {
      CharAt(path, "/send", 1);
    }
  }

  lemma CharAt(path: string, prefix: string, i: nat)
    requires StartsWith(path, prefix) && i < |prefix|
    ensures path[i] == prefix[i]
  {
    assert path[..|prefix|][i] == path[i];
  }

  /** The right path with the wrong method does not reach the handler. */
  lemma WrongMethodNotFound(path: string)
    ensures HandleRequests(POST, path) != ListInterfacesRoute && HandleRequests(POST, path) != ListIpsRoute
    ensures HandleRequests(POST, path) != ClaimRoute && HandleRequests(POST, path) != CollectRoute
    ensures HandleRequests(GET, path) != PublishRoute && HandleRequests(GET, path) != SendRoute
    ensures HandleRequests(OtherMethod, path) == NoRoute
  {
  }
}
