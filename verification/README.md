# nsm_rs in Dafny

A Dafny model of the sequential core of nsm_rs, a small service-mesh broker
written in Rust, and of the polynomial routines of the ML-DSA reference code
that the repository vendors.

Services publish an address under a numeric key. Clients claim a service by
key. The broker keeps every connection in a registry (`State`) and watches
each one through a queue of heartbeat events; a connection that fails ten
times is dropped, and a client whose service died is handed another one.

The model covers:

- the registry: `add`, `rmv` and `claim`, with the invariant that ids are
  unique because every stored id is below the sequence counter;
- heartbeat accounting: the rate-limited `FailCounter`, the outcome of one
  `monitor` call, and the requeue-or-drop decision of `event_monitor` and
  of the standalone heartbeat listener;
- the message protocol: header names, the ACK/NULL rules of `send` and
  `receive`, the 1024-byte chunk framing of `stream_read`, and the
  method/path routing of `api_server` and `handle_requests`;
- address selection (`get_local_ips`, `get_matching_ipstr`), the `utils`
  helpers, interface de-duplication and payload construction in the
  operations, and the retry counters of their request loops;
- command-line and HTTP parameter validation (`cli::parse` and the
  `handle_*` functions);
- from poly.c: the bit-packing of η, t1, t0 and z polynomials (FIPS 204
  section 7.1), the rejection samplers `rej_uniform` and `rej_eta`, the
  norm check `poly_chknorm`, and the shuffle of `poly_challenge`.

Everything is a pure function over immutable data, or a method with loop
invariants where the source has a loop worth following step by step.
Clocks are `nat` parameters. The TCP stream and HTTP replies are given as
input sequences. Most Rust panics (`unwrap`, `panic!`) become `Err` or
`None` values. Some become preconditions instead: the one-element
requirement of `only_or_error`, and the claim stamps that the u64
subtraction in `claim` needs to be no later than now (`Registry.Claim`,
`EventMonitor.Work`). The C norm check's overflow at -2^31 is also a
precondition. Panics while decoding a request body or a `Message` lie
outside the model, since the handlers and `send`/`receive` take values that
are already decoded. C integers are 32-bit bit-vectors (`bv32`), so the source's
wrapping subtractions and shifts are modelled exactly.

Modules: `Wrappers` (Option/Result), `Strings` (`starts_with`,
`trim_matches`), `Decimal` (integer text), `Connection`, `Framing`,
`Events`, `Registry`, `EventMonitor`, `Listener`, `Network`, `Utils`,
`Operations`, `Cli`, `Api`, `ApiBuilder`, `MlDsaParams`, `PolyPack`,
`Sampling` and `PolySample`.

## Model

| member | source | states |
|---|---|---|
| Registry.New | src/service.rs:414-422 | A new registry has no entries, an empty queue, timeout 60 and sequence counter 1. |
| Registry.NewValid | src/service.rs:414-422 | The empty registry satisfies the invariant: no empty lists, every entry filed under its own key with id below the counter, ids unique. |
| Registry.Add | src/service.rs:425-540 | A TCP registration that cannot connect fails and changes nothing. Otherwise the payload gets id = old counter, service_id = counter for a service (argument 0) or the given id for a client. It is appended to its key's list, the heartbeat is appended to the queue, and the counter grows by one. The heartbeat carries key, id, bind address, TLS flag and a fresh fail counter. |
| Registry.AddKeepsValid | src/service.rs:508-539 | Registration preserves the invariant; the new id differs from every stored id. |
| Registry.IndexOfId | src/service.rs:551 | The position of the first entry with the id, or none when no entry has it. |
| Registry.IndexOfService | src/service.rs:573 | The position of the first entry with the service_id, or none when no entry has it. |
| Registry.Rmv | src/service.rs:544-587 | Fails, changing nothing, exactly when the key is absent or no entry under it has the id. Never touches counter, queue, timeout or any other key. |
| Registry.RmvEffect | src/service.rs:549-582 | A successful removal deletes exactly the first entry with the id, and drops the key when its list becomes empty. A service removal returns PUB with the decimal id. A client removal returns CLAIM and zeroes service_claim on the first remaining entry with the given service_id. |
| Registry.Delete | src/service.rs:552 | Removing a position leaves the other entries in order, one shorter. |
| Registry.DeleteKeepsValid | src/service.rs:549-559 | Deleting an entry, and the key when its list empties, preserves the invariant. |
| Registry.RmvKeepsValid | src/service.rs:544-587 | `rmv` preserves the invariant in every branch. |
| Registry.RmvKeepsStamps | src/service.rs:570-578 | `rmv` never makes a claim stamp later than the current time. |
| Registry.FirstExpired | src/service.rs:596-602 | The first entry whose claim is older than the timeout, with every earlier entry not expired; none when no entry is. |
| Registry.Claim | src/service.rs:592-608 | An absent key gives Err(2). No expired entry gives Err(1). Otherwise the first expired entry is stamped with the current time and returned, and nothing else changes. |
| Registry.ClaimKeepsValid | src/service.rs:592-608 | Claiming preserves the invariant. |
| Registry.ClaimNotTwice | src/service.rs:596-601 | A second claim at the same time never hands out the same entry again; it can only pick a later one. |
| Events.NewFailCounter | src/service.rs:83-90 | A new counter has no failures, both stamps at now, and a 10-second interval. |
| Events.Increment | src/service.rs:93-99 | The count rises by one and last_increment becomes now exactly when a whole interval has passed; otherwise the counter is unchanged. |
| Events.IncrementRateLimited | src/service.rs:93-99 | However often increment is called at non-decreasing times, the count grows by at most one per elapsed interval. |
| Events.RecordFailure | src/service.rs:173-176 | A failure stamps first_increment only when the count was zero, and counts like increment. |
| Events.Monitor | src/service.rs:135-239 | A non-empty stream reply or any HTTP response resets the count and is OK. An HTTP timeout changes nothing and is REQUEST_TIMEOUT. Every other outcome counts a rate-limited failure, and a stream read error is passed on. Only the fail counter of the heartbeat ever changes. |
| Events.MonitorThenRequeue | src/service.rs:348-391 | A live reply always requeues. The tenth counted failure drops the event. |
| EventMonitor.Start | src/service.rs:264-265 | The loop starts with zeroed shared data and no tracked service (-1). |
| EventMonitor.AsU64 | src/service.rs:351 | `as u64` on an i64 is the identity on non-negatives and adds 2^64 to negatives. |
| EventMonitor.RemoveDead | src/service.rs:289-312 | With fewer than ten failures nothing happens. At ten the entry is removed: a failed removal halts the loop; otherwise the count is cleared, and a non-PUB answer keeps the tracked service. |
| EventMonitor.RemoveDeadTracksService | src/service.rs:293-300 | Removing a dead service makes the loop track that service's id, read back from the PUB body. |
| EventMonitor.Pop | src/service.rs:315-336 | An empty queue pauses the loop and yields nothing. Otherwise the event yielded, put back at the front, gives the old queue, and the loop is marked running. |
| EventMonitor.Reclaimed | src/service.rs:353-373 | Corrected re-claim: the client's heartbeat takes the claimed service's service_id and a fresh counter; nothing else changes. |
| EventMonitor.Work | src/service.rs:343-391 | After monitor, the shared data records the event's key, ids and fail count. A live event is requeued. One due for re-claim is requeued re-claimed, or marks the data dead when no service is free. A dead event is dropped with its count recorded. Registry and counter are untouched. |
| EventMonitor.Pass | src/service.rs:289-391 | A pass halts exactly when removing a dead entry fails. It never lengthens the queue and never changes the sequence counter. |
| EventMonitor.RemoveDeadKeepsStamps | src/service.rs:289-312 | Removing a dead entry keeps every claim stamp not after now. |
| EventMonitor.WorkKeepsQueueHealthy | src/service.rs:349-391 | A worker only puts events with fewer than ten failures into the queue. |
| EventMonitor.PassKeepsQueueHealthy | src/service.rs:289-391 | A whole pass of the loop keeps the queue free of dead events. |
| EventMonitor.AddKeepsQueueHealthy | src/service.rs:514-531 | Registration queues a live event. |
| EventMonitor.ReclaimAsWrittenStaysDue | src/service.rs:357-368 | As written, a re-claimed client keeps the dead service's id, so it is due for re-claim again. |
| EventMonitor.ReclaimedAsWritten | src/service.rs:357-368 | As written, the re-claimed heartbeat keeps the old service_id and gets a fresh fail counter. |
| EventMonitor.ReclaimAsWrittenExample | src/service.rs:349-373 | A concrete run: the re-claimed client goes back into the queue still tied to the dead service 1. |
| EventMonitor.ReclaimedMovesOn | src/service.rs:356-360 | With the correction, a re-claimed client is tied to its new service and no longer due. |
| Connection.NewAddr | src/connection.rs:46-52 | A new address is a socket address with host and port copied. |
| Connection.HeaderName | src/connection.rs:83-95 | A header prints as its variant name: two to five capital letters. |
| Connection.HeaderFromName | src/connection.rs:83-95 | Reading a printed name gives the header whose name it is, and nothing for any other text. |
| Connection.HeaderNameRoundTrip | src/connection.rs:83-95 | Every header's printed name reads back as that header, and no two headers share a name. |
| Connection.Send | src/connection.rs:153-171 | The message is always written. An ACK is answered locally with an empty NULL and nothing is read; otherwise the reply read, or its error, is the result. |
| Connection.Receive | src/connection.rs:175-197 | The message read is the result. An ACK is written back exactly when it is neither ACK nor HB; a read error writes nothing. |
| Connection.SendReceiveHandshake | src/connection.rs:153-197 | A peer acknowledges any sent message other than ACK or HB, and the sender reads that ACK as its reply. |
| Connection.ApiServer | src/connection.rs:220-240 | The handler is reached exactly for POST under /request_handler and GET under /heartbeat_handler; only the latter records the time; everything else is 404. |
| Connection.ApiServerNeedsMethod | src/connection.rs:224-240 | The right path with the wrong method is not routed. |
| Framing.StreamRead | src/connection.rs:130-149 | The loop returns the full chunks read and the first short chunk, concatenated in order; an error or timeout discards them. It reads once more than the number of full chunks. |
| Framing.ReadMessage | src/connection.rs:130-149 | The reference for the read loop: an error exactly when the first non-full read failed or timed out. Otherwise the message starts with the full chunks, 1024 bytes each, and is shorter than one more chunk. |
| Framing.FullChunkReadsOn | src/connection.rs:143-145 | A full 1024-byte chunk always triggers another read and comes first in the message. |
| Framing.ShortChunkEndsMessage | src/connection.rs:134-148 | Reading stops at the first chunk shorter than the buffer; later input is never looked at. |
| Framing.FailureAbortsMessage | src/connection.rs:135-139 | A read error, or the timeout as TimedOut, aborts the read whatever came before. |
| Framing.HbStreamReadAgrees | heartbeat_monitor/src/hb_connection.rs:4-24 | The heartbeat monitor's framing equals the broker's on streams that never time out. |
| Framing.HbStreamRead | heartbeat_monitor/src/hb_connection.rs:4-24 | The heartbeat monitor's read: at most 1024 bytes per read made, and an error only when one of the reads failed with it. |
| Listener.Accept | heartbeat_monitor/src/listener.rs:32-47 | The queue keeps its clients in order and gains one at the back: the new connection, with no failures. |
| Listener.HandleConnection | heartbeat_monitor/src/listener.rs:95-125 | A read error is returned with the count unchanged. An empty message adds one failure and returns "HB Failed". A non-empty one clears the count and is acknowledged, and only then. |
| Listener.Step | heartbeat_monitor/src/listener.rs:62-87 | The clients behind the front keep their order. The handled client comes back at the end exactly when it has fewer than ten failures, so the queue shrinks by one exactly when it is dropped. |
| Listener.StepKeepsHealthy | heartbeat_monitor/src/listener.rs:39-87 | Accepting and handling keep every queued client below ten failures. |
| Listener.SilentClientDropped | heartbeat_monitor/src/listener.rs:79-116 | A client that only ever sends empty messages is dropped after exactly as many rounds as it has failures left. |
| Network.GetLocalIps | src/network.rs:26-64 | IPv4 addresses go to the first list and IPv6 to the second, each named after its interface. |
| Network.Split | src/network.rs:35-58 | One interface's addresses, split by version and named after it. |
| Network.SplitMembers | src/network.rs:35-58 | An entry is in a version's list exactly when it is an address of that version on the interface. |
| Network.GetLocalIpsMembers | src/network.rs:32-63 | An entry is listed exactly when some interface has that address and name. |
| Network.GetMatchingIpStr | src/network.rs:78-105 | Every returned text is the text of a selected input address; never more than the inputs. |
| Network.MatchingIsSubsequence | src/network.rs:93-104 | The output keeps input order: it is a subsequence of the input addresses' texts. |
| Network.MatchingMembers | src/network.rs:96-101 | A text is returned exactly when an input address with that text passes both the name test and the prefix test. |
| Network.MatchingEverything | src/network.rs:97-98 | With no name and no prefix every input address is returned, in order. |
| Network.Filter | src/network.rs:96-102 | The elements passing a test, in order: never more than the input, each passing and taken from it. |
| Network.MatchingIsFilter | src/network.rs:93-104 | The output is exactly the texts of the entries passing both tests, in order, each entry once, so duplicate texts appear as often as their entries pass. |
| Utils.OnlyOrError | src/utils.rs:4-9 | The single element of a one-element vector. |
| Utils.OnlyOrNone | src/utils.rs:13-18 | Some(x) exactly when the vector is [x], None for any other length. |
| Utils.OnlyOrNoneAgrees | src/utils.rs:4-18 | The two helpers agree wherever `only_or_error` does not panic. |
| Strings.RunEnd | src/api_builder.rs:259 | The end of the run of a character from a position. |
| Strings.RunStart | src/api_builder.rs:259 | The start of the run of a character ending at a position. |
| Strings.TrimMatches | src/api_builder.rs:259 | `trim_matches` of one character: never longer than the input, and neither starts nor ends with the character. |
| Strings.TrimMatchesSplits | src/api_builder.rs:258-261 | Trimming removes only runs of the character at both ends, and the result neither starts nor ends with it. |
| Strings.TrimMatchesIdempotent | src/api_builder.rs:258-261 | Trimming twice is trimming once. |
| Decimal.NatToString | src/service.rs:567 | `to_string` of an unsigned value: digits only, no leading zero. |
| Decimal.IntToString | src/api_builder.rs:229 | `to_string` of a signed value: starts with '-' exactly when it is negative. |
| Decimal.ParseUnsigned | src/api_builder.rs:245 | An unsigned parse succeeds only below its type's limit. |
| Decimal.ParseSigned | src/api_builder.rs:229 | A signed parse succeeds only within its type's range. |
| Decimal.ValueOfNatToString | src/service.rs:567 | The digits printed denote the number. |
| Decimal.ParseU64 | src/api_builder.rs:245 | A successful parse is below 2^64. |
| Decimal.ParseI32 | src/api_builder.rs:229 | A successful parse lies in the i32 range. |
| Decimal.ParseI64 | src/service.rs:299 | A successful parse lies in the i64 range. |
| Decimal.ParseU64OfNatToString | src/service.rs:564-568 | The decimal text of a u64 parses back to it. |
| Decimal.ParseI64OfNatToString | src/service.rs:299 | The text of an id below 2^63 parses back to the same i64. |
| Decimal.ParseSignedOfIntToString | src/api_builder.rs:229 | Every value in range survives printing and parsing. |
| Decimal.ParseI32OfIntToString | src/api_builder.rs:229 | Every i32 survives printing and parsing. |
| Decimal.ParseRejectsNonNumbers | src/api_builder.rs:229-250 | Empty text, a lone sign or a trailing non-digit never parses. |
| Operations.FirstOccurrencesProperties | src/operations.rs:57-67 | The de-duplicated list has the input's elements, none twice, in order of first appearance. |
| Operations.FirstOccurrencesElements | src/operations.rs:57-67 | The de-duplicated list has exactly the input's elements. |
| Operations.FirstOccurrencesNoDuplicates | src/operations.rs:57-67 | No element appears twice. |
| Operations.FirstOccurrencesOrdered | src/operations.rs:57-67 | Elements are ordered by their first position in the input. |
| Operations.FirstOccurrences | src/operations.rs:57-67 | The reference de-duplication: never longer than the input, and only input elements. |
| Operations.DistinctNames | src/operations.rs:57-67 | The seen-list loop yields the interface names in order of first appearance, a missing name as "". |
| Operations.NamesOf | src/operations.rs:58 | Each address's interface name, "" where it has none. |
| Operations.Lines | src/operations.rs:60-64 | One line per name, prefixed " - " when verbose. |
| Operations.ListVersion | src/operations.rs:55-68 | One version's output: the header when verbose, then each distinct name once. |
| Operations.ListInterfaces | src/operations.rs:46-87 | The requested versions' outputs, IPv4 first, each de-duplicated with its own seen-list. |
| Operations.PublishPayload | src/operations.rs:282-307 | The published payload carries the prefix-filtered addresses, all the interface's addresses, claim 0, id 0, service_id 0, and the input ports, key and root CA. |
| Operations.PublishAddrsAmongInterfaceAddrs | src/operations.rs:282-299 | Every published address is among the interface addresses. |
| Operations.ClaimPayload | src/operations.rs:566-592 | The claim payload carries the client's filtered addresses, the current time as claim, no interface addresses, id and service_id 0. |
| Operations.ApiRetry | src/operations.rs:410-461 | A loop that ends has used at least one attempt and no more than it was given; an ACK ending it was one of the replies, and its body is returned. |
| Operations.ApiRetryGivesUpOnSixth | src/operations.rs:433-461 | Without an ACK a request loop gives up exactly when more than five failures have been counted. |
| Operations.PublishIgnoresNonAck | src/operations.rs:435-460 | In publish, non-ACK replies are retried without counting. |
| Operations.ClaimTcpWaitBound | src/operations.rs:632-657 | Non-ACK messages alone end the TCP claim with "Key not found" after the sixth; an ACK before then returns the payload. |
| Operations.ClaimTcpWait | src/operations.rs:632-657 | A returned payload is the body of an ACK that was read; an error other than "Key not found" is a read error that occurred. |
| Cli.IpVersionFlags | src/cli.rs:171-186 | 4 gives IPv4 only, 6 IPv6 only, absent both; any other value is an error. |
| Cli.Parse | src/cli.rs:170-287 | A bad IP version is rejected first, then a missing operation. A successful parse names one of the five operations and carries the version flags of the IP version argument. |
| Cli.ClaimMissing | src/cli.rs:231-235 | The first of host, port, interface_name, bind_port, key that is absent; none when all are there. |
| Cli.PublishMissing | src/cli.rs:256-261 | The first absent argument in the order host, port, interface_name, bind_port, service_port, key. |
| Cli.ParseErrors | src/cli.rs:170-287 | A bad ip version or an unknown operation is an error. |
| Cli.ParseListInterfaces | src/cli.rs:191-199 | list_interfaces copies the verbose flag and both print flags. |
| Cli.ParseClaim | src/cli.rs:230-254 | claim succeeds exactly when its five arguments are present, and copies them verbatim; otherwise a missing argument is reported. |
| Cli.ParsePublish | src/cli.rs:255-282 | publish also needs service_port, copies everything verbatim, and reports the first missing argument in source order. |
| Api.HandleRequestsRoutes | src/api.rs:139-167 | Each handler is reached exactly for its method and path prefix. |
| Api.HandleRequests | src/api.rs:131-168 | Only GET and POST are routed: publish and send by POST, the other four by GET. |
| Api.WrongMethodNotFound | src/api.rs:162-166 | The right path with the wrong method, or any other method, reaches no handler. |
| ApiBuilder.AsI64 | src/api_builder.rs:130 | A JSON number read as i64 lies in the i64 range. |
| ApiBuilder.WrapI32 | src/api_builder.rs:131 | `as i32` keeps in-range values and otherwise wraps modulo 2^32. |
| ApiBuilder.WrapU64 | src/api_builder.rs:155 | `as u64` keeps non-negatives and otherwise wraps modulo 2^64. |
| ApiBuilder.HandleListInterfaces | src/api_builder.rs:18-51 | The response has an IPv4 list exactly when v4 is on and an IPv6 list exactly when v6 is on, with the names given. |
| ApiBuilder.ListInterfacesDefaults | src/api_builder.rs:28-29 | With no parameters only IPv4 is listed; a v4 value other than "true" switches it off. |
| ApiBuilder.HandleListIps | src/api_builder.rs:53-106 | No name gives BAD_REQUEST with the fixed text. Otherwise the lists present follow get_v4 (default on) and get_v6 (default off), and each is the matching address texts of that version for the name and starting_octets. |
| ApiBuilder.ListIpsNeedsName | src/api_builder.rs:66-75 | Without a name the response does not depend on the addresses. |
| ApiBuilder.ListIpsMembers | src/api_builder.rs:78-83 | An IPv4 text is listed exactly when some IPv4 entry with that text is on the named interface or has no name, and starts with the requested octets when they are given. |
| ApiBuilder.HandlePublish | src/api_builder.rs:108-201 | Publish is launched exactly when the success text is returned; the status stays OK. |
| ApiBuilder.PublishRequires | src/api_builder.rs:122-160 | Publish launches exactly when host, port, bind_port, service_port and key are present with the right JSON type. Otherwise the first missing one, in that order, is named. |
| ApiBuilder.PublishNumbers | src/api_builder.rs:130-177 | A started publish gets port, bind_port and service_port cast `as i32` and key cast `as u64`. Each version flag is on unless the body holds something other than the string "true" for it; IPv6 is on by default here. |
| ApiBuilder.PublishStrings | src/api_builder.rs:113-171 | A started publish gets host, name, starting_octets and root_ca with runs of quotes cut from both ends; the optional ones are present exactly when the body has them as strings. |
| ApiBuilder.TrimStrips | src/api_builder.rs:114 | `trim_matches('"')` removes only runs of quotes at either end and leaves no quote at either end. |
| ApiBuilder.ClaimParams | src/api_builder.rs:221-251 | On success the values are the parsed host, port, bind_port and key. |
| ApiBuilder.HandleClaim | src/api_builder.rs:203-290 | The status is always OK. A parameter error gives its "required" text. Otherwise claim is launched with the query's host verbatim, port, bind_port and key as the numbers their text parses to, and name and starting_octets as given or absent. IPv4 is on unless print_v4 is present and not "true"; IPv6 is on only when print_v6 is "true". A root_ca is passed exactly when the query has one. |
| ApiBuilder.ClaimChecksInOrder | src/api_builder.rs:221-251 | host, port, bind_port and key are checked in that order, and the first missing or unparsable one is named. |
| ApiBuilder.UnparseablePortIsMissing | src/api_builder.rs:229-235 | A port that does not parse is treated exactly like a missing one. |
| ApiBuilder.ClaimRootCaUnquoted | src/api_builder.rs:258-261 | The root_ca passed on is the query's with runs of quotes cut from both ends, and neither starts nor ends with a quote. |
| ApiBuilder.CollectParams | src/api_builder.rs:310-332 | Success needs host, port and key; the values are the query's host and the numbers the port and key texts parse to. A failure names host, port or key. |
| ApiBuilder.ErrorText | src/api_builder.rs:359 | An error body is never a success text. |
| ApiBuilder.HandleCollectAsWritten | src/api_builder.rs:292-365 | As written: parameter errors are named; otherwise collect runs. |
| ApiBuilder.CollectFailureReportedAsSuccess | src/api_builder.rs:355-363 | As written, a failed collect answers the same success text as a successful one. |
| ApiBuilder.HandleCollect | src/api_builder.rs:343-361 | Corrected: the success text exactly when collect succeeded, the error text otherwise. Collect gets the query's host and the parsed port and key. |
| ApiBuilder.CollectChecksInOrder | src/api_builder.rs:310-332 | host, port and key are checked in that order and the first missing or unparsable one is named. Collect starts exactly when all three are there and parse. |
| ApiBuilder.SendParams | src/api_builder.rs:383-413 | Succeeds exactly when host, port, msg and key are present with the right JSON type. Otherwise the first missing one, in that order, is named. |
| ApiBuilder.SendInputs | src/api_builder.rs:375-440 | A started send gets host, msg, name, starting_octets and root_ca with runs of quotes cut from both ends, port cast `as i32`, key cast `as u64`, and no bind port. Both version flags are on unless the body holds something other than the string "true" for them. |
| ApiBuilder.HandleSend | src/api_builder.rs:367-446 | A parameter error gives its text. Otherwise send is launched, and the success text is returned exactly when it succeeded. |
| MlDsaParams.SignedLessMeaning | vendor/aws-lc-sys/aws-lc/crypto/dilithium/pqcrystals_dilithium_ref_common/poly.c:238 | The sign-flip comparison is signed `<` on 32-bit patterns. |
| PolyPack.FieldThenCoeff | vendor/aws-lc-sys/aws-lc/crypto/dilithium/pqcrystals_dilithium_ref_common/poly.c:521-859 | For every format, an in-range coefficient maps to a field that fits its width and maps back. |
| PolyPack.CoeffThenField | vendor/aws-lc-sys/aws-lc/crypto/dilithium/pqcrystals_dilithium_ref_common/poly.c:521-859 | Every field value maps to an in-range coefficient and back. |
| PolyPack.InRangeMeaning | vendor/aws-lc-sys/aws-lc/crypto/dilithium/pqcrystals_dilithium_ref_common/poly.c:521-859 | A format's range is the signed interval [-lo, hi] of its coefficients. |
| PolyPack.Eta2RoundTrip | vendor/aws-lc-sys/aws-lc/crypto/dilithium/pqcrystals_dilithium_ref_common/poly.c:528-587 | Eight 3-bit fields packed into three bytes unpack to the same fields. |
| PolyPack.Eta2Back | vendor/aws-lc-sys/aws-lc/crypto/dilithium/pqcrystals_dilithium_ref_common/poly.c:528-587 | Any three bytes unpack to 3-bit fields that pack back to the same bytes. |
| PolyPack.Eta4RoundTrip | vendor/aws-lc-sys/aws-lc/crypto/dilithium/pqcrystals_dilithium_ref_common/poly.c:544-595 | Two 4-bit fields round-trip through one byte. |
| PolyPack.Eta4Back | vendor/aws-lc-sys/aws-lc/crypto/dilithium/pqcrystals_dilithium_ref_common/poly.c:544-595 | Any byte unpacks to 4-bit fields that pack back to it. |
| PolyPack.T1RoundTrip | vendor/aws-lc-sys/aws-lc/crypto/dilithium/pqcrystals_dilithium_ref_common/poly.c:611-637 | Four 10-bit fields round-trip through five bytes. |
| PolyPack.T1Back | vendor/aws-lc-sys/aws-lc/crypto/dilithium/pqcrystals_dilithium_ref_common/poly.c:611-637 | Any five bytes unpack to 10-bit fields that pack back to them. |
| PolyPack.T0RoundTrip | vendor/aws-lc-sys/aws-lc/crypto/dilithium/pqcrystals_dilithium_ref_common/poly.c:653-742 | Eight 13-bit fields round-trip through thirteen bytes. |
| PolyPack.T0Back | vendor/aws-lc-sys/aws-lc/crypto/dilithium/pqcrystals_dilithium_ref_common/poly.c:653-742 | Any thirteen bytes unpack to 13-bit fields that pack back to them. |
| PolyPack.Z17RoundTrip | vendor/aws-lc-sys/aws-lc/crypto/dilithium/pqcrystals_dilithium_ref_common/poly.c:763-842 | Four 18-bit fields round-trip through nine bytes. |
| PolyPack.Z17Back | vendor/aws-lc-sys/aws-lc/crypto/dilithium/pqcrystals_dilithium_ref_common/poly.c:763-842 | Any nine bytes unpack to 18-bit fields that pack back to them. |
| PolyPack.Z19RoundTrip | vendor/aws-lc-sys/aws-lc/crypto/dilithium/pqcrystals_dilithium_ref_common/poly.c:784-858 | Two 20-bit fields round-trip through five bytes. |
| PolyPack.Z19Back | vendor/aws-lc-sys/aws-lc/crypto/dilithium/pqcrystals_dilithium_ref_common/poly.c:784-858 | Any five bytes unpack to 20-bit fields that pack back to them. |
| PolyPack.GroupOfCoeffs | vendor/aws-lc-sys/aws-lc/crypto/dilithium/pqcrystals_dilithium_ref_common/poly.c:521-859 | A group of in-range coefficients decodes back after encoding. |
| PolyPack.GroupOfBytes | vendor/aws-lc-sys/aws-lc/crypto/dilithium/pqcrystals_dilithium_ref_common/poly.c:521-859 | Any group of bytes decodes to in-range coefficients that encode back to it. |
| PolyPack.CodecOfValid | vendor/aws-lc-sys/aws-lc/crypto/dilithium/pqcrystals_dilithium_ref_common/poly.c:521-859 | Every format's group codec has the right sizes and is a bijection between in-range groups and byte groups. |
| PolyPack.UnpackCarried | vendor/aws-lc-sys/aws-lc/crypto/dilithium/pqcrystals_dilithium_ref_common/poly.c:521-859 | Unpacking any bytes yields only representable coefficients. |
| PolyPack.UnpackOfPack | vendor/aws-lc-sys/aws-lc/crypto/dilithium/pqcrystals_dilithium_ref_common/poly.c:521-859 | Packing then unpacking group by group gives the input back exactly when every group is representable. |
| PolyPack.UnpackOfPackCarried | vendor/aws-lc-sys/aws-lc/crypto/dilithium/pqcrystals_dilithium_ref_common/poly.c:521-859 | Representable groups survive packing and unpacking. |
| PolyPack.PackOfUnpack | vendor/aws-lc-sys/aws-lc/crypto/dilithium/pqcrystals_dilithium_ref_common/poly.c:521-859 | Any packed bytes survive unpacking and packing. |
| PolyPack.CarriedMeaning | vendor/aws-lc-sys/aws-lc/crypto/dilithium/pqcrystals_dilithium_ref_common/poly.c:521-859 | Representable means every coefficient is in the format's signed range. |
| PolyPack.PolyUnpackRange | vendor/aws-lc-sys/aws-lc/crypto/dilithium/pqcrystals_dilithium_ref_common/poly.c:521-859 | Every unpacked polynomial has all coefficients in the format's range. |
| PolyPack.PolyRoundTrip | vendor/aws-lc-sys/aws-lc/crypto/dilithium/pqcrystals_dilithium_ref_common/poly.c:521-859 | A polynomial survives pack and unpack exactly when all its coefficients are in range. |
| PolyPack.PolyBytesRoundTrip | vendor/aws-lc-sys/aws-lc/crypto/dilithium/pqcrystals_dilithium_ref_common/poly.c:521-859 | Any byte string of the packed length survives unpack and pack. |
| PolyPack.Pack | vendor/aws-lc-sys/aws-lc/crypto/dilithium/pqcrystals_dilithium_ref_common/poly.c:521-859 | The packing loop writes one byte group per coefficient group: g groups give g times the group size. |
| PolyPack.Unpack | vendor/aws-lc-sys/aws-lc/crypto/dilithium/pqcrystals_dilithium_ref_common/poly.c:521-859 | The unpacking loop reads one coefficient group per byte group. |
| PolyPack.PolyEtaPack | vendor/aws-lc-sys/aws-lc/crypto/dilithium/pqcrystals_dilithium_ref_common/poly.c:521-551 | polyeta_pack writes 96 bytes for η = 2 and 128 for η = 4. |
| PolyPack.PolyEtaUnpack | vendor/aws-lc-sys/aws-lc/crypto/dilithium/pqcrystals_dilithium_ref_common/poly.c:562-596 | polyeta_unpack yields 256 coefficients in [-5, 2] for η = 2 and [-11, 4] for η = 4. |
| PolyPack.PolyEtaRoundTrip | vendor/aws-lc-sys/aws-lc/crypto/dilithium/pqcrystals_dilithium_ref_common/poly.c:521-596 | Coefficients in [-η, η] survive packing and unpacking. |
| PolyPack.PolyEtaBytesRoundTrip | vendor/aws-lc-sys/aws-lc/crypto/dilithium/pqcrystals_dilithium_ref_common/poly.c:521-596 | Any packed η bytes survive unpacking and packing. |
| PolyPack.PolyT1Pack | vendor/aws-lc-sys/aws-lc/crypto/dilithium/pqcrystals_dilithium_ref_common/poly.c:608-618 | polyt1_pack writes 320 bytes. |
| PolyPack.PolyT1Unpack | vendor/aws-lc-sys/aws-lc/crypto/dilithium/pqcrystals_dilithium_ref_common/poly.c:629-638 | polyt1_unpack yields 256 coefficients in [0, 1023]. |
| PolyPack.PolyT1RoundTrip | vendor/aws-lc-sys/aws-lc/crypto/dilithium/pqcrystals_dilithium_ref_common/poly.c:608-638 | A polynomial survives t1 packing exactly when its coefficients are in [0, 1023]. |
| PolyPack.PolyT1BytesRoundTrip | vendor/aws-lc-sys/aws-lc/crypto/dilithium/pqcrystals_dilithium_ref_common/poly.c:608-638 | Any 320 bytes survive t1 unpacking and packing. |
| PolyPack.PolyT0Pack | vendor/aws-lc-sys/aws-lc/crypto/dilithium/pqcrystals_dilithium_ref_common/poly.c:649-684 | polyt0_pack writes 416 bytes. |
| PolyPack.PolyT0Unpack | vendor/aws-lc-sys/aws-lc/crypto/dilithium/pqcrystals_dilithium_ref_common/poly.c:694-743 | polyt0_unpack yields 256 coefficients in (-2^12, 2^12]. |
| PolyPack.PolyT0RoundTrip | vendor/aws-lc-sys/aws-lc/crypto/dilithium/pqcrystals_dilithium_ref_common/poly.c:649-743 | A polynomial survives t0 packing exactly when its coefficients are in (-2^12, 2^12]. |
| PolyPack.PolyT0BytesRoundTrip | vendor/aws-lc-sys/aws-lc/crypto/dilithium/pqcrystals_dilithium_ref_common/poly.c:649-743 | Any 416 bytes survive t0 unpacking and packing. |
| PolyPack.PolyZPack | vendor/aws-lc-sys/aws-lc/crypto/dilithium/pqcrystals_dilithium_ref_common/poly.c:756-797 | polyz_pack writes 576 bytes for γ1 = 2^17 and 640 for γ1 = 2^19. |
| PolyPack.PolyZUnpack | vendor/aws-lc-sys/aws-lc/crypto/dilithium/pqcrystals_dilithium_ref_common/poly.c:809-859 | polyz_unpack yields 256 coefficients in [-(γ1 - 1), γ1]. |
| PolyPack.PolyZRoundTrip | vendor/aws-lc-sys/aws-lc/crypto/dilithium/pqcrystals_dilithium_ref_common/poly.c:756-859 | A polynomial survives z packing exactly when its coefficients are in [-(γ1 - 1), γ1]. |
| PolyPack.PolyZBytesRoundTrip | vendor/aws-lc-sys/aws-lc/crypto/dilithium/pqcrystals_dilithium_ref_common/poly.c:756-859 | Any packed z bytes survive unpacking and packing. |
| Sampling.TakeKeeps | vendor/aws-lc-sys/aws-lc/crypto/dilithium/pqcrystals_dilithium_ref_common/poly.c:268-277 | A property of every accepted candidate holds for every sampled value. |
| Sampling.PushStep | vendor/aws-lc-sys/aws-lc/crypto/dilithium/pqcrystals_dilithium_ref_common/poly.c:366-376 | Storing a candidate only while fewer than len are taken follows the reference sampler one candidate at a time. |
| PolySample.Triple | vendor/aws-lc-sys/aws-lc/crypto/dilithium/pqcrystals_dilithium_ref_common/poly.c:269-272 | The masked little-endian triple is below 2^23. |
| PolySample.TripleValue | vendor/aws-lc-sys/aws-lc/crypto/dilithium/pqcrystals_dilithium_ref_common/poly.c:269-272 | The triple is b0 + 2^8 b1 + 2^16 (b2 mod 128). |
| PolySample.UniformCandidate | vendor/aws-lc-sys/aws-lc/crypto/dilithium/pqcrystals_dilithium_ref_common/poly.c:268-277 | A triple is accepted exactly when it is below Q, and is then the value taken. |
| PolySample.UniformCandidates | vendor/aws-lc-sys/aws-lc/crypto/dilithium/pqcrystals_dilithium_ref_common/poly.c:268-277 | One candidate per whole three-byte group, never past the buffer. |
| PolySample.UniformBelowQ | vendor/aws-lc-sys/aws-lc/crypto/dilithium/pqcrystals_dilithium_ref_common/poly.c:274-275 | Every value the uniform sampler takes is below Q. |
| PolySample.RejUniform | vendor/aws-lc-sys/aws-lc/crypto/dilithium/pqcrystals_dilithium_ref_common/poly.c:259-279 | The loop takes the first len accepted triples, each in [0, Q - 1], never reads past the buffer, and stops short only when fewer than three bytes remain. |
| PolySample.Mod5 | vendor/aws-lc-sys/aws-lc/crypto/dilithium/pqcrystals_dilithium_ref_common/poly.c:363 | For t < 15, t - ((205 t) >> 10) 5 is t mod 5. |
| PolySample.HalfByteCandidateMeaning | vendor/aws-lc-sys/aws-lc/crypto/dilithium/pqcrystals_dilithium_ref_common/poly.c:358-377 | For η = 2 a nibble is kept when below 15 and gives 2 - (t mod 5); for η = 4 when below 9 and gives 4 - t; every kept value is in [-η, η]. |
| PolySample.HalfByteCandidates | vendor/aws-lc-sys/aws-lc/crypto/dilithium/pqcrystals_dilithium_ref_common/poly.c:357-378 | Two candidates per byte, the low nibble first. |
| PolySample.EtaWithin | vendor/aws-lc-sys/aws-lc/crypto/dilithium/pqcrystals_dilithium_ref_common/poly.c:361-377 | Every value the bounded sampler takes is in [-η, η]. |
| PolySample.RejEta | vendor/aws-lc-sys/aws-lc/crypto/dilithium/pqcrystals_dilithium_ref_common/poly.c:343-380 | The loop takes the first len accepted nibbles, each in [-η, η], never reads past the buffer, and stops short only when the buffer is used up. |
| PolySample.CtAbsValue | vendor/aws-lc-sys/aws-lc/crypto/dilithium/pqcrystals_dilithium_ref_common/poly.c:235-236 | The branch-free absolute value is x or -x by sign. |
| PolySample.CtAbsMeaning | vendor/aws-lc-sys/aws-lc/crypto/dilithium/pqcrystals_dilithium_ref_common/poly.c:235-238 | Comparing the absolute value with the bound is the test -B < x < B. |
| PolySample.ChkNorm | vendor/aws-lc-sys/aws-lc/crypto/dilithium/pqcrystals_dilithium_ref_common/poly.c:222-243 | 1 when B exceeds (Q - 1) / 8; otherwise 0 exactly when every coefficient is below B in absolute value. |
| PolySample.WeightUpdate | vendor/aws-lc-sys/aws-lc/crypto/dilithium/pqcrystals_dilithium_ref_common/poly.c:501-502 | Overwriting one coefficient changes the number of non-zeros by the old and new values only. |
| PolySample.SignWord | vendor/aws-lc-sys/aws-lc/crypto/dilithium/pqcrystals_dilithium_ref_common/poly.c:482-485 | The 64-bit sign word holds the i-th stream byte in bits 8i to 8i + 7. |
| PolySample.Challenge | vendor/aws-lc-sys/aws-lc/crypto/dilithium/pqcrystals_dilithium_ref_common/poly.c:472-504 | The shuffle yields 256 coefficients, exactly τ non-zero, all in {-1, 0, 1}; a stream shorter than 8 + τ bytes cannot complete it, and one whose τ position bytes are all at most N − τ always does. |

## Left out

- Async runtime and concurrency: tokio tasks, `Notify`, the `running` flag waits, the mutexes and the listener's thread pool. One pass of `event_monitor` and one worker step of the listener are modelled sequentially.
- Network I/O: connecting, `stream_write`, `collect_request`, `tcp_server`, hyper clients and servers, and every `sleep`. Replies are parameters.
- TLS (`setup_https_client`) and the `tls` flag's effect beyond the heartbeat's TLS bit.
- JSON (de)serialisation of `Message` and `Payload`, with its `unwrap` panics: `send` and `receive` take the already-decoded reply.
- Request-body decoding in `handle_publish` and `handle_send` (src/api_builder.rs:110-111, src/api_builder.rs:370-371): collecting the body and `serde_json::from_reader` are unwrapped, so a malformed body panics. The handlers take the decoded JSON object, and no panic is modelled. The query-string parsing of the GET handlers (`Url::parse(..).unwrap()`) is left out for the same reason.
- The `tls` and `ping` flags the handlers read are not part of `Operations.Inputs`; TLS and pinging are not modelled.
- The UTF-8 decoding of each chunk in both `stream_read` loops: bytes are kept as bytes. The source's `from_utf8(..).unwrap()` panics when a chunk boundary splits a multi-byte character; the model does not.
- The clocks (`epoch()`, `Instant::now()`): times are `nat` parameters, epoch seconds for claims and milliseconds for fail counters. Registry.Claim takes one `now` for the whole scan, where the source reads `epoch()` afresh for each entry of the key (src/service.rs:596-597).
- Registry.Add: the reconnection branch (src/service.rs:467-506) is not modelled, because it interleaves a queue search with sleeps and clock checks. The connect-retry loop is reduced to a `connected` flag. The sequence counter is an unbounded `nat`, so u64 overflow is not modelled.
- Registry.Claim: requires every claim stamp under the key to be not after `now`, because the source's u64 subtraction panics or wraps otherwise.
- EventMonitor.Work: carries the same stamp requirement as `Registry.Claim`; `EventMonitor.RemoveDeadKeepsStamps` and `Registry.RmvKeepsStamps` show that a pass keeps it.
- Events.Increment: `fail_count` is an unbounded `int`, so i32 overflow is not modelled; it cannot be reached in under 2^31 intervals.
- Events.Monitor: the ping branch (src/service.rs:241-247) is left out because it depends on `Instant` subtraction. The panic when a heartbeat has neither a stream nor a client cannot be expressed, since the datatype always has one of the two.
- Utils.OnlyOrError: the panic for lengths other than 1 is a precondition.
- Operations: `list_ips`, `listen`, `collect` and `send_msg`, and the server closures and TCP loops of `publish` and `claim`, are network plumbing. Only the listing, the payloads and the retry counters are modelled.
- Operations.PublishPayload and Operations.ClaimPayload: the `ping` field both set (src/operations.rs:305, src/operations.rs:591) does not exist in `Payload` (src/service.rs:31-51) and is not modelled.
- The request and heartbeat handlers of src/service.rs (`request_handler`, `heartbeat_handler_helper`, `ping_heartbeat`, `heartbeat_handler`), `State::print`, `serialize` and `deserialize`: network handlers and printing.
- Network.GetLocalIps: the host's interface list is a parameter in place of `datalink::interfaces()`.
- ApiBuilder.HandleListInterfaces: the two name lists come from a parameter. The source calls an `operations::get_interfaces` that operations.rs does not define.
- The serde_json failure branch of `handle_list_interfaces` and `handle_list_ips`: serialising a map of strings cannot fail.
- ApiBuilder.HandlePublish: the source discards the result of the spawned publish future, so it is not modelled. The response is fixed once publish is launched.
- `cli::init` (the clap argument table) is library configuration: `parse` takes the arguments as optional fields.
- PolySample.ChkNorm: requires no coefficient to be -2^31. The source assumes reduced inputs; for -2^31 the branch-free absolute value overflows.
- PolySample.Challenge: the SHAKE256 stream is an input sequence. Running out of bytes returns `None` where the source squeezes another block; a stream with τ position bytes all at most N−τ is guaranteed a result. The contract states the weight and the trits, not which positions the shuffle picks.
- PolySample.RejUniform and PolySample.RejEta: the outer loops of `poly_uniform`, `poly_uniform_eta` and `poly_uniform_gamma1` need SHAKE and are not modelled.
- `poly_reduce`, `poly_caddq`, `poly_ntt`, `poly_invntt_tomont`, `poly_pointwise_montgomery`, `poly_power2round`, `poly_decompose`, `poly_make_hint` and `poly_use_hint` of poly.c: each is a loop around a routine of reduce.c, ntt.c or rounding.c, which are not part of this model.
- `poly_add`, `poly_sub`, `poly_shiftl` and `polyw1_pack` of poly.c: plain coefficient loops that are not part of the modelled packing and sampling core.
- `OPENSSL_cleanse` in poly.c: memory wiping, with no effect on the values computed.

## Findings

| source | as written | input that shows it | evidently intended | confidence | as-written member | corrected member |
|---|---|---|---|---|---|---|
| src/service.rs:357-368 | A client re-claimed after its service died is requeued with `service_id: hb.service_id`, the dead service's id. The claimed payload `p` is never used. | Service 1 has been removed and the loop tracks id 1. A client (id 2, service_id 1) is handled while service 3 is free under the same key. | The comment says "new service_id": the client should take the claimed service's `service_id`, so it stops being due for re-claim. | medium, not executed | EventMonitor.ReclaimAsWrittenStaysDue | EventMonitor.ReclaimedMovesOn |
| src/api_builder.rs:355-363 | `handle_collect` sets the error text when `collect` fails, then unconditionally overwrites the body with "Successful request to collect". | Any valid host, port and key whose collect returns an error. | The error text should be kept, as `handle_send` does at lines 437-443. | high, not executed | ApiBuilder.CollectFailureReportedAsSuccess | ApiBuilder.HandleCollect |
