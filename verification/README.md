# Verified model of the controlled-egress sandbox

This project models the hand-written protocol and state-machine code of the
controlled development machine in Dafny and proves what it is meant to keep.
`dafny verify dfyconfig.toml` checks all of it.

| Part | Files | What is modelled |
|---|---|---|
| DNS messages | `DnsNames`, `DnsMessages`, `DnsAnswers`, `DnsTtlCap`, `DnsClearNames`, `DnsBuild`, `DnsText`, `DnsFrames` | name decompression, query and response validation, alias chase, service hints, building answers, rewriting cached answers |
| DNS gateway state | `Leases`, `ResponseCache`, `GatewayMachine`, `GatewayReplies`, `GatewayRuns` | the lease registry, the least-recently-used cache of live answers, and every interleaving of requests, upstream failures, audit failures and clock steps |
| Relays | `RelayCore`, `ExitLease`, `RelayLoops`, `RelayProofs`, `RelayEnds`, `RelayProgress`, `AuditLatch`, `ExitMonitor` | the ungated and the lease-gated duplex byte relay, the lease file, and the monitor that writes it |
| Review | `ReviewStore`, `ReviewHook` | the approval state machine, and the gateway hook that holds a request while operators and failing storage interleave |
| Bindings | `ConnectionBindings` | destination verification of concurrent requests on one connection |
| Procedures | `EgressHandoff`, `SessionPublication`, `Subnets` | relay handoff and session publication with a failure at every step, first-fit subnet allocation |

Loops and updates of the source are methods and classes, each proved equal to a
function of its input or old state; the lemmas are about those functions.

Conventions:

- A `ValueError`, `ReviewError` or similar is `None`, a `Failed` outcome or an
  `ok` that is false; the kinds of messages are not kept.
- Octets are integers below 256; masks and shifts are written as quotient and remainder.
- The public-address test is a parameter `pub`, an address is its packed octets.
- Wall-clock and monotonic times are exact. Lease and cache facts assume a
  clock that does not go back; a machine step of negative length does nothing.
- Files, sockets, `select`, the upstream resolver and the clock appear as values
  read once per use. A write may fail before or after it took effect.
- In `GatewayMachine` each locked section, clock reading, upstream call and audit
  write is one step of one request. Requests for the same name are not
  serialised here as the query locks do, so more interleavings are covered.

What the proofs show about the code that its documentation does not say:

- The fallback's rewriting keeps the meaning of a response when no decoded name
  reads an ID or time-to-live octet; a response whose answer owner points into
  its own time-to-live field is renamed by the cap (`CappingMayRenameTheAnswer`).
- `_read_name` has no 255-octet limit: a query with a longer name is accepted, and the
  static answer built for it is then refused by validation (`LongQueryIsRefused`).
- A hold can end with its record still open and no audit fault latched, in exactly
  three ways (`HoldSettlesExactly`): the policy is lost and the record is not closed;
  the deadline finds the record already approved, which stays approved while the
  request is answered as timed out (`TimeOutLeavesApproval`), or authorized; the
  client has left and the record is authorized.
- A client that disconnects ends the hold without a blocked response; the
  statement about blocked exits is for a client seen connected at every poll.
- The handoff relies on the first ruleset commit being all or nothing
  (`EgressHandoff.Handoff.Run` states the exact exception).
- A reservation that fails after taking effect stays behind, and nothing else of a
  failed import does (`SessionPublication.Import.Run`).
- Asking for zero subnets always fails (`AllocateSubnets`).

## Model

| member | source | states |
|---|---|---|
| `DnsNames.DecodedName` | src/controlled_dev_machine/dns_gateway.py:330-368 | ends on every octet string and returns the name the pointer-following relation gives, or nothing for cycles, malformed octets and more than 255 octets |
| `DnsNames.DecodeIsSpelling` | src/controlled_dev_machine/dns_gateway.py:330-368 | a name decodes to a text and next offset exactly when RFC 1035 section 4.1.4, read recursively, spells labels with that text within 255 octets |
| `DnsNames.PointerReads` | src/controlled_dev_machine/dns_gateway.py:341-351 | a pointer decodes to the name at its target, wherever that is, and reading resumes two octets on |
| `DnsNames.Revisit` | src/controlled_dev_machine/dns_gateway.py:336-340 | a name that meets an offset twice reaches no root, so stopping at a visited offset loses nothing |
| `DnsNames.LabelCount` | src/controlled_dev_machine/dns_gateway.py:361-368 | labels fit twice over in the octets of the name, so 255 octets bound the labels by 127 |
| `DnsNames.NextInside` | src/controlled_dev_machine/dns_gateway.py:330-368 | the offset after a decoded name is past its start and inside the packet |
| `DnsNames.DecodeFrame` | src/controlled_dev_machine/dns_gateway.py:330-368 | changing octets outside a name's footprint changes neither the name nor the footprint |
| `DnsNames.NameOctetsInside` | src/controlled_dev_machine/dns_gateway.py:330-368 | decoding reads inside the packet |
| `DnsNames.ReadName` | src/controlled_dev_machine/dns_gateway.py:302-323 | returns the uncompressed name of at most 127 labels, or nothing |
| `DnsNames.PlainAgreesWithDecode` | src/controlled_dev_machine/dns_gateway.py:302-368 | what the uncompressed reader accepts the decoder reads alike up to 255 octets and refuses beyond |
| `DnsNames.DecodeAgreesWithPlain` | src/controlled_dev_machine/dns_gateway.py:302-368 | what decodes without a pointer the uncompressed reader reads alike |
| `DnsText.OneLabelText` | src/controlled_dev_machine/dns_gateway.py:355-364 | a label reads octet by octet, with exactly the octets 65 to 90 lowered |
| `DnsText.TextConcat` | src/controlled_dev_machine/dns_gateway.py:356-358 | the text of a name joins its labels with dots, wherever it is split |
| `DnsText.TextTellsLabels` | src/controlled_dev_machine/dns_gateway.py:355-358 | for labels without a dot in them two names have the same text exactly when they have the same labels up to ASCII case |
| `DnsText.DecodeByFirstOctet` | src/controlled_dev_machine/dns_gateway.py:330-368 | the meaning of every first octet: the end, a label of 1 to 63 ASCII octets and the rest within 253 characters, a pointer by its two octets, or an error |
| `DnsText.PlainNameExact` | src/controlled_dev_machine/dns_gateway.py:302-323 | the uncompressed reader returns exactly the labels, at most 127, whose encoding stands at the offset |
| `DnsMessages.ReadQuestion` | src/controlled_dev_machine/dns_gateway.py:247-260 | returns the single question of a packet, or nothing |
| `DnsMessages.CheckedQuery` | src/controlled_dev_machine/dns_gateway.py:263-299 | accepts exactly class-IN A, AAAA, SVCB and HTTPS queries with at most one empty EDNS record filling the packet |
| `DnsFrames.QuestionExact` | src/controlled_dev_machine/dns_gateway.py:247-260 | a question is read exactly where QDCOUNT is one and the encoding of 1 to 127 labels, a type and a class stand after the header |
| `DnsFrames.QueryExact` | src/controlled_dev_machine/dns_gateway.py:263-299 | a query is acceptable exactly by its type, class, flag and count octets and by ending after the question or after one empty EDNS record, octet by octet |
| `DnsMessages.ReadAddresses` | src/controlled_dev_machine/dns_gateway.py:227-242 | splits a hint value into public addresses of one width, or refuses |
| `DnsMessages.CheckedSvcbHints` | src/controlled_dev_machine/dns_gateway.py:210-244 | returns all address hints in order, or nothing on malformed parameters or a non-public hint |
| `DnsAnswers.HintsPublic` | src/controlled_dev_machine/dns_gateway.py:210-244 | hints are accepted exactly when they parse and every one is public |
| `DnsFrames.ParamsExact` | src/controlled_dev_machine/dns_gateway.py:217-244 | parameters are accepted exactly when their octets encode keys, lengths and values with whole, public hints, which are given in order |
| `DnsFrames.ChunksOf4` | src/controlled_dev_machine/dns_gateway.py:227-233 | IPv4 hints are cut every 4 octets |
| `DnsFrames.ChunksOf16` | src/controlled_dev_machine/dns_gateway.py:234-242 | IPv6 hints are cut every 16 octets |
| `DnsMessages.ReadRecords` | src/controlled_dev_machine/dns_gateway.py:99-130 | walks the records of all three sections and accepts only when they fill the message |
| `DnsMessages.RecordsContiguous` | src/controlled_dev_machine/dns_gateway.py:99-130 | accepted records lie end to end from the question |
| `DnsFrames.RecordExact` | src/controlled_dev_machine/dns_gateway.py:107-129 | a record is its owner name, type, class, time-to-live, length and payload, each at its place |
| `DnsFrames.AllRecordsExact` | src/controlled_dev_machine/dns_gateway.py:99-130 | the records are exactly as many as the three counts say, each starting where the one before ends, in the section its place says, to the end of the message |
| `DnsFrames.WellFormedExact` | src/controlled_dev_machine/dns_gateway.py:135-170 | what makes a record of each type acceptable |
| `DnsFrames.ContributionExact` | src/controlled_dev_machine/dns_gateway.py:182-198 | what a record adds to the addresses of a query of each type |
| `DnsFrames.GatherSnoc` | src/controlled_dev_machine/dns_gateway.py:182-198 | addresses are gathered record by record, in order |
| `DnsMessages.SortRecords` | src/controlled_dev_machine/dns_gateway.py:132-170 | one pass gives exactly the aliases, addresses and hints of well-formed class-IN records, or refuses |
| `DnsMessages.ChaseAliases` | src/controlled_dev_machine/dns_gateway.py:172-180 | follows aliases to the owner where the chain stops, or refuses when it never does |
| `DnsMessages.CheckedResponse` | src/controlled_dev_machine/dns_gateway.py:73-207 | returns what the records of a matching frame grant, for every packet and query |
| `DnsFrames.ResponseExact` | src/controlled_dev_machine/dns_gateway.py:73-207 | a response is accepted exactly when its ID, flag octets and question fit the query, its records fill it and are well formed, and its aliases neither compete nor cycle |
| `DnsFrames.HeaderExact` | src/controlled_dev_machine/dns_gateway.py:78-98 | the header and question fit exactly when the ID octets are the query's, octet 2 has QR set and opcode and TC zero, octet 3 has Z and RCODE zero, and the question is the same |
| `DnsAnswers.AliasesExact` | src/controlled_dev_machine/dns_gateway.py:151-162 | the alias map has each owner's one target and smallest time-to-live, and fails exactly when two targets compete |
| `DnsAnswers.ChaseEndsOrCycles` | src/controlled_dev_machine/dns_gateway.py:172-180 | the chase ends exactly when it meets no owner twice |
| `DnsAnswers.RejectionExact` | src/controlled_dev_machine/dns_gateway.py:132-207 | well-formed records are refused exactly for competing aliases or a cycle reachable from the query name |
| `DnsAnswers.NonPublicRejects` | src/controlled_dev_machine/dns_gateway.py:132-170 | one non-public address in any section, for any owner, rejects the whole response |
| `DnsAnswers.DistinctExact` | src/controlled_dev_machine/dns_gateway.py:202-207 | duplicates go and first occurrences keep their order |
| `DnsAnswers.AcceptedResponseGrants` | src/controlled_dev_machine/dns_gateway.py:73-207 | an accepted response grants exactly the public addresses at the end of an alias path from the query name, with the smallest time-to-live of path and records, and its records fill the message |
| `DnsTtlCap.CapResponseTtls` | src/controlled_dev_machine/dns_gateway.py:381-404 | edits a copy in place to the response with every non-OPT time-to-live capped, or refuses |
| `DnsTtlCap.CappedExact` | src/controlled_dev_machine/dns_gateway.py:381-404 | the rewrite keeps the length, writes exactly the capped values and touches only time-to-live fields of non-OPT records |
| `DnsTtlCap.RewriteAccepted` | src/controlled_dev_machine/dns_gateway.py:635-658 | a rewritten response has the same records and the same answer under the capped time-to-live for every query asking the same |
| `DnsTtlCap.FallbackKeepsMeaning` | src/controlled_dev_machine/dns_gateway.py:635-658 | with names clear of edited octets, ID replacement and capping keep an accepted response accepted with the same name, type and addresses |
| `DnsClearNames.ElementOctets` | src/controlled_dev_machine/dns_gateway.py:341-365 | reading a name reads its first label or pointer and what that leads to, nothing else |
| `DnsClearNames.OrdinaryByStep` | src/controlled_dev_machine/dns_gateway.py:341-365 | a name is so read when its first label or pointer lies in such octets and leads to a name that is, which covers labels before a pointer and pointers to suffixes of earlier names |
| `DnsClearNames.OrdinaryIsClear` | src/controlled_dev_machine/dns_gateway.py:635-658 | a response whose names are all read from question, owner and payload octets, wherever pointers lead, has clear names, so the fallback keeps its meaning |
| `DnsClearNames.StaticIsClear` | src/controlled_dev_machine/dns_gateway.py:873-886 | every accepted static answer has clear names |
| `DnsClearNames.CappingMayRenameTheAnswer` | src/controlled_dev_machine/dns_gateway.py:635-658 | a concrete response without clear names that loses its only address when capped, yet is still accepted |
| `DnsBuild.StaticResponse` | src/controlled_dev_machine/dns_gateway.py:873-886 | builds the static answer of every acceptable query |
| `DnsBuild.StaticRoundTrip` | src/controlled_dev_machine/dns_gateway.py:873-886 | validating a static answer gives back name, type, that address and 60 seconds; no address for the other family; refused for a non-public address or a name over 255 octets |
| `DnsBuild.LongQueryIsRefused` | src/controlled_dev_machine/dns_gateway.py:873-886 | a concrete query with a name of 321 octets that is acceptable and whose static answer validation refuses for every IPv4 address |
| `DnsFrames.StaticOctets` | src/controlled_dev_machine/dns_gateway.py:873-886 | every octet of a static answer |
| `DnsBuild.Servfail` | src/controlled_dev_machine/dns_gateway.py:371-378 | builds the failure reply, empty when no question can be read |
| `DnsBuild.ServfailIsNoAnswer` | src/controlled_dev_machine/dns_gateway.py:371-378 | a failure reply repeats ID and question and is never accepted as an answer to any query |
| `DnsFrames.ServfailOctets` | src/controlled_dev_machine/dns_gateway.py:371-378 | every octet of a failure reply |
| `Leases.LeaseRegistry.Grant` | src/controlled_dev_machine/dns_gateway.py:507-537 | grants, refuses or reports an invalid request, and gives the whole new lease map |
| `Leases.LeaseRegistry.Authorize` | src/controlled_dev_machine/dns_gateway.py:539-543 | answers with the identifier of an unexpired lease for exactly that hostname and address |
| `Leases.LeaseRegistry.Purge` | src/controlled_dev_machine/dns_gateway.py:545-551 | drops exactly the lapsed leases |
| `Leases.WithAllExact` | src/controlled_dev_machine/dns_gateway.py:533-537 | a grant covers its own hostname and addresses and nothing else |
| `Leases.LeaseIdExact` | src/controlled_dev_machine/dns_gateway.py:519-523 | an identifier is 32 characters, each of them a lower-case hexadecimal digit |
| `Leases.GrantThenAuthorize` | src/controlled_dev_machine/dns_gateway.py:507-551 | a granted pair is authorized until it lapses and every other pair keeps what it had |
| `ResponseCache.LiveCache.CachedResponse` | src/controlled_dev_machine/dns_gateway.py:743-753 | purges, looks up and marks the entry as most recently used |
| `ResponseCache.LiveCache.CacheResponse` | src/controlled_dev_machine/dns_gateway.py:716-741 | stores only answers with addresses and time to live, evicting the least recently used |
| `ResponseCache.LiveCache.PurgeResponses` | src/controlled_dev_machine/dns_gateway.py:755-760 | drops exactly the expired entries |
| `ResponseCache.EvictExact` | src/controlled_dev_machine/dns_gateway.py:740-741 | eviction keeps the newest entry, fits the limit, and drops only entries overtaken by that many other keys |
| `ResponseCache.RunFaithful` | src/controlled_dev_machine/dns_gateway.py:716-760 | every run of stores and lookups keeps the cache faithful to the plain map of latest answers |
| `ResponseCache.CacheIsLatestAnswers` | src/controlled_dev_machine/dns_gateway.py:716-760 | over every run a hit is the last stored unexpired answer, a miss of an unexpired answer had at least the limit of other keys used since, and a store fits the limit |
| `GatewayMachine.NextKeepsInv` | src/controlled_dev_machine/dns_gateway.py:606-708 | every step of every request keeps leases grounded in accepted live answers and in the audit log |
| `GatewayMachine.RunKeepsInv` | src/controlled_dev_machine/dns_gateway.py:606-708 | the same in every reachable state |
| `GatewayMachine.RunDelivers` | src/controlled_dev_machine/dns_gateway.py:642-663 | in every run each response a request works on was delivered by an upstream step to that very request |
| `GatewayMachine.RunProcesses` | src/controlled_dev_machine/dns_gateway.py:642-698 | in every run each recorded live answer was processed, at its recorded time, by a step of a request to which an earlier step had delivered it |
| `GatewayMachine.AuthorizedIsLiveAndAudited` | src/controlled_dev_machine/dns_gateway.py:606-753 | an authorized address was in an accepted answer for that hostname that one step brought from upstream to a request and a later step of that request processed; it is named in an audit record with the lease, and lapses at that processing time plus min(ttl, max) plus grace |
| `GatewayMachine.GrantFollowsAudit` | src/controlled_dev_machine/dns_gateway.py:690-702 | the audit record of a lease is in the log before the step that grants it |
| `GatewayMachine.ReuseRepeatsLiveExpiry` | src/controlled_dev_machine/dns_gateway.py:652-702 | in every run a lease set on the cached path lapses exactly when some live answer for that hostname, with that address, processed by an earlier step, lapses |
| `GatewayMachine.ReuseServesCachedAnswer` | src/controlled_dev_machine/dns_gateway.py:635-658 | a reuse with names clear and a second left reaches its audit with the live answer's addresses at time-to-live zero |
| `GatewayReplies.BeginExact` | src/controlled_dev_machine/dns_gateway.py:613-627 | an acceptable query is answered statically, resolved when the policy allows its name, and refused otherwise, each with its own audit record |
| `GatewayReplies.OnlyAdmittedNames` | src/controlled_dev_machine/dns_gateway.py:616-627 | over every run only allowed, non-static names are asked upstream, cached or leased |
| `GatewayReplies.RepliesAreJustified` | src/controlled_dev_machine/dns_gateway.py:598-708 | over every run the reply to a packet is the failure reply or static answer for it, an accepted response delivered to that very request, or an accepted repetition with time-to-live zero of a processed live answer to the same question |
| `GatewayRuns.LiveRunGrants` | src/controlled_dev_machine/dns_gateway.py:630-702 | an allowed query without a fresh cache entry, whose answer is accepted and usable and whose audit record is written, is answered with that response and has every address authorized under the audited lease until min(ttl, max) plus grace |
| `GatewayRuns.FreshRun` | src/controlled_dev_machine/dns_gateway.py:630-639 | a cache entry with more than the grace left is reused without asking upstream |
| `GatewayRuns.LostRun` | src/controlled_dev_machine/dns_gateway.py:641-650 | when upstream fails an unexpired entry is reused, and without one the request fails |
| `GatewayRuns.RevalidateExact` | src/controlled_dev_machine/dns_gateway.py:651-657 | a cached response passes exactly when accepted under the packet's ID, with a whole second left, and accepted again with every time-to-live zero |
| `GatewayRuns.ReuseRunGrants` | src/controlled_dev_machine/dns_gateway.py:652-702 | a reuse that passes and is audited is answered with the capped response and grants the cached addresses until the entry expires |
| `GatewayRuns.UnusableRun` | src/controlled_dev_machine/dns_gateway.py:659-702 | a live answer without addresses or with a zero time-to-live is audited without a lease identifier and returned, neither cached nor leased |
| `GatewayRuns.StepFailsExactly` | src/controlled_dev_machine/dns_gateway.py:641-705 | a local step fails exactly on a lost upstream without a live entry, a refused response, a failed revalidation or an entry that expired during the audit write; the reply is then SERVFAIL and nothing is granted, and the failure record carries the name and, once drawn, the lease identifier |
| `GatewayRuns.AuditFails` | src/controlled_dev_machine/dns_gateway.py:690-708 | a pending record that cannot be written keeps the answer from the client and grants nothing; a last record that cannot be written leaves no reply |
| `GatewayRuns.ClosingReplies` | src/controlled_dev_machine/dns_gateway.py:703-714 | a last record that is written is the request's own, and then the client gets its reply |
| `GatewayRuns.AuthorizationStands` | src/controlled_dev_machine/dns_gateway.py:523-553 | but for the passage of time and a grant of that very pair, no step of any request and no lookup changes what is authorized |
| `RelayLoops.DuplexRelay.RelaySockets` | src/controlled_dev_machine/proxy_bridge.py:28-85 | the ungated loop over any run of passes equals its specification |
| `RelayLoops.DuplexRelay.ShutDrained` | src/controlled_dev_machine/proxy_bridge.py:45-50 | shuts exactly the sides whose input ended and whose buffer is empty |
| `RelayLoops.DuplexRelay.SendTo` | src/controlled_dev_machine/proxy_bridge.py:61-68 | sends a prefix of the side's buffer and keeps the rest, or ends on a closed or broken socket |
| `RelayLoops.DuplexRelay.ReceiveFrom` | src/controlled_dev_machine/proxy_bridge.py:70-78 | appends what it reads to the other side's buffer or records the end of a stream |
| `RelayLoops.DuplexRelay.SendReady` | src/controlled_dev_machine/proxy_bridge.py:60-68 | serves the writable sides in order until one ends the relay |
| `RelayLoops.DuplexRelay.ReceiveReady` | src/controlled_dev_machine/proxy_bridge.py:69-78 | serves the readable sides in order until one ends the relay |
| `RelayProofs.PlainRunDelivers` | src/controlled_dev_machine/proxy_bridge.py:28-85 | the ungated loop loses, duplicates and reorders nothing, for every buffer limit |
| `RelayProgress.PlainPassMoves` | src/controlled_dev_machine/proxy_bridge.py:43-78 | a pass that goes on shuts exactly the drained sides, sends what each reported ready side takes from the front of its buffer, reads from each reported ready source with room, and restarts the idle clock at the last octets moved |
| `RelayProgress.PlainEndExact` | src/controlled_dev_machine/proxy_bridge.py:51-55 | "eof" exactly when both inputs ended and both buffers drained, a timeout otherwise exactly when the idle allowance is used up |
| `RelayProgress.PlainFailsExactly` | src/controlled_dev_machine/proxy_bridge.py:56-80 | a pass neither done nor late ends as "closed" exactly when a served socket is broken or takes nothing of its buffer |
| `RelayProgress.PlainServedDelivers` | src/controlled_dev_machine/proxy_bridge.py:43-78 | a run that always serves both sides ends in "eof" with both streams delivered, within two passes per octet and three more |
| `RelayLoops.GatedRelay.CheckLease` | src/controlled_dev_machine/degraded_egress.py:267-290 | the check at the top of a pass equals its specification and moves no octet |
| `RelayLoops.GatedRelay.CanForwardExisting` | src/controlled_dev_machine/degraded_egress.py:260-265 | the check before each socket call |
| `RelayLoops.GatedRelay.SendChecked` | src/controlled_dev_machine/degraded_egress.py:310-320 | checks before each send and stops serving at the first refusal |
| `RelayLoops.GatedRelay.ReceiveChecked` | src/controlled_dev_machine/degraded_egress.py:321-332 | checks before each read and stops serving at the first refusal |
| `RelayLoops.GatedRelay.OnePass` | src/controlled_dev_machine/degraded_egress.py:267-332 | one pass, the lease check before each socket call included, equals its specification |
| `RelayLoops.GatedRelay.RelayBytes` | src/controlled_dev_machine/degraded_egress.py:248-332 | the gated loop over any run of passes equals its specification |
| `RelayProofs.PassKeepsBooks` | src/controlled_dev_machine/degraded_egress.py:267-332 | one pass keeps read octets equal to sent octets plus buffer, never sends to a shut side and never reopens one |
| `RelayProofs.GatedRunDelivers` | src/controlled_dev_machine/degraded_egress.py:248-332 | over every run buffers stay bounded, a shut side received its whole stream, and "eof" means both streams were delivered in full |
| `RelayProgress.GatedPassMoves` | src/controlled_dev_machine/degraded_egress.py:291-332 | a pass that goes on moves the same on the sides that may forward and come before no refusal, with the idle clock restarted likewise |
| `RelayProgress.GatedEndExact` | src/controlled_dev_machine/degraded_egress.py:299-306 | past the lease check, "eof" exactly when all is done, a timeout otherwise exactly when the idle or session allowance is used up |
| `RelayProgress.GatedFailsExactly` | src/controlled_dev_machine/degraded_egress.py:307-332 | past the lease check, a pass neither done nor late ends exactly when a served socket that may forward takes nothing ("closed") or is broken (an exception) |
| `RelayProgress.TopGoesOn` | src/controlled_dev_machine/degraded_egress.py:268-290 | the lease check lets a pass go on exactly with an unlatched audit and a lease valid, or not revoked within a non-zero grace, each change of mind audited; each refusal is named after its first cause |
| `RelayProgress.TopClocks` | src/controlled_dev_machine/degraded_egress.py:268-290 | a sure lease restarts the grace clock and ends the uncertainty, whose start then bounds the age of later leases; otherwise the grace clock stands still and the uncertainty dates from its first pass |
| `RelayProgress.GatedServedDelivers` | src/controlled_dev_machine/degraded_egress.py:267-332 | a served run whose lease and audit let every pass through ends in "eof" with both streams delivered |
| `RelayCore.RecvKeepsOk` | src/controlled_dev_machine/degraded_egress.py:307-332 | asking a side with buffer room reads at least one octet unless its stream is over, so an empty read is a real end |
| `RelayProofs.SimulatingPass` | src/controlled_dev_machine/degraded_egress.py:267-332 | every gated pass that is neither stopped by the gate nor by the session deadline is a pass of the ungated loop from the same state |
| `RelayProofs.MovedUnderLease` | src/controlled_dev_machine/degraded_egress.py:260-332 | an octet moves only right after a check that saw an unlatched audit and a lease valid, or not revoked within grace |
| `RelayProofs.TopKeepsGrace` | src/controlled_dev_machine/degraded_egress.py:267-290 | the grace clock restarts only on a lease checked since the failure, and no pass goes on after the grace |
| `RelayProofs.UncertaintyIsBounded` | src/controlled_dev_machine/degraded_egress.py:267-290 | throughout an uncertain period the last verification and the failure time stand still and every pass is within grace of it |
| `RelayProofs.BoundNeverFalls` | src/controlled_dev_machine/degraded_egress.py:267-290 | the oldest acceptable lease check never moves back over a run |
| `RelayProofs.RecoveryOutdatesOldLeases` | src/controlled_dev_machine/degraded_egress.py:267-290 | after a recovery any lease checked before that failure reads as revoked for the rest of the run |
| `AuditLatch.Audit.Write` | src/controlled_dev_machine/degraded_egress.py:115-127 | refuses once latched, appends unless storage lost the line, and latches on any failure |
| `AuditLatch.FailureLatches` | src/controlled_dev_machine/degraded_egress.py:109-127 | over every run of writes the log holds what came before the first failure, with that line at most, and stays latched |
| `AuditLatch.LogKeepsLatch` | src/controlled_dev_machine/degraded_egress.py:109-127 | looks at one log, in order, see the latch set for good once they see it set |
| `AuditLatch.FailureStopsRelay` | src/controlled_dev_machine/degraded_egress.py:260-332 | a relay that saw the latch of the audit log set ends at the latest at the top of its next pass, having moved nothing since |
| `RelayEnds.PotentialFalls` | src/controlled_dev_machine/degraded_egress.py:291-332 | passes that each do work or let time go by use up weighted work and idle time one by one |
| `RelayEnds.GatedRunEnds` | src/controlled_dev_machine/degraded_egress.py:291-332 | a run on finite streams with a clock that moves on when nothing else does has a bounded number of passes |
| `RelayEnds.PlainRunEnds` | src/controlled_dev_machine/proxy_bridge.py:43-78 | the ungated loop ends within the same bound, for every buffer limit |
| `ExitLease.LeaseExact` | src/controlled_dev_machine/degraded_egress.py:208-245 | exactly which documents read as valid, expired and probe-failed, for this exit, parent and boot |
| `ExitLease.ForeignIsRevoked` | src/controlled_dev_machine/degraded_egress.py:224-234 | a document for another exit, parent or boot reads as revoked |
| `ExitMonitor.Refresh` | src/controlled_dev_machine/exit_monitor.py:88-133 | publishes one failing record per failed probe in completion order and then the final record |
| `ExitMonitor.WarningsExact` | src/controlled_dev_machine/exit_monitor.py:112-129 | before the final record exactly the probes that failed or saw another address give a failing record each, in completion order, over the outcomes so far and timed by that completion |
| `ExitMonitor.FinalIsUnanimous` | src/controlled_dev_machine/exit_monitor.py:130-133 | the final record is ok exactly when every probe succeeded and saw the expected exit, names its reason, lasts the configured time, and reads as valid only then and while current |
| `ExitMonitor.FailureIsNeverValid` | src/controlled_dev_machine/exit_monitor.py:112-133 | once a probe of the round has failed no published record of it reads as valid |
| `ExitMonitor.MismatchIsRevoked` | src/controlled_dev_machine/exit_monitor.py:112-133 | every record made after a probe saw another address reads as revoked |
| `ExitMonitor.ErrorsAreUncertainty` | src/controlled_dev_machine/exit_monitor.py:112-133 | a record whose failures are all errors reads as probe-failed |
| `ExitMonitor.NotReadyIsRevoked` | src/controlled_dev_machine/exit_monitor.py:105-115 | the record of a runtime that is not ready reads as revoked for every relay, at any time |
| `ExitMonitor.MismatchStopsRelay` | src/controlled_dev_machine/degraded_egress.py:267-277 | a relay reading a record made after a mismatch stops at the top of that pass, having moved nothing |
| `ExitMonitor.ErrorsKeepRelayWithinGrace` | src/controlled_dev_machine/degraded_egress.py:267-290 | a relay reading a record of errors alone goes on exactly while within a non-zero grace |
| `ReviewStore.RequestStore.EnqueueRequest` | src/controlled_dev_machine/review.py:75-173 | publishes a new pending record or fails, leaving no record unless a failed publication could not be taken back |
| `ReviewStore.RequestStore.ApproveOnce` | src/controlled_dev_machine/review.py:203-225 | approves a pending record before its review deadline for a bounded time, expires an overdue one, or fails |
| `ReviewStore.RequestStore.RejectRequest` | src/controlled_dev_machine/review.py:227-242 | blocks a pending record, expires an overdue one, or fails |
| `ReviewStore.RequestStore.CloseRequest` | src/controlled_dev_machine/review.py:244-260 | blocks an undecided record or fails |
| `ReviewStore.RequestStore.ConsumeApproval` | src/controlled_dev_machine/review.py:262-294 | authorizes an approved record within its deadline under matching digests, expires a late one, or fails |
| `ReviewStore.RequestStore.RecordOutcome` | src/controlled_dev_machine/review.py:375-393 | gives an authorized record its outcome, with the name of the outcome for an empty reason, or fails |
| `ReviewStore.RequestStore.MarkClientDisconnected` | src/controlled_dev_machine/review.py:311-325 | closes an undecided record or fails |
| `ReviewStore.RequestStore.ExpireAllDue` | src/controlled_dev_machine/review.py:327-358 | expires due records in order until a write fails |
| `ReviewStore.ApplyProgress` | src/controlled_dev_machine/review.py:203-417 | every operation under every storage failure moves records only up in rank, keeps identities, and leaves a decision deadline exactly on approved records |
| `ReviewStore.ApprovalIsTimely` | src/controlled_dev_machine/review.py:203-225 | a record becomes approved only before its review deadline and for at most 300 seconds |
| `ReviewStore.AuthorizationIsConsumed` | src/controlled_dev_machine/review.py:262-294 | a record becomes authorized only by consuming a live approval with matching digests |
| `ReviewStore.ApprovalExact` | src/controlled_dev_machine/review.py:203-225 | on working storage an approval succeeds exactly for a timely pending record with a reason and 1 to 300 seconds, and an overdue one is expired |
| `ReviewStore.RejectionExact` | src/controlled_dev_machine/review.py:227-242 | on working storage a rejection blocks exactly a timely pending record given a reason, and an overdue one is expired |
| `ReviewStore.ClosingExact` | src/controlled_dev_machine/review.py:244-325 | on working storage closing and disconnection close exactly the undecided records, with the whole new store |
| `ReviewStore.OutcomeExact` | src/controlled_dev_machine/review.py:375-393 | on working storage an outcome is recorded exactly on an authorized record, and it is the one given |
| `ReviewStore.EnqueueExact` | src/controlled_dev_machine/review.py:75-173 | on working storage a request is enqueued exactly for 1 to 3600 seconds, pending |
| `ReviewStore.ConsumptionExact` | src/controlled_dev_machine/review.py:262-294 | on working storage a consumption succeeds exactly for a live approval with both digests matching; a late one expires, a mismatched one stays |
| `ReviewStore.SweepExact` | src/controlled_dev_machine/review.py:327-358 | on working storage a sweep expires exactly the due records it visits, each with its own reason |
| `ReviewStore.OthersUntouched` | src/controlled_dev_machine/review.py:75-393 | every operation but the sweep leaves all other records alone |
| `ReviewStore.HistoryMovesUp` | src/controlled_dev_machine/review.py:203-417 | over every history a record only moves up in rank, so a terminal one never changes |
| `ReviewStore.EndedStays` | src/controlled_dev_machine/review.py:203-417 | over every history a blocked, expired, disconnected or finished request never changes again |
| `ReviewStore.AuthorizationHistory` | src/controlled_dev_machine/review.py:203-393 | every authorized or completed request was authorized exactly once, by a timely consumption of a timely approval, and has been past authorization ever since |
| `ReviewStore.AuthorizedAtMostOnce` | src/controlled_dev_machine/review.py:262-294 | no later step of a history authorizes a request again |
| `ReviewHook.GatewayHook.HoldRequest` | gateway/mitmproxy/cdm_addon.py:254-313 | the hold equals its specification whatever operators and storage do between calls |
| `ReviewHook.GatewayHook.PollRecord` | gateway/mitmproxy/cdm_addon.py:257-288 | one poll equals its specification |
| `ReviewHook.GatewayHook.RecoverFromError` | gateway/mitmproxy/cdm_addon.py:294-313 | the handler of store errors equals its specification |
| `ReviewHook.GatewayHook.LatchAuditFault` | gateway/mitmproxy/cdm_addon.py:97-100 | sets the audit fault and nothing else |
| `ReviewHook.RecoverRecordsOrLatches` | gateway/mitmproxy/cdm_addon.py:294-313 | the handler always blocks, and unless it latches the fault the record is closed |
| `ReviewHook.DispatchNeedsOwnConsume` | gateway/mitmproxy/cdm_addon.py:254-313 | a held request goes upstream exactly when a poll of this hook, with the client connected, reads an approval and consumes it itself, live, under the re-verified policy and for this very request; the store is then as that consumption left it |
| `ReviewHook.OtherExitsBlock` | gateway/mitmproxy/cdm_addon.py:254-313 | for a client seen connected at every poll every exit but a dispatch is a blocked response |
| `ReviewHook.PollExact` | gateway/mitmproxy/cdm_addon.py:257-288 | what a poll does with each state it reads, for connected and departed clients |
| `ReviewHook.TimeOutExact` | gateway/mitmproxy/cdm_addon.py:289-293 | at the deadline the answer is a timeout exactly when the record is readable and not pending, or its rejection is recorded |
| `ReviewHook.ClosingsExact` | gateway/mitmproxy/cdm_addon.py:295-306 | with nobody in between the handler blocks an undecided record and gives an authorized one an unknown outcome |
| `ReviewHook.HoldSettlesExactly` | gateway/mitmproxy/cdm_addon.py:254-313 | for every operator action and storage failure a hold dispatches, closes its record or latches the fault, except exactly when its last call finds the record authorized for a client that left, loses the policy without closing the record, or meets the deadline with the record approved or authorized |
| `ReviewHook.TimeOutLeavesApproval` | gateway/mitmproxy/cdm_addon.py:289-293 | an approval read only at the deadline is left approved while the request is answered as timed out |
| `ReviewHook.PolicyLossLeavesFaultAlone` | gateway/mitmproxy/cdm_addon.py:264-275 | a lost policy blocks the request with the fault as it was, and the record ends closed exactly when the closing takes effect or another process closed it before |
| `ReviewHook.GatewayHook.FinishRequest` | gateway/mitmproxy/cdm_addon.py:593-618 | the response and error hooks equal their specification |
| `ReviewHook.FinishRecordsOrLatches` | gateway/mitmproxy/cdm_addon.py:593-618 | a dispatched request gets one outcome on record or the fault is latched |
| `ReviewHook.FinishExact` | gateway/mitmproxy/cdm_addon.py:593-618 | with working storage and nobody in between an authorized request gets exactly the outcome given |
| `ConnectionBindings.ConnectionBindingRegistry.Find` | src/controlled_dev_machine/gateway_bindings.py:28-40 | finds the stored binding of a key |
| `ConnectionBindings.ConnectionBindingRegistry.Target` | src/controlled_dev_machine/gateway_bindings.py:42-47 | gives the address and port of the connection's first binding |
| `ConnectionBindings.ConnectionBindingRegistry.Remember` | src/controlled_dev_machine/gateway_bindings.py:70-74 | stores a binding in place or at the end, for that connection only |
| `ConnectionBindings.ConnectionBindingRegistry.BeginVerify` | gateway/mitmproxy/cdm_addon.py:326-392 | the part of verification before the lease lookup |
| `ConnectionBindings.ConnectionBindingRegistry.FinishVerify` | gateway/mitmproxy/cdm_addon.py:367-398 | the part after the lookup, which checks target and binding again |
| `ConnectionBindings.RunKeeps` | gateway/mitmproxy/cdm_addon.py:315-473 | every interleaving of requests, shared lookups and answers keeps the invariant of all connections |
| `ConnectionBindings.RunAnswers` | gateway/mitmproxy/cdm_addon.py:454-473 | in every run each collected lease identifier was the answer, at some step, to an open lookup of exactly that hostname and address |
| `ConnectionBindings.BindingsShareOneJustifiedTarget` | gateway/mitmproxy/cdm_addon.py:315-473 | all bindings of a connection share one address and port, and a domain's binding carries a lease identifier with which some step of the run answered a lookup of exactly that hostname and address |
| `ConnectionBindings.BoundIsAdmissible` | gateway/mitmproxy/cdm_addon.py:326-398 | over every run only requests to their original port, with agreeing names over https and a proper address are bound, each for exactly its host, address, port, scheme and SNI |
| `ConnectionBindings.ArriveExact` | gateway/mitmproxy/cdm_addon.py:326-369 | an arriving request is rejected exactly when inadmissible or off the connection's target; otherwise it is bound or waits on a lookup of its own hostname and address |
| `ConnectionBindings.ResumeExact` | gateway/mitmproxy/cdm_addon.py:370-398 | a resumed request is bound exactly when its lookup did not fail, the connection is still on its target, and there is a lease or a binding made meanwhile |
| `EgressHandoff.Host.AddTable` | src/controlled_dev_machine/egress_handoff.py:203-211 | a redirect is installed only when the stored manifest owns both relays and they are present |
| `EgressHandoff.Handoff.StartRelays` | src/controlled_dev_machine/egress_handoff.py:132-158 | creates, connects and starts the relays in order, remembering each one created, and succeeds exactly when every step does |
| `EgressHandoff.Handoff.Prepare` | src/controlled_dev_machine/egress_handoff.py:131-199 | reaches routing exactly when every earlier step succeeds, with both relays owned |
| `EgressHandoff.Handoff.Switch` | src/controlled_dev_machine/egress_handoff.py:200-219 | keeps redirects towards owned relays at every step and succeeds exactly when every step does |
| `EgressHandoff.Handoff.RollBack` | src/controlled_dev_machine/egress_handoff.py:220-231 | keeps relays once a namespace was switched, whatever the clean-up calls do, and removes new containers only otherwise |
| `EgressHandoff.Handoff.Run` | src/controlled_dev_machine/egress_handoff.py:130-232 | for every script of failures, redirects end towards owned relays and protected containers stay, except exactly when a torn first ruleset commit is followed by a rollback that takes a relay away |
| `EgressHandoff.StepsExact` | src/controlled_dev_machine/egress_handoff.py:130-219 | a handoff completes exactly when each of its steps succeeds, and its first commit is torn exactly when that commit alone fails, after taking effect, with everything before it done |
| `SessionPublication.Import.Reserve` | src/controlled_dev_machine/session_migration.py:353-358 | succeeds exactly when every final path is new, distinct and reservable; otherwise leaves only what it knows of, and one unknown reservation exactly when a reservation on a free path fails after taking effect |
| `SessionPublication.Import.Publish` | src/controlled_dev_machine/session_migration.py:360-365 | moves staged files onto reservations in order, always knowing every path made |
| `SessionPublication.Import.Undo` | src/controlled_dev_machine/session_migration.py:381-385 | removes exactly the paths made |
| `SessionPublication.Import.Run` | src/controlled_dev_machine/session_migration.py:277-395 | all or nothing: success publishes every target, failure gives back the old tree, plus one reservation exactly when that reservation failed after taking effect |
| `SessionPublication.PublishedExact` | src/controlled_dev_machine/session_migration.py:360-365 | published paths hold the file last staged for them and every other path is as before |
| `SessionPublication.ReservationsCovered` | src/controlled_dev_machine/session_migration.py:353-365 | publishing over the reservations leaves the same tree as publishing directly |
| `SessionPublication.EachPublishedOnce` | src/controlled_dev_machine/session_migration.py:360-365 | with distinct final paths every staged file is at its own path, earlier files stay and no reservation is left |
| `Subnets.AllocateSubnets` | src/controlled_dev_machine/runtime.py:1756-1773 | returns the lowest `count` free blocks and fails exactly when there are fewer or `count` is below one |
| `Subnets.FreeBelowExact` | src/controlled_dev_machine/runtime.py:1765-1768 | the free blocks are exactly those overlapping no occupied and no reserved network, in rising order |
| `Subnets.SelectedTaken` | src/controlled_dev_machine/runtime.py:1766-1770 | blocks selected earlier never stand in the way of a later candidate |
| `Subnets.AllocationIsLowest` | src/controlled_dev_machine/runtime.py:1756-1773 | results are free blocks and leave no lower free block out |
| `Subnets.AllocationIsApart` | src/controlled_dev_machine/runtime.py:1766-1770 | a result overlaps nothing occupied, nothing reserved and no other result |
| `Subnets.OverlapsExact` | src/controlled_dev_machine/runtime.py:1767-1767 | two networks overlap exactly when they share an address |
| `Subnets.BlocksArePool` | src/controlled_dev_machine/runtime.py:1765-1766 | the blocks are aligned, have 16 addresses, and together hold exactly 172.28.0.0/14 |

## Left out

- FallbackKeepsMeaning: a sufficient condition on the octets that names read, checkable before the rewrite; it is not necessary, since an edit may leave an octet as it was or change only the case of a letter
- GatedRunEnds: assumes, as a premise about the clock, that a pass which moves nothing and sees no end of stream is followed by a later clock reading
- PlainRunEnds: makes the same assumption about the clock
- ReuseServesCachedAnswer: asks for a whole second of lifetime left, because the code rounds the remaining lifetime down and refuses zero
- Name labels are compared as the code compares them, as dot-joined lower-case text; label boundaries are not recovered from it
- Idle socket and TLS handling, DNS over HTTPS, UDP and TCP servers, the lease service's own socket protocol
- The query lock stripes and the thread limits of the DNS gateway
- JSON encoding of audit records, lease files, review records and manifests; digests, identifiers and tokens are given values
- The relay reads the audit latch as a value per look; `ReadsLog` says which write each look follows
- `DnsGateway._resolve` is modelled as the steps of a state machine over the same functions that specify the lease and cache methods, not as one method
- A failure to publish a monitor record, and the probes themselves
- Weak references to connections, disposal of their bindings, and `get_or_authorize`, which the gateway hook does not call
- What the review hook does before the hold: its header checks, policy rules and enqueueing, whose failure blocks the request; its WebSocket and streaming hooks and the fixture-only degraded destination path
- Review reasons are taken already stripped, and storage as a map rather than directories of files
- The handoff before its first manifest: inspection of the running containers, choice of addresses and snapshots of rules
- Directories created by a session import, staging, sanitizing, locking, and removals that fail during its clean-up
- Original destinations that are missing or are not IP addresses, which the hook refuses before anything modelled here
- Reading occupied networks from the host, which the allocator takes as a list
- Container, namespace, packet-capture and command-line code, configuration validation and shell rendering
