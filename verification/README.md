# Verification of sni-router

A Dafny model of the parts of sni-router that decide where traffic goes, and proofs about them.

- The HTTP/3 router: one object with a table of connections, an index of connection ids by length,
  an index of client addresses, an index of shared QUIC-LB paths, and a table of pending handshakes
  with a byte counter. `RouterTable` describes each of its steps on the tables alone, every lookup
  being a scan. `Router` is the object as it runs, with its indexes updated in place; each method is
  proved to do to the tables what the scanning step does. `RouterInvariant`, `RouterConservation`,
  `RouterPinning`, `RouterProvenance`, `RouterOrder`, `RouterDeadlines`, `RouterFailures`,
  `RouterDecodable`, `RouterHandshake`, `RouterConnections`, `RouterPaths` and
  `RouterEndToEnd` prove what holds of every step and over every run of them; `RouterFate` says whose
  connection or handshake a client step may touch, and `RouterExample` and `RouterOvertaking` have the
  concrete runs behind the claims that something does happen. In `RouterTable` what becomes of a client
  datagram is decided first, by a function of the table and one clock reading, and then carried out.
- Reassembly of the CRYPTO stream (`CryptoReassembly`), and exactly when the order of its chunks matters
  (`ReassemblyOrder`).
- The parsers: varints, frames, long and Initial headers, header protection, the ClientHello walker,
  and the reader of TLS records (`Varint`, `Frames`, `LongHeader`, `InitialProtection`, `ClientHello`,
  `RecordReader`). Each is proved against a grammar: what a sender may write is read back, and
  nothing else is accepted.
- The bounded UDP send queue as two interleaving processes (`SendQueue`).
- QUIC-LB ids, access lists and the choice of a backend (`QuicLb`, `Addresses`, `Routing`).

Parsers have a function on the remaining bytes, which the theorems are about, and a method with the
program's cursors and loops, which is proved to compute it. The same holds of the reassembly buffer,
the id index and the router.

What the environment answers is a parameter: each client step gets two clock readings in order, the
outcome of a connect, and the outcome of each send; a backend step gets one of each. HKDF, the AEAD,
the header-protection mask and AES are parameters too, of which only output lengths and the inverse
laws are used. Regular expressions are predicates on names, and server names are byte strings. A
loaded configuration has what loading checks: QUIC-LB configuration ids below 7 and distinct, server
addresses normalized (`QuicLb.LoadQuicLb`), and no access rule without an action (`Routing.LoadAcl`).

Three facts the proofs turn on. A step accounts for every datagram exactly when it returns without an
error (`RouterConservation.StepConserves`), and it returns an error exactly under the guards of
`RouterFailures.Fails`: a send on a live connection that fails, a route without an action, a connect or
send that fails while a handshake is registered, and a QUIC-LB datagram too large to buffer. A datagram
does vanish uncounted in `RouterFailures.VanishIsReached`. That no registered id is one QUIC-LB decodes is
not an invariant, because a registration on a new path, unlike later learning, does not ask
(`RouterDecodable.DecodableIsReached`); which steps break it is `RouterDecodable.StepDecodes`. And
overwriting a connection's reply address keeps the client index exact only because every lookup has
matched the normalized address first.

`dafny verify dfyconfig.toml` checks the project.

## Model
| member | source | states |
|---|---|---|
| Router.Router.constructor | src/bin/sni-router-h3.rs:1023-1039 | a new router has no connections and no pending handshakes, and its indexes are exact |
| Router.Router.HandleDatagram | src/bin/sni-router-h3.rs:1114-1189 | a client datagram changes the indexed router exactly as it changes the router that scans its table; the uncounted return at line 1175 is unreachable because the indexes are exact |
| Router.Router.HandleLbDatagram | src/bin/sni-router-h3.rs:1144-1167 | a datagram whose id decodes to a backend is handled on that backend's shared path for this client, found by index as by a scan |
| Router.Router.PeerConnectionId | src/bin/sni-router-h3.rs:1199-1212 | peer affinity finds the one live connection of the whole table that belongs to the client address, or none when there are several |
| Router.Router.PacketConnectionId | src/bin/sni-router-h3.rs:1239-1250 | long headers go to the holder of the destination id, short headers to the holder of the longest registered prefix |
| Router.Router.MatchShortHeaderRoute | src/bin/sni-router-h3.rs:1640-1645 | the index by length finds what scanning all connections for the longest id prefix finds |
| Router.Router.ForwardByPeerAffinity | src/bin/sni-router-h3.rs:1214-1237 | refines the scanning router's affinity step, including the key check on Initials |
| Router.Router.ForwardEstablishedClientDatagram | src/bin/sni-router-h3.rs:1444-1469 | overwrites the client address and keeps every index exact, given that the caller looked the connection up under the peer's own normalized address |
| Router.Router.HandleBackendDatagram | src/bin/sni-router-h3.rs:1292-1315 | a backend datagram changes the indexed router as it changes the scanning one |
| Router.Router.ForwardEstablishedBackendDatagram | src/bin/sni-router-h3.rs:1252-1290 | a reply refreshes the path, may replace the Retry key, learns its source id, and goes to the last client address |
| Router.Router.HandleUnroutedClientDatagram | src/bin/sni-router-h3.rs:1317-1362 | unrouted datagrams are classified, decrypted and parsed as the scanning router does |
| Router.Router.HandleInitial | src/bin/sni-router-h3.rs:1366-1385 | the limits on handshakes and bytes decide on the byte counter as they would on the sum over the pending table |
| Router.Router.CollectInitial | src/bin/sni-router-h3.rs:1386-1441 | buffering, completing or rejecting a handshake keeps the byte counter equal to the sum over the pending table; the return at line 1433 is unreachable |
| Router.Router.EndPending | src/bin/sni-router-h3.rs:1425-1441 | a handshake that is over is dropped with all its datagrams counted, or routed and registered |
| Router.Router.AbsorbPending | src/bin/sni-router-h3.rs:1386-1419 | one decrypted datagram is buffered first: when it cannot be, the handshake keeps its ids and CRYPTO state as they were, and otherwise it comes last among the buffered ones |
| Router.Router.RemovePending | src/bin/sni-router-h3.rs:1041-1047 | taking a handshake out keeps the byte counter exact, so that its subtraction cannot underflow |
| Router.Router.EstablishAndFlush | src/bin/sni-router-h3.rs:1471-1618 | registration on the indexed router equals registration on the scanning one, for every outcome of connect and send |
| Router.Router.CheckRegistration | src/bin/sni-router-h3.rs:1504-1536 | the prechecks over the index decide as prechecks over the whole table would |
| Router.Router.AddCidRoutes | src/bin/sni-router-h3.rs:1557-1560 | after the prechecks, registering the ids in any order never meets a limit or a conflict: exactly the requested ids that QUIC-LB does not decode are added, and no refusal is counted |
| Router.Router.AddCidRoute | src/bin/sni-router-h3.rs:1620-1638 | an id seen on a connection is learned within its budget unless empty, decodable or owned elsewhere, and the id index stays exact |
| Router.Router.JoinPath | src/bin/sni-router-h3.rs:1537-1562 | joining a shared path is all or nothing up to a failed send |
| Router.Router.RegisterPath | src/bin/sni-router-h3.rs:1577-1604 | a new connection enters the table and the three indexes together |
| Router.Router.CreatePath | src/bin/sni-router-h3.rs:1563-1618 | a failed connect uses an id and nothing else; otherwise the new path is registered and flushed until a send fails |
| Router.Router.OpenPath | src/bin/sni-router-h3.rs:1577-1616 | a new path is in the table and the exact indexes before its datagrams go out in order |
| Router.Router.SetConfig | src/bin/sni-router-h3.rs:1070-1072 | a reload changes no connection, index or handshake |
| Router.Router.Collides | src/bin/sni-router-h3.rs:1504-1515 | finds whether any requested id belongs to another connection, in any order |
| Router.Router.Flush | src/bin/sni-router-h3.rs:1548-1555 | the buffered datagrams go out in order up to the first failed send |
| Router.Router.InsertCids | src/bin/sni-router-h3.rs:1595-1597 | every id of a new connection enters the index and no other entry changes |
| Router.Router.ProgressPending | src/bin/sni-router-h3.rs:1386-1433 | a handshake stays in the table just when its ClientHello is still incomplete |
| Router.Router.RemoveCidRoutes | src/bin/sni-router-h3.rs:1663-1667 | exactly a removed connection's ids leave the index |
| Router.Router.ForgetExpired | src/bin/sni-router-h3.rs:1649-1680 | all expired connections leave the table and the three indexes, which stay exact |
| Router.Router.Handle | src/bin/sni-router-h3.rs:1763-1808 | each kind of event refines its scanning step |
| Router.Router.CleanUp | src/bin/sni-router-h3.rs:1647-1704 | cleanup takes the expired connections out of the table and of every index, and the stale handshakes with their bytes |
| Router.Router.ForgetConnection | src/bin/sni-router-h3.rs:1655-1676 | a removed connection leaves no id and no client entry behind, and disturbs no other connection's |
| Router.Router.DropStalePending | src/bin/sni-router-h3.rs:1682-1704 | every datagram of every stale handshake is counted as dropped once |
| Router.Router.MainLoop | src/bin/sni-router-h3.rs:1754-1809 | over any sequence of client datagrams, backend datagrams, reloads and cleanups the indexed router equals the scanning one and its indexes are exact |
| RouterIndexes.CidLookup | src/bin/sni-router-h3.rs:1244-1245 | an exact id index answers like a scan of all connections |
| RouterIndexes.PrefixLookup | src/bin/sni-router-h3.rs:1640-1645 | so does the longest-prefix lookup |
| RouterIndexes.PathLookup | src/bin/sni-router-h3.rs:1145 | an exact path index finds the one shared connection of a client and backend |
| RouterIndexes.PeerLookup | src/bin/sni-router-h3.rs:1200-1205 | an exact client index lists exactly the connections of a client that a scan would |
| RouterIndexes.LearnChecked | src/bin/sni-router-h3.rs:1504-1536 | an id that passed the collision and budget checks is never refused later |
| RouterIndexes.GoneIsUnindexed | src/bin/sni-router-h3.rs:1663-1680 | a connection that is not in the table is in no exact index |
| RouterInvariant.StepKeeps | src/bin/sni-router-h3.rs:1114-1704 | one owner per id, one shared path per client and backend, all limits on paths, ids, handshakes and bytes, and each pending handshake equal to a replay of its datagrams with its ClientHello incomplete: kept by every step, whatever clock and sockets answer |
| RouterInvariant.RunKeeps | src/bin/sni-router-h3.rs:1754-1809 | the same over every run |
| RouterInvariant.AbsorbReplays | src/bin/sni-router-h3.rs:1386-1413 | absorbing a datagram extends the replay of the buffered ones by it, chunks and source ids alike |
| RouterInvariant.RegistrableIsFree | src/bin/sni-router-h3.rs:1504-1536 | a handshake that is not refused asks only for ids that are free or its own, within the budget |
| RouterConservation.StepConserves | src/bin/sni-router-h3.rs:1114-1704 | a step returns without error if and only if forwarded, returned, dropped and buffered datagrams grow together by exactly those that arrived; a failing step never counts one twice |
| RouterConservation.RunConserves | src/bin/sni-router-h3.rs:1754-1809 | the same equivalence over whole runs |
| RouterConservation.ReachableConserves | src/bin/sni-router-h3.rs:1754-1809 | from the start on, arrivals equal forwarded plus returned plus dropped plus buffered exactly when no step failed |
| RouterFate.FateConcernsPeer | src/bin/sni-router-h3.rs:1114-1441 | what becomes of a client datagram, which the table and the first clock reading decide alone, touches only the sender's own connection or handshake; a datagram that is buffered or flushed comes after those its handshake held |
| RouterFailures.StepFails | src/bin/sni-router-h3.rs:1114-1618 | a step returns an error exactly when a live connection's send fails, a route's access list decides on no action, a registration that passed its checks fails to connect or to send, or a QUIC-LB datagram is too large to buffer |
| RouterFailures.OversizedExactly | src/bin/sni-router-h3.rs:1154-1155 | the last happens exactly to a decodable datagram of more than 128 KiB without a shared path |
| RouterFailures.SoundStepSucceeds | src/bin/sni-router-h3.rs:1114-1441 | with sockets that answer well, datagrams of a size that exists and access lists with a default action, no step fails |
| RouterFailures.ConservesUnlessFailing | src/bin/sni-router-h3.rs:1754-1809 | so over a run from the start, every arrival is accounted for if and only if none of those guards was met |
| RouterFailures.VanishIsReached | src/bin/sni-router-h3.rs:1563-1566 | and datagrams do vanish uncounted: the first Initial of a run does when its upstream socket cannot be connected |
| RouterConservation.CleanupAccounts | src/bin/sni-router-h3.rs:1687-1703 | what cleanup takes out of the buffers it counts as dropped, one for one |
| RouterPinning.StepGood | src/bin/sni-router-h3.rs:1114-1704 | a step keeps the client and backend of every surviving connection, never reuses an id, lets no deadline move later, and sends only on connections between the recorded client and backend |
| RouterPinning.RunEvolves | src/bin/sni-router-h3.rs:1754-1809 | over a run a connection's normalized client address and backend never change |
| RouterPinning.RunPinned | src/bin/sni-router-h3.rs:1142-1290 | all traffic an id ever carried ran between one client address and one backend, replies included, although each client datagram overwrites the reply address |
| RouterProvenance.RunSourced | src/bin/sni-router-h3.rs:1366-1441 | over a run each handshake holds datagrams of its client in order of arrival, no datagram is forwarded and buffered more often than it arrived from that client, and the replies are, in order, datagrams that backends sent on those connections |
| RouterProvenance.ReachableTraffic | src/bin/sni-router-h3.rs:1754-1809 | traffic keeps to its path and is what arrived, from the start of every run |
| RouterProvenance.FlushesInOrder | src/bin/sni-router-h3.rs:1548-1555 | whatever one event makes the router forward, a flushed handshake included, is on one connection and is a subsequence of all that ever arrived from that one client |
| RouterOrder.StepOrdered | src/bin/sni-router-h3.rs:1444-1618 | a connection whose traffic is in order of arrival stays so over every step but one in which a handshake joins it |
| RouterOrder.ReachableOrder | src/bin/sni-router-h3.rs:1754-1809 | over a run from the start, what a connection carried upstream is in order of arrival from its client, unless a handshake joined it after it was made |
| RouterOrder.UnsharedIsNeverJoined | src/bin/sni-router-h3.rs:1489-1500 | and none joins a connection that is no QUIC-LB path |
| RouterOvertaking.JoinBreaksOrder | src/bin/sni-router-h3.rs:1537-1562 | a handshake that joins does break the order: in a run of four datagrams from one client, one on the path overtakes half a handshake that waits |
| RouterPinning.NoResurrection | src/bin/sni-router-h3.rs:997-1002 | under a clock that never goes back, an expired connection sends nothing either way and changes in nothing, ids and Retry key included, until removed, and never returns |
| RouterPinning.RunAfterRemoval | src/bin/sni-router-h3.rs:1647-1680 | an id that was removed carries no traffic and names no connection ever after |
| RouterPinning.CleanupRemovesExpired | src/bin/sni-router-h3.rs:1649-1680 | after a cleanup no connection held is expired, those that were not are as they were, and no lookup finds one that was |
| RouterDeadlines.StepDeadline | src/bin/sni-router-h3.rs:1543-1547 | after any step a surviving connection's deadline is the earlier of its own and the one brought by a handshake that joined it live; nothing else moves it |
| RouterDeadlines.RunDeadline | src/bin/sni-router-h3.rs:1537-1565 | over a run a connection's deadline is the earliest of its own and of all those its handshakes brought, socket errors included |
| RouterProvenance.EstablishSends | src/bin/sni-router-h3.rs:1548-1555 | a registration sends the handshake's datagrams, in order, up to the first failed send, and nothing else |
| RouterHandshake.RoutesGroundTruth | src/bin/sni-router-h3.rs:1386-1441 | while the buffered datagrams carry pieces of one stream, in any order, the handshake completes exactly when the pieces cover the stream's ClientHello, and is routed by the name in that stream |
| RouterHandshake.HandshakeRoutesByHostName | src/bin/sni-router-h3.rs:1366-1441 | a ClientHello cut into frames and datagrams in any order is routed by its own first host name, at the datagram that brings its last byte and not before |
| RouterHandshake.PiecesAreTaken | src/bin/sni-router-h3.rs:1386-1411 | pieces of such a stream are refused only for want of room, and not for their chunks while those have at most 128 offsets beyond the start |
| RouterHandshake.RoutesByHostName | src/bin/sni-router-h3.rs:1317-1441 | the client step of that datagram establishes the route chosen for that name, with the buffered datagrams and this one after them |
| RouterEndToEnd.ReachablePieces | src/bin/sni-router-h3.rs:1366-1413 | if all that ever arrived from a client under a destination id is of one stream, so is all that its handshake holds, in every reachable state |
| RouterEndToEnd.ReachableRoutes | src/bin/sni-router-h3.rs:1366-1441 | then, within the limits, the datagram that brings the last byte of the ClientHello is routed by the host name in it and flushed after those that were buffered, and every earlier one waits, in every reachable state |
| RouterEndToEnd.RunKeyed | src/bin/sni-router-h3.rs:1366-1392 | over a run a handshake holds only datagrams of its own destination id |
| RouterHandshake.ProtectedCarriesItsChunks | src/bin/sni-router-h3.rs:746-834 | a protected Initial yields exactly the CRYPTO chunks its sender wrote, in order |
| RouterHandshake.RegistrationIsAtomic | src/bin/sni-router-h3.rs:1501-1618 | a registration without a socket error is carried out, on the shared path of its client and backend or else on a new one, exactly when its route leads somewhere, no precheck refuses it and the path it joins is alive; otherwise tables and id counter are untouched |
| RouterHandshake.CreateRegisters | src/bin/sni-router-h3.rs:1563-1618 | a new path owns all requested ids, those QUIC-LB decodes included, and flushes all buffered datagrams in order; no other connection changes |
| RouterHandshake.JoinRegisters | src/bin/sni-router-h3.rs:1537-1562 | a joined path gains exactly the requested ids that QUIC-LB does not decode, keeps the earlier deadline, and flushes all buffered datagrams in order |
| RouterDecodable.StepDecodes | src/bin/sni-router-h3.rs:1577-1597 | while no registered id is one that QUIC-LB decodes, a step leaves it so if and only if it neither opens a path of its own for a handshake with a decodable id nor loads a configuration that decodes a registered one |
| RouterDecodable.RunDecodes | src/bin/sni-router-h3.rs:1754-1809 | and it holds throughout a run exactly when no event does either |
| RouterDecodable.OnlySourceIdsDecode | src/bin/sni-router-h3.rs:1136-1144 | of the ids a handshake registers only source ids of its datagrams can decode, never its destination id |
| RouterDecodable.DecodableIsReached | src/bin/sni-router-h3.rs:1595-1597 | one Initial with a decodable source id reaches a table with a decodable registered id, in a first step without error |
| RouterHandshake.AffinityIsUnambiguous | src/bin/sni-router-h3.rs:1214-1237 | a datagram is forwarded by affinity only on its client's single live connection, an Initial only if it opens under that connection's keys |
| RouterHandshake.DecodedGoesToItsBackend | src/bin/sni-router-h3.rs:1138-1167 | a datagram whose id decodes to a backend is sent to that backend or nowhere and is never buffered |
| CidRoutes.Index.Insert | src/h3_cid_routes.rs:11-22 | the nested map behaves as a flat map in which the first owner of an id keeps it |
| CidRoutes.Index.Get | src/h3_cid_routes.rs:24-26 | finds the owner the flat map has |
| CidRoutes.Index.Remove | src/h3_cid_routes.rs:28-35 | removes from the flat map, returning the owner, and leaves no empty bucket |
| CidRoutes.Index.MatchPrefix | src/h3_cid_routes.rs:37-42 | trying the registered lengths from the longest down finds the owner of the longest registered prefix |
| CidRoutes.LongestOwnerIsScan | extra/bench-h3-cid-lookup.rs:11-17 | that owner is the one a scan for the longest registered id that starts the bytes gives, and there is none exactly when no id starts them |
| CryptoReassembly.Reassembly.InsertChunk | src/bin/sni-router-h3.rs:883-910 | the in-place insert computes the insert on values, and on too many fragments changes nothing |
| CryptoReassembly.Reassembly.AppendChunk | src/bin/sni-router-h3.rs:912-918 | appends the part of a chunk beyond the bytes |
| CryptoReassembly.Settles | src/bin/sni-router-h3.rs:883-918 | whatever the chunks and their order, the bytes reach to the first gap, each from a chunk that can supply it, and beyond them the longest chunk at each offset is kept |
| CryptoReassembly.Exactness | src/bin/sni-router-h3.rs:883-918 | chunks of one stream leave its longest gap-free prefix, and beyond it the longest chunk at each offset |
| CryptoReassembly.ExactUnique | src/bin/sni-router-h3.rs:883-918 | that description determines the state |
| ReassemblyOrder.OrderFreeExactly | src/bin/sni-router-h3.rs:883-918 | all orders of the same chunks end alike if and only if every order is refused, or none is and the chunks are consistent: those that can supply a byte agree on it, and so do the longest at an offset never reached |
| ReassemblyOrder.NeverRefused | src/bin/sni-router-h3.rs:887-892 | no order is refused if and only if the chunks have at most 128 offsets beyond the start |
| ReassemblyOrder.AlwaysRefused | src/bin/sni-router-h3.rs:887-892 | every order is refused if and only if more than 128 of these lie behind a gap that no chunk covers |
| ReassemblyOrder.ConsistentIsOrderFree | src/bin/sni-router-h3.rs:883-918 | orders of consistent chunks that are not refused end in the same state, with repeats or without |
| ReassemblyOrder.Confluence | src/bin/sni-router-h3.rs:883-918 | two orders of the same chunks of one stream, with repeats or without, end in the same state if neither is refused, and neither is when the chunks have at most 128 offsets beyond the start |
| CryptoReassembly.InsertAllBounded | src/bin/sni-router-h3.rs:887-900 | whatever is inserted, at most 128 fragments wait, each beyond the bytes |
| ReassemblyOrder.ContradictionsShowOrder | src/bin/sni-router-h3.rs:901-909 | two different bytes for the start of the stream: whichever comes first stays |
| ReassemblyOrder.ConsistentWithoutStream | src/bin/sni-router-h3.rs:883-918 | chunks may contradict each other and still end alike in every order, when only one of those that differ can supply the byte |
| CryptoReassembly.ClientHelloStable | src/bin/sni-router-h3.rs:920-938 | more of the stream changes neither a complete ClientHello nor a rejection |
| CryptoReassembly.HelloExactly | src/bin/sni-router-h3.rs:920-938 | the stream holds a ClientHello exactly when it begins with one, whole, and is rejected exactly for another first byte |
| Varint.ReadAt | src/bin/sni-router-h3.rs:599-612 | reads the varint at a cursor in bounds on every input |
| Varint.ReadEncoded | src/bin/sni-router-h3.rs:599-612 | a value written in any of the four widths reads back with its width |
| Varint.ReadIsEncoded | src/bin/sni-router-h3.rs:599-612 | whatever reads as a varint is some value's encoding in one of the widths |
| Varint.StandardExamples | src/bin/sni-router-h3.rs:599-612 | the examples of RFC 9000, section A.1, read as they should |
| Varint.LongestExample | src/bin/sni-router-h3.rs:599-612 | so does its eight-byte example |
| Frames.ReadCryptoFrames | src/bin/sni-router-h3.rs:803-834 | the cursor loop ends on every input and returns the CRYPTO chunks of the payload |
| Frames.SkipAckFrame | src/bin/sni-router-h3.rs:836-851 | the ACK walk is in bounds, and its range loop turns at most half as often as there are bytes left, whatever count is claimed |
| Frames.SkipCloseFrame | src/bin/sni-router-h3.rs:853-874 | walks over a CONNECTION_CLOSE frame of either kind |
| Frames.ParsesWhatIsWritten | src/bin/sni-router-h3.rs:803-834 | any concatenation of PADDING, PING, ACK, CRYPTO and CONNECTION_CLOSE frames parses to exactly its CRYPTO chunks in order |
| Frames.Grammar | src/bin/sni-router-h3.rs:803-874 | a payload parses if and only if it is such a concatenation |
| LongHeader.Grammar | src/bin/sni-router-h3.rs:620-650 | a packet parses to given ids if and only if it starts with them written as a long header |
| LongHeader.ShortExactly | src/bin/sni-router-h3.rs:620-630 | there is no long header exactly for an empty packet or a first byte below 0x80 |
| LongHeader.TypesByFirstByte | src/bin/sni-router-h3.rs:620-650 | the first byte decides the packet type, and the next four the version |
| LongHeader.InitialGrammar | src/bin/sni-router-h3.rs:652-684 | an Initial header parses if and only if some layout wrote it, and the offsets are that layout's |
| InitialProtection.DecryptInitial | src/bin/sni-router-h3.rs:750-801 | unmasks in place and in bounds; the packet-number check at line 769 never fails once the sample is there |
| InitialProtection.RoundTrip | src/bin/sni-router-h3.rs:750-801 | unprotecting a protected Initial recovers ids and payload for every packet-number length, under the packet's own keys or given ones |
| InitialProtection.NonceCarriesNumber | src/bin/sni-router-h3.rs:738-744 | the nonce is the initialization vector with the packet number combined into its last eight bytes |
| InitialProtection.ProtectedBytes | src/bin/sni-router-h3.rs:756-790 | the mask is sampled four bytes after the packet number starts, its first byte goes into the low four bits of the first byte and the others into the packet number |
| InitialProtection.MaskedLayout | src/bin/sni-router-h3.rs:766 | masking the first byte leaves version, type and layout as they were |
| Bytes.XorLowNibble | src/bin/sni-router-h3.rs:766 | a mask of the low four bits leaves the high four |
| Bytes.XorInvolution | src/bin/sni-router-h3.rs:776-782 | masking twice restores a byte |
| Bytes.XorIsBitwise | src/bin/sni-router-h3.rs:766 | a bit of the result is set exactly when the two bits differ |
| ClientHello.ExtractTlsSni | src/bin/sni-router-h3.rs:457-554 | the walker is in bounds on every input and computes the server name |
| ClientHello.WalkExtensions | src/main.rs:830-870 | the extension loop stays inside the block and looks only into the first server_name extension |
| ClientHello.WalkNames | src/main.rs:848-863 | the entry loop stays inside the list |
| ClientHello.ReadsWritten | src/bin/sni-router-h3.rs:457-554 | for every ClientHello with any other extensions, the answer is the first host name of its first server_name extension, or none; bytes after the body are ignored |
| ClientHello.Grammar | src/main.rs:766-871 | a message is accepted if and only if it begins with some ClientHello layout, and the answer is that layout's |
| RecordReader.EnsureBytesAvailable | src/main.rs:532-547 | reads no more than is missing, or gives the bytes back as they were |
| RecordReader.ReadTlsClientHello | src/main.rs:565-647 | the answer depends on the whole byte stream only, not on where it was handed over; kept and unread bytes together are the stream; nothing beyond the deciding record is read |
| RecordReader.AnyFragmentation | src/main.rs:565-647 | every way of cutting a ClientHello into non-empty records reads the same ClientHello and stops after its last record |
| RecordReader.OnlyFragmentations | src/main.rs:565-647 | conversely, whatever is read was carried by exactly the records consumed, the last of them needed |
| SendQueue.NoOvertaking | src/h3_udp.rs:157-186 | in every interleaving the socket takes datagrams in the order the router was asked to send them |
| SendQueue.DirectOnlyWhenEmpty | src/h3_udp.rs:163-179 | a direct send is tried only while nothing is queued or in flight |
| SendQueue.CounterIsExact | src/h3_udp.rs:102-145 | the byte counter is the charge of all outstanding datagrams plus a charge being decided on, so outside enqueue it is zero exactly when nothing is outstanding |
| SendQueue.ChargeSeesOutstanding | src/h3_udp.rs:133-138 | a datagram is refused exactly when it would exceed the byte budget at the moment it is charged |
| SendQueue.QueueIsBounded | src/h3_udp.rs:127-145 | at most 32 datagrams are queued, 33 outstanding, and 128 KiB admitted |
| SendQueue.NothingVanishes | src/h3_udp.rs:102-186 | every datagram submitted is on the wire, lost, or on its way, and only once |
| SendQueue.NoUnderflow | src/h3_udp.rs:118-137 | giving back or releasing a charge never underflows the counter |
| SendQueue.DirectWheneverEmpty | src/h3_udp.rs:163-179 | a datagram that comes while nothing is queued or in flight is tried on the socket directly, and only then |
| SendQueue.LostExactly | src/h3_udp.rs:102-186 | a datagram is lost exactly to a failing socket, a full channel or the byte budget |
| SendQueue.AdmittedExactly | src/h3_udp.rs:133-145 | one that holds a slot is queued last exactly when it leaves the bytes outstanding, one more for each datagram, within 128 KiB |
| SendQueue.WriterTakesOldest | src/h3_udp.rs:107-121 | the writer sends what has been queued longest |
| SendQueue.NeverStuck | src/h3_udp.rs:102-186 | wherever a process is, its next action is enabled |
| QuicLb.DecryptEncrypted | src/quic_lb.rs:54-71 | decoding undoes encoding whatever the low five bits carry |
| QuicLb.EncodedIsFound | src/bin/sni-router-h3.rs:1191-1197 | an id that a configured codec makes for a configured server is looked up to that server, whatever its low five bits |
| RouterPaths.EncodedGoesToItsServer | src/bin/sni-router-h3.rs:1136-1167 | and a client's datagram with that id, in a long header or after a short one, goes to that server or nowhere |
| RouterPaths.ServerDatagram | src/bin/sni-router-h3.rs:1136-1167 | a datagram that names a server goes along the client's shared path while that is alive, and without one opens it with the configured lifetime |
| RouterPaths.PlainBackendIsOwn | src/bin/sni-router-h3.rs:1491-1500 | a handshake for a backend of no QUIC-LB configuration leaves all connections and shared paths as they are, and gets a connection of its own to the address as configured |
| RouterPaths.ServerPathIsShared | src/bin/sni-router-h3.rs:1491-1604 | one for a QUIC-LB server joins the shared path of its client and that server, or makes it, to the normalized address |
| RouterPaths.CleanupKeepsFresh | src/bin/sni-router-h3.rs:1682-1701 | cleanup keeps exactly the handshakes that began and were last added to within the idle and the handshake timeout |
| RouterPaths.HandshakeTimes | src/bin/sni-router-h3.rs:1386-1398 | a handshake begins with its first datagram and each one it takes renews it |
| RouterPaths.HandshakeBounds | src/bin/sni-router-h3.rs:887-900 | at most 32 datagrams, 128 KiB and 128 fragments per handshake in any reachable state |
| RouterPaths.GarbledNameRoutesByDefault | src/bin/sni-router-h3.rs:1407-1418 | a complete ClientHello that cannot be parsed is routed like one without a name |
| RouterConnections.NamedIsForwarded | src/bin/sni-router-h3.rs:1169-1188 | a datagram that names a connection is forwarded from its client's endpoint, and from any other address or port is dropped and changes nothing |
| RouterConnections.EndpointStays | src/bin/sni-router-h3.rs:1456-1460 | no step moves a connection to another address or port |
| RouterConnections.UnnamedGoesToOnlyLive | src/bin/sni-router-h3.rs:1199-1237 | a short header that names nothing goes to its client's only connection alive, and nowhere when there is none or are several |
| RouterConnections.UnnamedLongGoes | src/bin/sni-router-h3.rs:1317-1345 | so do 0-RTT and Handshake packets; other versions and types are dropped |
| RouterConnections.ForeignInitialGoes | src/bin/sni-router-h3.rs:1214-1237 | an Initial that its own id does not open goes there only if the connection's key opens it |
| RouterConnections.BackendTeaches | src/bin/sni-router-h3.rs:1284-1288 | a reply's source id becomes the connection's when it is not empty, decodable or another's, and the budget has room |
| RouterConnections.ClientTeaches | src/bin/sni-router-h3.rs:1444-1467 | so does the source id of a datagram that was forwarded |
| RouterConnections.LearnedIsRouted | src/bin/sni-router-h3.rs:1239-1288 | and the client's next packets to an id learned from a reply are forwarded on that connection |
| RouterConnections.ReplyRefreshes | src/bin/sni-router-h3.rs:1252-1283 | a reply refreshes the connection and goes to its client; a Retry with a source id, and nothing else, changes its key, to that id |
| RouterConnections.ForwardRefreshes | src/bin/sni-router-h3.rs:1456-1463 | a datagram let through refreshes the connection, becomes its reply address, and leaves its key |
| RouterConnections.CleanupKeepsAlive | src/bin/sni-router-h3.rs:997-1002 | cleanup keeps exactly the connections used within the idle timeout and before their deadline |
| RouterConnections.LifetimeIsObeyed | src/bin/sni-router-h3.rs:997-1002 | once unused for that long or at its deadline, a connection sends nothing, changes nothing and learns nothing over any run |
| QuicLb.LoadServers | src/bin/sni-router-h3.rs:314-324 | servers load exactly when there are some and each has an id of its own; their addresses are normalized |
| QuicLb.LoadQuicLb | src/bin/sni-router-h3.rs:306-327 | configurations load exactly when each does, its id is below 7, and the ids are distinct; what is loaded is valid |
| QuicLb.LookupFinds | src/bin/sni-router-h3.rs:1191-1197 | a backend is found if and only if some configuration decodes the id to it |
| QuicLb.LookupOrderFree | src/bin/sni-router-h3.rs:1191-1197 | the order of the configurations does not matter, their ids being distinct |
| QuicLb.LookupIsServer | src/bin/sni-router-h3.rs:306-326 | a decoded backend is a configured, normalized server, and the id has 17 bytes and a configuration below 7 |
| Addresses.LiftIsExact | src/bin/sni-router-h3.rs:195-200 | an IPv4 block lifted into IPv6 holds exactly the mapped forms of its addresses |
| Addresses.NormalizeKeepsPeer | src/bin/sni-router-h3.rs:366-382 | normalizing twice is normalizing once, and keeps the address the access rules see |
| Addresses.NormalizeIdentifies | src/bin/sni-router-h3.rs:366-386 | two addresses normalize alike exactly when they are one endpoint: the same, or forms of one IPv4 address with the same port |
| Addresses.MappedIsLaidOut | src/bin/sni-router-h3.rs:366-382 | an IPv4 address is mapped to its four bytes after ten of zeros and two of ones |
| Addresses.ContainsByPrefix6 | src/bin/sni-router-h3.rs:188-205 | a block holds an address exactly when both have the block's prefix |
| Addresses.ContainsByPrefix4 | src/bin/sni-router-h3.rs:188-205 | the same for IPv4 blocks as they are configured |
| Routing.LoadAcl | src/bin/sni-router-h3.rs:188-215 | loading fails exactly when some rule has no action, and otherwise keeps the rules in order, lifted |
| Routing.LoadedRuleHolds | src/bin/sni-router-h3.rs:195-202 | a loaded rule contains a peer exactly when its block as configured does |
| Routing.LoadedAclDecides | src/bin/sni-router-h3.rs:439-446 | deciding by the loaded list is deciding by the list as configured |
| Routing.MinTimeout | src/bin/sni-router-h3.rs:448-454 | the lesser of two lifetimes, none being no limit |
| Routing.FirstRuleDecides | src/bin/sni-router-h3.rs:1074-1112 | the first rule that matches and does not continue decides; without one, or without a name, the default rule does |
| Routing.RouteFails | src/bin/sni-router-h3.rs:1074-1112 | routing fails exactly when the rule that decides, or else the default one, decides on no action |
| Routing.DecidesNothing | src/bin/sni-router-h3.rs:439-446 | an access list decides on no action exactly when its default is none and no block holds the peer |
| Routing.AclDecides | src/bin/sni-router-h3.rs:439-446 | the first block that holds the peer's address decides, and without one the default action |
| Routing.RouteIgnoresMapping | src/bin/sni-router-h3.rs:1075 | a peer and its IPv4-mapped form get the same route |
| RouterInvariant.SizesUpdate | src/bin/sni-router-h3.rs:1395 | the sum of buffered bytes and datagrams after a handshake changes |

## Left out
- Sockets, tasks, signals, DNS and privileges: sends and connects are outcomes given to a step, and what was sent is a ghost log.
- Metrics other than drop counts by reason and ids refused by the budget; `record_sni` and its labels.
- Loading of the configuration file, except access lists and QUIC-LB entries; in those, keys are ciphers already read and server names are addresses already resolved, one for each.
- Entries of the connection and pending tables are values replaced in their maps, where the program updates them in place through a mutable borrow; the in-place reassembly buffer is modelled by `CryptoReassembly.Reassembly`, and the router uses the same operations on values.
- Each connection's upstream socket is represented by the address it is connected to, and its writer by whether a send is accepted; the queue behind it is modelled on its own in `SendQueue`, so a datagram dropped by a full queue counts as forwarded in the router, as in the program.
- SendQueue: memory orderings are taken as sequentially consistent, and the channel never closes, because the writer lives as long as the queue. Dropping a queue, which aborts its writer, ends a run.
- The class that is `SendQueue` in the program is a state machine over atomic actions here, because its two processes share it.
- Integer widths: lengths, times and ids are unbounded; varints end below 2^62 and datagrams at 65535 bytes, so no sum in these paths reaches 2^64, and an overflow in a checked addition has the outcome of exceeding the limit it is compared with.
- Times are natural numbers; the deadline of an `Instant` beyond its range is not modelled.
- Decoding of a server name as UTF-8: names are the bytes found.
- The TCP router beyond record reading and the server name: rustls and kTLS handshakes, process_buffered_tls_records, Unix socket handoff, proxying, its own rule and ACL types. Its `extract_sni` is line for line the HTTP/3 walker and is modelled once.
- `PacketPool` recycles receive buffers and `AcceptBackoff` spaces out retries of a failed accept: neither decides where a datagram goes. Key files and `host:port` strings are parsed before anything modelled here begins.
