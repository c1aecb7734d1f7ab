# A verified model of the transparent proxy router

The program redirects selected TCP and UDP flows of a Windows host into a local transparent
proxy, which carries them over SOCKS5. This project models the parts that must be exactly right
for that to be invisible to both ends, and proves what they keep over every run. To check it, run
`dafny verify dfyconfig.toml`.

| file | models |
|---|---|
| Net.dfy | addresses, IPv4-mapped IPv6, bytes, the clock |
| Runs.dfy | runs of a state machine, for the files that speak of reachable states |
| UdpTable.dfy | the UDP flow table, its index by peer, and the UDP destination query |
| Flow.dfy | the redirection decision for one packet (class `Router`) |
| NatRuns.dfy | runs of packets and cleanups, and what queries and replies find in them |
| History.dfy | what the events of a run so far decide: which flows are live and what becomes of a packet |
| Packet.dfy | parsing and in-place rewriting of Ethernet frames |
| Frames.dfy | frames laid out field by field from the standards, and parsing and rewriting against that |
| EndToEnd.dfy | the redirection from a client's frame to the frame that answers it |
| Delivery.dfy | router and UDP associations together: under whose name answers are delivered |
| Socks5.dfy | SOCKS5 addresses, UDP headers and the opening dialogue |
| Socks5Server.dfy | the server's end of the wire by RFC 1928 and RFC 1929, and the client against it |
| Endpoint.dfy | the textual form of a SOCKS5 endpoint |
| BufferPool.dfy | the packet buffers of accept task, queue, worker and pool, and what they carry |
| Associations.dfy | the UDP association map between one worker and its readers; reaping of readers |
| ProcessLookup.dfy | snapshots of the socket tables and the cache of process paths |
| Owners.dfy | runs of owner lookups over all four socket tables, stated on their rows |
| Adapter.dfy | the batch loop: routing, the two sends, byte counters, cleanup interval |

A source method that updates fields or buffers is a Dafny method proved against a function of its
inputs and the old state; the theorems are about those functions, over all runs. What such a function
computes is stated a second time without it: by the events of the run (History), by the layouts of the
standards (Frames, Socks5Server), by the rows of the tables (Owners), or by the last use (Associations).

## Environment

What is assumed of everything around the code is stated in the lemmas themselves:

* `NatRuns.Admissible`: the clock does not run backwards; a packet sent from a listening port of
  the proxy is not selected by the process lookup; a lookup selects only listening ports (the last
  is proved of `GetProxyPort` by `Flow.SelectedPortListens`). Packets and cleanups come one after
  another, as the packet loop awaits each; queries only read, between any two steps.
* `NatRuns.Genuine`: packets do not carry IPv4-mapped IPv6 addresses (section 2.5.5.2 of RFC 4291);
  the dual-stack listener reports IPv4 endpoints in that form (`Net.AsSeenByListener`).
* The proxy answers from the address at which a redirected packet arrived: a reply packet has the
  redirected packet's endpoints, exchanged.
* Process lookup, the socket tables, process paths, IP text parsing, name resolution and the two
  checksum computations are parameters. The stream and the datagram decoder share one resolver.
* The TCP ports and UDP ports of the proxies do not change during a run.

## What does not hold

Some things a reader of the code might expect are false of it. Each is given with its exact
condition, most with a case beside it.

* A second connection from the same client port to another port of the same server is redirected to
  the first one's destination, because the key of a TCP mapping has no destination port:
  `NatRuns.RedirectedSynQuery`, `NatRuns.SecondConnectionIsMisdirected`.
* Not every packet of a redirected flow is redirected: a retransmitted SYN whose lookup fails is let
  through, one whose lookup selects another port goes there, and a datagram of a live flow to another
  port of the server is let through. `NatRuns.SegmentReachesRecordedPort`,
  `NatRuns.DatagramReachesRecordedPort`; `NatRuns.RetransmittedSynIsLetThrough`,
  `NatRuns.DatagramToAnotherPortIsLetThrough`.
* A fragmented IPv4 datagram is not redirected as one: its first fragment is not read, and a later one
  is if its payload passes for a header. `Packet.FirstFragmentReadExactly`,
  `Packet.FragmentFieldsAreIgnored`, `Packet.LastFragmentIsReadAsHeader`.
* A datagram that a server sends back is not always delivered under the name of its sender:
  `Delivery.SenderNamedTrulyExactly`, `Delivery.NamedTrulyOverRuns`, `Delivery.LateAnswerIsMisnamed`.
* A rewritten frame is not read again if its source, which the rewrite makes its destination, was a
  multicast or broadcast address: `Packet.RewriteReparses`, `Packet.GroupSourceIsNotReadBack`.
* The version byte of the method selection is not checked when the server chooses method 2:
  `Socks5.SelectionVersionUncheckedWithAuth`, `Socks5.WrongVersionAccepted`.
* A relay that names no address is not taken to be at the proxy if it is IPv4 and the proxy a genuine
  IPv6 address: `Socks5.RelayIsAtProxyExactly`, `Socks5.LoopbackRelayIsElsewhere`.
* An endpoint without scheme whose password makes "://" appear is misread:
  `Endpoint.SchemelessParseInvertsPrint`, `Endpoint.PasswordTakenForScheme`.
* A cached process path has no greatest age, since every hit renews it: `ProcessLookup.PathKeptExactly`,
  `ProcessLookup.PathAgeUnbounded`.
* The associations are bounded, the readers at work for them are not: `Associations.ReadersUnbounded`.
* A late reader removes an association that is not its own: `Associations.RemovalHitsAnother` for one
  state, `Associations.RemovalOverRun` for whole runs, `Associations.LateReaderRemovesNewer`.

## Model

| member | source | states |
|---|---|---|
| Net.NormalizeUndoesListener | src/router/flow.rs:254-263 | normalising restores an endpoint reported by the dual-stack listener if and only if it was not itself a mapped IPv6 address |
| UdpTable.InsertKeepsAgreement | src/router/mod.rs:402-412 | one index insert keeps, for a new or a present key, that an index key is absent, unique or ambiguous exactly as no, one or several flows share it |
| UdpTable.AgreementIsUnique | src/router/mod.rs:363-366 | the flow table determines the index: two indexes that agree with it are equal |
| UdpTable.IndexInOrderAgrees | src/router/mod.rs:389-395 | inserts of any sequence of keys, repeats included, build the index that agrees with the set of those keys |
| UdpTable.OrderDoesNotMatter | src/router/mod.rs:389-395 | any two orders of the same keys build the same index |
| UdpTable.UdpMappings.constructor | src/router/mod.rs:369-374 | starts empty, with the index in agreement |
| UdpTable.UdpMappings.Insert | src/router/mod.rs:376-382 | the flow table gets exactly that entry and the index stays in agreement, also when the key was present |
| UdpTable.UdpMappings.Touch | src/router/flow.rs:198-201 | refreshing an entry in place changes only its activity time |
| UdpTable.UdpMappings.RetainActive | src/router/mod.rs:384-387 | exactly the entries to keep remain, unchanged, and the index agrees with them |
| UdpTable.UdpMappings.RebuildPeerIndex | src/router/mod.rs:389-395 | clearing and refilling in an arbitrary order gives the one agreeing index and leaves the flows alone |
| UdpTable.QueryRefinesScan | src/router/mod.rs:116-155 | with an unspecified local address the query succeeds if and only if exactly one flow matches, then as the lookup by that flow's source would; "not found" means none and "ambiguous" two or more; an indexed key is never missing |
| UdpTable.IndexedKeyIsLive | src/router/mod.rs:135-145 | an index entry that names a flow names one that is in the table, under that very index key |
| Flow.Router.GetProxyPort | src/router/flow.rs:55-87 | whatever order the names come in, the port is that of a proxy with a matching name, and 0 only if no name matches or that port is 0 |
| Flow.SelectedPortListens | src/router/flow.rs:89-103 | a selected nonzero port is one of the listening ports the reply path looks for |
| Flow.ContainsExactly | src/router/flow.rs:59 | the name test succeeds if and only if the name occurs somewhere in the path |
| Flow.SelectionMeans | src/router/flow.rs:55-87 | a lookup may select exactly the listening port, for its protocol and family, of a proxy with a name that occurs in the path, and 0 exactly when there is none |
| Flow.Router.ProcessTcpPayload | src/router/flow.rs:107-174 | table and rewrite after a segment are those of `TcpStep` for a port the lookup may select |
| Flow.Router.ProcessUdpPayload | src/router/flow.rs:178-244 | flow table, index and rewrite after a datagram are those of `UdpStep` for a port the lookup may select, and the index agrees |
| Flow.Router.CleanupStaleUdpEndpoints | src/router/flow.rs:246-251 | exactly the flows active within the last 60 seconds remain and the index is rebuilt for them |
| NatRuns.ReachableInvariant | src/router/flow.rs:107-251 | in every reachable state the index agrees with the flows, every mapping and flow is under its own destination with a listening proxy port, and no mapped client port is a listening port |
| NatRuns.StepKeepsInvariant | src/router/flow.rs:107-251 | every admissible packet or cleanup keeps that invariant |
| NatRuns.MappingEndsOnlyByClosing | src/router/flow.rs:144-171 | a TCP mapping survives a step, unchanged, if and only if the step is not a FIN or RST of its flow from client or proxy |
| NatRuns.LiveMappingIsTransparent | src/router/flow.rs:144-171 | while a mapping is live, client segments go to its proxy port, the query gives its destination, and every reply leaves as the server's |
| NatRuns.TcpTransparentOverRuns | src/router/flow.rs:107-174 | from the SYN that creates a mapping, over any run without a FIN or RST of that flow, redirection, query and replies are transparent for that SYN's destination |
| NatRuns.RedirectedSynQuery | src/router/flow.rs:128-136 | a redirected SYN is answered with its own destination if and only if no mapping was there or the one there had the same destination port |
| NatRuns.SecondConnectionIsMisdirected | src/router/flow.rs:129-135 | two connections from one port to ports 80 and 443 of a server: the query for the second gives port 80 |
| NatRuns.TcpReplyInverts | src/router/flow.rs:161-171 | in every reachable state a reply segment is turned round if and only if its mapping is live, then leaves as server to client, and the table loses that mapping exactly on FIN or RST |
| NatRuns.SegmentReachesRecordedPort | src/router/flow.rs:122-159 | while the mapping of a SYN lasts, a segment of its key goes to the recorded port if and only if it does not open a connection or its own lookup selects that port, and is let through if and only if it opens one and its lookup fails |
| NatRuns.RetransmittedSynIsLetThrough | src/router/flow.rs:125-143 | a SYN redirected to port 1081, sent again with a failing lookup, is not redirected although its mapping is there |
| NatRuns.FlowEndsOnlyByLateCleanup | src/router/flow.rs:195-251 | a UDP flow survives a step, with destination and proxy port, if and only if it is not a cleanup 60 s or more after its last client packet |
| NatRuns.LiveFlowAnswers | src/router/mod.rs:116-155 | for a live flow the wildcard query gives its destination, or "ambiguous" exactly when another flow shares peer and client port; the exact query always gives it |
| NatRuns.FlowLivesOn | src/router/flow.rs:195-251 | the flow of a datagram redirected at t is live, with that datagram's destination, until a cleanup at t + 60 s or later |
| NatRuns.UdpNeverMisdirected | src/router/flow.rs:178-251 | over every run until such a cleanup, a query about a redirected datagram returns its own destination or "ambiguous", never another destination nor "not found" |
| NatRuns.RedirectedDatagramIsAnswered | src/router/flow.rs:193-241 | whatever datagram is redirected in a reachable state goes to a listening port, and an answer to it that follows leaves as the endpoint it was sent to |
| NatRuns.DatagramReachesRecordedPort | src/router/flow.rs:195-206 | while the flow of a redirected datagram lasts, a datagram of its key goes to the same proxy port if and only if it has the same destination port, and is let through otherwise |
| NatRuns.DatagramToAnotherPortIsLetThrough | src/router/flow.rs:199-204 | behind a redirected datagram to port 53, one to port 443 of the server is not redirected although its lookup selects the proxy |
| NatRuns.UdpReplyInverts | src/router/flow.rs:235-241 | in every reachable state a reply is turned round if and only if its flow is live, then leaves as server to client, and changes no table |
| History.TcpLiveExactly | src/router/flow.rs:125-171 | after every run a mapping is live if and only if a selected SYN of its key came and no FIN or RST of the flow since; it holds destination and port of the first such SYN |
| History.SegmentDecidedExactly | src/router/flow.rs:107-174 | after every run: a selected SYN goes where selected and any other segment of a live mapping to its port; turned back is exactly what comes from a listening port and answers a selected SYN, to that SYN's sender as from its destination; the rest passes and changes nothing |
| History.UnselectedSegmentIsLetThrough | src/router/flow.rs:161-174 | if no SYN of a key was ever selected, an unselected segment of it from a port that does not listen passes and changes nothing |
| History.UdpLiveExactly | src/router/flow.rs:193-251 | after every run a flow is live if and only if a datagram of its key was redirected and no cleanup came 60 s or more after it; every such datagram has its destination and port |
| History.DatagramDecidedExactly | src/router/flow.rs:178-244 | after every run: a datagram of a live flow goes to its port if it goes to its destination and passes otherwise; without a flow it goes where selected; turned back is exactly what comes from a listening port and answers a redirected datagram, to its sender as from its destination; what passes or is turned back changes no table |
| History.UnselectedDatagramIsLetThrough | src/router/flow.rs:235-244 | if no datagram of a key was ever selected, an unselected one from a port that does not listen passes and changes no table |
| History.QueriesFindExactly | src/router/mod.rs:100-132 | after every run a query with both addresses finds a destination if and only if the mapping or flow is live by those events, and then that of the SYN or datagram that made it |
| Packet.ReaddressedMeaning | src/router/packet.rs:242-256 | after the port and address writes the headers still fit, so that the checksum fill is never skipped, and read as the redirected endpoints |
| Packet.RewriteMeaning | src/router/packet.rs:235-368 | a rewrite keeps the length and every byte but MAC and IP addresses, one port and checksums, exchanges the MAC addresses, and yields the redirected endpoints |
| Packet.RewriteReparses | src/router/packet.rs:103-211 | parsing a rewritten frame gives the same packet with redirected endpoints, or nothing exactly for a datagram whose source was multicast or broadcast |
| Packet.GroupSourceIsNotReadBack | src/router/packet.rs:146-150 | a frame from 224.0.0.1 is read, and rewritten towards a proxy not read again |
| Packet.FragmentFieldsAreIgnored | src/router/packet.rs:122-166 | an IPv4 frame is read the same whatever its fragment fields hold, so a later fragment exactly when its payload passes for a transport header |
| Packet.FirstFragmentReadExactly | src/router/packet.rs:122-166 | a first fragment is read, then as the whole packet, if and only if it holds all of the TCP header or all of the UDP datagram |
| Packet.LastFragmentIsReadAsHeader | src/router/packet.rs:146-157 | the last 8 bytes of a datagram, at offset 1480, are read as the ports 5000 and 53 |
| Frames.WrittenIsRead | src/router/packet.rs:103-211 | a frame laid out from kind, addresses, ports and control bits, with any options, numbers, flow label and padding, is read as exactly those; a datagram to a group address is not read |
| Frames.ReadIsWritten | src/router/packet.rs:103-211 | every frame whose headers fit is the laid-out form of some fields, byte for byte |
| Frames.ReadExactly | src/router/packet.rs:103-211 | a frame is read as given kind, endpoints and flags if and only if it is the laid-out form of a frame with those that is no group datagram |
| Frames.RewriteByFields | src/router/packet.rs:235-368 | the rewrite of a laid-out frame is the laid-out form of its fields with addresses of both layers exchanged, one port replaced, and each checksum put in its place from the frame as it is by then |
| Packet.SwapFields | src/router/packet.rs:349-368 | two equally long fields are exchanged in place and nothing else in the buffer changes |
| Packet.ApplyToKind | src/router/packet.rs:235-347 | the in-place rewrite is `Rewritten`, or nothing at all if a header does not fit |
| Packet.ApplyRewrite | src/router/packet.rs:213-233 | a direction results if and only if there is a rewrite and the headers fit; otherwise the buffer is untouched |
| Packet.ProcessPacket | src/router/packet.rs:58-101 | a direction is returned if and only if the decision was to rewrite; else the frame is untouched; tables change as `TcpStep` or `UdpStep` say and only those of that protocol |
| EndToEnd.TcpFrames | src/router/packet.rs:58-101 | after the creating SYN and any run without closing, a client frame reaches the proxy; behind it the query gives the server, and the proxy's answering frame is turned round, if and only if the client's frame was no FIN or RST; turned round, it arrives from that server |
| EndToEnd.UdpFrames | src/router/packet.rs:58-101 | the same for a redirected datagram, until a cleanup at t + 60 s or later |
| Delivery.SenderNamedTrulyExactly | src/proxy/transparent_proxy.rs:391-401 | in every state router and associations reach, a datagram a reader hands on is delivered if and only if the client's flow is live, and under its sender's name if and only if that is the flow's destination at that moment |
| Delivery.NamedTrulyOverRuns | src/proxy/transparent_proxy.rs:391-401 | from a redirected datagram until a cleanup at t + 60 s or later, whatever is handed on is named as that datagram's destination, truly if and only if it is from there |
| Delivery.LateAnswerIsMisnamed | src/proxy/transparent_proxy.rs:22 | a run after which the reader of an association opened for port 53 delivers as from port 443 |
| Socks5.DecodeInvertsEncode | src/proxy/socks5.rs:336-349 | decoding an encoded address gives it back and leaves any suffix unread |
| Socks5.EncodeInvertsDecode | src/proxy/socks5.rs:379-413 | a decoded IP address consumed exactly the bytes the encoder writes for it |
| Socks5.ByteVec.EncodeAddr | src/proxy/socks5.rs:336-349 | appends the encoded address to what the vector held |
| Socks5.ByteVec.BuildUdpRequest | src/proxy/socks5.rs:351-357 | whatever the vector held, it then holds the request of destination and payload |
| Socks5.UdpRequestReadsBack | src/proxy/socks5.rs:351-447 | parsing a built request gives the destination, with exactly the payload behind the offset |
| Socks5.AcceptedResponseIsARequest | src/proxy/socks5.rs:359-447 | an accepted datagram's offset is within it, and for an IP address the datagram is the request of its address and payload |
| Socks5.ParseUdpResponse | src/proxy/socks5.rs:359-447 | the datagram decoder is, on all inputs and errors included, the header check followed by `DecodeAddr` |
| Socks5.CopyToFront | src/proxy/socks5.rs:88 | the overlapping shift leaves exactly the bytes that were behind the offset at the front, and the rest alone |
| Socks5.RecvDatagram | src/proxy/socks5.rs:84-90 | length and bytes at the front are exactly the payload of an accepted datagram; a refused one leaves the buffer alone |
| Socks5.Stream.ReadAddrWithAtyp | src/proxy/socks5.rs:298-334 | the stream decoder yields the same address or error as `DecodeAddr`, so as the datagram decoder, and consumes the same number of bytes |
| Socks5.Stream.UsernamePasswordAuth | src/proxy/socks5.rs:237-261 | succeeds if and only if the credentials fit and the server answered 1, 0; sends exactly the message of section 2 of RFC 1929 or nothing |
| Socks5.Stream.Handshake | src/proxy/socks5.rs:210-235 | succeeds on exactly the accepted server bytes; sends the greeting and, when method 2 is chosen, the credentials |
| Socks5.Stream.ReadReply | src/proxy/socks5.rs:278-296 | succeeds if and only if version is 5, status 0 and an address follows; names the version or code otherwise |
| Socks5.Stream.SendRequest | src/proxy/socks5.rs:263-276 | sends exactly the request and accepts exactly the accepted replies |
| Socks5.Stream.Dialogue | src/proxy/socks5.rs:210-276 | handshake and request succeed if and only if the server bytes are accepted, consume exactly those, and have then sent exactly `ClientBytes` |
| Socks5.Stream.ConnectTcp | src/proxy/socks5.rs:34-41 | a connection succeeds on exactly the accepted server bytes, leaves the stream right behind the reply, and has asked for the destination, in mapped form if the proxy is IPv6 |
| Socks5.Stream.AssociateUdp | src/proxy/socks5.rs:43-63 | an association succeeds on exactly the accepted server bytes, having asked for no particular address; its relay is the one in the reply, at the proxy if that names no address |
| Socks5.RelayIsAtProxyExactly | src/proxy/socks5.rs:460-475 | a relay keeps its port, its family and any address it names; one that names none is at the proxy's address if and only if it is not IPv4 with a genuine IPv6 proxy |
| Socks5.LoopbackRelayIsElsewhere | src/proxy/socks5.rs:464-467 | with a proxy at ::1, the IPv4 relay 0.0.0.0 becomes 0.0.0.1 |
| Socks5.AcceptedMeans | src/proxy/socks5.rs:210-296 | success implies that an offered method was chosen, that method 2 was followed by acceptance, and that the reply said 5 and 0 |
| Socks5.SelectionVersionUncheckedWithAuth | src/proxy/socks5.rs:219-225 | an accepted answer with another version byte stays accepted if and only if the server chose method 2 |
| Socks5.WrongVersionAccepted | src/proxy/socks5.rs:219-225 | version 4 and method 2 in the selection are accepted |
| Socks5.MappedDestinationMeant | src/proxy/socks5.rs:449-458 | an IPv6 proxy is always given an IPv6 form, any other the destination's own, and the form denotes the destination that was meant |
| Socks5Server.EncodedOnWire | src/proxy/socks5.rs:336-349 | the encoder writes type byte, octets and port as section 5 of RFC 1928 lays them out |
| Socks5Server.WireDecodes | src/proxy/socks5.rs:298-334 | each of the three address forms of section 5, whatever follows, is decoded to what it stands for and consumed exactly; a name that does not resolve is refused |
| Socks5Server.DecodedExactly | src/proxy/socks5.rs:298-334 | an address is decoded if and only if the bytes start with one of those forms in full that resolves, consuming just it; refused as unresolved is exactly a name in full, as unsupported exactly a type there is not |
| Socks5Server.ServerRecoversClient | src/proxy/socks5.rs:210-276 | a server that reads by sections 3 and 4 of RFC 1928 and section 2 of RFC 1929 recovers credentials, command and destination from the client's bytes, and as methods 0, with 2 exactly if there are credentials |
| Socks5Server.AnswersAccepted | src/proxy/socks5.rs:210-296 | the answers of a server that made a choice the client can follow are accepted, what follows them is left unread, and the address is the one the server bound |
| Socks5Server.AcceptedExactly | src/proxy/socks5.rs:210-296 | server bytes are accepted if and only if they start with such answers |
| Socks5Server.DatagramAcceptedExactly | src/proxy/socks5.rs:359-447 | a datagram is accepted if and only if it is an unfragmented header of section 7 with an address form in full that resolves, the payload right behind it; reserved and fragment bytes are refused as such |
| Endpoint.PortReadsBack | src/proxy/socks5.rs:174-183 | a port printed in decimal parses to itself |
| Endpoint.PortParsedExactly | src/proxy/socks5.rs:174-183 | a port is parsed from exactly the decimal texts of it, zeros in front and a plus sign allowed |
| Endpoint.TrimDropsSpace | src/proxy/socks5.rs:147 | trimming leaves exactly what stands between the space at both ends |
| Endpoint.BareSplits | src/proxy/socks5.rs:204-207 | a host without brackets is split from its port at the last colon |
| Endpoint.BracketedSplits | src/proxy/socks5.rs:189-202 | a bracketed host is split from its port behind the bracket, whatever colons it holds |
| Endpoint.ParseInvertsPrint | src/proxy/socks5.rs:108-208 | with a scheme, parsing a printed endpoint gives back user, password, the address its host is or resolves to, and port, for any password, and no credentials when none were printed |
| Endpoint.SchemelessParseInvertsPrint | src/proxy/socks5.rs:109-120 | without a scheme the same holds with credentials if and only if colon and password do not contain "://", and always without credentials |
| Endpoint.PasswordTakenForScheme | src/proxy/socks5.rs:109-120 | user "u" with password "//x" is refused, whatever the host means, for the scheme "u" |
| Endpoint.AcceptedIsAnEndpoint | src/proxy/socks5.rs:108-208 | whatever is accepted is one of the two schemes or none, credentials with both parts or none, a host, with space around it at most, that is or resolves to the address, and a port from 1 to 65535 |
| BufferPool.UdpPacketBufferPool.Take | src/proxy/transparent_proxy.rs:484-490 | the last pooled buffer is taken out, or a fresh zeroed one of full size made when there is none |
| BufferPool.UdpPacketBufferPool.Put | src/proxy/transparent_proxy.rs:492-501 | below the cap the buffer is pushed, itself if of full size and else cut or zero-filled to it; at the cap nothing changes |
| BufferPool.StepConserves | src/proxy/transparent_proxy.rs:205-276 | a step moves buffers between places; only a take from the empty pool makes one and only a stopping worker drops some |
| BufferPool.BuffersConserved | src/proxy/transparent_proxy.rs:205-276 | in every reachable state at most 1026 buffers exist, of full size, none in two places, and a put neither discards nor resizes |
| BufferPool.PoolCapIsReached | src/proxy/transparent_proxy.rs:25 | some run puts 1026 buffers into the pool, so that the cap cannot be lower |
| BufferPool.AcceptStopsExactly | src/proxy/transparent_proxy.rs:205-242 | over every run the accept task stops if and only if it was shut down or had a datagram to send after the worker stopped; a failed receive and a full queue do not stop it |
| BufferPool.CarryKeepsInvariant | src/proxy/transparent_proxy.rs:205-276 | every step, receives into reused buffers included, keeps the bytes of each accepted datagram in its buffer until it is handled |
| BufferPool.DatagramsHandledInOrder | src/proxy/transparent_proxy.rs:205-276 | in every reachable state the worker has handled the accepted datagrams once each, in order, with the bytes they were received with, up to those it holds and those queued |
| BufferPool.TrafficNeverBlocks | src/proxy/transparent_proxy.rs:217-220 | in a state that invariant admits, contents and lengths never stop a step the tasks can take |
| Associations.StepKeepsLimit | src/proxy/transparent_proxy.rs:315-360 | between the limit check and the insert no other step lets the map reach the limit |
| Associations.StepKeepsReaders | src/proxy/transparent_proxy.rs:337-425 | every step keeps that each association has its own reader |
| Associations.AssociationsBounded | src/proxy/transparent_proxy.rs:304-432 | on every interleaving of worker and readers the map holds at most 1024 associations, each with its own reader still there to remove it |
| Associations.LimitIsReached | src/proxy/transparent_proxy.rs:318 | some run holds 1024 associations |
| Associations.ReadersUnbounded | src/proxy/transparent_proxy.rs:413-417 | for every n some run has n readers at work for one key with a single association, none of which a timeout ends |
| Associations.RemovalHitsAnother | src/proxy/transparent_proxy.rs:421-422 | a reader's removal takes out an association that is not its own if and only if another one sits at its key |
| Associations.SurvivesStepExactly | src/proxy/transparent_proxy.rs:304-432 | an association survives a step, with its number, if and only if that is neither a cleanup 120 s or more after its last activity nor the removal by a reader of its key |
| Associations.SurvivesRunExactly | src/proxy/transparent_proxy.rs:304-432 | over a whole run it keeps its place if and only if no step of the run ends it |
| Associations.OnlyUseRefreshes | src/proxy/transparent_proxy.rs:304-404 | a client's datagram for a key, an install at it and a datagram sent back for it set its activity time to that moment, and nothing else does |
| Associations.UsedAssociationStays | src/proxy/transparent_proxy.rs:304-432 | from a use at t an association keeps its place, with its number, over every run without a cleanup at t + 120 s or later and without a removal by a reader of its key |
| Associations.UnusedAssociationGoes | src/proxy/transparent_proxy.rs:427-432 | what was last active at t and is not used since is gone after a cleanup at t + 120 s or later, over every run |
| Associations.PacketStaysWithItsKey | src/proxy/transparent_proxy.rs:300-364 | from a packet's arrival until the next the worker works for its key alone and sends through an association installed for that key, the one that sits there when it begins to send |
| Associations.WorkerGetsDone | src/proxy/transparent_proxy.rs:304-366 | every step of the worker brings it nearer to being done with its packet, some such step is always possible, and no other action moves it |
| Associations.ReaderLeavesExactly | src/proxy/transparent_proxy.rs:382-424 | a reader leaves its loop if and only if its socket fails or, after a datagram or timeout, its key is free; it is gone only by its own removal |
| Associations.RemovalOverRun | src/proxy/transparent_proxy.rs:379-424 | over every run since its association was installed, a reader's removal takes out its own if and only if nothing has ended that one before, and another if and only if something has and the key is in use again |
| Associations.LateReaderRemovesNewer | src/proxy/transparent_proxy.rs:421-422 | a run in which a reader removes the newer association at its key |
| Associations.UnfinishedCounts | src/proxy/transparent_proxy.rs:434-444 | the unfinished handles are, with multiplicity, the handles not finished |
| Associations.ReaderHandles.SwapRemove | src/proxy/transparent_proxy.rs:439 | the last handle takes the place of the removed one, and exactly that one is gone |
| Associations.ReaderHandles.Reap | src/proxy/transparent_proxy.rs:434-444 | terminates with exactly the multiset of unfinished handles |
| ProcessLookup.OneMoreRow | src/windows/process.rs:282-291 | inserting a row keeps the map the last-row-wins index of the rows read |
| ProcessLookup.SnapshotHasAnOrigin | src/windows/process.rs:227-257 | after every run of calls the snapshot is the table the system gave in one of them, with the time recorded there, or none was ever given |
| ProcessLookup.BoundedStaleness | src/windows/process.rs:121-167 | over every run of calls, a found owner is the owner in the table the system gave in some call, this one or one recorded at most 500 ms before this check, an exact row before a wildcard; "not found" only after asking the system again in this call |
| ProcessLookup.SystemAskedExactly | src/windows/process.rs:121-167 | over every run the system is asked if and only if it never gave a table, the last one given is more than 500 ms old, or that one has no owner |
| Owners.OwnerIsLastRow | src/windows/process.rs:282-291 | the owner of a key is the process of its last row, and none exactly when it has no row |
| Owners.OwnerNamedByRows | src/windows/process.rs:66-87 | over every run of lookups, for TCP and UDP over IPv4 and IPv6: a found owner is named by the last row with the endpoints, for UDP else by the last with the port at the unspecified address, in the family's own table as given now or at most 500 ms before the check; "not found" means the table asked for now has no such row or was not given |
| ProcessLookup.SessionTable.Rebuild | src/windows/process.rs:275-352 | clear and refill give the last-row-wins index of the rows |
| ProcessLookup.SessionTable.Refresh | src/windows/process.rs:227-257 | asks the system; a table read replaces snapshot and time together, a failed read changes nothing |
| ProcessLookup.SessionTable.Lookup | src/windows/process.rs:189-225 | the map answers as the snapshot's rows do, exact before wildcard |
| ProcessLookup.SessionTable.FindPid | src/windows/process.rs:121-167 | owner and snapshot afterwards are those of `FindIn`, and the system has been asked once if that says so and else not |
| ProcessLookup.PathCacheCapped | src/windows/process.rs:103-117 | the path cache holds at most 1024 entries after every call |
| ProcessLookup.PathKeptExactly | src/windows/process.rs:91-118 | after any lookups of this and other processes, each with its own answer, the path queried first is returned, not being named again, if and only if all gaps between lookups of the process are at most 300 s and none in between emptied the cache |
| ProcessLookup.PathKeptExactlyBySteadiness | src/windows/process.rs:91-118 | when only the process itself is looked up, if and only if all those gaps are at most 300 s |
| ProcessLookup.LostStaysLost | src/windows/process.rs:91-118 | a path no longer cached does not come back unless the system names it |
| ProcessLookup.PathWasNamed | src/windows/process.rs:91-118 | over every run a path returned is one the system named for that process in the run, and none is returned only if it names none now |
| ProcessLookup.PathAgeUnbounded | src/windows/process.rs:94-98 | for every age there are lookups of the process, forward in time and each with the system naming another path, after which a path of that age is returned |
| ProcessLookup.WindowsProcessLookup.FindPid | src/windows/process.rs:72-87 | owner and all four tables afterwards are those of `FindAmong`: each family is looked up in its own table and the others stay |
| ProcessLookup.WindowsProcessLookup.CachedPath | src/windows/process.rs:91-118 | path and cache afterwards are those of `FindPath` |
| ProcessLookup.WindowsProcessLookup.FindProcessPath | src/windows/process.rs:66-119 | the path is that of the owner found, through the cache, which stays within its cap, and the four tables are those of that lookup; without owner there is no path and the cache stays |
| Adapter.BatchIsPartitioned | src/router/adapter.rs:67-104 | each packet of a batch is in exactly one of the two sends, once, in order, and on the side opposite to its natural one exactly when redirected |
| Adapter.PositionListed | src/router/adapter.rs:91-102 | a packet is selected for a side exactly when it is routed there |
| Adapter.CounterOverRun | src/router/adapter.rs:74-84 | over a whole run each byte counter is, modulo 2^64, the total length of the packets redirected its way |
| Adapter.CleanupEveryTwenty | src/router/adapter.rs:106-110 | over every run there is one cleanup for each twenty batches that hold a packet |
| Adapter.PacketLoop.ProcessBatch | src/router/adapter.rs:54-110 | both sides get exactly their packets, both counters their bytes, and every twentieth non-empty batch a cleanup |
| Adapter.PacketLoop.Route | src/router/adapter.rs:67-87 | routing vector and counters after the decision loop |
| Adapter.PacketLoop.Send | src/router/adapter.rs:89-104 | both sides get exactly their packets, although an empty send is left out |
| Adapter.PacketLoop.Select | src/router/adapter.rs:91-94 | the filtered packets are those routed that way, in order |

## Left out

- smoltcp and ndisapi are not part of this model. The header checks of smoltcp are modelled by the length rules of the RFCs, with an IPv4 header of at least 20 bytes; checksums are arbitrary values of the checksum parameters.
- The association map and its tasks, and the tasks around the buffer pool, are state machines on values: each lock-protected step is atomic, and writes to sockets are not shown.
- The state of the router in NatRuns is a value; the methods of `Router` and `UdpMappings` are proved to do its steps.
- A changed set of proxies or names during a run, and the start and stop of the proxy beyond the stop of the two UDP tasks.
- TCP forwarding between client and SOCKS5 connection, and socket binding.
- Failing writes to the SOCKS5 connection; a failing read is a stream that ends.
- How UTF-8 text becomes the credential bytes, and what the resolvers make of host bytes that are no text.
- Flow label and scope of IPv6 socket addresses.
- The table casts and system calls of the process lookup: a table is a sequence of rows, and lookups come one at a time, as the packet loop makes them.
- Errors of the driver's sends, which the loop ignores, and the choice and change of the network adapter.
- User interface, logging, statistics, configuration and static filters.
