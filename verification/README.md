# inband-traceroute, modelled in Dafny

inband-traceroute is a traceroute that runs inside a TCP connection the
client has already opened. The server has three parts:

- A Rust back end sends TCP keep-alive probes with rising TTLs on the
  client's own connection.
- An XDP program classifies the replies: ICMP/ICMPv6 Time Exceeded messages
  quoting a probe, and the client's TCP ACK/RST segments.
- Each trace turns the resulting events into a stream of hops, which the
  server sends as server-sent events, together with reverse-DNS names.

A TypeScript front end keeps the latest hop per TTL and the reverse-DNS
names, and publishes sorted snapshots to its listeners.

The project models the following:

- The XDP classifier, as a function from a raw frame, the configuration and
  the `TRACES` map to an XDP action and an optional event.
  `ptr_at` is its only bounds guard (`Classifier`).
  The older classifier, which has no ICMPv6 branch, is `LegacyClassifier`.
- The wire types shared by the kernel and user space: `IPAddr`, `SocketAddr`,
  `EbpfConfig` and `TraceEvent`. They come with their packed byte layouts,
  proved to round-trip (`Common`, and `LegacyCommon` for the older layout).
- The tracer (`Tracer`, `HopStream`, `Registry`):
  - the address conversions;
  - the header fields of an outbound probe;
  - the hop stream of one trace, over a scripted sequence of receive outcomes;
  - the first-hop-per-TTL filter;
  - the registry of live traces, with event delivery and unregistration.
- The reverse-DNS owner name, in the IN-ADDR.ARPA form (section 3.5 of
  RFC 1035) and the IP6.ARPA nibble form (section 2.5 of RFC 3596)
  (`ReverseDns`).
- The `Display` rules of hops (`Hops`, `LegacyHops`).
- The pure server rules (`Server`):
  - the CORS origin predicate;
  - the ACME domain list;
  - tracer selection by address family;
  - the order in which hops and reverse-DNS lookups are emitted.
- The front-end stream URL (`TraceApi`) and the `TraceConnection` reducer
  (`TraceConnections`).

Helpers shared by the modules:

- `Wrappers`: `Option` and `Result`. A failure is either an `Error` (an
  `anyhow` error returned to the caller) or a `Panic`.
- `Bytes`: fixed-width integers and big- and little-endian codecs.
- `Text`: decimal and hexadecimal digits, joining and splitting on a
  separator.
- `Net`: the standard library's `IpAddr` and `SocketAddr` values.

Arithmetic that the source performs on fixed-width integers is explicit. The
two subtractions in the hop stream that can underflow are modelled twice,
selected by `HopStream.Arith`:

- `Checked`: as written, in a build with overflow checks, where an underflow
  panics;
- `Corrected`: the evidently intended behaviour.

IPv4 addresses are four bytes in wire order. The `to_le_bytes` /
`from_le_bytes` pair that the classifier uses to compare them is modelled on
a little-endian host. On such a host it amounts to comparing the same four
bytes (`Classifier.V4DestinationMatch`).

## Model

| member | source | states |
|---|---|---|
| Bytes.U16BE | backend/inband-traceroute-ebpf/src/main.rs:99 | `u16::from_be` of a 2-byte field is the big-endian value of its bytes |
| Bytes.U32BE | backend/inband-traceroute-ebpf/src/main.rs:126-127 | `u32::from_be` of a 4-byte field is the big-endian value of its bytes |
| Bytes.U32LE | backend/inband-traceroute-common/src/lib.rs:91 | `u32::from_le_bytes` of 4 bytes is their little-endian value |
| Bytes.BERoundTrip | backend/inband-traceroute-ebpf/src/main.rs:99 | encoding n bytes big-endian and decoding gives the value modulo 256^n |
| Bytes.LERoundTrip | backend/inband-traceroute-common/src/lib.rs:91 | encoding n bytes little-endian and decoding gives the value modulo 256^n |
| Bytes.BEInverse | backend/inband-traceroute-ebpf/src/main.rs:99 | re-encoding a decoded big-endian field gives back the same bytes |
| Bytes.LEInverse | backend/inband-traceroute-common/src/lib.rs:91 | re-encoding a decoded little-endian field gives back the same bytes |
| Bytes.BEInjective | backend/inband-traceroute-ebpf/src/main.rs:99 | two equal-length fields have the same big-endian value iff they are the same bytes |
| Bytes.LEInjective | backend/inband-traceroute-common/src/lib.rs:91 | two equal-length fields have the same little-endian value iff they are the same bytes |
| Bytes.FromBEBound | backend/inband-traceroute-ebpf/src/main.rs:126 | an n-byte big-endian value is below 256^n, so it fits its integer type |
| Common.VersionFromByte | backend/inband-traceroute-common/src/lib.rs:26-33 | only the discriminants 0, 4 and 6 decode, each to the version it encodes |
| Common.NewV4 | backend/inband-traceroute-common/src/lib.rs:44-53 | version IPV4, the four octets in bytes 0..4, zeros in bytes 4..16 |
| Common.BuildV4 | backend/inband-traceroute-common/src/lib.rs:44-53 | the in-place zero-fill and copy build exactly `NewV4` |
| Common.NewV6 | backend/inband-traceroute-common/src/lib.rs:55-61 | version IPV6 and all 16 bytes unchanged |
| Common.NewConfig | backend/inband-traceroute-common/src/lib.rs:80-86 | keeps the port and each given address; an absent address becomes the default (EMPTY, all zeros) |
| Common.GetIpv4 | backend/inband-traceroute-common/src/lib.rs:88-95 | Some iff the stored version is IPV4, and then the little-endian value of bytes 0..4 |
| Common.GetIpv6 | backend/inband-traceroute-common/src/lib.rs:97-104 | Some iff the stored version is IPV6, and then the 16 stored bytes |
| Common.AbsentAddressIsNone | backend/inband-traceroute-common/src/lib.rs:80-104 | a config built without an address of a family reports no address of that family |
| Common.GetIpv4OfNewV4 | backend/inband-traceroute-common/src/lib.rs:88-95 | building with `new_v4(o)` and reading back gives `from_le_bytes(o)` |
| Common.GetIpv6OfNewV6 | backend/inband-traceroute-common/src/lib.rs:97-104 | building with `new_v6(a)` and reading back gives `a` |
| Common.EventTypeFromByte | backend/inband-traceroute-common/src/lib.rs:18-24 | only the discriminants 0, 1 and 2 decode, each to the event type it encodes |
| Common.EncodeIPAddr | backend/inband-traceroute-common/src/lib.rs:35-41 | the packed `IPAddr` is 17 bytes |
| Common.EncodeSocketAddr | backend/inband-traceroute-common/src/lib.rs:64-69 | the packed `SocketAddr` is 19 bytes |
| Common.EncodeConfig | backend/inband-traceroute-common/src/lib.rs:71-77 | the packed `EbpfConfig` is 36 bytes |
| Common.EncodeTraceEvent | backend/inband-traceroute-common/src/lib.rs:5-16 | the packed `TraceEvent` is 40 bytes |
| Common.IPAddrRoundTrip | backend/inband-traceroute-common/src/lib.rs:35-41 | decoding an encoded `IPAddr` gives it back |
| Common.SocketAddrRoundTrip | backend/inband-traceroute-common/src/lib.rs:64-69 | decoding an encoded `SocketAddr` gives it back |
| Common.ConfigRoundTrip | backend/inband-traceroute-common/src/lib.rs:71-77 | decoding an encoded `EbpfConfig` gives it back |
| Common.TraceEventRoundTrip | backend/inband-traceroute-common/src/lib.rs:5-16 | decoding an encoded `TraceEvent` gives it back, so events cross the perf buffer intact |
| Common.SocketAddrKeyBytes | backend/inband-traceroute-common/src/lib.rs:64-69 | two socket addresses have the same key bytes in `TRACES` iff they are equal |
| LegacyCommon.VersionFromByte | inband-traceroute-common/src/lib.rs:22-28 | only 4 and 6 decode, and there is no EMPTY version |
| LegacyCommon.NewV4 | inband-traceroute-common/src/lib.rs:39-48 | version IPV4, the octets in bytes 0..4, the other 12 bytes zero |
| LegacyCommon.BuildV4 | inband-traceroute-common/src/lib.rs:39-48 | the in-place zero-fill and copy build exactly `NewV4` |
| LegacyCommon.NewV6 | inband-traceroute-common/src/lib.rs:50-56 | version IPV6 and all 16 bytes unchanged |
| LegacyCommon.DefaultIsUnspecifiedV4 | inband-traceroute-common/src/lib.rs:22-36 | the default address is the IPv4 address 0.0.0.0, with discriminant 4 |
| LegacyCommon.EventTypeFromByte | inband-traceroute-common/src/lib.rs:15-20 | only TcpAck (0) and TcpRst (1) decode |
| LegacyCommon.EncodeIPAddr | inband-traceroute-common/src/lib.rs:30-36 | the packed `IPAddr` is 17 bytes |
| LegacyCommon.EncodeSocketAddr | inband-traceroute-common/src/lib.rs:61-66 | the packed `SocketAddr` is 19 bytes |
| LegacyCommon.EncodeTraceEvent | inband-traceroute-common/src/lib.rs:5-13 | the packed `TraceEvent` is 14 bytes |
| LegacyCommon.IPAddrRoundTrip | inband-traceroute-common/src/lib.rs:30-36 | decoding an encoded `IPAddr` gives it back |
| LegacyCommon.SocketAddrRoundTrip | inband-traceroute-common/src/lib.rs:61-66 | decoding an encoded `SocketAddr` gives it back |
| LegacyCommon.TraceEventRoundTrip | inband-traceroute-common/src/lib.rs:5-13 | decoding an encoded `TraceEvent` gives it back |
| Classifier.PtrAt | backend/inband-traceroute-ebpf/src/main.rs:258-270 | fails exactly when offset + size exceeds the frame length, and otherwise yields the size bytes at offset |
| Classifier.InbandTraceroute | backend/inband-traceroute-ebpf/src/main.rs:42-49 | ABORTED iff the classification failed, and then nothing is emitted; PASS otherwise, emitting exactly the classified event; never DROP |
| Classifier.MissingConfigAborts | backend/inband-traceroute-ebpf/src/main.rs:54 | without a configuration every frame is ABORTED |
| Classifier.V4DestinationMatch | backend/inband-traceroute-ebpf/src/main.rs:65-71 | the little-endian compare with `get_ipv4` holds iff an IPv4 address is configured and equals the 4 destination bytes |
| Classifier.ForUsReachesLayer4 | backend/inband-traceroute-ebpf/src/main.rs:64-94 | a frame addressed to us reaches the layer-4 match with its IP version, protocol, layer-4 offset and source address |
| Classifier.NotForUsIgnored | backend/inband-traceroute-ebpf/src/main.rs:64-94 | a frame with a complete network header that is not IPv4/IPv6 or not addressed to us passes with no event |
| Classifier.OtherProtocolIgnored | backend/inband-traceroute-ebpf/src/main.rs:252-254 | a layer-4 protocol other than TCP, ICMP and ICMPv6 passes with no event |
| Classifier.TcpClassification | backend/inband-traceroute-ebpf/src/main.rs:97-138 | an event is emitted iff the destination port is ours, ACK or RST is set and the sender is in `TRACES`; it is TcpAck whenever ACK is set and carries the registered id, the big-endian ack/seq, TTL 0 and the sender |
| Classifier.IcmpV4Classification | backend/inband-traceroute-ebpf/src/main.rs:139-194 | an event is emitted iff the type is 11, the quoted packet is TCP from our address and port, and its destination is in `TRACES`; its TTL is the low byte of the quoted Identification |
| Classifier.IcmpV6Classification | backend/inband-traceroute-ebpf/src/main.rs:195-251 | an event is emitted iff the type is 3, the quoted packet is TCP from our IPv6 address and port, and its destination is in `TRACES`; its TTL is `flow_label[2]` and its version IPV6 |
| Classifier.EventsCarryRegisteredIds | backend/inband-traceroute-ebpf/src/main.rs:111-120 | every emitted event carries a trace id stored in `TRACES` |
| Classifier.LongFramesPass | backend/inband-traceroute-ebpf/src/main.rs:258-270 | a frame long enough for the deepest read is never ABORTED when a configuration exists |
| Classifier.ExtendingClassifiedFrame | backend/inband-traceroute-ebpf/src/main.rs:258-270 | bytes after a frame that classified without error do not change its result |
| LegacyClassifier.InbandTraceroute | inband-traceroute-ebpf/src/main.rs:40-46 | ABORTED iff the classification failed, and then nothing is emitted; PASS otherwise, emitting exactly the classified event |
| LegacyClassifier.MissingConfigAborts | inband-traceroute-ebpf/src/main.rs:51 | without a configuration every frame is ABORTED |
| LegacyClassifier.Forget | inband-traceroute-ebpf/src/main.rs:115-127 | the older event keeps every field of the current one (id, ack_seq, seq, type, IP version, TTL and address) and drops only the arrival time |
| LegacyClassifier.Layer4Agrees | inband-traceroute-ebpf/src/main.rs:93-193 | for every protocol but ICMPv6 the older layer-4 match gives the current result without arrival time |
| LegacyClassifier.AgreesExceptIcmpV6 | inband-traceroute-ebpf/src/main.rs:50-194 | outside ICMPv6 the older classifier agrees with the current one, bounds failures included |
| LegacyClassifier.IcmpV6Ignored | inband-traceroute-ebpf/src/main.rs:190-192 | an ICMPv6 message addressed to us produces no event in this version |
| LegacyClassifier.LongFramesPass | inband-traceroute-ebpf/src/main.rs:196-208 | a frame long enough for the deepest read is never ABORTED when a configuration exists |
| Tracer.StdIpToEbpf | backend/inband-traceroute/src/tracer.rs:171-176 | IPv4 becomes version IPV4 with its octets and 12 zero bytes; IPv6 keeps its 16 octets |
| Tracer.StdSocketToEbpf | backend/inband-traceroute/src/tracer.rs:178-183 | keeps the port and converts the address |
| Tracer.EbpfToStd | backend/inband-traceroute/src/tracer.rs:185-196 | panics exactly on an EMPTY address; IPv4 reads bytes 0..4 and IPv6 all 16 |
| Tracer.IpRoundTrip | backend/inband-traceroute/src/tracer.rs:171-196 | converting a standard address to the wire form and back is the identity |
| Tracer.WireRoundTrip | backend/inband-traceroute/src/tracer.rs:171-196 | a non-EMPTY wire address survives the trip back iff it is IPv6 or its bytes 4..16 are zero |
| Tracer.KeyInjective | backend/inband-traceroute/src/tracer.rs:178-183 | two remotes that differ in address or port get different `TRACES` keys, and equal remotes the same key |
| Tracer.OutboundProbe | backend/inband-traceroute/src/tracer.rs:93-141 | panics iff the families differ; the TTL/hop limit is ttl, so is the IPv4 Identification or IPv6 flow label; TCP PSH+ACK with the given sequence and acknowledgment |
| Tracer.QuotedIpv4ProbeClassified | backend/inband-traceroute/src/tracer.rs:98-106 | when an ICMP Time Exceeded message quotes our IPv4 probe, the classifier reports the trace registered for the remote, with the probe's TTL; the quoted header may carry any TTL and type of service, as a router decrements and may rewrite them |
| Tracer.QuotedIpv6ProbeClassified | backend/inband-traceroute/src/tracer.rs:117-128 | when an ICMPv6 Time Exceeded message quotes our IPv6 probe, the classifier reports the trace registered for the remote, with the probe's TTL; the quoted header may carry any hop limit and traffic class |
| HopStream.SeqBefore | backend/inband-traceroute/src/tracer.rs:282 | the sent sequence number is one before the acknowledged one modulo 2^32; panics iff checked and ack_seq is 0 |
| HopStream.Rtt | backend/inband-traceroute/src/tracer.rs:321 | the RTT added to the send time is the arrival; panics iff checked and the event arrived before the send time |
| HopStream.Trace | backend/inband-traceroute/src/tracer.rs:266-356 | fails iff the first receive is not a TcpAck (a panic if it is another event, an error if it timed out); otherwise the stream starts with the Origin hop |
| HopStream.TraceShape | backend/inband-traceroute/src/tracer.rs:272-352 | after the Origin hop the probes go out for TTLs 1, 2, … never past max_hops; hop TTLs never decrease and lie between 1 and the last probed TTL; a Timeout hop advances the TTL; TcpAck/TcpRst hops come last; a stream without one has probed every TTL |
| HopStream.FromTtlShape | backend/inband-traceroute/src/tracer.rs:279-352 | the stream from any TTL on keeps that shape |
| HopStream.ProbeThenWait | backend/inband-traceroute/src/tracer.rs:279-291 | each TTL sends one probe with sequence ack_seq - 1 and acknowledgment seq, then waits |
| HopStream.WaitTimeout | backend/inband-traceroute/src/tracer.rs:299-308 | a receive timeout yields one Timeout hop without address or RTT and moves to the next TTL |
| HopStream.WaitIcmp | backend/inband-traceroute/src/tracer.rs:316-324 | an ICMP Time Exceeded event yields a hop with the sender's address and stays at the same TTL |
| HopStream.WaitIcmpFails | backend/inband-traceroute/src/tracer.rs:320-321 | an EMPTY address or a checked RTT underflow in an ICMP event ends the stream with that panic |
| HopStream.WaitFinal | backend/inband-traceroute/src/tracer.rs:325-349 | a TcpRst, or a TcpAck whose ack_seq - 1 is the sent sequence, yields the final hop with the remote's address |
| HopStream.WaitOtherAck | backend/inband-traceroute/src/tracer.rs:335-338 | any other ACK yields nothing and only replaces ack_seq and seq |
| HopStream.WaitAckFails | backend/inband-traceroute/src/tracer.rs:326 | an ACK with ack_seq 0 panics in a checked build |
| HopStream.WaitEnds | backend/inband-traceroute/src/tracer.rs:325-349 | a final event ends the stream with exactly one terminal hop for this TTL carrying the remote address, and no further probe |
| HopStream.TimedOut | backend/inband-traceroute/src/tracer.rs:299-308 | after a timeout the hops so far are followed by the Timeout hop and the next TTL |
| HopStream.Receive | backend/inband-traceroute/src/tracer.rs:310-350 | one receive yields at most one hop and either ends the stream or continues it, as `Wait` says |
| HopStream.WaitForTtl | backend/inband-traceroute/src/tracer.rs:293-351 | the inner loop's hops, updated ack_seq/seq and end are exactly those of `Wait` |
| HopStream.HopStreamInternal | backend/inband-traceroute/src/tracer.rs:266-356 | the nested loops compute exactly `Trace` |
| HopStream.DedupKeepsFirst | backend/inband-traceroute/src/tracer.rs:363-370 | the filter keeps, for each TTL seen, exactly its first hop, once, in order of first appearance |
| HopStream.DedupHops | backend/inband-traceroute/src/tracer.rs:360-371 | the loop over a per-TTL slot buffer of size max_hops + 1 forwards exactly `Dedup` |
| HopStream.HopStream | backend/inband-traceroute/src/tracer.rs:358-376 | the filtered stream is the internal stream with only the first hop per TTL, and its failures are passed on; it runs over the corrected buffer of max_hops + 1 slots from Findings row 1, since as written any hop at TTL max_hops panics (`ReachingMaxHopsPanicsAsWritten`) |
| HopStream.CorrectedNeverPanics | backend/inband-traceroute/src/tracer.rs:279-352 | with wrapping ack_seq - 1 and no RTT when the arrival precedes the send time, a same-family trace whose ICMP events carry addresses always completes |
| HopStream.CorrectedFromTtl | backend/inband-traceroute/src/tracer.rs:279-352 | under the corrected arithmetic the stream from any TTL completes |
| HopStream.AckUnderflowAsWritten | backend/inband-traceroute/src/tracer.rs:282 | an initial ACK with ack_seq 0 makes the checked stream panic before any probe |
| HopStream.AckUnderflowCorrected | backend/inband-traceroute/src/tracer.rs:282 | the same trace with wrapping arithmetic sends its probe with sequence 0xFFFFFFFF and completes |
| HopStream.EarlyArrivalAsWritten | backend/inband-traceroute/src/tracer.rs:321 | an ICMP event stamped before the send time makes the checked stream panic |
| HopStream.EarlyArrivalCorrected | backend/inband-traceroute/src/tracer.rs:321 | the same trace, with no RTT when the arrival precedes the send time, yields the ICMP hop without RTT and completes |
| HopStream.DedupAsWritten | backend/inband-traceroute/src/tracer.rs:360-366 | with a buffer of size n the filter completes iff every TTL is below n, and then equals `Dedup` |
| HopStream.ShortBufferAsWritten | backend/inband-traceroute/src/tracer.rs:360-365 | with max_hops 1, a single timeout produces a TTL-1 hop that indexes past the buffer of length 1 |
| HopStream.ReachingMaxHopsPanicsAsWritten | backend/inband-traceroute/src/tracer.rs:360-365 | every trace with a hop at TTL max_hops panics in the filter as written |
| HopStream.BufferFits | backend/inband-traceroute/src/tracer.rs:360 | a buffer of max_hops + 1 slots always suffices and yields `Dedup` |
| Registry.CollisionLoopNeverExitsAsWritten | backend/inband-traceroute/src/tracer.rs:228-231 | if the first id drawn collides, the loop condition keeps testing that id however many ids are drawn into the handle |
| Registry.TraceRegistry.FreshId | backend/inband-traceroute/src/tracer.rs:228-233 | the corrected loop stops at the first drawn id that is not in use |
| Registry.TraceRegistry.Register | backend/inband-traceroute/src/tracer.rs:233-243 | records the handle under its id, and under its key in `TRACES` when the insert succeeds |
| Registry.TraceRegistry.StartTrace | backend/inband-traceroute/src/tracer.rs:210-247 | uses the first free id; returns the new handle iff the shared `TRACES` accepted the key (already present, or its own entries plus the other family's tracer's entries below 1024), else "failed to register trace"; keeps the registry invariant |
| Registry.StartedKeepsInv | backend/inband-traceroute/src/tracer.rs:210-247 | starting a trace with an unused id keeps ids, handles and keys consistent and `TRACES` within 1024 entries |
| Registry.TraceRegistry.constructor | backend/inband-traceroute/src/tracer.rs:78 | a new tracer has no traces and an empty `TRACES` |
| Registry.TraceRegistry.Drop | backend/inband-traceroute/src/tracer.rs:379-386 | dropping a handle makes it dead at once and changes nothing else |
| Registry.TraceRegistry.Unregister | backend/inband-traceroute/src/tracer.rs:387-400 | the deferred job removes the handle's key from `TRACES` and its id from the table |
| Registry.TraceRegistry.ProcessEvent | backend/inband-traceroute/src/tracer.rs:154-168 | an event is appended to its trace's deliveries iff its id is registered and the handle is alive; nothing else changes |
| Registry.Recipient | backend/inband-traceroute/src/tracer.rs:158-166 | an event has a recipient iff its id is registered to a live handle, and it is that handle |
| Registry.LiveIdsDistinct | backend/inband-traceroute/src/tracer.rs:228-233 | two live handles never share a trace id |
| Registry.ClassifiedEventsFindTheirTrace | backend/inband-traceroute-ebpf/src/main.rs:111-120 | every event the classifier emits from the registry's `TRACES` names a registered trace |
| ReverseDns.Nibbles | backend/inband-traceroute/src/dns.rs:57-60 | two nibbles per octet, each below 16 |
| ReverseDns.Reverse | backend/inband-traceroute/src/dns.rs:63 | element i of the result is element n-1-i of the input |
| ReverseDns.NibbleLabels | backend/inband-traceroute/src/dns.rs:57-63 | 32 labels, each one lowercase hex digit |
| ReverseDns.Labels | backend/inband-traceroute/src/dns.rs:48-66 | 7 labels for IPv4 and 35 for IPv6, the last one empty (6 and 34 names plus the root) |
| ReverseDns.PtrNameIsJoin | backend/inband-traceroute/src/dns.rs:48-66 | the name is its labels joined by "." |
| ReverseDns.PtrNameLabels | backend/inband-traceroute/src/dns.rs:48-66 | splitting the name on "." gives the labels back, and the name ends in "." |
| ReverseDns.FromNibblesInverse | backend/inband-traceroute/src/dns.rs:57-60 | regrouping the nibbles gives the octets back |
| ReverseDns.ReadNibbleLabels | backend/inband-traceroute/src/dns.rs:57-64 | reading the hex labels gives the nibbles back |
| ReverseDns.OctetRoundTrip | backend/inband-traceroute/src/dns.rs:53 | parsing a printed octet gives it back |
| ReverseDns.ParsePtrNameRoundTrip | backend/inband-traceroute/src/dns.rs:48-66 | reading a name back in reverse recovers the address |
| ReverseDns.PtrNameInjective | backend/inband-traceroute/src/dns.rs:48-66 | two addresses have the same name iff they are equal |
| ReverseDns.PtrNameValid | backend/inband-traceroute/src/dns.rs:67 | the name is absolute, with non-empty labels of at most 63 characters; at most 29 characters for IPv4 and exactly 73 for IPv6 |
| ReverseDns.ExampleV4 | backend/inband-traceroute/src/dns.rs:82-87 | 1.2.3.4 gives "4.3.2.1.in-addr.arpa." |
| ReverseDns.ExampleV6 | backend/inband-traceroute/src/dns.rs:89-99 | 2001:db8::1 gives the 32 reversed nibble labels followed by ip6, arpa and the root, that is the name "1.0.0.0.0.0.0.0.0.0.0.0.0.0.0.0.0.0.0.0.0.0.0.0.8.b.d.0.1.0.0.2.ip6.arpa." |
| Text.Decimal | backend/inband-traceroute/src/dns.rs:53 | a non-empty string of digits with no leading zero |
| Text.DecimalRoundTrip | backend/inband-traceroute/src/dns.rs:53 | parsing a printed number gives it back |
| Text.DecimalInjective | backend/inband-traceroute/src/hop.rs:68 | two numbers print the same iff they are equal |
| Text.HexRoundTrip | backend/inband-traceroute/src/dns.rs:61 | reading a printed hex digit gives its value back |
| Text.SplitJoin | backend/inband-traceroute/src/dns.rs:64 | splitting a join of separator-free parts gives the parts back |
| Text.JoinLength | backend/inband-traceroute/src/dns.rs:64 | joining k parts of length m gives k·m + k - 1 characters |
| Hops.New | backend/inband-traceroute/src/hop.rs:49-63 | keeps ttl, type, address and RTT; no enrichment without an address, else the lookup of that address |
| Hops.LabelsDistinct | backend/inband-traceroute/src/hop.rs:27-37 | the five labels differ, already in their first seven characters |
| Hops.MillisBounds | backend/inband-traceroute/src/hop.rs:73 | the printed milliseconds are the RTT in nanoseconds divided by 10^6, rounded down |
| Hops.DisplayLayout | backend/inband-traceroute/src/hop.rs:66-77 | "{ttl}: {type}" first; " from {addr}" next iff there is an address; " (rtt Nms)" at the end when there is an RTT; nothing else |
| Hops.DisplaySplit | backend/inband-traceroute/src/hop.rs:68 | the text is the TTL, ": ", then a rest starting with the type's label |
| Hops.DisplayDeterminesHead | backend/inband-traceroute/src/hop.rs:66-77 | two hops that print the same have the same TTL and type |
| LegacyHops.Current | inband-traceroute/src/hop.rs:14-24 | every older hop type prints the same label as its current counterpart |
| LegacyHops.LabelsDistinct | inband-traceroute/src/hop.rs:14-24 | the five labels are distinct |
| LegacyHops.AgreesWithCurrent | inband-traceroute/src/hop.rs:33-41 | an older hop prints as the current hop without RTT, "{ttl}: {type}" plus " from {addr}" iff it has an address; its RTT is never printed |
| Server.CorsAllowed | backend/inband-traceroute/src/server.rs:148-161 | an origin starting with "http://localhost:", ending in ".inband-traceroute.net", or equal to "https://inband-traceroute.net" is allowed |
| Server.CorsRejects | backend/inband-traceroute/src/server.rs:148-161 | every other origin is rejected |
| Server.LocalhostAnyPort | backend/inband-traceroute/src/server.rs:151-153 | localhost with any port text is allowed |
| Server.SubdomainAnyScheme | backend/inband-traceroute/src/server.rs:155 | any origin ending in ".inband-traceroute.net" is allowed, whatever its scheme |
| Server.PlainHttpSiteRejected | backend/inband-traceroute/src/server.rs:155-158 | "http://inband-traceroute.net" is rejected |
| Server.LocalhostWithoutPortRejected | backend/inband-traceroute/src/server.rs:151 | "http://localhost" without a port colon is rejected |
| Server.LookAlikeRejected | backend/inband-traceroute/src/server.rs:155-158 | a look-alike host that only contains the site name is rejected |
| Server.Domains | backend/inband-traceroute/src/server.rs:134-138 | the configured domain first; "ipv4."+domain and "ipv6."+domain after it iff the subdomain option is set |
| Server.GetTracer | backend/inband-traceroute/src/server.rs:44-50 | the v4 tracer for a V4 remote and the v6 tracer for a V6 remote; a panic iff that tracer is absent |
| Server.SelectedTracerSameFamily | backend/inband-traceroute/src/server.rs:44-50 | when each tracer listens in its own family, the selected tracer matches the remote's family |
| Server.EmissionsOrder | backend/inband-traceroute/src/server.rs:65-85 | hops are sent in stream order; one lookup is spawned per hop with an address, right after that hop was sent |
| Server.Relay | backend/inband-traceroute/src/server.rs:65-85 | the relay loop emits exactly these steps, and panics if the hop stream failed to start |
| TraceApi.GetNodeUrl | frontend/src/services/traceApi.ts:87-91 | "https://", "ipv4." or "ipv6.", the DNS name verbatim, "/sse" |
| TraceApi.UrlRoundTrip | frontend/src/services/traceApi.ts:87-91 | the DNS name and the IP version can be read back from the URL |
| TraceApi.VersionsDifferOnlyInPrefix | frontend/src/services/traceApi.ts:89-90 | a node's two URLs differ, in the version digit only |
| TraceConnections.ProtoKey | frontend/src/services/traceConnection.ts:21 | 'ipv4' iff the protocol is IPv4 |
| TraceConnections.TraceConnection.constructor | frontend/src/services/traceConnection.ts:8-18 | no stream, empty tables, no listeners |
| TraceConnections.TraceConnection.Connect | frontend/src/services/traceConnection.ts:20-23 | opens the stream at the node's URL for its protocol and changes nothing else |
| TraceConnections.ConnectUrl | frontend/src/services/traceConnection.ts:20-23 | the stream URL names the node and the connection's IP version |
| TraceConnections.TraceConnection.OnMessage | frontend/src/services/traceConnection.ts:24-39 | a Hop replaces the entry for its TTL; a ReverseDns result is recorded under exactly the TTLs whose hop address matches; both publish; any other message changes and publishes nothing |
| TraceConnections.TraceConnection.AttachReverseDns | frontend/src/services/traceConnection.ts:32-36 | the loop records the result under every matching TTL and leaves the other entries alone |
| TraceConnections.TraceConnection.OnError | frontend/src/services/traceConnection.ts:40-44 | closes and clears the stream and publishes once with the tables unchanged |
| TraceConnections.TraceConnection.Disconnect | frontend/src/services/traceConnection.ts:47-50 | clears the stream without publishing |
| TraceConnections.TraceConnection.OnUpdate | frontend/src/services/traceConnection.ts:52-54 | appends the listener and changes nothing else |
| TraceConnections.TraceConnection.Publish | frontend/src/services/traceConnection.ts:56-63 | each listener, in registration order, gets one snapshot of the hops and a copy of the reverse-DNS table |
| TraceConnections.SortedEntries | frontend/src/services/traceConnection.ts:57-59 | one (ttl, hop) pair per stored TTL, in strictly descending TTL order |
| TraceConnections.SnapshotUnique | frontend/src/services/traceConnection.ts:57-59 | there is only one such listing, so every publish of the same table gives the same hops |
| TraceConnections.InsertDescendingCorrect | frontend/src/services/traceConnection.ts:57-59 | inserting a new TTL keeps the listing descending and adds exactly that entry |
| TraceConnections.DeliveriesAreSnapshots | frontend/src/services/traceConnection.ts:61 | a publish never changes an earlier delivery |
| TraceConnections.ListenersAgree | frontend/src/services/traceConnection.ts:60-62 | all listeners of one publish get the same hops |
| TraceConnections.HopVisibleOnce | frontend/src/services/traceConnection.ts:26-29 | after a Hop message, its TTL appears exactly once in the snapshot, with that hop |

## Left out

- Sockets and I/O are not modelled:
  - the raw socket and its `send_to`;
  - etherparse's packet serialisation and checksums (the classifier lemmas take the quoted header bytes as given);
  - the perf-buffer readers, loading and attaching the XDP program;
  - the axum/SSE/CORS layer mechanics, rustls and ACME, including the panic of `tx.send(..).unwrap()` in the relay (backend/inband-traceroute/src/server.rs:69-81) once the client has disconnected and the SSE receiver is dropped;
  - `index_handler`'s HTML stream;
  - the CLI.
- The DNS client (`ReverseDnsProvider::new` and `reverse_lookup`) is not modelled. Only the owner name is.
- `Name::from_str(..).expect(..)` is not modelled: the hickory parser is outside the repository. `ReverseDns.PtrNameValid` proves the name is a well-formed absolute name instead.
- Concurrency is not modelled:
  - Tokio locks and `timeout`;
  - the mpsc channel, which is replaced by a scripted sequence of receive outcomes (`None` is a timeout, and an exhausted script times out forever);
  - the interleaving of spawned reverse-lookup tasks with later hops;
  - the spawned unregistration in `Drop`, which is a separate `Unregister` step.
- The 5-second timeout on the initial ACK is not modelled: it is the first scripted receive.
- Clocks are parameters. Arrival times come with the events, and the clock reading after each probe is the function `sentAt`.
- `OsRng` is replaced by a stream of draws `draws(k)`. `StartTrace` requires that some draw is free, which an OS random generator provides with probability 1.
- Hops.New: the database lookup is a total function, so the `unwrap` of its result at backend/inband-traceroute/src/hop.rs:61, which panics on a database read error, is not modelled. HopStream.CorrectedNeverPanics therefore holds only for a lookup that does not fail.
- The MaxMind lookup in `Hop::new` is a function parameter, and the address text in `Hop` Display is one too. `enriched_info` is not carried into the front end's hop message.
- The front end's `JSON.parse`, its exceptions and `EventSource` are not modelled. Messages arrive as already-parsed `Msg` values, and a listener is an identifier whose deliveries are recorded. `fetchNodes` is not modelled either.
- Listener re-entrancy is not modelled: a listener that calls back into the connection.
- `Connect` models the source as written, which does not close a stream opened earlier. Only the handle is replaced.
- Net.SocketAddr drops the IPv6 flow information and scope id that the standard `SocketAddrV6` carries and compares. `std_socket_addr_to_ebpf` discards them too, so two remotes that differ only there share a `TRACES` key. Tracer.KeyInjective is therefore stated over address and port only.
- Registry.TraceRegistry.StartTrace: the other family's tracer's share of the shared `TRACES` map is the count `others`, given to each call; the two tracers' interleaving is not modelled, and `Registry.Inv` bounds only this tracer's share by 1024.
- Only the little-endian host is modelled for the IPv4 comparisons in the classifier.
- LegacyClassifier borrows `Common`'s `EbpfConfig`, `IPVersion.EMPTY`, `IcmpTimeExceeded` and the event's `ttl`/`addr` fields. The older program uses these names, but the older common crate (inband-traceroute-common/src/lib.rs:5-28) does not define them.
- Server.CorsAllowed works on origins as strings with one character per byte. The source compares the `&[u8]` bytes of the header; byte values are not otherwise modelled.
- `Tracer::new` is not modelled: it only creates the socket.
- HopStream.Trace models only a build with overflow checks (`Checked`). In a release build the two underflows wrap instead: `ack_seq - 1` then behaves as `Corrected`, while `arrival - sent_time` gives a huge RTT rather than none.

## Findings

| source | as written | input that shows it | evidently intended | confidence | as-written member | corrected member |
|---|---|---|---|---|---|---|
| backend/inband-traceroute/src/tracer.rs:360-365 | `trace` has `max_hops` slots but is indexed by hop TTLs up to `max_hops` | max_hops 1 and a first probe that times out: the Timeout hop has TTL 1 and `trace[1]` is out of bounds, a panic | `max_hops + 1` slots, one per TTL 0..=max_hops | high, not executed | HopStream.ShortBufferAsWritten | HopStream.DedupHops |
| backend/inband-traceroute/src/tracer.rs:282 | `ack_seq - 1` on a `u32` (also `event.ack_seq - 1` at line 326) | an initial ACK whose ack_seq is 0: a build with overflow checks panics before the first probe | wrapping subtraction, which is sequence-number arithmetic | medium, not executed | HopStream.AckUnderflowAsWritten | HopStream.CorrectedNeverPanics |
| backend/inband-traceroute/src/tracer.rs:321 | `event.arrival - sent_time` on a `u64` (also at lines 331 and 345) | an ICMP event stamped at 5 for a probe whose send time was read as 10: the subtraction underflows | no RTT, or zero, when the event predates the clock reading | medium, not executed | HopStream.EarlyArrivalAsWritten | HopStream.EarlyArrivalCorrected |
| backend/inband-traceroute/src/tracer.rs:229-233 | the loop tests the local `trace_id`, which it never changes, and the insert at 233 uses it too | a first draw that is already in use: the loop spins forever drawing new ids into the handle | test and insert the id last drawn | high, not executed | Registry.CollisionLoopNeverExitsAsWritten | Registry.TraceRegistry.StartTrace |
