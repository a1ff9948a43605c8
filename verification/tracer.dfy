/**
 * The pure parts of the user-space tracer (`tracer.rs`): the conversions
 * between the standard library's addresses and the wire `IPAddr` /
 * `SocketAddr` used as TRACES keys, and the header fields of the probe that
 * `send_outbound_packet` builds for one TTL.  Building the bytes and sending
 * them is done by a foreign library; the fields the classifier later reads
 * back from a quoted probe are laid out here by RFC 791 section 3.1, RFC 8200
 * section 3 and RFC 9293 section 3.1.
 */
module Tracer {
  import opened Wrappers
  import opened Bytes
  import opened Common
  import Net
  import Classifier

  // ----- address conversions -----

  /** `std_ipaddr_to_ebpf`: IPv4 octets padded with zeros, IPv6 octets as they are. */
  function StdIpToEbpf(a: Net.IpAddr): (r: IPAddr)
    ensures a.V4? ==> r.ipVersion == IPV4 && r.addr[..4] == a.octets4 && r.addr[4..] == Zeros(12)
    ensures a.V6? ==> r.ipVersion == IPV6 && r.addr == a.octets16
  {
    match a
    case V4(o) => NewV4(o)
    case V6(o) => NewV6(o)
  }

  /** `std_socket_addr_to_ebpf`: the TRACES key of a remote socket address. */
  function StdSocketToEbpf(s: Net.SocketAddr): (r: SocketAddr)
    ensures r.port == s.port && r.addr == StdIpToEbpf(s.ip)
  {
    SocketAddr(s.port, StdIpToEbpf(s.ip))
  }

  /** `ebpf_to_std_ipaddr`: the first four bytes for IPV4, all sixteen for IPV6; EMPTY panics. */
  function EbpfToStd(a: IPAddr): (r: Result<Net.IpAddr>)
    ensures r.Err? <==> a.ipVersion == EMPTY
    ensures r.Err? ==> r.failure.Panic?
    ensures a.ipVersion == IPV4 ==> r == Ok(Net.V4(a.addr[..4]))
    ensures a.ipVersion == IPV6 ==> r == Ok(Net.V6(a.addr))
  {
    match a.ipVersion
    case IPV4 =>
      assert [a.addr[0], a.addr[1], a.addr[2], a.addr[3]] == a.addr[..4];
      Ok(Net.V4([a.addr[0], a.addr[1], a.addr[2], a.addr[3]]))
    case IPV6 => Ok(Net.V6(a.addr))
    case EMPTY => Err(Panic("Empty IP address"))
  }

  /** Converting an address to the wire form and back gives the address. */
  lemma IpRoundTrip(a: Net.IpAddr)
    ensures EbpfToStd(StdIpToEbpf(a)) == Ok(a)
  {
  }

  /**
   * Converting a wire address to a standard address and back gives the wire
   * address exactly when it is IPv6 or an IPv4 address whose padding is zero.
   */
  lemma WireRoundTrip(x: IPAddr)
    requires x.ipVersion != EMPTY
    ensures StdIpToEbpf(EbpfToStd(x).value) == x <==> x.ipVersion == IPV6 || x.addr[4..] == Zeros(12)
  {
    if x.ipVersion == IPV4 && x.addr[4..] == Zeros(12) {
      assert x.addr == x.addr[..4] + x.addr[4..];
    }
  }

  /** Remotes that differ in address or port get different TRACES keys. */
  lemma KeyInjective(a: Net.SocketAddr, b: Net.SocketAddr)
    ensures StdSocketToEbpf(a) == StdSocketToEbpf(b) <==> a == b
  {
    if StdSocketToEbpf(a) == StdSocketToEbpf(b) {
      IpRoundTrip(a.ip);
      IpRoundTrip(b.ip);
    }
  }

  // ----- the probe -----

  const PROTO_TCP: byte := 6
  const WINDOW: u16 := 0xffff

  datatype IpHeader =
    | Ipv4Header(timeToLive: byte, identification: u16, dontFragment: bool, protocol: byte,
                 source: Octets4, destination: Octets4)
    | Ipv6Header(hopLimit: byte, flowLabel: nat, nextHeader: byte, source6: Octets16, destination6: Octets16)

  /** The TCP header fields the probe sets; every other flag is clear and there are no options. */
  datatype TcpHeader = TcpHeader(sourcePort: u16, destinationPort: u16, sequenceNumber: u32,
                                 acknowledgmentNumber: u32, windowSize: u16, psh: bool, ack: bool)

  /** A probe: its headers, its one-byte payload and the address it is sent to. */
  datatype Probe = Probe(ip: IpHeader, tcp: TcpHeader, payload: seq<byte>, sendTo: Net.SocketAddr)

  /** The TTL (IPv4) or hop limit (IPv6) the probe is sent with. */
  function SentTtl(h: IpHeader): byte
  {
    if h.Ipv4Header? then h.timeToLive else h.hopLimit
  }

  /**
   * The header fields of `send_outbound_packet(remote, ttl, seq, seq_ack)`
   * on a tracer listening on listen; mixing address families panics.
   */
  function OutboundProbe(listen: Net.SocketAddr, remote: Net.SocketAddr, ttl: byte, seqNum: u32, ackNum: u32): (r: Result<Probe>)
    ensures r.Err? <==> listen.ip.V4? != remote.ip.V4?
    ensures r.Err? ==> r.failure.Panic?
    ensures r.Ok? ==> SentTtl(r.value.ip) == ttl
    ensures r.Ok? ==> (r.value.ip.Ipv4Header? <==> remote.ip.V4?)
    ensures r.Ok? && r.value.ip.Ipv4Header? ==>
      r.value.ip.identification == ttl as u16 && r.value.ip.dontFragment
      && r.value.ip.source == listen.ip.octets4 && r.value.ip.destination == remote.ip.octets4
      && r.value.sendTo == remote
    ensures r.Ok? && r.value.ip.Ipv6Header? ==>
      r.value.ip.flowLabel == ttl as nat
      && r.value.ip.source6 == listen.ip.octets16 && r.value.ip.destination6 == remote.ip.octets16
      && r.value.sendTo == Net.SocketAddr(remote.ip, 0)
    ensures r.Ok? ==>
      && r.value.tcp.sourcePort == listen.port && r.value.tcp.destinationPort == remote.port
      && r.value.tcp.sequenceNumber == seqNum && r.value.tcp.acknowledgmentNumber == ackNum
      && r.value.tcp.psh && r.value.tcp.ack
  {
    var tcp := TcpHeader(listen.port, remote.port, seqNum, ackNum, WINDOW, true, true);
    match (remote.ip, listen.ip)
    case (V4(dst), V4(src)) =>
      Ok(Probe(Ipv4Header(ttl, ttl, true, PROTO_TCP, src, dst), tcp, [0], remote))
    case (V6(dst), V6(src)) =>
      Ok(Probe(Ipv6Header(ttl, ttl, PROTO_TCP, src, dst), tcp, [0], Net.SocketAddr(remote.ip, 0)))
    case _ => Err(Panic("IP address family mismatch"))
  }

  function Be16(x: u16): (r: seq<byte>)
    ensures |r| == 2 && U16BE(r) == x
  {
    [x / 256, x % 256]
  }

  function Be32(x: u32): (r: seq<byte>)
    ensures |r| == 4
  {
    [x / 0x100_0000, (x / 0x1_0000) % 256, (x / 256) % 256, x % 256]
  }

  /**
   * The 20-byte IPv4 header (RFC 791 section 3.1) without options; the total
   * length and the checksum are filled in by the library and are parameters.
   * The probe is sent with type of service 0, but a router may rewrite it
   * (DSCP/ECN) before quoting the header, so it is a parameter too.
   */
  function EncodeIpv4(h: IpHeader, tos: byte, totalLength: u16, checksum: u16): (r: seq<byte>)
    requires h.Ipv4Header?
    ensures |r| == 20
  {
    [0x45, tos] + Be16(totalLength) + Be16(h.identification) + [if h.dontFragment then 0x40 else 0, 0]
    + [h.timeToLive, h.protocol] + Be16(checksum) + h.source + h.destination
  }

  /**
   * The 40-byte IPv6 header (RFC 8200 section 3); the payload length is
   * filled in by the library and is a parameter.  The probe is sent with
   * traffic class 0, but a router may rewrite it before quoting the header,
   * so it is a parameter too.
   */
  function EncodeIpv6(h: IpHeader, trafficClass: byte, payloadLength: u16): (r: seq<byte>)
    requires h.Ipv6Header? && h.flowLabel < 0x10_0000
    ensures |r| == 40
  {
    [0x60 + trafficClass / 16, (trafficClass % 16) * 16 + h.flowLabel / 0x1_0000, (h.flowLabel / 256) % 256, h.flowLabel % 256]
    + Be16(payloadLength) + [h.nextHeader, h.hopLimit] + h.source6 + h.destination6
  }

  /** The first 8 bytes of the TCP header: ports and sequence number. */
  function EncodeTcpFirst8(t: TcpHeader): (r: seq<byte>)
    ensures |r| == 8
  {
    Be16(t.sourcePort) + Be16(t.destinationPort) + Be32(t.sequenceNumber)
  }

  /**
   * A probe over IPv4 that comes back quoted in an ICMP Time Exceeded message
   * to the tracer is reported by the classifier under the trace registered
   * for the remote, with the probe's TTL.  The router quotes the header as it
   * arrived, with the TTL decremented (`quotedTtl`) and possibly a rewritten
   * type of service; the TTL is recovered from the Identification.
   */
  lemma QuotedIpv4ProbeClassified(listen: Net.SocketAddr, remote: Net.SocketAddr, ttl: byte, seqNum: u32, ackNum: u32,
                                  p: seq<byte>, cfg: EbpfConfig, traces: map<SocketAddr, u32>, arrival: u64,
                                  quotedTtl: byte, tos: byte, totalLength: u16, checksum: u16)
    requires listen.ip.V4? && remote.ip.V4?
    requires cfg.ipv4 == StdIpToEbpf(listen.ip) && cfg.port == listen.port
    requires Classifier.ForUs(p, cfg).Some? && Classifier.ForUs(p, cfg).value.proto == Classifier.PROTO_ICMP
    requires var l4 := Classifier.ForUs(p, cfg).value.l4;
      && |p| >= l4 + 36 && p[l4] == Classifier.ICMP_TYPE_TTL_EXCEEDED
      && p[l4 + 8..l4 + 28] == EncodeIpv4(OutboundProbe(listen, remote, ttl, seqNum, ackNum).value.ip.(timeToLive := quotedTtl), tos, totalLength, checksum)
      && p[l4 + 28..l4 + 36] == EncodeTcpFirst8(OutboundProbe(listen, remote, ttl, seqNum, ackNum).value.tcp)
    ensures var key := StdSocketToEbpf(remote);
      var r := Classifier.TryInbandTraceroute(p, Some(cfg), traces, arrival);
      && (key in traces ==> r.Ok? && r.value.Some? && r.value.value.traceId == traces[key] && r.value.value.ttl == ttl
                            && r.value.value.eventType == IcmpTimeExceeded)
      && (key !in traces ==> r == Ok(None))
  {
    var v := Classifier.ForUs(p, cfg).value;
    var q := v.l4 + 8;
    var probe := OutboundProbe(listen, remote, ttl, seqNum, ackNum).value;
    var ip := EncodeIpv4(probe.ip.(timeToLive := quotedTtl), tos, totalLength, checksum);
    var t := EncodeTcpFirst8(probe.tcp);
    Classifier.IcmpV4Classification(p, cfg, traces, arrival);
    assert ip[12..16] == listen.ip.octets4 && ip[16..20] == remote.ip.octets4;
    assert t[0..2] == Be16(listen.port) && t[2..4] == Be16(remote.port);
    Classifier.SliceOfSlice(p, q, q + 20, 12, 16);
    Classifier.SliceOfSlice(p, q, q + 20, 16, 20);
    Classifier.SliceOfSlice(p, q + 20, q + 28, 0, 2);
    Classifier.SliceOfSlice(p, q + 20, q + 28, 2, 4);
    assert p[q + 5] == ip[5] == ttl;
    assert p[q + 9] == ip[9] == PROTO_TCP;
  }

  /**
   * A probe over IPv6 that comes back quoted in an ICMPv6 Time Exceeded
   * message is reported under the trace registered for the remote, with the
   * probe's TTL read back from the flow label.  The quoted hop limit is the
   * decremented one (`quotedHopLimit`) and the traffic class may be rewritten.
   */
  lemma QuotedIpv6ProbeClassified(listen: Net.SocketAddr, remote: Net.SocketAddr, ttl: byte, seqNum: u32, ackNum: u32,
                                  p: seq<byte>, cfg: EbpfConfig, traces: map<SocketAddr, u32>, arrival: u64,
                                  quotedHopLimit: byte, trafficClass: byte, payloadLength: u16)
    requires listen.ip.V6? && remote.ip.V6?
    requires cfg.ipv6 == StdIpToEbpf(listen.ip) && cfg.port == listen.port
    requires Classifier.ForUs(p, cfg).Some? && Classifier.ForUs(p, cfg).value.proto == Classifier.PROTO_ICMPV6
    requires var l4 := Classifier.ForUs(p, cfg).value.l4;
      && |p| >= l4 + 56 && p[l4] == Classifier.ICMPV6_TYPE_TTL_EXCEEDED
      && p[l4 + 8..l4 + 48] == EncodeIpv6(OutboundProbe(listen, remote, ttl, seqNum, ackNum).value.ip.(hopLimit := quotedHopLimit), trafficClass, payloadLength)
      && p[l4 + 48..l4 + 56] == EncodeTcpFirst8(OutboundProbe(listen, remote, ttl, seqNum, ackNum).value.tcp)
    ensures var key := StdSocketToEbpf(remote);
      var r := Classifier.TryInbandTraceroute(p, Some(cfg), traces, arrival);
      && (key in traces ==> r.Ok? && r.value.Some? && r.value.value.traceId == traces[key] && r.value.value.ttl == ttl
                            && r.value.value.eventType == IcmpTimeExceeded)
      && (key !in traces ==> r == Ok(None))
  {
    var v := Classifier.ForUs(p, cfg).value;
    var q := v.l4 + 8;
    var probe := OutboundProbe(listen, remote, ttl, seqNum, ackNum).value;
    var ip := EncodeIpv6(probe.ip.(hopLimit := quotedHopLimit), trafficClass, payloadLength);
    var t := EncodeTcpFirst8(probe.tcp);
    Classifier.IcmpV6Classification(p, cfg, traces, arrival);
    assert ip[8..24] == listen.ip.octets16 && ip[24..40] == remote.ip.octets16;
    assert t[0..2] == Be16(listen.port) && t[2..4] == Be16(remote.port);
    Classifier.SliceOfSlice(p, q, q + 40, 8, 24);
    Classifier.SliceOfSlice(p, q, q + 40, 24, 40);
    Classifier.SliceOfSlice(p, q + 40, q + 48, 0, 2);
    Classifier.SliceOfSlice(p, q + 40, q + 48, 2, 4);
    assert p[q + 3] == ip[3] == ttl;
    assert p[q + 6] == ip[6] == PROTO_TCP;
  }
}
