/**
 * The XDP packet classifier (backend eBPF program).  For every frame arriving
 * on the interface it decides whether the frame answers one of our probes and,
 * if so, emits a TraceEvent; it never drops a frame.
 *
 * A frame is a byte sequence starting with the Ethernet header.  Headers are
 * read at fixed offsets: Ethernet 14 bytes, IPv4 20 bytes (options are not
 * honoured: the next header is always taken at offset 20), IPv6 40 bytes, TCP
 * 20 bytes, the ICMP / ICMPv6 header 8 bytes and the first 8 bytes of the
 * quoted TCP header.  Every read goes through PtrAt, the only bounds check.
 */
module Classifier {
  import opened Wrappers
  import opened Bytes
  import opened Common

  const ICMP_TYPE_TTL_EXCEEDED: byte := 11
  const ICMPV6_TYPE_TTL_EXCEEDED: byte := 3
  const MAX_TRACES: nat := 1024

  /** XDP verdicts, as numbered by the kernel's `xdp_action`. */
  const XDP_ABORTED: nat := 0
  const XDP_DROP: nat := 1
  const XDP_PASS: nat := 2

  const ETH_HDR_LEN: nat := 14
  const IPV4_HDR_LEN: nat := 20
  const IPV6_HDR_LEN: nat := 40
  const TCP_HDR_LEN: nat := 20
  const ICMP_HDR_LEN: nat := 8
  /** `size_of::<TCPHeaderFirst8Bytes>()`: source port, destination port, sequence number. */
  const TCP_FIRST8_LEN: nat := 8

  const ETHER_TYPE_IPV4: seq<byte> := [0x08, 0x00]
  const ETHER_TYPE_IPV6: seq<byte> := [0x86, 0xDD]
  const PROTO_ICMP: byte := 1
  const PROTO_TCP: byte := 6
  const PROTO_ICMPV6: byte := 58

  /** The deepest read on any path ends here (ICMPv6 quoting IPv6 and TCP). */
  const LONGEST_PATH: nat := ETH_HDR_LEN + IPV6_HDR_LEN + ICMP_HDR_LEN + IPV6_HDR_LEN + TCP_FIRST8_LEN

  function OutOfBounds(): Failure { Error("out of bounds") }

  /** `ptr_at`: the size bytes at offset, or an error when they run past the end of the frame. */
  function PtrAt(packet: seq<byte>, offset: nat, size: nat): (r: Result<seq<byte>>)
    ensures r.Err? <==> offset + size > |packet|
    ensures r.Ok? ==> |r.value| == size && r.value == packet[offset..offset + size]
  {
    if offset + size > |packet| then Err(OutOfBounds()) else Ok(packet[offset..offset + size])
  }

  // ----- fields of the headers, at their offsets inside each header -----

  /** The two flag bits `TcpHdr::ack()` and `TcpHdr::rst()` read from the flags byte (offset 13). */
  function AckBit(tcp: seq<byte>): nat
    requires |tcp| == TCP_HDR_LEN
  {
    (tcp[13] / 16) % 2
  }

  function RstBit(tcp: seq<byte>): nat
    requires |tcp| == TCP_HDR_LEN
  {
    (tcp[13] / 4) % 2
  }

  /** `u16::from_be(original_ip_hdr.id) as u8`: the low byte of the Identification field. */
  function QuotedV4Ttl(ip: seq<byte>): byte
    requires |ip| == IPV4_HDR_LEN
  {
    U16BE(ip[4..6]) % 256
  }

  /** `original_ip_hdr.flow_label[2]`: the last of the three flow-label bytes. */
  function QuotedV6Ttl(ip: seq<byte>): byte
    requires |ip| == IPV6_HDR_LEN
  {
    ip[1..4][2]
  }

  /** The classifier's output for one frame: the XDP verdict and the event it emitted, if any. */
  datatype Verdict = Verdict(action: nat, emitted: Option<TraceEvent>)

  /** `inband_traceroute`: PASS when the classification returned Ok, ABORTED when it failed. */
  function InbandTraceroute(packet: seq<byte>, config: Option<EbpfConfig>, traces: map<SocketAddr, u32>, arrival: u64): (v: Verdict)
    ensures v.action == XDP_PASS || v.action == XDP_ABORTED
    ensures v.action == XDP_ABORTED <==> TryInbandTraceroute(packet, config, traces, arrival).Err?
    ensures v.action == XDP_ABORTED ==> v.emitted.None?
    ensures v.action == XDP_PASS ==> v.emitted == TryInbandTraceroute(packet, config, traces, arrival).value
  {
    match TryInbandTraceroute(packet, config, traces, arrival)
    case Ok(event) => Verdict(XDP_PASS, event)
    case Err(_) => Verdict(XDP_ABORTED, None)
  }

  /**
   * `try_inband_traceroute`: Ok(Some(e)) when the event e is emitted, Ok(None)
   * when the frame is ignored, Err when the configuration is missing or a
   * header runs past the end of the frame.
   */
  function TryInbandTraceroute(packet: seq<byte>, config: Option<EbpfConfig>, traces: map<SocketAddr, u32>, arrival: u64): Result<Option<TraceEvent>>
  {
    if config.None? then Err(Error("no configuration")) else
    var cfg := config.value;
    var eth :- PtrAt(packet, 0, ETH_HDR_LEN);
    var etherType := eth[12..14];
    var srcAddr := DefaultSocketAddr();
    if etherType == ETHER_TYPE_IPV4 then
      var ip :- PtrAt(packet, ETH_HDR_LEN, IPV4_HDR_LEN);
      if Some(U32LE(ip[16..20])) != GetIpv4(cfg) then Ok(None)
      else
        var srcAddr := srcAddr.(addr := NewV4(ip[12..16]));
        Layer4(packet, cfg, traces, arrival, IPV4, ip[9], ETH_HDR_LEN + IPV4_HDR_LEN, srcAddr)
    else if etherType == ETHER_TYPE_IPV6 then
      var ip :- PtrAt(packet, ETH_HDR_LEN, IPV6_HDR_LEN);
      if Some(ip[24..40]) != GetIpv6(cfg) then Ok(None)
      else
        var srcAddr := srcAddr.(addr := NewV6(ip[8..24]));
        Layer4(packet, cfg, traces, arrival, IPV6, ip[6], ETH_HDR_LEN + IPV6_HDR_LEN, srcAddr)
    else Ok(None)
  }

  /** The second half of `try_inband_traceroute`: the match on the layer-4 protocol. */
  function Layer4(packet: seq<byte>, cfg: EbpfConfig, traces: map<SocketAddr, u32>, arrival: u64,
                  ipVersion: IPVersion, proto: byte, l4: nat, srcAddr: SocketAddr): Result<Option<TraceEvent>>
  {
    if proto == PROTO_TCP then
      var tcp :- PtrAt(packet, l4, TCP_HDR_LEN);
      if U16BE(tcp[2..4]) != cfg.port then Ok(None)
      else if AckBit(tcp) == 0 && RstBit(tcp) == 0 then Ok(None)
      else
        var srcAddr := srcAddr.(port := U16BE(tcp[0..2]));
        if srcAddr !in traces then Ok(None)
        else Ok(Some(TraceEvent(
          arrival, traces[srcAddr], U32BE(tcp[8..12]), U32BE(tcp[4..8]),
          if AckBit(tcp) != 0 then TcpAck else TcpRst,
          ipVersion, 0, srcAddr.addr)))
    else if proto == PROTO_ICMP then
      var icmp :- PtrAt(packet, l4, ICMP_HDR_LEN);
      if icmp[0] != ICMP_TYPE_TTL_EXCEEDED then Ok(None)
      else
        var orig :- PtrAt(packet, l4 + 8, IPV4_HDR_LEN);
        if orig[9] != PROTO_TCP || Some(U32LE(orig[12..16])) != GetIpv4(cfg) then Ok(None)
        else
          var origTcp :- PtrAt(packet, l4 + 8 + IPV4_HDR_LEN, TCP_FIRST8_LEN);
          if U16BE(origTcp[0..2]) != cfg.port then Ok(None)
          else
            var origDest := SocketAddr(U16BE(origTcp[2..4]), NewV4(orig[16..20]));
            if origDest !in traces then Ok(None)
            else Ok(Some(TraceEvent(
              arrival, traces[origDest], 0, 0, IcmpTimeExceeded, IPV4, QuotedV4Ttl(orig), srcAddr.addr)))
    else if proto == PROTO_ICMPV6 then
      var icmp :- PtrAt(packet, l4, ICMP_HDR_LEN);
      if icmp[0] != ICMPV6_TYPE_TTL_EXCEEDED then Ok(None)
      else
        var orig :- PtrAt(packet, l4 + 8, IPV6_HDR_LEN);
        if orig[6] != PROTO_TCP || Some(orig[8..24]) != GetIpv6(cfg) then Ok(None)
        else
          var origTcp :- PtrAt(packet, l4 + 8 + IPV6_HDR_LEN, TCP_FIRST8_LEN);
          if U16BE(origTcp[0..2]) != cfg.port then Ok(None)
          else
            var origDest := SocketAddr(U16BE(origTcp[2..4]), NewV6(orig[24..40]));
            if origDest !in traces then Ok(None)
            else Ok(Some(TraceEvent(
              arrival, traces[origDest], 0, 0, IcmpTimeExceeded, IPV6, QuotedV6Ttl(orig), srcAddr.addr)))
    else Ok(None)
  }

  // ----- properties, stated at absolute offsets in the frame -----

  /** The network layer of a frame addressed to the configured address. */
  datatype NetView = NetView(version: IPVersion, proto: byte, l4: nat, source: IPAddr)

  /**
   * Reference reading of the network layer (RFC 791 section 3.1, RFC 8200
   * section 3): the EtherType at bytes 12..14; for IPv4 the protocol at 23,
   * the source at 26..30 and the destination at 30..34; for IPv6 the next
   * header at 20, the source at 22..38 and the destination at 38..54.  The
   * frame is for us when the destination equals the configured address of
   * that family, byte for byte.
   */
  function ForUs(p: seq<byte>, cfg: EbpfConfig): Option<NetView>
  {
    if |p| >= 34 && p[12..14] == ETHER_TYPE_IPV4 && cfg.ipv4.ipVersion == IPV4 && p[30..34] == cfg.ipv4.addr[..4]
    then Some(NetView(IPV4, p[23], 34, NewV4(p[26..30])))
    else if |p| >= 54 && p[12..14] == ETHER_TYPE_IPV6 && cfg.ipv6.ipVersion == IPV6 && p[38..54] == cfg.ipv6.addr
    then Some(NetView(IPV6, p[20], 54, NewV6(p[22..38])))
    else None
  }

  /** The frame is long enough for the Ethernet header and, for IPv4 or IPv6, the IP header. */
  predicate NetworkHeaderPresent(p: seq<byte>)
  {
    && |p| >= ETH_HDR_LEN
    && (p[12..14] == ETHER_TYPE_IPV4 ==> |p| >= 34)
    && (p[12..14] == ETHER_TYPE_IPV6 ==> |p| >= 54)
  }

  /** The source's u32 comparison of IPv4 addresses is byte equality of the four wire bytes. */
  lemma V4DestinationMatch(dst: seq<byte>, cfg: EbpfConfig)
    requires |dst| == 4
    ensures (Some(U32LE(dst)) == GetIpv4(cfg)) <==> (cfg.ipv4.ipVersion == IPV4 && dst == cfg.ipv4.addr[..4])
  {
    LEInjective(dst, cfg.ipv4.addr[..4]);
  }

  /** A frame for us reaches the layer-4 match with the version, protocol, offset and source of ForUs. */
  lemma ForUsReachesLayer4(p: seq<byte>, cfg: EbpfConfig, traces: map<SocketAddr, u32>, arrival: u64)
    requires ForUs(p, cfg).Some?
    ensures var v := ForUs(p, cfg).value;
      TryInbandTraceroute(p, Some(cfg), traces, arrival)
        == Layer4(p, cfg, traces, arrival, v.version, v.proto, v.l4, SocketAddr(0, v.source))
  {
    if p[12..14] == ETHER_TYPE_IPV4 {
      var ip := p[14..34];
      SliceOfSlice(p, 14, 34, 16, 20);
      SliceOfSlice(p, 14, 34, 12, 16);
      assert ip[9] == p[23];
      V4DestinationMatch(ip[16..20], cfg);
    } else {
      var ip := p[14..54];
      SliceOfSlice(p, 14, 54, 24, 40);
      SliceOfSlice(p, 14, 54, 8, 24);
      assert ip[6] == p[20];
    }
  }

  /** The configuration lookup failing aborts the program, whatever the frame. */
  lemma MissingConfigAborts(p: seq<byte>, traces: map<SocketAddr, u32>, arrival: u64)
    ensures InbandTraceroute(p, None, traces, arrival) == Verdict(XDP_ABORTED, None)
  {
  }

  /**
   * No event for a frame that is not IPv4 or IPv6, or not addressed to the
   * configured address of its family.
   */
  lemma NotForUsIgnored(p: seq<byte>, cfg: EbpfConfig, traces: map<SocketAddr, u32>, arrival: u64)
    requires NetworkHeaderPresent(p) && ForUs(p, cfg).None?
    ensures TryInbandTraceroute(p, Some(cfg), traces, arrival) == Ok(None)
  {
    if p[12..14] == ETHER_TYPE_IPV4 {
      V4DestinationMatch(p[14..34][16..20], cfg);
    }
  }

  /** No event for a layer-4 protocol other than TCP, ICMP and ICMPv6. */
  lemma OtherProtocolIgnored(p: seq<byte>, cfg: EbpfConfig, traces: map<SocketAddr, u32>, arrival: u64)
    requires ForUs(p, cfg).Some?
    requires ForUs(p, cfg).value.proto !in {PROTO_TCP, PROTO_ICMP, PROTO_ICMPV6}
    ensures TryInbandTraceroute(p, Some(cfg), traces, arrival) == Ok(None)
  {
    ForUsReachesLayer4(p, cfg, traces, arrival);
  }

  lemma FlagBits(b: byte)
    ensures (b / 16) % 2 == 1 <==> b % 32 >= 16
    ensures (b / 4) % 2 == 1 <==> b % 8 >= 4
  {
    DivBit(b as nat, 16);
    DivBit(b as nat, 4);
  }

  /** Bit k of b, counted as b / k mod 2, is set exactly when b mod 2k is at least k. */
  lemma DivBit(b: nat, k: nat)
    requires k > 0
    ensures (b / k) % 2 == 1 <==> b % (2 * k) >= k
  {
    var q, r := b / (2 * k), b % (2 * k);
    assert b == (2 * k) * q + r;
    MulAssoc(k, 2, q);
    if r >= k {
      ModUnique(b, k, 2 * q + 1, r - k);
      ModUnique(2 * q + 1, 2, q, 1);
    } else {
      ModUnique(b, k, 2 * q, r);
      ModUnique(2 * q, 2, q, 0);
    }
  }

  /**
   * TCP segments (RFC 9293 section 3.1: ports at 0 and 2, sequence number at
   * 4, acknowledgment number at 8, flags at 13 with ACK = 0x10 and RST = 0x04).
   * An event is emitted exactly when the destination port is ours, ACK or RST
   * is set and the sender's socket address is registered; it is TcpAck
   * whenever ACK is set, carries the registered trace id, the big-endian
   * acknowledgment and sequence numbers, TTL 0 and the sender's address.
   */
  lemma TcpClassification(p: seq<byte>, cfg: EbpfConfig, traces: map<SocketAddr, u32>, arrival: u64)
    requires ForUs(p, cfg).Some? && ForUs(p, cfg).value.proto == PROTO_TCP
    requires |p| >= ForUs(p, cfg).value.l4 + TCP_HDR_LEN
    ensures var v := ForUs(p, cfg).value;
      var t := p[v.l4..v.l4 + TCP_HDR_LEN];
      var ack := t[13] % 32 >= 16;
      var rst := t[13] % 8 >= 4;
      var key := SocketAddr(U16BE(t[0..2]), v.source);
      var r := TryInbandTraceroute(p, Some(cfg), traces, arrival);
      && r.Ok?
      && (r.value.Some? <==> U16BE(t[2..4]) == cfg.port && (ack || rst) && key in traces)
      && (r.value.Some? ==>
            r.value.value == TraceEvent(arrival, traces[key], U32BE(t[8..12]), U32BE(t[4..8]),
                                        if ack then TcpAck else TcpRst, v.version, 0, v.source))
  {
    ForUsReachesLayer4(p, cfg, traces, arrival);
    var v := ForUs(p, cfg).value;
    Layer4Tcp(p, cfg, traces, arrival, v.version, v.l4, SocketAddr(0, v.source));
  }

  lemma Layer4Tcp(p: seq<byte>, cfg: EbpfConfig, traces: map<SocketAddr, u32>, arrival: u64,
                  version: IPVersion, l4: nat, srcAddr: SocketAddr)
    requires |p| >= l4 + TCP_HDR_LEN
    ensures var t := p[l4..l4 + TCP_HDR_LEN];
      var ack := t[13] % 32 >= 16;
      var rst := t[13] % 8 >= 4;
      var key := srcAddr.(port := U16BE(t[0..2]));
      var r := Layer4(p, cfg, traces, arrival, version, PROTO_TCP, l4, srcAddr);
      && r.Ok?
      && (r.value.Some? <==> U16BE(t[2..4]) == cfg.port && (ack || rst) && key in traces)
      && (r.value.Some? ==>
            r.value.value == TraceEvent(arrival, traces[key], U32BE(t[8..12]), U32BE(t[4..8]),
                                        if ack then TcpAck else TcpRst, version, 0, srcAddr.addr))
  {
    FlagBits(p[l4..l4 + TCP_HDR_LEN][13]);
  }

  /** The low byte of a big-endian 16-bit field is its second byte. */
  lemma LowByte(s: seq<byte>)
    requires |s| == 2
    ensures U16BE(s) % 256 == s[1]
  {
  }

  /**
   * ICMP Time Exceeded (RFC 792: type 11 at the start of the ICMP header, the
   * original IPv4 header quoted 8 bytes later, followed by the first 8 bytes
   * of the original TCP header).  An event is emitted exactly when the quoted
   * packet is TCP from our IPv4 address and our port and its destination
   * socket address is registered; its TTL is the low byte of the quoted
   * Identification field and its address is the sender of the ICMP message.
   */
  lemma IcmpV4Classification(p: seq<byte>, cfg: EbpfConfig, traces: map<SocketAddr, u32>, arrival: u64)
    requires ForUs(p, cfg).Some? && ForUs(p, cfg).value.proto == PROTO_ICMP
    requires |p| >= ForUs(p, cfg).value.l4 + ICMP_HDR_LEN + IPV4_HDR_LEN + TCP_FIRST8_LEN
    ensures var v := ForUs(p, cfg).value;
      var q := v.l4 + ICMP_HDR_LEN;
      var key := SocketAddr(U16BE(p[q + 22..q + 24]), NewV4(p[q + 16..q + 20]));
      var r := TryInbandTraceroute(p, Some(cfg), traces, arrival);
      && r.Ok?
      && (r.value.Some? <==>
            && p[v.l4] == ICMP_TYPE_TTL_EXCEEDED
            && p[q + 9] == PROTO_TCP
            && cfg.ipv4.ipVersion == IPV4 && p[q + 12..q + 16] == cfg.ipv4.addr[..4]
            && U16BE(p[q + 20..q + 22]) == cfg.port
            && key in traces)
      && (r.value.Some? ==>
            r.value.value == TraceEvent(arrival, traces[key], 0, 0, IcmpTimeExceeded, IPV4, p[q + 5], v.source))
  {
    ForUsReachesLayer4(p, cfg, traces, arrival);
    var v := ForUs(p, cfg).value;
    Layer4IcmpV4(p, cfg, traces, arrival, v.version, v.l4, SocketAddr(0, v.source));
  }

  /** A slice of a slice is the slice at the summed offsets. */
  lemma SliceOfSlice(s: seq<byte>, i: nat, j: nat, k: nat, l: nat)
    requires i <= j <= |s| && k <= l <= j - i
    ensures s[i..j][k..l] == s[i + k..i + l]
  {
    assert |s[i..j][k..l]| == |s[i + k..i + l]|;
    forall m | 0 <= m < l - k
      ensures s[i..j][k..l][m] == s[i + k..i + l][m]
    {
      assert s[i..j][k..l][m] == s[i..j][k + m] == s[i + k + m];
    }
  }

  lemma Layer4IcmpV4(p: seq<byte>, cfg: EbpfConfig, traces: map<SocketAddr, u32>, arrival: u64,
                     version: IPVersion, l4: nat, srcAddr: SocketAddr)
    requires |p| >= l4 + ICMP_HDR_LEN + IPV4_HDR_LEN + TCP_FIRST8_LEN
    ensures var q := l4 + ICMP_HDR_LEN;
      var key := SocketAddr(U16BE(p[q + 22..q + 24]), NewV4(p[q + 16..q + 20]));
      var r := Layer4(p, cfg, traces, arrival, version, PROTO_ICMP, l4, srcAddr);
      && r.Ok?
      && (r.value.Some? <==>
            && p[l4] == ICMP_TYPE_TTL_EXCEEDED
            && p[q + 9] == PROTO_TCP
            && cfg.ipv4.ipVersion == IPV4 && p[q + 12..q + 16] == cfg.ipv4.addr[..4]
            && U16BE(p[q + 20..q + 22]) == cfg.port
            && key in traces)
      && (r.value.Some? ==>
            r.value.value == TraceEvent(arrival, traces[key], 0, 0, IcmpTimeExceeded, IPV4, p[q + 5], srcAddr.addr))
  {
    var q := l4 + ICMP_HDR_LEN;
    var orig := p[q..q + IPV4_HDR_LEN];
    var origTcp := p[q + IPV4_HDR_LEN..q + IPV4_HDR_LEN + TCP_FIRST8_LEN];
    SliceOfSlice(p, q, q + IPV4_HDR_LEN, 12, 16);
    SliceOfSlice(p, q, q + IPV4_HDR_LEN, 16, 20);
    SliceOfSlice(p, q, q + IPV4_HDR_LEN, 4, 6);
    SliceOfSlice(p, q + IPV4_HDR_LEN, q + IPV4_HDR_LEN + TCP_FIRST8_LEN, 0, 2);
    SliceOfSlice(p, q + IPV4_HDR_LEN, q + IPV4_HDR_LEN + TCP_FIRST8_LEN, 2, 4);
    V4DestinationMatch(orig[12..16], cfg);
    LowByte(orig[4..6]);
  }

  /**
   * ICMPv6 Time Exceeded (RFC 4443 section 3.3: type 3, the original IPv6
   * header quoted 8 bytes later).  An event is emitted exactly when the quoted
   * packet is TCP from our IPv6 address and our port and its destination
   * socket address is registered; its TTL is the last byte of the quoted flow
   * label and its version IPV6.
   */
  lemma IcmpV6Classification(p: seq<byte>, cfg: EbpfConfig, traces: map<SocketAddr, u32>, arrival: u64)
    requires ForUs(p, cfg).Some? && ForUs(p, cfg).value.proto == PROTO_ICMPV6
    requires |p| >= ForUs(p, cfg).value.l4 + ICMP_HDR_LEN + IPV6_HDR_LEN + TCP_FIRST8_LEN
    ensures var v := ForUs(p, cfg).value;
      var q := v.l4 + ICMP_HDR_LEN;
      var key := SocketAddr(U16BE(p[q + 42..q + 44]), NewV6(p[q + 24..q + 40]));
      var r := TryInbandTraceroute(p, Some(cfg), traces, arrival);
      && r.Ok?
      && (r.value.Some? <==>
            && p[v.l4] == ICMPV6_TYPE_TTL_EXCEEDED
            && p[q + 6] == PROTO_TCP
            && cfg.ipv6.ipVersion == IPV6 && p[q + 8..q + 24] == cfg.ipv6.addr
            && U16BE(p[q + 40..q + 42]) == cfg.port
            && key in traces)
      && (r.value.Some? ==>
            r.value.value == TraceEvent(arrival, traces[key], 0, 0, IcmpTimeExceeded, IPV6, p[q + 3], v.source))
  {
    ForUsReachesLayer4(p, cfg, traces, arrival);
    var v := ForUs(p, cfg).value;
    Layer4IcmpV6(p, cfg, traces, arrival, v.version, v.l4, SocketAddr(0, v.source));
  }

  lemma Layer4IcmpV6(p: seq<byte>, cfg: EbpfConfig, traces: map<SocketAddr, u32>, arrival: u64,
                     version: IPVersion, l4: nat, srcAddr: SocketAddr)
    requires |p| >= l4 + ICMP_HDR_LEN + IPV6_HDR_LEN + TCP_FIRST8_LEN
    ensures var q := l4 + ICMP_HDR_LEN;
      var key := SocketAddr(U16BE(p[q + 42..q + 44]), NewV6(p[q + 24..q + 40]));
      var r := Layer4(p, cfg, traces, arrival, version, PROTO_ICMPV6, l4, srcAddr);
      && r.Ok?
      && (r.value.Some? <==>
            && p[l4] == ICMPV6_TYPE_TTL_EXCEEDED
            && p[q + 6] == PROTO_TCP
            && cfg.ipv6.ipVersion == IPV6 && p[q + 8..q + 24] == cfg.ipv6.addr
            && U16BE(p[q + 40..q + 42]) == cfg.port
            && key in traces)
      && (r.value.Some? ==>
            r.value.value == TraceEvent(arrival, traces[key], 0, 0, IcmpTimeExceeded, IPV6, p[q + 3], srcAddr.addr))
  {
    var q := l4 + ICMP_HDR_LEN;
    var orig := p[q..q + IPV6_HDR_LEN];
    var origTcp := p[q + IPV6_HDR_LEN..q + IPV6_HDR_LEN + TCP_FIRST8_LEN];
    SliceOfSlice(p, q, q + IPV6_HDR_LEN, 8, 24);
    SliceOfSlice(p, q, q + IPV6_HDR_LEN, 24, 40);
    assert orig[1..4][2] == p[q + 3];
    SliceOfSlice(p, q + IPV6_HDR_LEN, q + IPV6_HDR_LEN + TCP_FIRST8_LEN, 0, 2);
    SliceOfSlice(p, q + IPV6_HDR_LEN, q + IPV6_HDR_LEN + TCP_FIRST8_LEN, 2, 4);
  }

  /** Every emitted event carries a trace id found in TRACES. */
  lemma EventsCarryRegisteredIds(p: seq<byte>, config: Option<EbpfConfig>, traces: map<SocketAddr, u32>, arrival: u64)
    requires TryInbandTraceroute(p, config, traces, arrival).Ok?
    requires TryInbandTraceroute(p, config, traces, arrival).value.Some?
    ensures TryInbandTraceroute(p, config, traces, arrival).value.value.traceId in traces.Values
  {
  }

  /** With a configuration, a frame long enough for the deepest read is never aborted. */
  lemma LongFramesPass(p: seq<byte>, cfg: EbpfConfig, traces: map<SocketAddr, u32>, arrival: u64)
    requires |p| >= LONGEST_PATH
    ensures TryInbandTraceroute(p, Some(cfg), traces, arrival).Ok?
  {
  }

  lemma PtrAtExtend(p: seq<byte>, q: seq<byte>, offset: nat, size: nat)
    requires offset + size <= |p|
    ensures PtrAt(p + q, offset, size) == PtrAt(p, offset, size)
  {
    assert (p + q)[offset..offset + size] == p[offset..offset + size];
  }

  /**
   * The verdict depends only on the bytes the bounds checks admitted: once a
   * frame is classified without error, appending bytes to it changes nothing.
   * So ABORTED comes only from the missing configuration or a read past the end.
   */
  lemma ExtendingClassifiedFrame(p: seq<byte>, q: seq<byte>, config: Option<EbpfConfig>, traces: map<SocketAddr, u32>, arrival: u64)
    requires TryInbandTraceroute(p, config, traces, arrival).Ok?
    ensures TryInbandTraceroute(p + q, config, traces, arrival) == TryInbandTraceroute(p, config, traces, arrival)
  {
    forall offset: nat, size: nat | offset + size <= |p|
      ensures PtrAt(p + q, offset, size) == PtrAt(p, offset, size)
    {
      PtrAtExtend(p, q, offset, size);
    }
  }
}
