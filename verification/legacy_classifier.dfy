/**
 * The older XDP classifier (top-level ebpf crate).  It follows the current
 * classifier step for step with two differences: the events it writes carry
 * no arrival time, and it has no ICMPv6 branch, so ICMPv6 Time Exceeded
 * messages fall to the "any other protocol" case and are ignored.
 */
module LegacyClassifier {
  import opened Wrappers
  import opened Bytes
  import opened Common
  import Classifier

  /** The record the older program writes into EVENTS: a trace event without arrival time. */
  datatype Event = Event(traceId: u32, ackSeq: u32, seqNum: u32, eventType: TraceEventType,
                         ipVersion: IPVersion, ttl: byte, addr: IPAddr)

  /** The older verdict: PASS or ABORTED and the event written, if any. */
  datatype Verdict = Verdict(action: nat, emitted: Option<Event>)

  /** `inband_traceroute`: PASS exactly when the classification returned Ok. */
  function InbandTraceroute(packet: seq<byte>, config: Option<EbpfConfig>, traces: map<SocketAddr, u32>): (v: Verdict)
    ensures v.action == Classifier.XDP_PASS || v.action == Classifier.XDP_ABORTED
    ensures v.action == Classifier.XDP_ABORTED <==> TryInbandTraceroute(packet, config, traces).Err?
    ensures v.action == Classifier.XDP_ABORTED ==> v.emitted.None?
    ensures v.action == Classifier.XDP_PASS ==> v.emitted == TryInbandTraceroute(packet, config, traces).value
  {
    match TryInbandTraceroute(packet, config, traces)
    case Ok(event) => Verdict(Classifier.XDP_PASS, event)
    case Err(_) => Verdict(Classifier.XDP_ABORTED, None)
  }

  /** The older `try_inband_traceroute`. */
  function TryInbandTraceroute(packet: seq<byte>, config: Option<EbpfConfig>, traces: map<SocketAddr, u32>): Result<Option<Event>>
  {
    if config.None? then Err(Error("no configuration")) else
    var cfg := config.value;
    var eth :- Classifier.PtrAt(packet, 0, Classifier.ETH_HDR_LEN);
    var etherType := eth[12..14];
    var srcAddr := DefaultSocketAddr();
    if etherType == Classifier.ETHER_TYPE_IPV4 then
      var ip :- Classifier.PtrAt(packet, Classifier.ETH_HDR_LEN, Classifier.IPV4_HDR_LEN);
      if Some(U32LE(ip[16..20])) != GetIpv4(cfg) then Ok(None)
      else
        var srcAddr := srcAddr.(addr := NewV4(ip[12..16]));
        Layer4(packet, cfg, traces, IPV4, ip[9], Classifier.ETH_HDR_LEN + Classifier.IPV4_HDR_LEN, srcAddr)
    else if etherType == Classifier.ETHER_TYPE_IPV6 then
      var ip :- Classifier.PtrAt(packet, Classifier.ETH_HDR_LEN, Classifier.IPV6_HDR_LEN);
      if Some(ip[24..40]) != GetIpv6(cfg) then Ok(None)
      else
        var srcAddr := srcAddr.(addr := NewV6(ip[8..24]));
        Layer4(packet, cfg, traces, IPV6, ip[6], Classifier.ETH_HDR_LEN + Classifier.IPV6_HDR_LEN, srcAddr)
    else Ok(None)
  }

  /** The match on the layer-4 protocol: TCP and ICMP only. */
  function Layer4(packet: seq<byte>, cfg: EbpfConfig, traces: map<SocketAddr, u32>,
                  ipVersion: IPVersion, proto: byte, l4: nat, srcAddr: SocketAddr): Result<Option<Event>>
  {
    if proto == Classifier.PROTO_TCP then
      var tcp :- Classifier.PtrAt(packet, l4, Classifier.TCP_HDR_LEN);
      if U16BE(tcp[2..4]) != cfg.port then Ok(None)
      else if Classifier.AckBit(tcp) == 0 && Classifier.RstBit(tcp) == 0 then Ok(None)
      else
        var srcAddr := srcAddr.(port := U16BE(tcp[0..2]));
        if srcAddr !in traces then Ok(None)
        else Ok(Some(Event(
          traces[srcAddr], U32BE(tcp[8..12]), U32BE(tcp[4..8]),
          if Classifier.AckBit(tcp) != 0 then TcpAck else TcpRst,
          ipVersion, 0, srcAddr.addr)))
    else if proto == Classifier.PROTO_ICMP then
      var icmp :- Classifier.PtrAt(packet, l4, Classifier.ICMP_HDR_LEN);
      if icmp[0] != Classifier.ICMP_TYPE_TTL_EXCEEDED then Ok(None)
      else
        var orig :- Classifier.PtrAt(packet, l4 + 8, Classifier.IPV4_HDR_LEN);
        if orig[9] != Classifier.PROTO_TCP || Some(U32LE(orig[12..16])) != GetIpv4(cfg) then Ok(None)
        else
          var origTcp :- Classifier.PtrAt(packet, l4 + 8 + Classifier.IPV4_HDR_LEN, Classifier.TCP_FIRST8_LEN);
          if U16BE(origTcp[0..2]) != cfg.port then Ok(None)
          else
            var origDest := SocketAddr(U16BE(origTcp[2..4]), NewV4(orig[16..20]));
            if origDest !in traces then Ok(None)
            else Ok(Some(Event(
              traces[origDest], 0, 0, IcmpTimeExceeded, IPV4, Classifier.QuotedV4Ttl(orig), srcAddr.addr)))
    else Ok(None)
  }

  /** The current event with its arrival time dropped. */
  function Forget(e: TraceEvent): (r: Event)
    ensures r.traceId == e.traceId && r.ackSeq == e.ackSeq && r.seqNum == e.seqNum && r.eventType == e.eventType
    ensures r.ipVersion == e.ipVersion && r.ttl == e.ttl && r.addr == e.addr
  {
    Event(e.traceId, e.ackSeq, e.seqNum, e.eventType, e.ipVersion, e.ttl, e.addr)
  }

  function ForgetResult(r: Result<Option<TraceEvent>>): Result<Option<Event>>
  {
    match r
    case Err(f) => Err(f)
    case Ok(None) => Ok(None)
    case Ok(Some(e)) => Ok(Some(Forget(e)))
  }

  /** The older layer-4 match agrees with the current one on every protocol except ICMPv6. */
  lemma Layer4Agrees(packet: seq<byte>, cfg: EbpfConfig, traces: map<SocketAddr, u32>, arrival: u64,
                     ipVersion: IPVersion, proto: byte, l4: nat, srcAddr: SocketAddr)
    requires proto != Classifier.PROTO_ICMPV6
    ensures Layer4(packet, cfg, traces, ipVersion, proto, l4, srcAddr)
         == ForgetResult(Classifier.Layer4(packet, cfg, traces, arrival, ipVersion, proto, l4, srcAddr))
  {
  }

  /**
   * The two versions classify every frame alike, apart from arrival times,
   * unless the frame is an ICMPv6 message addressed to us.
   */
  lemma AgreesExceptIcmpV6(p: seq<byte>, config: Option<EbpfConfig>, traces: map<SocketAddr, u32>, arrival: u64)
    requires config.None? || Classifier.ForUs(p, config.value).None? || Classifier.ForUs(p, config.value).value.proto != Classifier.PROTO_ICMPV6
    ensures TryInbandTraceroute(p, config, traces) == ForgetResult(Classifier.TryInbandTraceroute(p, config, traces, arrival))
  {
    if config.Some? && |p| >= Classifier.ETH_HDR_LEN {
      var cfg := config.value;
      if p[12..14] == Classifier.ETHER_TYPE_IPV4 && |p| >= 34 {
        var ip := p[14..34];
        Classifier.SliceOfSlice(p, 14, 34, 16, 20);
        Classifier.SliceOfSlice(p, 14, 34, 12, 16);
        Classifier.V4DestinationMatch(ip[16..20], cfg);
        if Some(U32LE(ip[16..20])) == GetIpv4(cfg) {
          assert ip[9] == p[23];
          Layer4Agrees(p, cfg, traces, arrival, IPV4, ip[9], 34, SocketAddr(0, NewV4(ip[12..16])));
        }
      } else if p[12..14] == Classifier.ETHER_TYPE_IPV6 && |p| >= 54 {
        var ip := p[14..54];
        Classifier.SliceOfSlice(p, 14, 54, 24, 40);
        Classifier.SliceOfSlice(p, 14, 54, 8, 24);
        if Some(ip[24..40]) == GetIpv6(cfg) {
          Layer4Agrees(p, cfg, traces, arrival, IPV6, ip[6], 54, SocketAddr(0, NewV6(ip[8..24])));
        }
      }
    }
  }

  /** ICMPv6 Time Exceeded messages to us, which the current version reports, produce no event here. */
  lemma IcmpV6Ignored(p: seq<byte>, cfg: EbpfConfig, traces: map<SocketAddr, u32>)
    requires Classifier.ForUs(p, cfg).Some? && Classifier.ForUs(p, cfg).value.proto == Classifier.PROTO_ICMPV6
    ensures TryInbandTraceroute(p, Some(cfg), traces) == Ok(None)
  {
    if p[12..14] == Classifier.ETHER_TYPE_IPV4 {
      Classifier.SliceOfSlice(p, 14, 34, 16, 20);
      Classifier.V4DestinationMatch(p[14..34][16..20], cfg);
    } else {
      Classifier.SliceOfSlice(p, 14, 54, 24, 40);
    }
  }

  /** A missing configuration aborts. */
  lemma MissingConfigAborts(p: seq<byte>, traces: map<SocketAddr, u32>)
    ensures InbandTraceroute(p, None, traces) == Verdict(Classifier.XDP_ABORTED, None)
  {
  }

  /**
   * With a configuration, a frame long enough for the deepest read (an ICMP
   * message carried over IPv6 quoting an IPv4 header) is never aborted.
   */
  lemma LongFramesPass(p: seq<byte>, cfg: EbpfConfig, traces: map<SocketAddr, u32>)
    requires |p| >= Classifier.ETH_HDR_LEN + Classifier.IPV6_HDR_LEN + Classifier.ICMP_HDR_LEN
                    + Classifier.IPV4_HDR_LEN + Classifier.TCP_FIRST8_LEN
    ensures TryInbandTraceroute(p, Some(cfg), traces).Ok?
  {
  }
}
