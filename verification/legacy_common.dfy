/**
 * The older version of the shared types (top-level common crate).  Its
 * `IPVersion` has no EMPTY variant and defaults to IPV4, and its
 * `TraceEvent` carries neither an arrival time, a TTL nor an address.
 */
module LegacyCommon {
  import opened Wrappers
  import opened Bytes
  import Common

  type Octets4 = Common.Octets4
  type Octets16 = Common.Octets16

  /** `IPVersion` with `#[default] IPV4 = 4` and `IPV6 = 6`. */
  datatype IPVersion = IPV4 | IPV6

  function VersionByte(v: IPVersion): byte
  {
    match v
    case IPV4 => 4
    case IPV6 => 6
  }

  function VersionFromByte(b: byte): (r: Option<IPVersion>)
    ensures r.Some? <==> exists v :: VersionByte(v) == b
    ensures r.Some? ==> VersionByte(r.value) == b
  {
    if b == 4 then assert VersionByte(IPV4) == b; Some(IPV4)
    else if b == 6 then assert VersionByte(IPV6) == b; Some(IPV6)
    else None
  }

  /** The derived default of a fieldless enum is the `#[default]` variant. */
  function DefaultVersion(): IPVersion
  {
    IPV4
  }

  datatype IPAddr = IPAddr(ipVersion: IPVersion, addr: Octets16)

  function DefaultIPAddr(): IPAddr
  {
    IPAddr(DefaultVersion(), Common.Zeros(16))
  }

  /** `IPAddr::new_v4`: the four octets first, twelve zero bytes after, version IPV4. */
  function NewV4(short: Octets4): (r: IPAddr)
    ensures r.ipVersion == IPV4
    ensures r.addr[..4] == short
    ensures forall i :: 4 <= i < 16 ==> r.addr[i] == 0
  {
    IPAddr(IPV4, short + Common.Zeros(12))
  }

  /** `IPAddr::new_v4` as written: a zeroed array, the octets copied into it in place. */
  method BuildV4(short: Octets4) returns (r: IPAddr)
    ensures r == NewV4(short)
  {
    var a := new byte[16](i => 0);
    forall i | 0 <= i < 4 {
      a[i] := short[i];
    }
    assert a[..] == short + Common.Zeros(12);
    r := IPAddr(IPV4, a[..]);
  }

  /** `IPAddr::new_v6`: the sixteen bytes unchanged, version IPV6. */
  function NewV6(addr: Octets16): (r: IPAddr)
    ensures r.ipVersion == IPV6 && r.addr == addr
  {
    IPAddr(IPV6, addr)
  }

  /**
   * Without an EMPTY variant the default address is indistinguishable from
   * the IPv4 address 0.0.0.0: an unset address reads as a valid one.
   */
  lemma DefaultIsUnspecifiedV4()
    ensures DefaultIPAddr() == NewV4([0, 0, 0, 0])
    ensures VersionByte(DefaultIPAddr().ipVersion) == 4
  {
    assert [0, 0, 0, 0] + Common.Zeros(12) == Common.Zeros(16);
  }

  datatype SocketAddr = SocketAddr(port: u16, addr: IPAddr)

  /** The older `TraceEventType`: only the two TCP outcomes. */
  datatype TraceEventType = TcpAck | TcpRst

  function EventTypeByte(t: TraceEventType): byte
  {
    match t
    case TcpAck => 0
    case TcpRst => 1
  }

  function EventTypeFromByte(b: byte): (r: Option<TraceEventType>)
    ensures r.Some? <==> exists t :: EventTypeByte(t) == b
    ensures r.Some? ==> EventTypeByte(r.value) == b
  {
    if b == 0 then assert EventTypeByte(TcpAck) == b; Some(TcpAck)
    else if b == 1 then assert EventTypeByte(TcpRst) == b; Some(TcpRst)
    else None
  }

  datatype TraceEvent = TraceEvent(traceId: u32, ackSeq: u32, seqNum: u32, eventType: TraceEventType, ipVersion: IPVersion)

  // ----- packed byte layout -----

  function EncodeIPAddr(a: IPAddr): (r: seq<byte>)
    ensures |r| == 17
  {
    [VersionByte(a.ipVersion)] + a.addr
  }

  function DecodeIPAddr(s: seq<byte>): Option<IPAddr>
    requires |s| == 17
  {
    match VersionFromByte(s[0])
    case None => None
    case Some(v) => Some(IPAddr(v, s[1..]))
  }

  function EncodeSocketAddr(a: SocketAddr): (r: seq<byte>)
    ensures |r| == 19
  {
    ToLE(a.port, 2) + EncodeIPAddr(a.addr)
  }

  function DecodeSocketAddr(s: seq<byte>): Option<SocketAddr>
    requires |s| == 19
  {
    FromLEBound(s[..2]);
    Common.Pow256Values();
    match DecodeIPAddr(s[2..])
    case None => None
    case Some(a) => Some(SocketAddr(FromLE(s[..2]), a))
  }

  function EncodeTraceEvent(e: TraceEvent): (r: seq<byte>)
    ensures |r| == 14
  {
    ToLE(e.traceId, 4) + ToLE(e.ackSeq, 4) + ToLE(e.seqNum, 4)
      + [EventTypeByte(e.eventType), VersionByte(e.ipVersion)]
  }

  function DecodeTraceEvent(s: seq<byte>): Option<TraceEvent>
    requires |s| == 14
  {
    FromLEBound(s[..4]);
    FromLEBound(s[4..8]);
    FromLEBound(s[8..12]);
    Common.Pow256Values();
    match (EventTypeFromByte(s[12]), VersionFromByte(s[13]))
    case (Some(t), Some(v)) => Some(TraceEvent(FromLE(s[..4]), FromLE(s[4..8]), FromLE(s[8..12]), t, v))
    case _ => None
  }

  lemma IPAddrRoundTrip(a: IPAddr)
    ensures DecodeIPAddr(EncodeIPAddr(a)) == Some(a)
  {
    assert EncodeIPAddr(a)[1..] == a.addr;
  }

  lemma SocketAddrRoundTrip(a: SocketAddr)
    ensures DecodeSocketAddr(EncodeSocketAddr(a)) == Some(a)
  {
    var s := EncodeSocketAddr(a);
    assert s[..2] == ToLE(a.port, 2) && s[2..] == EncodeIPAddr(a.addr);
    Common.Pow256Values();
    Common.LEField(a.port, 2);
    IPAddrRoundTrip(a.addr);
  }

  lemma TraceEventRoundTrip(e: TraceEvent)
    ensures DecodeTraceEvent(EncodeTraceEvent(e)) == Some(e)
  {
    var s := EncodeTraceEvent(e);
    assert s[..4] == ToLE(e.traceId, 4);
    assert s[4..8] == ToLE(e.ackSeq, 4);
    assert s[8..12] == ToLE(e.seqNum, 4);
    assert s[12] == EventTypeByte(e.eventType) && s[13] == VersionByte(e.ipVersion);
    Common.Pow256Values();
    Common.LEField(e.traceId, 4);
    Common.LEField(e.ackSeq, 4);
    Common.LEField(e.seqNum, 4);
  }
}
