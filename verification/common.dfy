/**
 * The types passed between the XDP program and user space through BPF maps
 * (backend common crate): IP addresses padded to 16 bytes and tagged with a
 * version, socket addresses, the program's configuration and the trace event.
 * The structures are `repr(C, packed)`; their byte layout is modelled by the
 * Encode functions, with multi-byte integers in the host's (little-endian)
 * order.
 */
module Common {
  import opened Wrappers
  import opened Bytes

  type Octets4 = s: seq<byte> | |s| == 4 witness [0, 0, 0, 0]
  type Octets16 = s: seq<byte> | |s| == 16 witness seq(16, i => 0)

  function Zeros(n: nat): (r: seq<byte>)
    ensures |r| == n && forall i :: 0 <= i < n ==> r[i] == 0
  {
    seq(n, i => 0)
  }

  /** `IPVersion`, a `repr(u8)` enum whose default is EMPTY. */
  datatype IPVersion = EMPTY | IPV4 | IPV6

  function VersionByte(v: IPVersion): byte
  {
    match v
    case EMPTY => 0
    case IPV4 => 4
    case IPV6 => 6
  }

  function VersionFromByte(b: byte): (r: Option<IPVersion>)
    ensures r.Some? <==> exists v :: VersionByte(v) == b
    ensures r.Some? ==> VersionByte(r.value) == b
  {
    if b == 0 then assert VersionByte(EMPTY) == b; Some(EMPTY)
    else if b == 4 then assert VersionByte(IPV4) == b; Some(IPV4)
    else if b == 6 then assert VersionByte(IPV6) == b; Some(IPV6)
    else None
  }

  /** `IPAddr`: a version tag and 16 address bytes in wire order. */
  datatype IPAddr = IPAddr(ipVersion: IPVersion, addr: Octets16)

  /** `IPAddr::default()`: version EMPTY, all bytes zero. */
  function DefaultIPAddr(): IPAddr
  {
    IPAddr(EMPTY, Zeros(16))
  }

  /** `IPAddr::new_v4`: the four octets first, twelve zero bytes after, version IPV4. */
  function NewV4(short: Octets4): (r: IPAddr)
    ensures r.ipVersion == IPV4
    ensures r.addr[..4] == short
    ensures forall i :: 4 <= i < 16 ==> r.addr[i] == 0
  {
    IPAddr(IPV4, short + Zeros(12))
  }

  /**
   * `IPAddr::new_v4` as the source writes it: a zeroed sixteen-byte array
   * into whose first four bytes the octets are copied in place.
   */
  method BuildV4(short: Octets4) returns (r: IPAddr)
    ensures r == NewV4(short)
  {
    var a := new byte[16](i => 0);
    forall i | 0 <= i < 4 {
      a[i] := short[i];
    }
    assert a[..] == short + Zeros(12);
    r := IPAddr(IPV4, a[..]);
  }

  /** `IPAddr::new_v6`: the sixteen bytes unchanged, version IPV6. */
  function NewV6(addr: Octets16): (r: IPAddr)
    ensures r.ipVersion == IPV6 && r.addr == addr
  {
    IPAddr(IPV6, addr)
  }

  /** `SocketAddr`, the key of the TRACES map: port in host order and address. */
  datatype SocketAddr = SocketAddr(port: u16, addr: IPAddr)

  function DefaultSocketAddr(): SocketAddr
  {
    SocketAddr(0, DefaultIPAddr())
  }

  /** `EbpfConfig`: the listening port and the server's own IPv4 and IPv6 addresses. */
  datatype EbpfConfig = EbpfConfig(port: u16, ipv4: IPAddr, ipv6: IPAddr)

  function UnwrapOrDefault(a: Option<IPAddr>): IPAddr
  {
    match a
    case Some(x) => x
    case None => DefaultIPAddr()
  }

  /** `EbpfConfig::new`: an absent address is stored as the default (EMPTY) address. */
  function NewConfig(port: u16, ipv4: Option<IPAddr>, ipv6: Option<IPAddr>): (c: EbpfConfig)
    ensures c.port == port
    ensures ipv4.Some? ==> c.ipv4 == ipv4.value
    ensures ipv4.None? ==> c.ipv4.ipVersion == EMPTY && c.ipv4.addr == Zeros(16)
    ensures ipv6.Some? ==> c.ipv6 == ipv6.value
    ensures ipv6.None? ==> c.ipv6.ipVersion == EMPTY && c.ipv6.addr == Zeros(16)
  {
    EbpfConfig(port, UnwrapOrDefault(ipv4), UnwrapOrDefault(ipv6))
  }

  /** `get_ipv4`: bytes 0..4 read as a little-endian u32, if the stored address is IPv4. */
  function GetIpv4(c: EbpfConfig): (r: Option<u32>)
    ensures r.Some? <==> c.ipv4.ipVersion == IPV4
    ensures r.Some? ==> r.value == FromLE(c.ipv4.addr[..4])
  {
    if c.ipv4.ipVersion == IPV4 then Some(U32LE(c.ipv4.addr[..4])) else None
  }

  /** `get_ipv6`: the sixteen bytes, if the stored address is IPv6. */
  function GetIpv6(c: EbpfConfig): (r: Option<Octets16>)
    ensures r.Some? <==> c.ipv6.ipVersion == IPV6
    ensures r.Some? ==> r.value == c.ipv6.addr
  {
    if c.ipv6.ipVersion == IPV6 then Some(c.ipv6.addr) else None
  }

  /** A configuration built without an address answers None for that family. */
  lemma AbsentAddressIsNone(port: u16, ipv4: Option<IPAddr>, ipv6: Option<IPAddr>)
    ensures ipv4.None? ==> GetIpv4(NewConfig(port, ipv4, ipv6)).None?
    ensures ipv6.None? ==> GetIpv6(NewConfig(port, ipv4, ipv6)).None?
  {
  }

  /** Building with `Some(new_v4(o))` makes `get_ipv4` return `from_le_bytes(o)`. */
  lemma GetIpv4OfNewV4(port: u16, o: Octets4, ipv6: Option<IPAddr>)
    ensures GetIpv4(NewConfig(port, Some(NewV4(o)), ipv6)) == Some(FromLE(o))
  {
  }

  /** Building with `Some(new_v6(a))` makes `get_ipv6` return a. */
  lemma GetIpv6OfNewV6(port: u16, ipv4: Option<IPAddr>, a: Octets16)
    ensures GetIpv6(NewConfig(port, ipv4, Some(NewV6(a)))) == Some(a)
  {
  }

  /** `TraceEventType`, a `repr(u8)` enum with implicit discriminants 0, 1, 2. */
  datatype TraceEventType = TcpAck | TcpRst | IcmpTimeExceeded

  function EventTypeByte(t: TraceEventType): byte
  {
    match t
    case TcpAck => 0
    case TcpRst => 1
    case IcmpTimeExceeded => 2
  }

  function EventTypeFromByte(b: byte): (r: Option<TraceEventType>)
    ensures r.Some? <==> exists t :: EventTypeByte(t) == b
    ensures r.Some? ==> EventTypeByte(r.value) == b
  {
    if b == 0 then assert EventTypeByte(TcpAck) == b; Some(TcpAck)
    else if b == 1 then assert EventTypeByte(TcpRst) == b; Some(TcpRst)
    else if b == 2 then assert EventTypeByte(IcmpTimeExceeded) == b; Some(IcmpTimeExceeded)
    else None
  }

  /** `TraceEvent`, what the XDP program emits for a matching packet. */
  datatype TraceEvent = TraceEvent(
    arrival: u64,
    traceId: u32,
    ackSeq: u32,
    seqNum: u32,
    eventType: TraceEventType,
    ipVersion: IPVersion,
    ttl: byte,
    addr: IPAddr)

  // ----- packed byte layout -----

  function EncodeIPAddr(a: IPAddr): (r: seq<byte>)
    ensures |r| == 17
  {
    [VersionByte(a.ipVersion)] + a.addr
  }

  function DecodeIPAddr(s: seq<byte>): Option<IPAddr>
    requires |s| == 17
  {
    match VersionFromByte(s[0])
    case None => None
    case Some(v) => Some(IPAddr(v, s[1..]))
  }

  function EncodeSocketAddr(a: SocketAddr): (r: seq<byte>)
    ensures |r| == 19
  {
    ToLE(a.port, 2) + EncodeIPAddr(a.addr)
  }

  function DecodeSocketAddr(s: seq<byte>): Option<SocketAddr>
    requires |s| == 19
  {
    FromLEBound(s[..2]);
    match DecodeIPAddr(s[2..])
    case None => None
    case Some(a) => Some(SocketAddr(FromLE(s[..2]), a))
  }

  function EncodeConfig(c: EbpfConfig): (r: seq<byte>)
    ensures |r| == 36
  {
    ToLE(c.port, 2) + EncodeIPAddr(c.ipv4) + EncodeIPAddr(c.ipv6)
  }

  function DecodeConfig(s: seq<byte>): Option<EbpfConfig>
    requires |s| == 36
  {
    FromLEBound(s[..2]);
    match (DecodeIPAddr(s[2..19]), DecodeIPAddr(s[19..]))
    case (Some(a4), Some(a6)) => Some(EbpfConfig(FromLE(s[..2]), a4, a6))
    case _ => None
  }

  function EncodeTraceEvent(e: TraceEvent): (r: seq<byte>)
    ensures |r| == 40
  {
    ToLE(e.arrival, 8) + ToLE(e.traceId, 4) + ToLE(e.ackSeq, 4) + ToLE(e.seqNum, 4)
      + [EventTypeByte(e.eventType), VersionByte(e.ipVersion), e.ttl] + EncodeIPAddr(e.addr)
  }

  function DecodeTraceEvent(s: seq<byte>): Option<TraceEvent>
    requires |s| == 40
  {
    FromLEBound(s[..8]);
    FromLEBound(s[8..12]);
    FromLEBound(s[12..16]);
    FromLEBound(s[16..20]);
    Pow256Values();
    match (EventTypeFromByte(s[20]), VersionFromByte(s[21]), DecodeIPAddr(s[23..]))
    case (Some(t), Some(v), Some(a)) =>
      Some(TraceEvent(FromLE(s[..8]), FromLE(s[8..12]), FromLE(s[12..16]), FromLE(s[16..20]), t, v, s[22], a))
    case _ => None
  }

  lemma Pow256Values()
    ensures Pow256(2) == 0x1_0000
    ensures Pow256(4) == 0x1_0000_0000
    ensures Pow256(8) == 0x1_0000_0000_0000_0000
  {
    assert Pow256(1) == 0x100;
    assert Pow256(2) == 0x1_0000;
    assert Pow256(3) == 0x100_0000;
    assert Pow256(4) == 0x1_0000_0000;
    assert Pow256(6) == 0x1_0000_0000_0000 by {
      assert Pow256(5) == 0x100_0000_0000;
    }
    assert Pow256(8) == 0x1_0000_0000_0000_0000 by {
      assert Pow256(7) == 0x100_0000_0000_0000;
    }
  }

  /** Reading a field back from its little-endian bytes gives the field. */
  lemma LEField(x: nat, n: nat)
    requires x < Pow256(n)
    ensures FromLE(ToLE(x, n)) == x
  {
    LERoundTrip(x, n);
  }

  lemma IPAddrRoundTrip(a: IPAddr)
    ensures DecodeIPAddr(EncodeIPAddr(a)) == Some(a)
  {
    assert EncodeIPAddr(a)[1..] == a.addr;
  }

  lemma SocketAddrRoundTrip(a: SocketAddr)
    ensures DecodeSocketAddr(EncodeSocketAddr(a)) == Some(a)
  {
    var s := EncodeSocketAddr(a);
    assert s[..2] == ToLE(a.port, 2) && s[2..] == EncodeIPAddr(a.addr);
    Pow256Values();
    LEField(a.port, 2);
    IPAddrRoundTrip(a.addr);
  }

  lemma ConfigRoundTrip(c: EbpfConfig)
    ensures DecodeConfig(EncodeConfig(c)) == Some(c)
  {
    var s := EncodeConfig(c);
    assert s[..2] == ToLE(c.port, 2);
    assert s[2..19] == EncodeIPAddr(c.ipv4) && s[19..] == EncodeIPAddr(c.ipv6);
    Pow256Values();
    LEField(c.port, 2);
    IPAddrRoundTrip(c.ipv4);
    IPAddrRoundTrip(c.ipv6);
  }

  lemma TraceEventRoundTrip(e: TraceEvent)
    ensures DecodeTraceEvent(EncodeTraceEvent(e)) == Some(e)
  {
    var s := EncodeTraceEvent(e);
    assert s[..8] == ToLE(e.arrival, 8);
    assert s[8..12] == ToLE(e.traceId, 4);
    assert s[12..16] == ToLE(e.ackSeq, 4);
    assert s[16..20] == ToLE(e.seqNum, 4);
    assert s[20] == EventTypeByte(e.eventType) && s[21] == VersionByte(e.ipVersion) && s[22] == e.ttl;
    assert s[23..] == EncodeIPAddr(e.addr);
    Pow256Values();
    LEField(e.arrival, 8);
    LEField(e.traceId, 4);
    LEField(e.ackSeq, 4);
    LEField(e.seqNum, 4);
    IPAddrRoundTrip(e.addr);
  }

  /**
   * The BPF hash map compares keys byte by byte; two socket addresses have the
   * same packed bytes exactly when they are the same value, so a Dafny map
   * keyed by SocketAddr behaves as the TRACES map does.
   */
  lemma SocketAddrKeyBytes(a: SocketAddr, b: SocketAddr)
    ensures EncodeSocketAddr(a) == EncodeSocketAddr(b) <==> a == b
  {
    if EncodeSocketAddr(a) == EncodeSocketAddr(b) {
      SocketAddrRoundTrip(a);
      SocketAddrRoundTrip(b);
    }
  }
}
