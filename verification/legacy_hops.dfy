/**
 * Hops of the older user-space program (top-level `hop.rs`): the same five
 * hop types and labels, a round-trip time held as a duration, and a text form
 * that never shows the round-trip time.
 */
module LegacyHops {
  import opened Wrappers
  import opened Bytes
  import opened Text
  import opened Net
  import Hops

  datatype HopType = Timeout | TCPRST | TCPAck | ICMPTimeExceeded | Origin

  function Label(t: HopType): string
  {
    match t
    case Timeout => "[timeout]"
    case TCPRST => "TCP Reset"
    case TCPAck => "TCP ACK"
    case ICMPTimeExceeded => "ICMP Time Exceeded"
    case Origin => "[this server]"
  }

  /** A hop; rtt is a duration in nanoseconds. */
  datatype Hop = Hop(ttl: byte, hopType: HopType, addr: Option<IpAddr>, rtt: nat)

  /** `Display`: "{ttl}: {type} from {addr}" with an address, "{ttl}: {type}" without. */
  function Display(h: Hop, text: IpAddr -> string): string
  {
    if h.addr.Some? then Decimal(h.ttl) + ": " + Label(h.hopType) + " from " + text(h.addr.value)
    else Decimal(h.ttl) + ": " + Label(h.hopType)
  }

  /** The same hop type in the current program. */
  function Current(t: HopType): (r: Hops.HopType)
    ensures Label(t) == Hops.Label(r)
  {
    match t
    case Timeout => Hops.Timeout
    case TCPRST => Hops.TcpRst
    case TCPAck => Hops.TcpAck
    case ICMPTimeExceeded => Hops.IcmpTimeExceeded
    case Origin => Hops.Origin
  }

  /** Each hop type prints a fixed label, and different types print different labels. */
  lemma LabelsDistinct(a: HopType, b: HopType)
    ensures Label(a) == Label(b) <==> a == b
  {
    Hops.LabelsDistinct(Current(a), Current(b));
  }

  /**
   * The older text form is the current one for a hop without round-trip
   * time: the round-trip time is never printed, and the rest agrees.
   */
  lemma AgreesWithCurrent(h: Hop, text: IpAddr -> string, info: Option<Hops.IpInfo>)
    ensures Display(h, text) == Hops.Display(Hops.Hop(h.ttl, Current(h.hopType), h.addr, None, info), text)
    ensures forall d: nat :: Display(h.(rtt := d), text) == Display(h, text)
  {
  }
}
