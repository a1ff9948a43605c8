/**
 * Hops as the user-space program reports them (backend `hop.rs`): the kind
 * of reply, the TTL it answers, the replying address, the round-trip time in
 * nanoseconds and the geolocation record looked up for the address, and the
 * one-line text form used by the plain-text endpoint.
 */
module Hops {
  import opened Wrappers
  import opened Bytes
  import opened Text
  import opened Net

  datatype HopType = Timeout | TcpRst | TcpAck | IcmpTimeExceeded | Origin

  /** The fixed text of each hop type. */
  function Label(t: HopType): string
  {
    match t
    case Timeout => "[timeout]"
    case TcpRst => "TCP Reset"
    case TcpAck => "TCP ACK"
    case IcmpTimeExceeded => "ICMP Time Exceeded"
    case Origin => "[this server]"
  }

  /** The geolocation / AS record of an address (`IpinfoCountryASN`). */
  datatype IpInfo = IpInfo(asDomain: Option<string>, asName: Option<string>, asn: Option<string>,
                           continent: Option<string>, continentCode: Option<string>,
                           country: Option<string>, countryCode: Option<string>, ip: Option<string>)

  datatype Hop = Hop(ttl: byte, hopType: HopType, addr: Option<IpAddr>, rtt: Option<u64>, enrichedInfo: Option<IpInfo>)

  /**
   * `Hop::new`: the record is looked up only for a present address, through
   * the database lookup given as a function.
   */
  function New(ttl: byte, hopType: HopType, addr: Option<IpAddr>, rtt: Option<u64>,
               lookup: IpAddr -> Option<IpInfo>): (h: Hop)
    ensures h.ttl == ttl && h.hopType == hopType && h.addr == addr && h.rtt == rtt
    ensures h.addr.None? ==> h.enrichedInfo.None?
    ensures h.addr.Some? ==> h.enrichedInfo == lookup(h.addr.value)
  {
    Hop(ttl, hopType, addr, rtt, if addr.Some? then lookup(addr.value) else None)
  }

  /** Whole milliseconds in a duration of rtt nanoseconds (integer division). */
  function Millis(rtt: u64): nat
  {
    rtt / 1000000
  }

  function Head(h: Hop): string
  {
    Decimal(h.ttl) + ": " + Label(h.hopType)
  }

  function FromPart(h: Hop, text: IpAddr -> string): string
  {
    if h.addr.Some? then " from " + text(h.addr.value) else ""
  }

  function RttPart(h: Hop): string
  {
    if h.rtt.Some? then " (rtt " + Decimal(Millis(h.rtt.value)) + "ms)" else ""
  }

  /**
   * The `Display` form.  The textual form of an address (the standard
   * library's) is a parameter.
   */
  function Display(h: Hop, text: IpAddr -> string): string
  {
    Head(h) + FromPart(h, text) + RttPart(h)
  }

  /**
   * The labels are pairwise different already in their first seven
   * characters, so none is a prefix of another.
   */
  lemma LabelsDistinct(a: HopType, b: HopType)
    ensures |Label(a)| >= 7
    ensures Label(a)[..7] == Label(b)[..7] <==> a == b
  {
    assert Label(Timeout)[..7] == "[timeou";
    assert Label(TcpRst)[..7] == "TCP Res";
    assert Label(TcpAck)[..7] == "TCP ACK";
    assert Label(IcmpTimeExceeded)[..7] == "ICMP Ti";
    assert Label(Origin)[..7] == "[this s";
  }

  /** The millisecond figure is the whole number of milliseconds, rounded down. */
  lemma MillisBounds(rtt: u64)
    ensures Millis(rtt) * 1000000 <= rtt < (Millis(rtt) + 1) * 1000000
  {
  }

  /**
   * The line starts with "{ttl}: {type}"; " from {addr}" follows the type
   * exactly when the address is present; " (rtt Nms)" ends the line exactly
   * when the round-trip time is present; with neither, the line is the head
   * alone.
   */
  lemma DisplayLayout(h: Hop, text: IpAddr -> string)
    ensures var head := Head(h);
      var s := Display(h, text);
      && |s| >= |head| && s[..|head|] == head
      && (h.addr.Some? <==> |s| >= |head| + 6 && s[|head|..|head| + 6] == " from ")
      && (h.addr.Some? ==> s[|head| + 6..|head| + 6 + |text(h.addr.value)|] == text(h.addr.value))
      && (h.rtt.Some? ==>
            var tail := " (rtt " + Decimal(Millis(h.rtt.value)) + "ms)";
            |s| >= |tail| && s[|s| - |tail|..] == tail)
      && (h.addr.None? && h.rtt.None? ==> s == head)
  {
    var head := Head(h);
    var s := Display(h, text);
    assert s == head + (FromPart(h, text) + RttPart(h));
    if h.addr.None? && h.rtt.Some? {
      assert s[|head|..|head| + 6] == RttPart(h)[..6];
      assert RttPart(h)[1] == '(';
    }
    if h.addr.Some? {
      var rest := FromPart(h, text) + RttPart(h);
      assert rest[..6] == " from ";
      assert rest[6..6 + |text(h.addr.value)|] == text(h.addr.value);
    }
  }

  lemma ColonFree(n: nat, t: HopType)
    ensures ':' !in Decimal(n)
    ensures ':' !in Label(t)
  {
  }

  lemma FirstColon(a: string, b: string, c: string, d: string)
    requires ':' !in a && ':' !in c
    requires |b| >= 1 && b[0] == ':' && |d| >= 1 && d[0] == ':'
    requires a + b == c + d
    ensures a == c
  {
    assert a == (a + b)[..|a|];
    assert c == (c + d)[..|c|];
  }

  function Rest(h: Hop, text: IpAddr -> string): string
  {
    Label(h.hopType) + FromPart(h, text) + RttPart(h)
  }

  lemma DisplaySplit(h: Hop, text: IpAddr -> string)
    ensures Display(h, text) == Decimal(h.ttl) + (": " + Rest(h, text))
    ensures |Rest(h, text)| >= 7 && Rest(h, text)[..7] == Label(h.hopType)[..7]
  {
    DisplayIsTtlThenRest(h, text);
    RestStartsWithLabel(h, text);
  }

  lemma DisplayIsTtlThenRest(h: Hop, text: IpAddr -> string)
    ensures Display(h, text) == Decimal(h.ttl) + (": " + Rest(h, text))
  {
    var d, l, f, r := Decimal(h.ttl), Label(h.hopType), FromPart(h, text), RttPart(h);
    assert Display(h, text) == (((d + ": ") + l) + f) + r;
    assert Rest(h, text) == (l + f) + r;
    Regroup(d, ": ", l, f, r);
  }

  lemma Regroup(a: string, b: string, c: string, d: string, e: string)
    ensures (((a + b) + c) + d) + e == a + (b + ((c + d) + e))
  {
  }

  lemma RestStartsWithLabel(h: Hop, text: IpAddr -> string)
    ensures |Rest(h, text)| >= 7 && Rest(h, text)[..7] == Label(h.hopType)[..7]
  {
    var l := Label(h.hopType);
    assert |l| >= 7;
    var tail := FromPart(h, text) + RttPart(h);
    assert Rest(h, text) == l + tail;
    assert (l + tail)[..7] == l[..7];
  }

  /**
   * The line determines the TTL and the hop type: two hops that print alike
   * have the same TTL and the same type, whatever their addresses print as.
   */
  lemma DisplayDeterminesHead(h1: Hop, h2: Hop, text1: IpAddr -> string, text2: IpAddr -> string)
    requires Display(h1, text1) == Display(h2, text2)
    ensures h1.ttl == h2.ttl && h1.hopType == h2.hopType
  {
    var r1 := Rest(h1, text1);
    var r2 := Rest(h2, text2);
    DisplaySplit(h1, text1);
    DisplaySplit(h2, text2);
    ColonFree(h1.ttl, h1.hopType);
    ColonFree(h2.ttl, h2.hopType);
    FirstColon(Decimal(h1.ttl), ": " + r1, Decimal(h2.ttl), ": " + r2);
    DecimalInjective(h1.ttl, h2.ttl);
    var s := Display(h1, text1);
    assert ": " + r1 == s[|Decimal(h1.ttl)|..];
    assert ": " + r2 == s[|Decimal(h2.ttl)|..];
    assert r1 == (": " + r1)[2..] == (": " + r2)[2..] == r2;
    LabelsDistinct(h1.hopType, h2.hopType);
  }
}
