/**
 * The node addressing of the frontend (`traceApi.ts`): a measurement node
 * and the URL of its server-sent-event stream for one IP version.
 */
module TraceApi {
  import opened Wrappers

  /** `Node`, as listed in nodes.json. */
  datatype Node = Node(dnsName: string, ipv4: string, ipv6: string)

  /** `IpVersion`: 'ipv4' or 'ipv6'. */
  datatype IpVersion = Ipv4 | Ipv6

  function Prefix(v: IpVersion): string
  {
    if v == Ipv4 then "ipv4." else "ipv6."
  }

  /**
   * `getNodeUrl`: https, the version's sub-domain of the node's DNS name,
   * path /sse.  The DNS name is inserted as it is.
   */
  function GetNodeUrl(node: Node, v: IpVersion): (url: string)
    ensures |url| == |node.dnsName| + 17
    ensures url[..8] == "https://" && url[|url| - 4..] == "/sse"
    ensures url[8..13] == Prefix(v)
    ensures url[13..|url| - 4] == node.dnsName
  {
    "https://" + Prefix(v) + node.dnsName + "/sse"
  }

  /** The IP version a stream URL selects, read back from its sub-domain. */
  function VersionOf(url: string): (r: Option<IpVersion>)
    ensures r.Some? ==> |url| >= 13 && url[8..13] == Prefix(r.value)
  {
    if |url| >= 13 && url[8..13] == "ipv4." then Some(Ipv4)
    else if |url| >= 13 && url[8..13] == "ipv6." then Some(Ipv6)
    else None
  }

  /** The DNS name a stream URL was built from. */
  function DnsNameOf(url: string): (r: Option<string>)
    ensures r.Some? ==> |url| == |r.value| + 17 && url[13..|url| - 4] == r.value
  {
    if |url| >= 17 && url[..8] == "https://" && url[|url| - 4..] == "/sse" then Some(url[13..|url| - 4])
    else None
  }

  /** Reading a URL back gives the node's DNS name verbatim and the IP version it was built for. */
  lemma UrlRoundTrip(node: Node, v: IpVersion)
    ensures DnsNameOf(GetNodeUrl(node, v)) == Some(node.dnsName)
    ensures VersionOf(GetNodeUrl(node, v)) == Some(v)
  {
    var url := GetNodeUrl(node, v);
    assert Prefix(Ipv4) != Prefix(Ipv6) by {
      assert Prefix(Ipv4)[3] != Prefix(Ipv6)[3];
    }
  }

  /** The two URLs of a node differ, and only in the version digit of the sub-domain. */
  lemma VersionsDifferOnlyInPrefix(node: Node)
    ensures GetNodeUrl(node, Ipv4) != GetNodeUrl(node, Ipv6)
    ensures |GetNodeUrl(node, Ipv4)| == |GetNodeUrl(node, Ipv6)|
    ensures forall i :: 0 <= i < |GetNodeUrl(node, Ipv4)| && i != 11 ==>
      GetNodeUrl(node, Ipv4)[i] == GetNodeUrl(node, Ipv6)[i]
  {
    var a := GetNodeUrl(node, Ipv4);
    var b := GetNodeUrl(node, Ipv6);
    assert a[11] == '4' && b[11] == '6';
    forall i | 0 <= i < |a| && i != 11
      ensures a[i] == b[i]
    {
      if i < 8 {
        assert a[i] == a[..8][i] && b[i] == b[..8][i];
      } else if i < 13 {
        assert a[i] == a[8..13][i - 8] && b[i] == b[8..13][i - 8];
      } else if i < |a| - 4 {
        assert a[i] == a[13..|a| - 4][i - 13] && b[i] == b[13..|b| - 4][i - 13];
      } else {
        assert a[i] == a[|a| - 4..][i - (|a| - 4)] && b[i] == b[|b| - 4..][i - (|b| - 4)];
      }
    }
  }
}
