/**
 * The frontend's per-node connection (`traceConnection.ts`): it opens the
 * event stream of one node for one IP version, merges the Hop and
 * ReverseDns messages it receives into two tables keyed by TTL, and after
 * each change hands every registered listener a snapshot: the hops sorted by
 * descending TTL and a copy of the reverse-DNS table.
 *
 * The event stream handle is the URL it was opened on (`source`); listeners
 * are numbered in registration order; each call of a listener is recorded in
 * `deliveries`.
 */
module TraceConnections {
  import opened Wrappers
  import TraceApi

  /** A Hop message as the backend serialises it; `addr` is the textual address or null. */
  datatype HopMsg = HopMsg(ttl: nat, hopType: string, addr: Option<string>, rtt: Option<nat>)

  /** The outcome of a reverse lookup: `{Ok: name}` or `{Err: message}`. */
  datatype LookupName = NameOk(name: string) | NameErr(message: string)

  /** A ReverseDns message. */
  datatype RdnsMsg = RdnsMsg(ttl: nat, ip: string, name: LookupName)

  /**
   * A parsed stream message: which of the keys `Hop` and `ReverseDns` it
   * has (a message may have neither, or be null).
   */
  datatype Msg = Msg(hop: Option<HopMsg>, reverseDns: Option<RdnsMsg>)

  /** `protocol`: 'IPv4' or 'IPv6'. */
  datatype Protocol = IPv4 | IPv6

  /** One call of a listener: the hops list and the reverse-DNS table it was given. */
  datatype Delivery = Delivery(listener: nat, hops: seq<(nat, HopMsg)>, reverseDnsMap: map<nat, RdnsMsg>)

  // ----- the snapshot order -----

  /** The TTLs listed. */
  function KeysOf(hs: seq<(nat, HopMsg)>): set<nat>
  {
    if hs == [] then {} else {hs[0].0} + KeysOf(hs[1..])
  }

  /** Each TTL is larger than every TTL after it. */
  predicate Descending(hs: seq<(nat, HopMsg)>)
  {
    hs == [] || ((forall k :: k in KeysOf(hs[1..]) ==> k < hs[0].0) && Descending(hs[1..]))
  }

  /** `hs` lists every entry of `table` once, by strictly descending TTL. */
  predicate IsSnapshot(hs: seq<(nat, HopMsg)>, table: map<nat, HopMsg>)
  {
    && Descending(hs)
    && KeysOf(hs) == table.Keys
    && forall i :: 0 <= i < |hs| ==> hs[i].0 in table && hs[i].1 == table[hs[i].0]
  }

  lemma {:induction false} KeysOfIndex(hs: seq<(nat, HopMsg)>, i: nat)
    requires i < |hs|
    ensures hs[i].0 in KeysOf(hs)
  {
    if i > 0 {
      KeysOfIndex(hs[1..], i - 1);
    }
  }

  lemma {:induction false} KeysOfHasIndex(hs: seq<(nat, HopMsg)>, x: nat) returns (i: nat)
    requires x in KeysOf(hs)
    ensures i < |hs| && hs[i].0 == x
  {
    if hs[0].0 == x {
      i := 0;
    } else {
      var j := KeysOfHasIndex(hs[1..], x);
      i := j + 1;
    }
  }

  /** A descending list has pairwise strictly decreasing TTLs, so no TTL twice. */
  lemma {:induction false} DescendingPairs(hs: seq<(nat, HopMsg)>)
    requires Descending(hs)
    ensures forall i, j :: 0 <= i < j < |hs| ==> hs[i].0 > hs[j].0
  {
    if hs != [] {
      DescendingPairs(hs[1..]);
      forall j | 0 < j < |hs| ensures hs[0].0 > hs[j].0 {
        KeysOfIndex(hs[1..], j - 1);
      }
      forall i, j | 0 <= i < j < |hs| ensures hs[i].0 > hs[j].0 {
        if i > 0 {
          assert hs[i] == hs[1..][i - 1] && hs[j] == hs[1..][j - 1];
        }
      }
    }
  }

  /** Inserting an entry into a descending list at its place. */
  function InsertDescending(hs: seq<(nat, HopMsg)>, k: nat, v: HopMsg): seq<(nat, HopMsg)>
  {
    if hs == [] || k > hs[0].0 then [(k, v)] + hs
    else [hs[0]] + InsertDescending(hs[1..], k, v)
  }

  /** Inserting a new TTL keeps the list descending, adds exactly that TTL, and adds only that entry. */
  lemma {:induction false} InsertDescendingCorrect(hs: seq<(nat, HopMsg)>, k: nat, v: HopMsg)
    requires Descending(hs) && k !in KeysOf(hs)
    ensures Descending(InsertDescending(hs, k, v))
    ensures KeysOf(InsertDescending(hs, k, v)) == KeysOf(hs) + {k}
    ensures forall i :: 0 <= i < |InsertDescending(hs, k, v)| ==>
      InsertDescending(hs, k, v)[i] == (k, v) || InsertDescending(hs, k, v)[i] in hs
  {
    var r := InsertDescending(hs, k, v);
    if hs == [] || k > hs[0].0 {
      assert r[1..] == hs;
      if hs != [] {
        forall x | x in KeysOf(hs) ensures x < k {
          if x != hs[0].0 {
            assert x in KeysOf(hs[1..]);
          }
        }
      }
      forall i | 0 <= i < |r| ensures r[i] == (k, v) || r[i] in hs {
        if i > 0 { assert r[i] == hs[i - 1]; }
      }
    } else {
      InsertDescendingCorrect(hs[1..], k, v);
      assert r[1..] == InsertDescending(hs[1..], k, v);
      forall i | 0 <= i < |r| ensures r[i] == (k, v) || r[i] in hs {
        if i > 0 && r[i] != (k, v) {
          assert r[i] == r[1..][i - 1];
          assert r[i] in hs[1..];
        }
      }
    }
  }

  /** Dropping the head of a snapshot leaves a snapshot of the table without its TTL. */
  lemma SnapshotTail(hs: seq<(nat, HopMsg)>, table: map<nat, HopMsg>)
    requires IsSnapshot(hs, table) && |hs| > 0
    ensures IsSnapshot(hs[1..], table - {hs[0].0})
  {
    assert hs[0].0 !in KeysOf(hs[1..]);
    forall i | 0 <= i < |hs[1..]| ensures hs[1..][i].0 in table - {hs[0].0} {
      KeysOfIndex(hs[1..], i);
    }
  }

  /**
   * There is only one snapshot of a table: whichever order the entries are
   * visited in, the list handed to listeners is the same.
   */
  lemma {:induction false} SnapshotUnique(a: seq<(nat, HopMsg)>, b: seq<(nat, HopMsg)>, table: map<nat, HopMsg>)
    requires IsSnapshot(a, table) && IsSnapshot(b, table)
    ensures a == b
    decreases |a|
  {
    if a != [] && b != [] {
      // each head is the largest TTL of the table, so the heads agree
      assert a[0].0 in KeysOf(b) && b[0].0 in KeysOf(a);
      assert a[0].0 == b[0].0;
      SnapshotTail(a, table);
      SnapshotTail(b, table);
      SnapshotUnique(a[1..], b[1..], table - {a[0].0});
      assert a == [a[0]] + a[1..] && b == [b[0]] + b[1..];
    }
  }

  /**
   * Every listener, in registration order, got one delivery after `before`,
   * with a snapshot of `table` and a copy of `rdns`; earlier deliveries are
   * untouched.
   */
  predicate PublishedOnce(before: seq<Delivery>, after: seq<Delivery>, listeners: seq<nat>,
                          table: map<nat, HopMsg>, rdns: map<nat, RdnsMsg>)
  {
    && |after| == |before| + |listeners|
    && after[..|before|] == before
    && forall i :: 0 <= i < |listeners| ==>
         && after[|before| + i].listener == listeners[i]
         && IsSnapshot(after[|before| + i].hops, table)
         && after[|before| + i].reverseDnsMap == rdns
  }

  /** The URL key of a protocol: 'IPv4' selects 'ipv4', anything else 'ipv6'. */
  function ProtoKey(p: Protocol): (v: TraceApi.IpVersion)
    ensures (v == TraceApi.Ipv4) <==> (p == IPv4)
  {
    if p == IPv4 then TraceApi.Ipv4 else TraceApi.Ipv6
  }

  /** The TTLs whose stored hop has the address `ip`. */
  predicate Matches(table: map<nat, HopMsg>, ttl: nat, ip: string)
  {
    ttl in table && table[ttl].addr == Some(ip)
  }

  class TraceConnection {
    const node: TraceApi.Node
    const protocol: Protocol
    const getNodeUrl: (TraceApi.Node, TraceApi.IpVersion) -> string
    var source: Option<string>
    var traceData: map<nat, HopMsg>
    var reverseDns: map<nat, RdnsMsg>
    var listeners: seq<nat>
    var deliveries: seq<Delivery>

    constructor (node: TraceApi.Node, protocol: Protocol, getNodeUrl: (TraceApi.Node, TraceApi.IpVersion) -> string)
      ensures this.node == node && this.protocol == protocol && this.getNodeUrl == getNodeUrl
      ensures source == None && traceData == map[] && reverseDns == map[]
      ensures listeners == [] && deliveries == []
    {
      this.node := node;
      this.protocol := protocol;
      this.getNodeUrl := getNodeUrl;
      source := None;
      traceData := map[];
      reverseDns := map[];
      listeners := [];
      deliveries := [];
    }

    /** `connect`: open the stream of this node for this protocol (a previous stream is not closed). */
    method Connect()
      modifies this
      ensures source == Some(getNodeUrl(node, ProtoKey(protocol)))
      ensures traceData == old(traceData) && reverseDns == old(reverseDns)
      ensures listeners == old(listeners) && deliveries == old(deliveries)
    {
      source := Some(getNodeUrl(node, ProtoKey(protocol)));
    }

    /**
     * The message handler.  A Hop replaces the entry of its TTL; otherwise a
     * ReverseDns is recorded under every TTL whose hop has its address, its
     * own TTL ignored; both publish.  A message with neither key does
     * nothing.
     */
    method OnMessage(msg: Msg)
      modifies this
      ensures source == old(source) && listeners == old(listeners)
      ensures msg.hop.Some? ==>
        && traceData == old(traceData)[msg.hop.value.ttl := msg.hop.value]
        && reverseDns == old(reverseDns)
      ensures msg.hop.None? && msg.reverseDns.Some? ==>
        && traceData == old(traceData)
        && reverseDns.Keys == old(reverseDns).Keys + (set t | t in old(traceData) && Matches(old(traceData), t, msg.reverseDns.value.ip))
        && forall t :: t in reverseDns ==>
             reverseDns[t] == if Matches(old(traceData), t, msg.reverseDns.value.ip) then msg.reverseDns.value else old(reverseDns)[t]
      ensures msg.hop.Some? || msg.reverseDns.Some? ==>
        PublishedOnce(old(deliveries), deliveries, listeners, traceData, reverseDns)
      ensures msg.hop.None? && msg.reverseDns.None? ==>
        traceData == old(traceData) && reverseDns == old(reverseDns) && deliveries == old(deliveries)
    {
      if msg.hop.Some? {
        var hop := msg.hop.value;
        traceData := traceData[hop.ttl := hop];
        Publish();
      } else if msg.reverseDns.Some? {
        AttachReverseDns(msg.reverseDns.value);
        Publish();
      }
    }

    /** The loop over the stored hops that records a reverse lookup under each matching TTL. */
    method AttachReverseDns(rdns: RdnsMsg)
      modifies this
      ensures traceData == old(traceData) && source == old(source)
      ensures listeners == old(listeners) && deliveries == old(deliveries)
      ensures reverseDns.Keys == old(reverseDns).Keys + (set t | t in traceData && Matches(traceData, t, rdns.ip))
      ensures forall t :: t in reverseDns ==>
        reverseDns[t] == if Matches(traceData, t, rdns.ip) then rdns else old(reverseDns)[t]
    {
      var todo := traceData.Keys;
      while todo != {}
        invariant todo <= traceData.Keys
        invariant traceData == old(traceData) && source == old(source)
        invariant listeners == old(listeners) && deliveries == old(deliveries)
        invariant reverseDns.Keys == old(reverseDns).Keys
          + (set t | t in traceData.Keys - todo && Matches(traceData, t, rdns.ip))
        invariant forall t :: t in reverseDns ==>
          reverseDns[t] == if t !in todo && Matches(traceData, t, rdns.ip) then rdns else old(reverseDns)[t]
        decreases todo
      {
        var ttl :| ttl in todo;
        if traceData[ttl].addr == Some(rdns.ip) {
          reverseDns := reverseDns[ttl := rdns];
        }
        todo := todo - {ttl};
      }
    }

    /** The error handler: close and forget the stream, then publish the unchanged tables. */
    method OnError()
      modifies this
      ensures source == None
      ensures traceData == old(traceData) && reverseDns == old(reverseDns) && listeners == old(listeners)
      ensures PublishedOnce(old(deliveries), deliveries, listeners, traceData, reverseDns)
    {
      source := None;
      Publish();
    }

    /** `disconnect`: close and forget the stream; nothing is published. */
    method Disconnect()
      modifies this
      ensures source == None
      ensures traceData == old(traceData) && reverseDns == old(reverseDns)
      ensures listeners == old(listeners) && deliveries == old(deliveries)
    {
      source := None;
    }

    /** `onUpdate`: register a listener after the existing ones. */
    method OnUpdate(listener: nat)
      modifies this
      ensures listeners == old(listeners) + [listener]
      ensures source == old(source) && traceData == old(traceData)
      ensures reverseDns == old(reverseDns) && deliveries == old(deliveries)
    {
      listeners := listeners + [listener];
    }

    /**
     * `publish`: list the stored hops by descending TTL, then call every
     * listener in order with that list and its own copy of the reverse-DNS
     * table.
     */
    method Publish()
      modifies this
      ensures source == old(source) && traceData == old(traceData)
      ensures reverseDns == old(reverseDns) && listeners == old(listeners)
      ensures PublishedOnce(old(deliveries), deliveries, listeners, traceData, reverseDns)
    {
      var hops := SortedEntries(traceData);
      var i := 0;
      while i < |listeners|
        invariant 0 <= i <= |listeners|
        invariant source == old(source) && traceData == old(traceData)
        invariant reverseDns == old(reverseDns) && listeners == old(listeners)
        invariant |deliveries| == |old(deliveries)| + i
        invariant deliveries[..|old(deliveries)|] == old(deliveries)
        invariant forall j :: 0 <= j < i ==>
          deliveries[|old(deliveries)| + j] == Delivery(listeners[j], hops, reverseDns)
      {
        deliveries := deliveries + [Delivery(listeners[i], hops, reverseDns)];
        i := i + 1;
      }
    }
  }

  /** The entries of a table by descending TTL (`Object.entries` followed by the sort). */
  method SortedEntries(table: map<nat, HopMsg>) returns (hops: seq<(nat, HopMsg)>)
    ensures IsSnapshot(hops, table)
  {
    hops := [];
    var todo := table.Keys;
    while todo != {}
      invariant todo <= table.Keys
      invariant Descending(hops)
      invariant KeysOf(hops) == table.Keys - todo
      invariant forall i :: 0 <= i < |hops| ==> hops[i].0 in table && hops[i].1 == table[hops[i].0]
      decreases todo
    {
      var ttl :| ttl in todo;
      var before := hops;
      InsertDescendingCorrect(hops, ttl, table[ttl]);
      hops := InsertDescending(hops, ttl, table[ttl]);
      forall i | 0 <= i < |hops| ensures hops[i].0 in table && hops[i].1 == table[hops[i].0] {
        if hops[i] != (ttl, table[ttl]) {
          var j :| 0 <= j < |before| && before[j] == hops[i];
        }
      }
      todo := todo - {ttl};
    }
  }

  /**
   * Deliveries are never revised: whatever the connection does later, an
   * earlier delivery keeps the hops and the reverse-DNS table it was given.
   */
  lemma DeliveriesAreSnapshots(before: seq<Delivery>, after: seq<Delivery>, listeners: seq<nat>,
                               table: map<nat, HopMsg>, rdns: map<nat, RdnsMsg>, k: nat)
    requires PublishedOnce(before, after, listeners, table, rdns)
    requires k < |before|
    ensures after[k] == before[k]
  {
    assert after[..|before|][k] == after[k];
  }

  /** Two listeners of one publish receive the same hop list. */
  lemma ListenersAgree(before: seq<Delivery>, after: seq<Delivery>, listeners: seq<nat>,
                       table: map<nat, HopMsg>, rdns: map<nat, RdnsMsg>, i: nat, j: nat)
    requires PublishedOnce(before, after, listeners, table, rdns)
    requires i < |listeners| && j < |listeners|
    ensures after[|before| + i].hops == after[|before| + j].hops
  {
    assert after[|before| + i].listener == listeners[i];
    assert after[|before| + j].listener == listeners[j];
    SnapshotUnique(after[|before| + i].hops, after[|before| + j].hops, table);
  }

  /**
   * After a Hop message every listener sees exactly one entry for the hop's
   * TTL, and it is that hop.
   */
  lemma HopVisibleOnce(hs: seq<(nat, HopMsg)>, table: map<nat, HopMsg>, hop: HopMsg)
    requires IsSnapshot(hs, table[hop.ttl := hop])
    ensures exists i :: 0 <= i < |hs| && hs[i] == (hop.ttl, hop)
    ensures forall i, j :: 0 <= i < |hs| && 0 <= j < |hs| && hs[i].0 == hop.ttl && hs[j].0 == hop.ttl ==> i == j
  {
    var i := KeysOfHasIndex(hs, hop.ttl);
    assert hs[i] == (hop.ttl, hop);
    DescendingPairs(hs);
  }

  /** The stream a connection opens with the frontend's URL builder is the node's /sse URL for its version. */
  lemma ConnectUrl(node: TraceApi.Node, protocol: Protocol)
    ensures TraceApi.DnsNameOf(TraceApi.GetNodeUrl(node, ProtoKey(protocol))) == Some(node.dnsName)
    ensures TraceApi.VersionOf(TraceApi.GetNodeUrl(node, ProtoKey(protocol))) == Some(ProtoKey(protocol))
  {
    TraceApi.UrlRoundTrip(node, ProtoKey(protocol));
  }
}
