/**
 * The pure rules of the HTTP server (backend `server.rs`): which browser
 * origins may read the event stream, which domains the certificate is
 * requested for, which tracer serves a connection, and the order in which a
 * trace's hops and reverse-DNS lookups reach the event channel.
 *
 * Header values are byte strings; the origin is modelled as a string with
 * one character per byte, which makes the byte-wise comparisons of the
 * source character-wise comparisons here.
 */
module Server {
  import opened Wrappers
  import opened Bytes
  import opened Net
  import opened Hops

  // ----- CORS -----

  predicate StartsWith(s: string, p: string)
  {
    |p| <= |s| && s[..|p|] == p
  }

  predicate EndsWith(s: string, p: string)
  {
    |p| <= |s| && s[|s| - |p|..] == p
  }

  const LOCALHOST_PREFIX: string := "http://localhost:"
  const SUBDOMAIN_SUFFIX: string := ".inband-traceroute.net"
  const SITE_ORIGIN: string := "https://inband-traceroute.net"

  /**
   * The origin predicate of the CORS layer: localhost on any port, any
   * origin ending in ".inband-traceroute.net" whatever its scheme, and the
   * site's own https origin.
   */
  function CorsAllowed(origin: string): (ok: bool)
    ensures StartsWith(origin, LOCALHOST_PREFIX) ==> ok
    ensures EndsWith(origin, SUBDOMAIN_SUFFIX) ==> ok
    ensures origin == SITE_ORIGIN ==> ok
  {
    if StartsWith(origin, LOCALHOST_PREFIX) then true
    else if EndsWith(origin, SUBDOMAIN_SUFFIX) || origin == SITE_ORIGIN then true
    else false
  }

  /** Rejection is exactly the failure of all three rules. */
  lemma CorsRejects(origin: string)
    requires !StartsWith(origin, LOCALHOST_PREFIX)
    requires !EndsWith(origin, SUBDOMAIN_SUFFIX)
    requires origin != SITE_ORIGIN
    ensures !CorsAllowed(origin)
  {
  }

  /** Any port text after "http://localhost:" is allowed. */
  lemma {:induction false} LocalhostAnyPort(port: string)
    ensures CorsAllowed(LOCALHOST_PREFIX + port)
  {
    assert (LOCALHOST_PREFIX + port)[..|LOCALHOST_PREFIX|] == LOCALHOST_PREFIX;
  }

  /** Any host under the site's domain is allowed, with any scheme, plain http included. */
  lemma {:induction false} SubdomainAnyScheme(schemeAndHost: string)
    ensures CorsAllowed(schemeAndHost + SUBDOMAIN_SUFFIX)
  {
    var s := schemeAndHost + SUBDOMAIN_SUFFIX;
    assert s[|s| - |SUBDOMAIN_SUFFIX|..] == SUBDOMAIN_SUFFIX;
  }

  /** The site itself over plain http is rejected. */
  lemma PlainHttpSiteRejected()
    ensures !CorsAllowed("http://inband-traceroute.net")
  {
    var o := "http://inband-traceroute.net";
    assert o[|o| - |SUBDOMAIN_SUFFIX|..][0] != SUBDOMAIN_SUFFIX[0];
    assert o[..|LOCALHOST_PREFIX|][7] != LOCALHOST_PREFIX[7];
  }

  /** localhost without the port colon is rejected. */
  lemma LocalhostWithoutPortRejected()
    ensures !CorsAllowed("http://localhost")
  {
  }

  /** A look-alike domain that only contains the site's name is rejected. */
  lemma LookAlikeRejected()
    ensures !CorsAllowed("https://inband-traceroute.net.example.com")
  {
    var o := "https://inband-traceroute.net.example.com";
    assert o[4] == 's' && LOCALHOST_PREFIX[4] == ':';
    assert o[..|LOCALHOST_PREFIX|][4] == o[4];
    assert o[|o| - |SUBDOMAIN_SUFFIX|..][0] != SUBDOMAIN_SUFFIX[0];
    assert |o| != |SITE_ORIGIN|;
  }

  // ----- certificate domains -----

  /**
   * The domain list of `setup_server`: the configured domain, then, when
   * v4/v6 subdomains are enabled, "ipv4." and "ipv6." in front of it.
   */
  method Domains(domain: string, v4V6Subdomains: bool) returns (domains: seq<string>)
    ensures |domains| == if v4V6Subdomains then 3 else 1
    ensures domains[0] == domain
    ensures v4V6Subdomains ==> domains[1] == "ipv4." + domain && domains[2] == "ipv6." + domain
    ensures forall i :: 0 <= i < |domains| ==> EndsWith(domains[i], domain)
  {
    domains := [domain];
    assert domain[|domain| - |domain|..] == domain;
    if v4V6Subdomains {
      var v4 := "ipv4." + domain;
      assert v4[|v4| - |domain|..] == domain;
      domains := domains + [v4];
      var v6 := "ipv6." + domain;
      assert v6[|v6| - |domain|..] == domain;
      domains := domains + [v6];
    }
  }

  // ----- tracer selection -----

  /** A tracer, as far as the server needs to know it: where it listens. */
  datatype TracerInfo = TracerInfo(listen: Net.SocketAddr)

  /** `AppState`: an optional tracer per IP family. */
  datatype AppState = AppState(tracerV4: Option<TracerInfo>, tracerV6: Option<TracerInfo>)

  /** The v4 tracer listens on an IPv4 address and the v6 tracer on an IPv6 one. */
  predicate FamiliesMatch(state: AppState)
  {
    && (state.tracerV4.Some? ==> state.tracerV4.value.listen.ip.V4?)
    && (state.tracerV6.Some? ==> state.tracerV6.value.listen.ip.V6?)
  }

  /** `get_tracer`: the tracer of the remote's family; its absence is a panic. */
  function GetTracer(state: AppState, remote: Net.SocketAddr): (r: Result<TracerInfo>)
    ensures remote.ip.V4? ==> (r.Ok? <==> state.tracerV4.Some?) && (r.Ok? ==> r.value == state.tracerV4.value)
    ensures remote.ip.V6? ==> (r.Ok? <==> state.tracerV6.Some?) && (r.Ok? ==> r.value == state.tracerV6.value)
    ensures r.Err? ==> r.failure.Panic?
  {
    var t := if remote.ip.V4? then state.tracerV4 else state.tracerV6;
    if t.Some? then Ok(t.value)
    else Err(Panic("If we got a connection in this protocol, the program should have a tracer for it"))
  }

  /**
   * The tracer chosen for a connection listens in the remote's family, so
   * its probes never hit the family mismatch the probe builder rejects.
   */
  lemma SelectedTracerSameFamily(state: AppState, remote: Net.SocketAddr)
    requires FamiliesMatch(state)
    requires GetTracer(state, remote).Ok?
    ensures GetTracer(state, remote).value.listen.ip.V4? == remote.ip.V4?
  {
  }

  // ----- event order of trace_stream -----

  /**
   * What the relay task does for each hop: queue the hop event, or spawn the
   * reverse lookup of an address (whose result the spawned task queues
   * later).
   */
  datatype Step = SendHop(hop: Hop) | SpawnLookup(ip: IpAddr)

  /** The steps for one hop: its event, then a lookup if it has an address. */
  function HopSteps(h: Hop): seq<Step>
  {
    [SendHop(h)] + if h.addr.Some? then [SpawnLookup(h.addr.value)] else []
  }

  /** The steps for a sequence of hops, hop by hop. */
  function Emissions(hops: seq<Hop>): seq<Step>
  {
    if hops == [] then [] else Emissions(hops[..|hops| - 1]) + HopSteps(hops[|hops| - 1])
  }

  /** The hop events among some steps, in order. */
  function HopsOf(steps: seq<Step>): seq<Hop>
  {
    if steps == [] then []
    else HopsOf(steps[..|steps| - 1]) + if steps[|steps| - 1].SendHop? then [steps[|steps| - 1].hop] else []
  }

  /** How many hops carry an address. */
  function Addressed(hops: seq<Hop>): nat
  {
    if hops == [] then 0 else Addressed(hops[..|hops| - 1]) + if hops[|hops| - 1].addr.Some? then 1 else 0
  }

  /** How many lookups some steps spawn. */
  function Lookups(steps: seq<Step>): nat
  {
    if steps == [] then 0 else Lookups(steps[..|steps| - 1]) + if steps[|steps| - 1].SpawnLookup? then 1 else 0
  }

  /** Every lookup directly follows the event of a hop with that address. */
  predicate LookupsFollowTheirHop(steps: seq<Step>)
  {
    forall i :: 0 <= i < |steps| && steps[i].SpawnLookup? ==>
      0 < i && steps[i - 1].SendHop? && steps[i - 1].hop.addr == Some(steps[i].ip)
  }

  lemma {:induction false} HopsOfAppend(a: seq<Step>, b: seq<Step>)
    ensures HopsOf(a + b) == HopsOf(a) + HopsOf(b)
    decreases |b|
  {
    if b == [] {
      assert a + b == a;
    } else {
      var b' := b[..|b| - 1];
      assert (a + b)[..|a + b| - 1] == a + b';
      HopsOfAppend(a, b');
    }
  }

  lemma {:induction false} LookupsAppend(a: seq<Step>, b: seq<Step>)
    ensures Lookups(a + b) == Lookups(a) + Lookups(b)
    decreases |b|
  {
    if b == [] {
      assert a + b == a;
    } else {
      var b' := b[..|b| - 1];
      assert (a + b)[..|a + b| - 1] == a + b';
      LookupsAppend(a, b');
    }
  }

  /**
   * The relay emits every hop, in order, exactly once; it spawns one lookup
   * per hop with an address; and each lookup comes right after the event of
   * its hop, so no reverse-DNS result can be queued before its hop.
   */
  lemma {:induction false} EmissionsOrder(hops: seq<Hop>)
    ensures HopsOf(Emissions(hops)) == hops
    ensures Lookups(Emissions(hops)) == Addressed(hops)
    ensures LookupsFollowTheirHop(Emissions(hops))
    decreases |hops|
  {
    if hops != [] {
      var init := hops[..|hops| - 1];
      var h := hops[|hops| - 1];
      EmissionsOrder(init);
      var steps := HopSteps(h);
      HopsOfAppend(Emissions(init), steps);
      LookupsAppend(Emissions(init), steps);
      assert HopsOf([SendHop(h)]) == [h];
      if h.addr.Some? {
        assert steps == [SendHop(h)] + [SpawnLookup(h.addr.value)];
        HopsOfAppend([SendHop(h)], [SpawnLookup(h.addr.value)]);
        LookupsAppend([SendHop(h)], [SpawnLookup(h.addr.value)]);
        assert HopsOf([SpawnLookup(h.addr.value)]) == [];
      } else {
        assert steps == [SendHop(h)];
      }
      assert hops == init + [h];
      var all := Emissions(init) + steps;
      forall i | 0 <= i < |all| && all[i].SpawnLookup?
        ensures 0 < i && all[i - 1].SendHop? && all[i - 1].hop.addr == Some(all[i].ip)
      {
        if i < |Emissions(init)| {
          assert all[i] == Emissions(init)[i];
          assert all[i - 1] == Emissions(init)[i - 1];
        } else {
          assert i == |Emissions(init)| + 1;
        }
      }
    }
  }

  /**
   * The relay task of `trace_stream`: the hop stream is unwrapped (an error
   * is a panic), then each hop is queued, followed by the spawn of its
   * reverse lookup when it has an address.
   */
  method Relay(stream: Result<seq<Hop>>) returns (r: Result<seq<Step>>)
    ensures stream.Err? ==> r.Err? && r.failure.Panic?
    ensures stream.Ok? ==> r == Ok(Emissions(stream.value))
  {
    if stream.Err? {
      return Err(Panic("called `Result::unwrap()` on an `Err` value"));
    }
    var hops := stream.value;
    var steps: seq<Step> := [];
    var i := 0;
    while i < |hops|
      invariant 0 <= i <= |hops|
      invariant steps == Emissions(hops[..i])
    {
      var hop := hops[i];
      steps := steps + [SendHop(hop)];
      if hop.addr.Some? {
        steps := steps + [SpawnLookup(hop.addr.value)];
      }
      assert hops[..i + 1][..i] == hops[..i];
      i := i + 1;
    }
    assert hops[..i] == hops;
    return Ok(steps);
  }
}
