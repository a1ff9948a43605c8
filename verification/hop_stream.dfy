/**
 * The hop stream of one trace (`TraceHandle::hop_stream_internal` and
 * `TraceHandle::hop_stream` in `tracer.rs`).
 *
 * The asynchronous receiver is replaced by a script: entry k is the outcome
 * of the k-th receive, `None` standing for a receive that timed out, and a
 * script that has run out times out forever.  The monotonic clock read right
 * after the probe for a TTL is sent is the function `sentAt`, and the
 * geolocation database is the function `lookup`.  The initial ACK is the
 * first receive.
 *
 * Two subtractions in the stream can underflow; `Arith` selects between the
 * arithmetic as written (`Checked`: a build with overflow checks panics) and
 * the evidently intended one (`Corrected`).
 */
module HopStream {
  import opened Wrappers
  import opened Bytes
  import Common
  import opened Net
  import opened Hops
  import Tracer

  datatype Arith = Checked | Corrected

  /** Everything a trace depends on besides its own state. */
  datatype Env = Env(
    listen: Net.SocketAddr,
    remote: Net.SocketAddr,
    maxHops: byte,
    script: seq<Option<Common.TraceEvent>>,
    sentAt: nat -> u64,
    lookup: IpAddr -> Option<IpInfo>,
    arith: Arith)

  /** How a stream ended: it ran to the end of its loop, or panicked. */
  datatype End = Completed | Failed(failure: Failure)

  /** What a stream produced: the hops it yielded and the probes it sent, in order. */
  datatype Run = Run(hops: seq<Hop>, probes: seq<Tracer.Probe>, end: End)

  const TWO_32: int := 0x1_0000_0000

  /**
   * `ack_seq - 1`, the sequence number a probe is sent with (and the value an
   * arriving ACK number is compared with).  With overflow checks, 0 panics;
   * corrected, it is the TCP sequence-space predecessor.
   */
  function SeqBefore(ackSeq: u32, arith: Arith): (r: Result<u32>)
    ensures r.Ok? ==> (r.value + 1) % TWO_32 == ackSeq
    ensures r.Err? <==> arith == Checked && ackSeq == 0
  {
    if arith == Checked && ackSeq == 0 then Err(Panic("attempt to subtract with overflow"))
    else Ok((ackSeq as int + TWO_32 - 1) % TWO_32)
  }

  /**
   * `event.arrival - sent_time`, the round-trip time in nanoseconds.  With
   * overflow checks an arrival before the send time panics; corrected, there
   * is no round-trip time then.
   */
  function Rtt(arrival: u64, sentTime: u64, arith: Arith): (r: Result<Option<u64>>)
    ensures r.Ok? && r.value.Some? ==> sentTime + r.value.value == arrival
    ensures r.Ok? && r.value.None? ==> arrival < sentTime
    ensures r.Err? <==> arith == Checked && arrival < sentTime
  {
    if sentTime <= arrival then Ok(Some(arrival - sentTime))
    else if arith == Checked then Err(Panic("attempt to subtract with overflow"))
    else Ok(None)
  }

  /** Prefix hops and probes to the output of the rest of a stream. */
  function Then(hops: seq<Hop>, probes: seq<Tracer.Probe>, r: Run): Run
  {
    Run(hops + r.hops, probes + r.probes, r.end)
  }

  lemma ThenThen(hops1: seq<Hop>, probes1: seq<Tracer.Probe>, hops2: seq<Hop>, probes2: seq<Tracer.Probe>, r: Run)
    ensures Then(hops1, probes1, Then(hops2, probes2, r)) == Then(hops1 + hops2, probes1 + probes2, r)
  {
    assert hops1 + (hops2 + r.hops) == (hops1 + hops2) + r.hops;
    assert probes1 + (probes2 + r.probes) == (probes1 + probes2) + r.probes;
  }

  /**
   * The outer loop from `ttl` on: compute the probe's sequence number, send
   * the probe and wait for its outcome.  Past `maxHops` the stream is done.
   */
  function FromTtl(env: Env, ttl: nat, ackSeq: u32, seqNum: u32, pos: nat): Run
    requires 1 <= ttl <= env.maxHops as nat + 1 && pos <= |env.script|
    decreases env.maxHops as nat + 1 - ttl, |env.script| - pos, 2
  {
    if ttl > env.maxHops as nat then Run([], [], Completed)
    else
      match SeqBefore(ackSeq, env.arith)
      case Err(f) => Run([], [], Failed(f))
      case Ok(sent) =>
        match Tracer.OutboundProbe(env.listen, env.remote, ttl as byte, sent, seqNum)
        case Err(f) => Run([], [], Failed(f))
        case Ok(p) => Then([], [p], Wait(env, ttl, sent, ackSeq, seqNum, pos))
  }

  /** The final hop of a trace that reached the remote (TcpAck) or was reset by it (TcpRst). */
  function Final(env: Env, ttl: nat, hopType: HopType, e: Common.TraceEvent): Run
    requires ttl <= 255
  {
    match Rtt(e.arrival, env.sentAt(ttl), env.arith)
    case Err(f) => Run([], [], Failed(f))
    case Ok(rtt) => Run([New(ttl as byte, hopType, Some(env.remote.ip), rtt, env.lookup)], [], Completed)
  }

  /**
   * The inner loop for the probe of `ttl`, sent with sequence number `sent`:
   * a timeout yields a Timeout hop and moves to the next TTL; an ICMP Time
   * Exceeded yields a hop and keeps waiting; the ACK of the probe or a reset
   * yields the final hop; any other ACK only updates the acknowledgement and
   * sequence numbers the next probe is sent with.
   */
  function Wait(env: Env, ttl: nat, sent: u32, ackSeq: u32, seqNum: u32, pos: nat): Run
    requires 1 <= ttl <= env.maxHops as nat && pos <= |env.script|
    decreases env.maxHops as nat + 1 - ttl, |env.script| - pos, 1
  {
    if pos == |env.script| || env.script[pos].None? then
      var next := if pos == |env.script| then pos else pos + 1;
      Then([New(ttl as byte, Timeout, None, None, env.lookup)], [], FromTtl(env, ttl + 1, ackSeq, seqNum, next))
    else
      match env.script[pos].value.eventType
      case IcmpTimeExceeded => OnIcmp(env, ttl, sent, ackSeq, seqNum, pos)
      case TcpAck => OnAck(env, ttl, sent, ackSeq, seqNum, pos)
      case TcpRst => Final(env, ttl, TcpRst, env.script[pos].value)
  }

  /** An ICMP Time Exceeded: a hop from its sender at the current TTL, then keep waiting. */
  function OnIcmp(env: Env, ttl: nat, sent: u32, ackSeq: u32, seqNum: u32, pos: nat): Run
    requires 1 <= ttl <= env.maxHops as nat && pos < |env.script| && env.script[pos].Some?
    decreases env.maxHops as nat + 1 - ttl, |env.script| - pos, 0
  {
    var e := env.script[pos].value;
    match Tracer.EbpfToStd(e.addr)
    case Err(f) => Run([], [], Failed(f))
    case Ok(a) =>
      match Rtt(e.arrival, env.sentAt(ttl), env.arith)
      case Err(f) => Run([], [], Failed(f))
      case Ok(rtt) =>
        Then([New(ttl as byte, IcmpTimeExceeded, Some(a), rtt, env.lookup)], [],
             Wait(env, ttl, sent, ackSeq, seqNum, pos + 1))
  }

  /** An ACK: the ACK of the probe ends the stream; any other only updates the numbers. */
  function OnAck(env: Env, ttl: nat, sent: u32, ackSeq: u32, seqNum: u32, pos: nat): Run
    requires 1 <= ttl <= env.maxHops as nat && pos < |env.script| && env.script[pos].Some?
    decreases env.maxHops as nat + 1 - ttl, |env.script| - pos, 0
  {
    var e := env.script[pos].value;
    match SeqBefore(e.ackSeq, env.arith)
    case Err(f) => Run([], [], Failed(f))
    case Ok(m) =>
      if m == sent then Final(env, ttl, TcpAck, e)
      else Wait(env, ttl, sent, e.ackSeq, e.seqNum, pos + 1)
  }

  /** The hop yielded first: the tracer's own address at TTL 0. */
  function OriginHop(env: Env): Hop
  {
    New(0, Origin, Some(env.listen.ip), None, env.lookup)
  }

  /**
   * `hop_stream_internal`: wait for the initial ACK of the connection (a
   * timeout is an error, any other event type panics), then yield the origin
   * and run the loop from TTL 1 with the ACK's numbers.
   */
  function Trace(env: Env): (r: Result<Run>)
    ensures r.Err? <==> |env.script| == 0 || env.script[0].None? || env.script[0].value.eventType != Common.TcpAck
    ensures r.Err? ==> (r.failure.Panic? <==> |env.script| > 0 && env.script[0].Some?)
    ensures r.Ok? ==> |r.value.hops| > 0 && r.value.hops[0] == OriginHop(env)
  {
    if |env.script| == 0 || env.script[0].None? then Err(Error("Timed out waiting for initial ACK"))
    else
      var first := env.script[0].value;
      if first.eventType != Common.TcpAck then Err(Panic("Received unexpected event type"))
      else Ok(Then([OriginHop(env)], [], FromTtl(env, 1, first.ackSeq, first.seqNum, 1)))
  }

  // ----- the shape of a stream -----

  predicate Terminal(t: HopType)
  {
    t == TcpAck || t == TcpRst
  }

  /**
   * What every stream from a TTL `lo` on looks like, when the next probe it
   * sends is for `probeLo`:
   *  - hop TTLs lie between lo and the last probed TTL, and never decrease;
   *  - no hop after a Timeout hop has the Timeout's TTL;
   *  - a TcpAck or TcpRst hop is the last hop, and there is no Origin hop;
   *  - the probes go out for consecutive TTLs, never past maxHops;
   *  - a stream that completes without a final TcpAck/TcpRst hop has probed
   *    every TTL up to maxHops.
   */
  predicate Shape(r: Run, lo: nat, probeLo: nat, maxHops: nat)
  {
    && HopsAnswerProbes(r, lo, probeLo)
    && Ascending(r.hops)
    && TimeoutsAdvance(r.hops)
    && TerminalLast(r.hops)
    && (forall i :: 0 <= i < |r.hops| ==> r.hops[i].hopType != Origin)
    && ProbesFrom(r.probes, probeLo)
    && probeLo + |r.probes| <= maxHops + 1
    && (r.end == Completed && (|r.hops| == 0 || !Terminal(r.hops[|r.hops| - 1].hopType))
        ==> probeLo + |r.probes| == maxHops + 1)
  }

  predicate HopsAnswerProbes(r: Run, lo: nat, probeLo: nat)
  {
    forall i :: 0 <= i < |r.hops| ==> lo <= r.hops[i].ttl as nat < probeLo + |r.probes|
  }

  predicate Ascending(hs: seq<Hop>)
  {
    forall i, j :: 0 <= i < j < |hs| ==> hs[i].ttl <= hs[j].ttl
  }

  predicate TimeoutsAdvance(hs: seq<Hop>)
  {
    forall i, j :: 0 <= i < j < |hs| && hs[i].hopType == Timeout ==> hs[i].ttl < hs[j].ttl
  }

  predicate TerminalLast(hs: seq<Hop>)
  {
    forall i :: 0 <= i < |hs| - 1 ==> !Terminal(hs[i].hopType)
  }

  predicate ProbesFrom(ps: seq<Tracer.Probe>, lo: nat)
  {
    forall i :: 0 <= i < |ps| ==> Tracer.SentTtl(ps[i].ip) as nat == lo + i
  }

  /** Putting one non-final hop in front of a stream keeps its shape. */
  lemma PrependHop(h: Hop, r: Run, lo: nat, lo2: nat, probeLo: nat, maxHops: nat)
    requires Shape(r, lo2, probeLo, maxHops)
    requires lo <= h.ttl as nat <= lo2 && h.ttl as nat < probeLo
    requires h.hopType == Timeout ==> h.ttl as nat < lo2
    requires !Terminal(h.hopType) && h.hopType != Origin
    ensures Shape(Then([h], [], r), lo, probeLo, maxHops)
  {
    var t := Then([h], [], r);
    assert t.probes == r.probes;
    assert forall i :: 0 < i < |t.hops| ==> t.hops[i] == r.hops[i - 1];
    assert HopsAnswerProbes(t, lo, probeLo);
    assert TerminalLast(t.hops);
    forall i, j | 0 <= i < j < |t.hops|
      ensures t.hops[i].ttl <= t.hops[j].ttl
      ensures t.hops[i].hopType == Timeout ==> t.hops[i].ttl < t.hops[j].ttl
    {
      assert t.hops[j] == r.hops[j - 1];
    }
  }

  /** The probe of `ttl` followed by probes from ttl + 1 on are probes from `ttl` on. */
  lemma ShiftProbes(p: Tracer.Probe, ps: seq<Tracer.Probe>, ttl: nat)
    requires ProbesFrom(ps, ttl + 1) && Tracer.SentTtl(p.ip) as nat == ttl
    ensures ProbesFrom([p] + ps, ttl)
  {
    var qs := [p] + ps;
    forall i | 0 <= i < |qs|
      ensures Tracer.SentTtl(qs[i].ip) as nat == ttl + i
    {
      if i > 0 {
        assert qs[i] == ps[i - 1];
      }
    }
  }

  /** Putting the probe of `ttl` in front of a stream waiting on it keeps its shape. */
  lemma PrependProbe(p: Tracer.Probe, w: Run, ttl: nat, maxHops: nat)
    requires Shape(w, ttl, ttl + 1, maxHops)
    requires Tracer.SentTtl(p.ip) as nat == ttl
    ensures Shape(Then([], [p], w), ttl, ttl, maxHops)
  {
    ShiftProbes(p, w.probes, ttl);
    assert Then([], [p], w).hops == w.hops;
  }

  /** Below maxHops, the stream sends the probe of `ttl` and waits on it (unless it panics first). */
  lemma ProbeThenWait(env: Env, ttl: nat, ackSeq: u32, seqNum: u32, pos: nat)
    requires 1 <= ttl <= env.maxHops as nat && pos <= |env.script|
    requires SeqBefore(ackSeq, env.arith).Ok?
    requires Tracer.OutboundProbe(env.listen, env.remote, ttl as byte, SeqBefore(ackSeq, env.arith).value, seqNum).Ok?
    ensures var sent := SeqBefore(ackSeq, env.arith).value;
      FromTtl(env, ttl, ackSeq, seqNum, pos)
        == Then([], [Tracer.OutboundProbe(env.listen, env.remote, ttl as byte, sent, seqNum).value],
                Wait(env, ttl, sent, ackSeq, seqNum, pos))
  {
  }

  /** Every stream from a TTL has the shape above. */
  lemma {:induction false} FromTtlShape(env: Env, ttl: nat, ackSeq: u32, seqNum: u32, pos: nat)
    requires 1 <= ttl <= env.maxHops as nat + 1 && pos <= |env.script|
    ensures Shape(FromTtl(env, ttl, ackSeq, seqNum, pos), ttl, ttl, env.maxHops as nat)
    decreases env.maxHops as nat + 1 - ttl, |env.script| - pos, 3
  {
    if ttl <= env.maxHops as nat {
      var s := SeqBefore(ackSeq, env.arith);
      if s.Ok? {
        var p := Tracer.OutboundProbe(env.listen, env.remote, ttl as byte, s.value, seqNum);
        if p.Ok? {
          WaitShape(env, ttl, s.value, ackSeq, seqNum, pos);
          var w := Wait(env, ttl, s.value, ackSeq, seqNum, pos);
          assert FromTtl(env, ttl, ackSeq, seqNum, pos) == Then([], [p.value], w);
          PrependProbe(p.value, w, ttl, env.maxHops as nat);
        }
      }
    }
  }

  /** Every stream waiting on the probe of a TTL has the shape above. */
  lemma {:induction false} WaitShape(env: Env, ttl: nat, sent: u32, ackSeq: u32, seqNum: u32, pos: nat)
    requires 1 <= ttl <= env.maxHops as nat && pos <= |env.script|
    ensures Shape(Wait(env, ttl, sent, ackSeq, seqNum, pos), ttl, ttl + 1, env.maxHops as nat)
    decreases env.maxHops as nat + 1 - ttl, |env.script| - pos, 1
  {
    if pos == |env.script| || env.script[pos].None? {
      TimeoutShape(env, ttl, sent, ackSeq, seqNum, pos);
    } else if env.script[pos].value.eventType == Common.IcmpTimeExceeded {
      IcmpShape(env, ttl, sent, ackSeq, seqNum, pos);
    } else {
      AckOrRstShape(env, ttl, sent, ackSeq, seqNum, pos);
    }
  }

  lemma {:induction false} TimeoutShape(env: Env, ttl: nat, sent: u32, ackSeq: u32, seqNum: u32, pos: nat)
    requires 1 <= ttl <= env.maxHops as nat && pos <= |env.script|
    requires pos == |env.script| || env.script[pos].None?
    ensures Shape(Wait(env, ttl, sent, ackSeq, seqNum, pos), ttl, ttl + 1, env.maxHops as nat)
    decreases env.maxHops as nat + 1 - ttl, |env.script| - pos, 0
  {
    var next := if pos == |env.script| then pos else pos + 1;
    FromTtlShape(env, ttl + 1, ackSeq, seqNum, next);
    var h := WaitTimeout(env, ttl, sent, ackSeq, seqNum, pos);
    PrependHop(h, FromTtl(env, ttl + 1, ackSeq, seqNum, next), ttl, ttl + 1, ttl + 1, env.maxHops as nat);
  }

  lemma {:induction false} IcmpShape(env: Env, ttl: nat, sent: u32, ackSeq: u32, seqNum: u32, pos: nat)
    requires 1 <= ttl <= env.maxHops as nat && pos < |env.script| && env.script[pos].Some?
    requires env.script[pos].value.eventType == Common.IcmpTimeExceeded
    ensures Shape(Wait(env, ttl, sent, ackSeq, seqNum, pos), ttl, ttl + 1, env.maxHops as nat)
    decreases env.maxHops as nat + 1 - ttl, |env.script| - pos, 0
  {
    var e := env.script[pos].value;
    if Tracer.EbpfToStd(e.addr).Ok? && Rtt(e.arrival, env.sentAt(ttl), env.arith).Ok? {
      WaitShape(env, ttl, sent, ackSeq, seqNum, pos + 1);
      var hop := WaitIcmp(env, ttl, sent, ackSeq, seqNum, pos);
      PrependHop(hop, Wait(env, ttl, sent, ackSeq, seqNum, pos + 1), ttl, ttl, ttl + 1, env.maxHops as nat);
    } else {
      WaitIcmpFails(env, ttl, sent, ackSeq, seqNum, pos);
    }
  }

  lemma {:induction false} AckOrRstShape(env: Env, ttl: nat, sent: u32, ackSeq: u32, seqNum: u32, pos: nat)
    requires 1 <= ttl <= env.maxHops as nat && pos < |env.script| && env.script[pos].Some?
    requires env.script[pos].value.eventType != Common.IcmpTimeExceeded
    ensures Shape(Wait(env, ttl, sent, ackSeq, seqNum, pos), ttl, ttl + 1, env.maxHops as nat)
    decreases env.maxHops as nat + 1 - ttl, |env.script| - pos, 0
  {
    var e := env.script[pos].value;
    var m := SeqBefore(e.ackSeq, env.arith);
    if e.eventType == Common.TcpAck && m.Ok? && m.value != sent {
      WaitShape(env, ttl, sent, e.ackSeq, e.seqNum, pos + 1);
      WaitOtherAck(env, ttl, sent, ackSeq, seqNum, pos);
    } else {
      WaitEnds(env, ttl, sent, ackSeq, seqNum, pos);
    }
  }

  /** A receive that times out yields a Timeout hop and moves on to the next TTL. */
  lemma WaitTimeout(env: Env, ttl: nat, sent: u32, ackSeq: u32, seqNum: u32, pos: nat) returns (h: Hop)
    requires 1 <= ttl <= env.maxHops as nat && pos <= |env.script|
    requires pos == |env.script| || env.script[pos].None?
    ensures h.ttl as nat == ttl && h.hopType == Timeout && h.addr.None? && h.rtt.None?
    ensures Wait(env, ttl, sent, ackSeq, seqNum, pos)
      == Then([h], [], FromTtl(env, ttl + 1, ackSeq, seqNum, if pos == |env.script| then pos else pos + 1))
  {
    h := New(ttl as byte, Timeout, None, None, env.lookup);
  }

  /** An ICMP Time Exceeded yields a hop from its sender at the current TTL and keeps waiting. */
  lemma WaitIcmp(env: Env, ttl: nat, sent: u32, ackSeq: u32, seqNum: u32, pos: nat) returns (h: Hop)
    requires 1 <= ttl <= env.maxHops as nat && pos < |env.script| && env.script[pos].Some?
    requires env.script[pos].value.eventType == Common.IcmpTimeExceeded
    requires Tracer.EbpfToStd(env.script[pos].value.addr).Ok?
    requires Rtt(env.script[pos].value.arrival, env.sentAt(ttl), env.arith).Ok?
    ensures h.ttl as nat == ttl && h.hopType == IcmpTimeExceeded
    ensures h.addr == Some(Tracer.EbpfToStd(env.script[pos].value.addr).value)
    ensures Wait(env, ttl, sent, ackSeq, seqNum, pos) == Then([h], [], Wait(env, ttl, sent, ackSeq, seqNum, pos + 1))
  {
    var e := env.script[pos].value;
    h := New(ttl as byte, IcmpTimeExceeded, Some(Tracer.EbpfToStd(e.addr).value), Rtt(e.arrival, env.sentAt(ttl), env.arith).value, env.lookup);
  }

  /** An ICMP Time Exceeded whose address or round-trip time cannot be computed ends the stream. */
  lemma WaitIcmpFails(env: Env, ttl: nat, sent: u32, ackSeq: u32, seqNum: u32, pos: nat)
    requires 1 <= ttl <= env.maxHops as nat && pos < |env.script| && env.script[pos].Some?
    requires env.script[pos].value.eventType == Common.IcmpTimeExceeded
    requires Tracer.EbpfToStd(env.script[pos].value.addr).Err?
      || Rtt(env.script[pos].value.arrival, env.sentAt(ttl), env.arith).Err?
    ensures var e := env.script[pos].value; var a := Tracer.EbpfToStd(e.addr);
      Wait(env, ttl, sent, ackSeq, seqNum, pos)
        == Run([], [], Failed(if a.Err? then a.failure else Rtt(e.arrival, env.sentAt(ttl), env.arith).failure))
  {
  }

  /** An ACK number the stream cannot decrement ends it. */
  lemma WaitAckFails(env: Env, ttl: nat, sent: u32, ackSeq: u32, seqNum: u32, pos: nat)
    requires 1 <= ttl <= env.maxHops as nat && pos < |env.script| && env.script[pos].Some?
    requires env.script[pos].value.eventType == Common.TcpAck
    requires SeqBefore(env.script[pos].value.ackSeq, env.arith).Err?
    ensures Wait(env, ttl, sent, ackSeq, seqNum, pos)
      == Run([], [], Failed(SeqBefore(env.script[pos].value.ackSeq, env.arith).failure))
  {
  }

  /** The ACK of the probe, or a reset, is the last thing the stream receives. */
  lemma WaitFinal(env: Env, ttl: nat, sent: u32, ackSeq: u32, seqNum: u32, pos: nat, hopType: HopType)
    requires 1 <= ttl <= env.maxHops as nat && pos < |env.script| && env.script[pos].Some?
    requires var e := env.script[pos].value;
      || (e.eventType == Common.TcpRst && hopType == TcpRst)
      || (e.eventType == Common.TcpAck && hopType == TcpAck
          && SeqBefore(e.ackSeq, env.arith).Ok? && SeqBefore(e.ackSeq, env.arith).value == sent)
    ensures Wait(env, ttl, sent, ackSeq, seqNum, pos) == Final(env, ttl, hopType, env.script[pos].value)
  {
  }

  /**
   * An ACK that does not acknowledge the probe yields nothing: the stream
   * keeps waiting, with the ACK's numbers for the next probe.
   */
  lemma WaitOtherAck(env: Env, ttl: nat, sent: u32, ackSeq: u32, seqNum: u32, pos: nat)
    requires 1 <= ttl <= env.maxHops as nat && pos < |env.script| && env.script[pos].Some?
    requires env.script[pos].value.eventType == Common.TcpAck
    requires SeqBefore(env.script[pos].value.ackSeq, env.arith).Ok?
    requires SeqBefore(env.script[pos].value.ackSeq, env.arith).value != sent
    ensures Wait(env, ttl, sent, ackSeq, seqNum, pos)
      == Wait(env, ttl, sent, env.script[pos].value.ackSeq, env.script[pos].value.seqNum, pos + 1)
  {
  }

  /**
   * The ACK of the probe or a reset ends the stream: with a single hop from
   * the remote at the current TTL, or with a failure.
   */
  lemma WaitEnds(env: Env, ttl: nat, sent: u32, ackSeq: u32, seqNum: u32, pos: nat)
    requires 1 <= ttl <= env.maxHops as nat && pos < |env.script| && env.script[pos].Some?
    requires var e := env.script[pos].value;
      e.eventType == Common.TcpRst
      || (e.eventType == Common.TcpAck && (SeqBefore(e.ackSeq, env.arith).Err? || SeqBefore(e.ackSeq, env.arith).value == sent))
    ensures var r := Wait(env, ttl, sent, ackSeq, seqNum, pos);
      && r.probes == []
      && (r.end.Failed? ==> r.hops == [])
      && (r.end == Completed ==> |r.hops| == 1 && r.hops[0].ttl as nat == ttl && Terminal(r.hops[0].hopType)
                                   && r.hops[0].addr == Some(env.remote.ip))
  {
  }

  /**
   * The stream of a trace: the origin hop first, then hops whose TTLs lie in
   * 1..maxHops and never decrease, each answering a probe already sent, with
   * probes for TTLs 1, 2, ... in turn; a TcpAck or TcpRst hop ends it.
   */
  lemma TraceShape(env: Env)
    requires Trace(env).Ok?
    ensures var r := Trace(env).value;
      && r.hops[0] == OriginHop(env)
      && Shape(Run(r.hops[1..], r.probes, r.end), 1, 1, env.maxHops as nat)
      && (forall i :: 0 <= i < |r.hops| ==> r.hops[i].ttl <= env.maxHops)
  {
    var first := env.script[0].value;
    FromTtlShape(env, 1, first.ackSeq, first.seqNum, 1);
    var r := Trace(env).value;
    assert r.hops[1..] == FromTtl(env, 1, first.ackSeq, first.seqNum, 1).hops;
  }

  // ----- the corrected arithmetic never panics -----

  /** The classifier only reports ICMP senders with an IPv4 or IPv6 address. */
  predicate Addressed(script: seq<Option<Common.TraceEvent>>)
  {
    forall i :: 0 <= i < |script| && script[i].Some? && script[i].value.eventType == Common.IcmpTimeExceeded
      ==> script[i].value.addr.ipVersion != Common.EMPTY
  }

  /** A remote reached through the listener has the listener's address family. */
  predicate SameFamily(env: Env)
  {
    env.listen.ip.V4? == env.remote.ip.V4?
  }

  lemma {:induction false} CorrectedFromTtl(env: Env, ttl: nat, ackSeq: u32, seqNum: u32, pos: nat)
    requires env.arith == Corrected && Addressed(env.script) && SameFamily(env)
    requires 1 <= ttl <= env.maxHops as nat + 1 && pos <= |env.script|
    ensures FromTtl(env, ttl, ackSeq, seqNum, pos).end == Completed
    decreases env.maxHops as nat + 1 - ttl, |env.script| - pos, 1
  {
    if ttl <= env.maxHops as nat {
      var s := SeqBefore(ackSeq, env.arith).value;
      CorrectedWait(env, ttl, s, ackSeq, seqNum, pos);
    }
  }

  lemma {:induction false} CorrectedWait(env: Env, ttl: nat, sent: u32, ackSeq: u32, seqNum: u32, pos: nat)
    requires env.arith == Corrected && Addressed(env.script) && SameFamily(env)
    requires 1 <= ttl <= env.maxHops as nat && pos <= |env.script|
    ensures Wait(env, ttl, sent, ackSeq, seqNum, pos).end == Completed
    decreases env.maxHops as nat + 1 - ttl, |env.script| - pos, 0
  {
    if pos == |env.script| || env.script[pos].None? {
      var next := if pos == |env.script| then pos else pos + 1;
      CorrectedFromTtl(env, ttl + 1, ackSeq, seqNum, next);
    } else {
      var e := env.script[pos].value;
      match e.eventType
      case IcmpTimeExceeded =>
        CorrectedWait(env, ttl, sent, ackSeq, seqNum, pos + 1);
      case TcpAck =>
        if SeqBefore(e.ackSeq, env.arith).value != sent {
          CorrectedWait(env, ttl, sent, e.ackSeq, e.seqNum, pos + 1);
        }
      case TcpRst =>
    }
  }

  /**
   * With the corrected arithmetic, a trace that got its initial ACK runs to
   * the end without panicking, whatever the ACK and sequence numbers and
   * however early an event arrives.  The geolocation lookup is total here;
   * its `unwrap` on a database error is outside the model.
   */
  lemma CorrectedNeverPanics(env: Env)
    requires env.arith == Corrected && Addressed(env.script) && SameFamily(env)
    requires Trace(env).Ok?
    ensures Trace(env).value.end == Completed
  {
    CorrectedFromTtl(env, 1, env.script[0].value.ackSeq, env.script[0].value.seqNum, 1);
  }

  // ----- the two underflows, on concrete traces -----

  /** A tracer on 10.0.0.1:443 tracing 192.0.2.7:50000; every probe is sent at clock 10. */
  function ExampleEnv(maxHops: byte, script: seq<Option<Common.TraceEvent>>, arith: Arith): Env
  {
    Env(Net.SocketAddr(V4([10, 0, 0, 1]), 443), Net.SocketAddr(V4([192, 0, 2, 7]), 50000),
        maxHops, script, _ => 10, _ => None, arith)
  }

  function AckEvent(ackSeq: u32, arrival: u64): Common.TraceEvent
  {
    Common.TraceEvent(arrival, 7, ackSeq, 5, Common.TcpAck, Common.IPV4, 0, Common.NewV4([192, 0, 2, 7]))
  }

  function IcmpEvent(arrival: u64): Common.TraceEvent
  {
    Common.TraceEvent(arrival, 7, 0, 0, Common.IcmpTimeExceeded, Common.IPV4, 1, Common.NewV4([198, 51, 100, 1]))
  }

  /**
   * An initial ACK whose acknowledgement number is 0: with overflow checks
   * the stream panics before sending its first probe.
   */
  lemma AckUnderflowAsWritten()
    ensures var r := Trace(ExampleEnv(1, [Some(AckEvent(0, 20))], Checked));
      r.Ok? && r.value.end.Failed? && r.value.end.failure.Panic? && r.value.probes == []
  {
  }

  /** Corrected, the same trace sends its probe with sequence number 2^32 - 1 and completes. */
  lemma AckUnderflowCorrected()
    ensures var r := Trace(ExampleEnv(1, [Some(AckEvent(0, 20))], Corrected));
      r.Ok? && r.value.end == Completed && |r.value.probes| == 1
      && r.value.probes[0].tcp.sequenceNumber == 0xFFFF_FFFF
  {
    var env := ExampleEnv(1, [Some(AckEvent(0, 20))], Corrected);
    assert SeqBefore(0, Corrected) == Ok(0xFFFF_FFFF);
    var w := Wait(env, 1, 0xFFFF_FFFF, 0, 5, 1);
    assert w.probes == [] by {
      var h := WaitTimeout(env, 1, 0xFFFF_FFFF, 0, 5, 1);
    }
  }

  /**
   * An ICMP Time Exceeded that arrived (clock 5) before the probe was sent
   * (clock 10), as a late answer to an earlier probe does: with overflow
   * checks the stream panics.
   */
  lemma EarlyArrivalAsWritten()
    ensures var r := Trace(ExampleEnv(1, [Some(AckEvent(1000, 20)), Some(IcmpEvent(5))], Checked));
      r.Ok? && r.value.end.Failed? && r.value.end.failure.Panic?
  {
    var env := ExampleEnv(1, [Some(AckEvent(1000, 20)), Some(IcmpEvent(5))], Checked);
    WaitIcmpFails(env, 1, 999, 1000, 5, 1);
  }

  /** Corrected, the same event yields a hop without a round-trip time. */
  lemma EarlyArrivalCorrected()
    ensures var r := Trace(ExampleEnv(1, [Some(AckEvent(1000, 20)), Some(IcmpEvent(5))], Corrected));
      r.Ok? && r.value.end == Completed && |r.value.hops| >= 2
      && r.value.hops[1].hopType == IcmpTimeExceeded && r.value.hops[1].rtt.None?
      && r.value.hops[1].addr == Some(V4([198, 51, 100, 1]))
  {
    var env := ExampleEnv(1, [Some(AckEvent(1000, 20)), Some(IcmpEvent(5))], Corrected);
    assert Tracer.EbpfToStd(IcmpEvent(5).addr) == Ok(V4([198, 51, 100, 1]));
    var h := WaitIcmp(env, 1, 999, 1000, 5, 1);
    CorrectedNeverPanics(env);
  }

  // ----- the stream as a loop -----

  /** After a receive that timed out, the stream goes on from the next TTL. */
  lemma TimedOut(env: Env, ttl: nat, sent: u32, ackSeq: u32, seqNum: u32, pos: nat, hops: seq<Hop>)
    requires 1 <= ttl <= env.maxHops as nat && pos <= |env.script|
    requires pos == |env.script| || env.script[pos].None?
    ensures Then(hops, [], Wait(env, ttl, sent, ackSeq, seqNum, pos))
      == Then(hops + [New(ttl as byte, Timeout, None, None, env.lookup)], [],
              FromTtl(env, ttl + 1, ackSeq, seqNum, if pos == |env.script| then pos else pos + 1))
  {
    var next := if pos == |env.script| then pos else pos + 1;
    var h := WaitTimeout(env, ttl, sent, ackSeq, seqNum, pos);
    ThenThen(hops, [], [h], [], FromTtl(env, ttl + 1, ackSeq, seqNum, next));
  }

  /**
   * One event received while waiting on the probe of `ttl` (sent with
   * sequence number `sent`): the hop it yields, if any, the acknowledgement
   * and sequence numbers from then on, and whether the stream ends here.
   */
  method Receive(env: Env, ttl: nat, sent: u32, ackSeq: u32, seqNum: u32, pos: nat)
    returns (yielded: seq<Hop>, ackSeq': u32, seqNum': u32, ended: Option<End>)
    requires 1 <= ttl <= env.maxHops as nat && pos < |env.script| && env.script[pos].Some?
    ensures |yielded| <= 1
    ensures ended.Some? ==> Wait(env, ttl, sent, ackSeq, seqNum, pos) == Run(yielded, [], ended.value)
    ensures ended.None? ==>
      Wait(env, ttl, sent, ackSeq, seqNum, pos) == Then(yielded, [], Wait(env, ttl, sent, ackSeq', seqNum', pos + 1))
  {
    var event := env.script[pos].value;
    var sentTime := env.sentAt(ttl);
    ackSeq', seqNum' := ackSeq, seqNum;
    match event.eventType {
      case IcmpTimeExceeded =>
        var addr := Tracer.EbpfToStd(event.addr);
        var rtt := Rtt(event.arrival, sentTime, env.arith);
        if addr.Err? || rtt.Err? {
          WaitIcmpFails(env, ttl, sent, ackSeq, seqNum, pos);
          return [], ackSeq, seqNum, Some(Failed(if addr.Err? then addr.failure else rtt.failure));
        }
        ghost var h := WaitIcmp(env, ttl, sent, ackSeq, seqNum, pos);
        yielded, ended := [New(ttl as byte, IcmpTimeExceeded, Some(addr.value), rtt.value, env.lookup)], None;
      case TcpAck =>
        var acked := SeqBefore(event.ackSeq, env.arith);
        if acked.Err? {
          WaitAckFails(env, ttl, sent, ackSeq, seqNum, pos);
          return [], ackSeq, seqNum, Some(Failed(acked.failure));
        }
        if acked.value == sent {
          WaitFinal(env, ttl, sent, ackSeq, seqNum, pos, TcpAck);
          var last := Final(env, ttl, TcpAck, event);
          return last.hops, ackSeq, seqNum, Some(last.end);
        }
        WaitOtherAck(env, ttl, sent, ackSeq, seqNum, pos);
        assert [] + Wait(env, ttl, sent, event.ackSeq, event.seqNum, pos + 1).hops
          == Wait(env, ttl, sent, event.ackSeq, event.seqNum, pos + 1).hops;
        yielded, ackSeq', seqNum', ended := [], event.ackSeq, event.seqNum, None;
      case TcpRst =>
        WaitFinal(env, ttl, sent, ackSeq, seqNum, pos, TcpRst);
        var last := Final(env, ttl, TcpRst, event);
        return last.hops, ackSeq, seqNum, Some(last.end);
    }
  }

  /**
   * The inner `loop` for the probe of `ttl`: receive until a timeout (the
   * stream goes on with the next TTL, `ended` is None) or until the stream
   * ends (`ended` says how).  Its output is what `Wait` specifies.
   */
  method WaitForTtl(env: Env, ttl: nat, sent: u32, ackSeq0: u32, seqNum0: u32, pos0: nat)
    returns (hops: seq<Hop>, ackSeq: u32, seqNum: u32, pos: nat, ended: Option<End>)
    requires 1 <= ttl <= env.maxHops as nat && pos0 <= |env.script|
    ensures pos <= |env.script|
    ensures ended.None? ==>
      Wait(env, ttl, sent, ackSeq0, seqNum0, pos0) == Then(hops, [], FromTtl(env, ttl + 1, ackSeq, seqNum, pos))
    ensures ended.Some? ==> Wait(env, ttl, sent, ackSeq0, seqNum0, pos0) == Run(hops, [], ended.value)
  {
    hops, ackSeq, seqNum, pos := [], ackSeq0, seqNum0, pos0;
    ghost var goal := Wait(env, ttl, sent, ackSeq0, seqNum0, pos0);
    while true
      invariant pos <= |env.script|
      invariant goal == Then(hops, [], Wait(env, ttl, sent, ackSeq, seqNum, pos))
      decreases |env.script| - pos
    {
      if pos == |env.script| || env.script[pos].None? {
        var next := if pos == |env.script| then pos else pos + 1;
        TimedOut(env, ttl, sent, ackSeq, seqNum, pos, hops);
        hops, pos := hops + [New(ttl as byte, Timeout, None, None, env.lookup)], next;
        return hops, ackSeq, seqNum, pos, None;
      }
      var yielded, a, q, stop := Receive(env, ttl, sent, ackSeq, seqNum, pos);
      if stop.Some? {
        assert Then(hops, [], Run(yielded, [], stop.value)) == Run(hops + yielded, [], stop.value);
        return hops + yielded, ackSeq, seqNum, pos, stop;
      }
      ghost var rest := Wait(env, ttl, sent, a, q, pos + 1);
      ThenThen(hops, [], yielded, [], rest);
      hops, ackSeq, seqNum, pos := hops + yielded, a, q, pos + 1;
    }
  }

  /** `hop_stream_internal` as the loops it is: its output is `Trace(env)`. */
  method HopStreamInternal(env: Env) returns (r: Result<Run>)
    ensures r == Trace(env)
  {
    if |env.script| == 0 || env.script[0].None? {
      return Err(Error("Timed out waiting for initial ACK"));
    }
    var first := env.script[0].value;
    if first.eventType != Common.TcpAck {
      return Err(Panic("Received unexpected event type"));
    }
    ghost var goal := Trace(env).value;
    var ackSeq, seqNum := first.ackSeq, first.seqNum;
    var hops := [OriginHop(env)];
    var probes: seq<Tracer.Probe> := [];
    var pos: nat := 1;
    var ttl: nat := 1;
    while ttl <= env.maxHops as nat
      invariant 1 <= ttl <= env.maxHops as nat + 1 && pos <= |env.script|
      invariant Then(hops, probes, FromTtl(env, ttl, ackSeq, seqNum, pos)) == goal
      decreases env.maxHops as nat + 1 - ttl
    {
      var sent := SeqBefore(ackSeq, env.arith);
      if sent.Err? {
        return Ok(Then(hops, probes, Run([], [], Failed(sent.failure))));
      }
      var probe := Tracer.OutboundProbe(env.listen, env.remote, ttl as byte, sent.value, seqNum);
      if probe.Err? {
        return Ok(Then(hops, probes, Run([], [], Failed(probe.failure))));
      }
      ProbeThenWait(env, ttl, ackSeq, seqNum, pos);
      ghost var waiting := Wait(env, ttl, sent.value, ackSeq, seqNum, pos);
      ThenThen(hops, probes, [], [probe.value], waiting);
      probes := probes + [probe.value];
      var more, ended;
      more, ackSeq, seqNum, pos, ended := WaitForTtl(env, ttl, sent.value, ackSeq, seqNum, pos);
      if ended.Some? {
        assert [] + more == more && probes + [] == probes;
        return Ok(Run(hops + more, probes, ended.value));
      }
      ThenThen(hops, probes, more, [], FromTtl(env, ttl + 1, ackSeq, seqNum, pos));
      hops := hops + more;
      ttl := ttl + 1;
    }
    return Ok(Then(hops, probes, Run([], [], Completed)));
  }

  // ----- `hop_stream`: one hop per TTL -----

  /** The TTLs of some hops. */
  ghost function Ttls(hs: seq<Hop>): set<nat>
  {
    set i | 0 <= i < |hs| :: hs[i].ttl as nat
  }

  /** The position of the first hop with TTL t: an independent description of what is kept. */
  ghost function FirstIndex(hs: seq<Hop>, t: nat): (i: nat)
    requires t in Ttls(hs)
    ensures i < |hs| && hs[i].ttl as nat == t
    ensures forall j :: 0 <= j < i ==> hs[j].ttl as nat != t
  {
    if hs[0].ttl as nat == t then 0
    else
      var k :| 0 <= k < |hs| && hs[k].ttl as nat == t;
      assert hs[1..][k - 1].ttl as nat == t;
      1 + FirstIndex(hs[1..], t)
  }

  /**
   * What `hop_stream` yields from the hops of the internal stream: each hop
   * whose TTL has not been seen yet; later hops for a seen TTL are dropped.
   */
  function Dedup(hs: seq<Hop>): seq<Hop>
  {
    if |hs| == 0 then []
    else
      var init := hs[..|hs| - 1];
      var last := hs[|hs| - 1];
      if exists i :: 0 <= i < |init| && init[i].ttl == last.ttl then Dedup(init)
      else Dedup(init) + [last]
  }

  lemma TtlsSnoc(hs: seq<Hop>)
    requires |hs| > 0
    ensures Ttls(hs) == Ttls(hs[..|hs| - 1]) + {hs[|hs| - 1].ttl as nat}
  {
    var init := hs[..|hs| - 1];
    forall t | t in Ttls(hs) ensures t in Ttls(init) + {hs[|hs| - 1].ttl as nat}
    {
      var k :| 0 <= k < |hs| && hs[k].ttl as nat == t;
      if k < |init| {
        assert init[k] == hs[k];
      }
    }
    forall t | t in Ttls(init) ensures t in Ttls(hs)
    {
      var k :| 0 <= k < |init| && init[k].ttl as nat == t;
      assert hs[k] == init[k];
    }
  }

  /** Extending hops at the end does not move the first hop of a TTL already present. */
  lemma FirstIndexPrefix(hs: seq<Hop>)
    requires |hs| > 0
    ensures forall t :: t in Ttls(hs[..|hs| - 1]) ==> t in Ttls(hs) && FirstIndex(hs, t) == FirstIndex(hs[..|hs| - 1], t)
  {
    var init := hs[..|hs| - 1];
    TtlsSnoc(hs);
    forall t | t in Ttls(init)
      ensures FirstIndex(hs, t) == FirstIndex(init, t)
    {
      var i0 := FirstIndex(init, t);
      var i1 := FirstIndex(hs, t);
      assert hs[i0] == init[i0];
      assert forall j :: 0 <= j < i0 ==> hs[j] == init[j];
    }
  }

  /** The properties of `DedupKeepsFirst`, for one list of hops d kept from hs. */
  ghost predicate KeepsFirst(hs: seq<Hop>, d: seq<Hop>)
  {
    && Ttls(d) == Ttls(hs)
    && (forall k, l :: 0 <= k < l < |d| ==> d[k].ttl != d[l].ttl)
    && (forall k :: 0 <= k < |d| ==> d[k].ttl as nat in Ttls(hs) && d[k] == hs[FirstIndex(hs, d[k].ttl as nat)])
    && (forall k, l :: 0 <= k < l < |d| ==> FirstIndex(hs, d[k].ttl as nat) < FirstIndex(hs, d[l].ttl as nat))
  }

  /** A hop whose TTL was seen is dropped. */
  lemma KeepsFirstDrop(hs: seq<Hop>, d: seq<Hop>)
    requires |hs| > 0 && KeepsFirst(hs[..|hs| - 1], d)
    requires hs[|hs| - 1].ttl as nat in Ttls(hs[..|hs| - 1])
    ensures KeepsFirst(hs, d)
  {
    FirstIndexPrefix(hs);
    TtlsSnoc(hs);
  }

  /** A hop with a new TTL is kept, after all hops kept before it. */
  lemma KeepsFirstAppend(hs: seq<Hop>, d: seq<Hop>)
    requires |hs| > 0 && KeepsFirst(hs[..|hs| - 1], d)
    requires hs[|hs| - 1].ttl as nat !in Ttls(hs[..|hs| - 1])
    ensures KeepsFirst(hs, d + [hs[|hs| - 1]])
  {
    var d1 := d + [hs[|hs| - 1]];
    TtlsSnoc(hs);
    TtlsSnoc(d1);
    assert d1[..|d1| - 1] == d;
    AppendKeepsOrder(hs, d);
  }

  lemma AppendKeepsOrder(hs: seq<Hop>, d: seq<Hop>)
    requires |hs| > 0 && KeepsFirst(hs[..|hs| - 1], d)
    requires hs[|hs| - 1].ttl as nat !in Ttls(hs[..|hs| - 1])
    ensures var d1 := d + [hs[|hs| - 1]];
      && (forall k, l :: 0 <= k < l < |d1| ==> d1[k].ttl != d1[l].ttl)
      && (forall k :: 0 <= k < |d1| ==> d1[k].ttl as nat in Ttls(hs) && d1[k] == hs[FirstIndex(hs, d1[k].ttl as nat)])
      && (forall k, l :: 0 <= k < l < |d1| ==> FirstIndex(hs, d1[k].ttl as nat) < FirstIndex(hs, d1[l].ttl as nat))
  {
    var init := hs[..|hs| - 1];
    var last := hs[|hs| - 1];
    var d1 := d + [last];
    FirstIndexPrefix(hs);
    TtlsSnoc(hs);
    assert last.ttl as nat in Ttls(hs);
    assert FirstIndex(hs, last.ttl as nat) == |hs| - 1;
    forall k | 0 <= k < |d|
      ensures d1[k] == d[k] && d[k].ttl != last.ttl && FirstIndex(hs, d[k].ttl as nat) < |hs| - 1
      ensures d[k].ttl as nat in Ttls(hs) && d[k] == hs[FirstIndex(hs, d[k].ttl as nat)]
    {
      assert d[k].ttl as nat in Ttls(init);
      assert init[FirstIndex(init, d[k].ttl as nat)] == hs[FirstIndex(init, d[k].ttl as nat)];
    }
  }

  /**
   * `hop_stream` yields at most one hop per TTL, for exactly the TTLs the
   * internal stream yielded, each being the first hop of its TTL, in the
   * order the internal stream yielded them.
   */
  lemma {:induction false} DedupKeepsFirst(hs: seq<Hop>)
    ensures KeepsFirst(hs, Dedup(hs))
    decreases |hs|
  {
    if |hs| > 0 {
      var init := hs[..|hs| - 1];
      var last := hs[|hs| - 1];
      DedupKeepsFirst(init);
      if exists i :: 0 <= i < |init| && init[i].ttl == last.ttl {
        var i :| 0 <= i < |init| && init[i].ttl == last.ttl;
        assert last.ttl as nat in Ttls(init);
        KeepsFirstDrop(hs, Dedup(init));
      } else {
        assert last.ttl as nat !in Ttls(init);
        KeepsFirstAppend(hs, Dedup(init));
      }
    }
  }

  /**
   * The deduplication loop of `hop_stream`, over a buffer with one slot for
   * each TTL from 0 to maxHops.
   */
  method DedupHops(hops: seq<Hop>, maxHops: byte) returns (out: seq<Hop>)
    requires forall i :: 0 <= i < |hops| ==> hops[i].ttl <= maxHops
    ensures out == Dedup(hops)
  {
    var trace := new Option<Hop>[maxHops as nat + 1](_ => None);
    out := [];
    var i := 0;
    while i < |hops|
      invariant 0 <= i <= |hops|
      invariant out == Dedup(hops[..i])
      invariant forall t :: 0 <= t < trace.Length ==>
        (trace[t].Some? <==> exists j :: 0 <= j < i && hops[j].ttl as nat == t)
    {
      var hop := hops[i];
      assert hops[..i + 1][..i] == hops[..i];
      if trace[hop.ttl].None? {
        trace[hop.ttl] := Some(hop);
        out := out + [hop];
      }
      i := i + 1;
    }
    assert hops[..|hops|] == hops;
  }

  /**
   * `hop_stream`, with the corrected buffer of max_hops + 1 slots (`DedupHops`,
   * the correction of the short buffer): the internal stream with later hops
   * for a seen TTL dropped.  As written, any hop at TTL max_hops panics
   * (`ReachingMaxHopsPanicsAsWritten`).
   */
  method HopStream(env: Env) returns (r: Result<Run>)
    ensures Trace(env).Err? ==> r == Trace(env)
    ensures Trace(env).Ok? ==> r == Ok(Trace(env).value.(hops := Dedup(Trace(env).value.hops)))
  {
    var internal := HopStreamInternal(env);
    if internal.Err? {
      return internal;
    }
    TraceShape(env);
    var out := DedupHops(internal.value.hops, env.maxHops);
    return Ok(internal.value.(hops := out));
  }

  /**
   * The deduplication as written, with a buffer of `size` slots: a hop whose
   * TTL is not below `size` indexes past its end and panics.  Returns the hops
   * yielded and how the stream ended.
   */
  function DedupAsWritten(hs: seq<Hop>, size: nat): (r: (seq<Hop>, End))
    ensures r.1 == Completed <==> forall i :: 0 <= i < |hs| ==> hs[i].ttl as nat < size
    ensures r.1 == Completed ==> r.0 == Dedup(hs)
  {
    if |hs| == 0 then ([], Completed)
    else
      var init := hs[..|hs| - 1];
      var last := hs[|hs| - 1];
      var prev := DedupAsWritten(init, size);
      if prev.1.Failed? then
        assert forall i :: 0 <= i < |init| ==> init[i] == hs[i];
        prev
      else if last.ttl as nat >= size then (prev.0, Failed(Panic("index out of bounds")))
      else
        assert forall i :: 0 <= i < |init| ==> init[i] == hs[i];
        if exists i :: 0 <= i < |init| && init[i].ttl == last.ttl then prev
        else (prev.0 + [last], Completed)
  }

  /**
   * As written, `hop_stream` sizes its buffer with maxHops slots, so any
   * trace that yields a hop at TTL maxHops panics; with maxHops = 1, a trace
   * whose only probe times out does.  The buffer of maxHops + 1 slots keeps
   * both hops.
   */
  lemma ShortBufferAsWritten()
    ensures var r := Trace(ExampleEnv(1, [Some(AckEvent(1000, 20))], Checked));
      && r.Ok?
      && DedupAsWritten(r.value.hops, 1).1.Failed?
      && Dedup(r.value.hops) == r.value.hops
      && |r.value.hops| == 2 && r.value.hops[1].ttl == 1 && r.value.hops[1].hopType == Timeout
  {
    var env := ExampleEnv(1, [Some(AckEvent(1000, 20))], Checked);
    var h := WaitTimeout(env, 1, 999, 1000, 5, 1);
    var hs := Trace(env).value.hops;
    assert hs == [OriginHop(env), h];
    assert hs[..1] == [OriginHop(env)];
    assert [OriginHop(env)][..0] == [];
  }

  /** Any trace that probes TTL maxHops and hears about it panics as written. */
  lemma ReachingMaxHopsPanicsAsWritten(env: Env)
    requires Trace(env).Ok?
    requires exists i :: 0 <= i < |Trace(env).value.hops| && Trace(env).value.hops[i].ttl == env.maxHops
    ensures DedupAsWritten(Trace(env).value.hops, env.maxHops as nat).1.Failed?
  {
  }

  /** The corrected buffer never overflows: every hop of a trace has a slot. */
  lemma BufferFits(env: Env)
    requires Trace(env).Ok?
    ensures DedupAsWritten(Trace(env).value.hops, env.maxHops as nat + 1)
      == (Dedup(Trace(env).value.hops), Completed)
  {
    TraceShape(env);
  }
}
