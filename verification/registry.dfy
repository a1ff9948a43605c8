/**
 * The trace registry of the user-space tracer (`tracer.rs`): the `traces`
 * table from trace id to a weak reference to its handle, the TRACES map the
 * XDP program reads (remote socket address to trace id, at most 1024
 * entries), `TraceHandle::start_trace`, the clean-up a dropped handle
 * spawns, and `Tracer::process_event`.
 *
 * Handles are numbered; a weak reference is a handle number, and it can be
 * upgraded while the handle is in `live`.  A dropped handle is in `dropped`
 * until the job its `Drop` spawned has run (`Unregister`).  The events sent
 * on a handle's channel are recorded in `delivered`.  The random trace ids
 * are the stream `draws`.
 *
 * The IPv4 and IPv6 tracers share one TRACES map.  A registry holds its own
 * tracer's entries in `traceMap`; `start_trace` is also given how many
 * entries the other tracer holds (`others`).  Their keys are of the other
 * address family, so they never equal this tracer's keys, but they take up
 * capacity.
 */
module Registry {
  import opened Wrappers
  import opened Bytes
  import Common
  import Net
  import Tracer
  import Classifier

  /** MAX_TRACES, the capacity of the TRACES map. */
  const MAX_TRACES: nat := 1024

  /** What a handle knows about its trace. */
  datatype Handle = Handle(traceId: u32, remote: Net.SocketAddr, key: Common.SocketAddr)

  // ----- the collision loop -----

  /** Draw `i` is the first of the stream that is not a registered id. */
  predicate FirstFreeAt(ids: set<u32>, draws: nat -> u32, i: nat)
  {
    draws(i) !in ids && forall j :: 0 <= j < i ==> draws(j) in ids
  }

  /**
   * The collision loop as written: the guard tests the local `trace_id`,
   * drawn once, while the body only redraws the handle's own id.  After n
   * runs of the body: the local id, the handle's id, and how many draws
   * were taken.
   */
  datatype LoopState = LoopState(localId: u32, handleId: u32, drawn: nat)

  function LoopAsWritten(draws: nat -> u32, n: nat): LoopState
  {
    if n == 0 then LoopState(draws(0), draws(0), 1)
    else
      var s := LoopAsWritten(draws, n - 1);
      LoopState(s.localId, draws(s.drawn), s.drawn + 1)
  }

  /**
   * As written, a first draw that collides with a registered id is never
   * replaced in the guard: after any number of iterations the guard still
   * holds, so `start_trace` never leaves the loop (and holds the write lock
   * on `traces` while it spins).
   */
  lemma {:induction false} CollisionLoopNeverExitsAsWritten(ids: set<u32>, draws: nat -> u32, n: nat)
    requires draws(0) in ids
    ensures LoopAsWritten(draws, n).localId == draws(0)
    ensures LoopAsWritten(draws, n).localId in ids
    ensures LoopAsWritten(draws, n).handleId == draws(n)
    ensures LoopAsWritten(draws, n).drawn == n + 1
  {
    if n > 0 {
      CollisionLoopNeverExitsAsWritten(ids, draws, n - 1);
    }
  }

  // ----- the registry -----

  /** The registry's fields. */
  datatype RegState = RegState(
    traces: map<u32, nat>, handles: map<nat, Handle>, live: set<nat>, dropped: set<nat>,
    traceMap: map<Common.SocketAddr, u32>, delivered: map<nat, seq<Common.TraceEvent>>, nextHandle: nat)

  /** Every registered id leads to a handle with that id, alive or awaiting clean-up. */
  ghost predicate IdsLeadToHandles(s: RegState)
  {
    forall id :: id in s.traces ==>
      && s.traces[id] in s.handles && s.handles[s.traces[id]].traceId == id
      && (s.traces[id] in s.live || s.traces[id] in s.dropped)
  }

  /** Every handle alive or awaiting clean-up is registered under its own id. */
  ghost predicate HandlesRegistered(s: RegState)
  {
    forall h :: h in s.live || h in s.dropped ==>
      h in s.handles && s.handles[h].traceId in s.traces && s.traces[s.handles[h].traceId] == h
  }

  /** Every TRACES entry maps its key to the id of a registered handle for that key. */
  ghost predicate KeysLeadToHandles(s: RegState)
  {
    forall k :: k in s.traceMap ==>
      s.traceMap[k] in s.traces && s.traces[s.traceMap[k]] in s.handles
      && s.handles[s.traces[s.traceMap[k]]].key == k
  }

  /** Handle numbers are below the next one, and every handle has a channel. */
  ghost predicate HandlesNumbered(s: RegState)
  {
    && (forall h :: h in s.handles ==> h < s.nextHandle)
    && s.handles.Keys == s.delivered.Keys
  }

  /** The registry invariant; TRACES never holds more than MAX_TRACES entries. */
  ghost predicate Inv(s: RegState)
  {
    && IdsLeadToHandles(s)
    && HandlesRegistered(s)
    && s.live !! s.dropped
    && HandlesNumbered(s)
    && KeysLeadToHandles(s)
    && |s.traceMap| <= MAX_TRACES
  }

  /** The state `start_trace` leaves: handle `nextHandle` registered under `id`, in TRACES if `inserted`. */
  function Started(s: RegState, id: u32, remote: Net.SocketAddr, key: Common.SocketAddr, inserted: bool): RegState
  {
    var h := s.nextHandle;
    RegState(
      s.traces[id := h], s.handles[h := Handle(id, remote, key)],
      if inserted then s.live + {h} else s.live,
      if inserted then s.dropped else s.dropped + {h},
      if inserted then s.traceMap[key := id] else s.traceMap,
      s.delivered[h := []], h + 1)
  }

  lemma StartedKeepsInv(s: RegState, id: u32, remote: Net.SocketAddr, key: Common.SocketAddr, inserted: bool)
    requires Inv(s) && id !in s.traces
    requires inserted ==> key in s.traceMap || |s.traceMap| < MAX_TRACES
    ensures Inv(Started(s, id, remote, key, inserted))
  {
    var t := Started(s, id, remote, key, inserted);
    StartedKeepsIds(s, id, remote, key, inserted);
    StartedKeepsHandles(s, id, remote, key, inserted);
    StartedKeepsKeys(s, id, remote, key, inserted);
    if inserted {
      assert |t.traceMap| <= MAX_TRACES by {
        if key in s.traceMap {
          assert t.traceMap.Keys == s.traceMap.Keys;
        } else {
          assert t.traceMap.Keys == s.traceMap.Keys + {key};
        }
      }
    }
  }

  lemma StartedKeepsIds(s: RegState, id: u32, remote: Net.SocketAddr, key: Common.SocketAddr, inserted: bool)
    requires Inv(s) && id !in s.traces
    ensures IdsLeadToHandles(Started(s, id, remote, key, inserted))
  {
  }

  lemma StartedKeepsHandles(s: RegState, id: u32, remote: Net.SocketAddr, key: Common.SocketAddr, inserted: bool)
    requires Inv(s) && id !in s.traces
    ensures HandlesRegistered(Started(s, id, remote, key, inserted))
  {
  }

  lemma StartedKeepsKeys(s: RegState, id: u32, remote: Net.SocketAddr, key: Common.SocketAddr, inserted: bool)
    requires Inv(s) && id !in s.traces
    ensures KeysLeadToHandles(Started(s, id, remote, key, inserted))
  {
  }

  class TraceRegistry {
    var traces: map<u32, nat>
    var handles: map<nat, Handle>
    var live: set<nat>
    var dropped: set<nat>
    var traceMap: map<Common.SocketAddr, u32>
    var delivered: map<nat, seq<Common.TraceEvent>>
    var nextHandle: nat

    /** The fields as one value. */
    function State(): RegState
      reads this
    {
      RegState(traces, handles, live, dropped, traceMap, delivered, nextHandle)
    }

    ghost predicate Valid()
      reads this
    {
      Inv(State())
    }

    constructor ()
      ensures Valid()
      ensures traces == map[] && handles == map[] && live == {} && dropped == {}
      ensures traceMap == map[] && delivered == map[] && nextHandle == 0
    {
      traces, handles, live, dropped := map[], map[], {}, {};
      traceMap, delivered, nextHandle := map[], map[], 0;
    }

    /**
     * `start_trace`, with the collision loop taking the first draw that is
     * not registered.  The handle is registered under that id; then its
     * remote's key is inserted into the shared TRACES, which fails when its
     * own and the `others` entries fill it and it does not hold the key
     * already; the handle is then dropped.
     */
    method StartTrace(remote: Net.SocketAddr, draws: nat -> u32, others: nat) returns (r: Result<nat>, used: nat)
      requires Valid()
      requires exists k :: draws(k) !in traces.Keys
      modifies this
      ensures Valid()
      ensures FirstFreeAt(old(traces).Keys, draws, used)
      ensures var key := Tracer.StdSocketToEbpf(remote);
        var inserted := key in old(traceMap) || |old(traceMap)| + others < MAX_TRACES;
        && State() == Started(old(State()), draws(used), remote, key, inserted)
        && (r.Ok? <==> inserted)
        && (r.Ok? ==> r.value == old(nextHandle))
    {
      var key := Tracer.StdSocketToEbpf(remote);
      used := FreshId(draws);
      var inserted := key in traceMap || |traceMap| + others < MAX_TRACES;
      var h := nextHandle;
      Register(draws(used), remote, key, inserted);
      r := if inserted then Ok(h) else Err(Error("failed to register trace"));
    }

    /** Registering the new handle under a fresh id, and its key in TRACES if `inserted`. */
    method Register(id: u32, remote: Net.SocketAddr, key: Common.SocketAddr, inserted: bool)
      requires Valid() && id !in traces
      requires inserted ==> key in traceMap || |traceMap| < MAX_TRACES
      modifies this
      ensures Valid()
      ensures State() == Started(old(State()), id, remote, key, inserted)
    {
      var t := Started(State(), id, remote, key, inserted);
      StartedKeepsInv(State(), id, remote, key, inserted);
      traces, handles, live, dropped := t.traces, t.handles, t.live, t.dropped;
      traceMap, delivered, nextHandle := t.traceMap, t.delivered, t.nextHandle;
    }

    /** The collision loop: draw until the id is not registered. */
    method FreshId(draws: nat -> u32) returns (i: nat)
      requires exists k :: draws(k) !in traces.Keys
      ensures FirstFreeAt(traces.Keys, draws, i)
    {
      ghost var k: nat :| draws(k) !in traces.Keys;
      i := 0;
      while draws(i) in traces
        invariant i <= k
        invariant forall j :: 0 <= j < i ==> draws(j) in traces
        decreases k - i
      {
        i := i + 1;
      }
    }

    /** Dropping a live handle: it can no longer be upgraded, and its clean-up is pending. */
    method Drop(h: nat)
      requires Valid() && h in live
      modifies this
      ensures Valid()
      ensures live == old(live) - {h} && dropped == old(dropped) + {h}
      ensures traces == old(traces) && handles == old(handles) && traceMap == old(traceMap)
      ensures delivered == old(delivered) && nextHandle == old(nextHandle)
    {
      live := live - {h};
      dropped := dropped + {h};
    }

    /**
     * The job a dropped handle spawns: remove its remote's key from TRACES
     * (a missing key is only logged), then its id from `traces`.
     */
    method Unregister(h: nat)
      requires Valid() && h in dropped
      modifies this
      ensures Valid()
      ensures traceMap == old(traceMap) - {old(handles)[h].key}
      ensures traces == old(traces) - {old(handles)[h].traceId}
      ensures dropped == old(dropped) - {h}
      ensures live == old(live) && handles == old(handles) && delivered == old(delivered)
      ensures nextHandle == old(nextHandle)
    {
      var handle := handles[h];
      traceMap := traceMap - {handle.key};
      traces := traces - {handle.traceId};
      dropped := dropped - {h};
    }

    /**
     * `process_event`: send the event to the handle registered under its
     * trace id if that handle is still alive; otherwise only log.  Always Ok.
     */
    method ProcessEvent(e: Common.TraceEvent)
      requires Valid()
      modifies this
      ensures Valid()
      ensures var target := Recipient(old(traces), old(live), e.traceId);
        delivered == if target.Some? then old(delivered)[target.value := old(delivered)[target.value] + [e]]
                     else old(delivered)
      ensures traces == old(traces) && handles == old(handles) && live == old(live)
      ensures dropped == old(dropped) && traceMap == old(traceMap) && nextHandle == old(nextHandle)
    {
      if e.traceId in traces {
        var h := traces[e.traceId];
        if h in live {
          delivered := delivered[h := delivered[h] + [e]];
        }
      }
    }
  }

  /** The handle an event for `id` is delivered to: the registered one, if it is alive. */
  function Recipient(traces: map<u32, nat>, live: set<nat>, id: u32): (r: Option<nat>)
    ensures r.Some? <==> id in traces && traces[id] in live
    ensures r.Some? ==> traces[id] == r.value
  {
    if id in traces && traces[id] in live then Some(traces[id]) else None
  }

  /** Live handles have distinct trace ids. */
  lemma LiveIdsDistinct(reg: TraceRegistry, h1: nat, h2: nat)
    requires reg.Valid() && h1 in reg.live && h2 in reg.live && h1 != h2
    ensures reg.handles[h1].traceId != reg.handles[h2].traceId
  {
  }

  /**
   * Every event the classifier emits against the registry's TRACES map
   * carries a registered trace id, so `process_event` finds its trace; it is
   * delivered exactly when that trace's handle is still alive.
   */
  lemma ClassifiedEventsFindTheirTrace(reg: TraceRegistry, p: seq<byte>, config: Option<Common.EbpfConfig>, arrival: u64)
    requires reg.Valid()
    requires Classifier.TryInbandTraceroute(p, config, reg.traceMap, arrival).Ok?
    requires Classifier.TryInbandTraceroute(p, config, reg.traceMap, arrival).value.Some?
    ensures var e := Classifier.TryInbandTraceroute(p, config, reg.traceMap, arrival).value.value;
      && e.traceId in reg.traces
      && (Recipient(reg.traces, reg.live, e.traceId).Some? <==> reg.traces[e.traceId] in reg.live)
  {
    Classifier.EventsCarryRegisteredIds(p, config, reg.traceMap, arrival);
  }
}
