/** Which ports of one router a broadcast leaves through, and with what header. */
module Broadcasts {
  import opened Wrappers
  import opened Leases
  import opened Headers
  import opened Ports
  import opened RouterModel
  import opened RouterInvariant

  datatype Leg = Leg(ident: nat, header: Header)

  /** Accumulators of the broadcast loop. `header` is the one header the loop
      keeps rewriting; `tried` records that some port was not skipped. */
  datatype Flood = Flood(legs: seq<Leg>, header: Header, genuine: Option<SendError>, tried: bool)

  /** Down links, the frame's own source and self-addressed legs are benign. */
  predicate Benign(e: SendError) {
    e == NoRouteToDest || e == RoutingLoop || e == DestinationLocal
  }

  function FoldLeg(acc: Flood, ident: nat, sent: Result<Header, SendError>): Flood {
    match sent
    case Ok(h) => acc.(legs := acc.legs + [Leg(ident, h)], tried := true)
    case Err(e) => if Benign(e) then acc.(tried := true) else acc.(genuine := Some(e), tried := true)
  }

  /** `room` is the set of idents whose sink can take the frame. */
  function RawSlotLeg(acc: Flood, slot: Slot, source: nat, bodyLen: nat, room: set<nat>): Flood {
    if slot.ident == source then acc
    else
      var hdr := acc.header.(dst := acc.header.dst.(net := slot.netId, node := EDGE_NODE_ID));
      FoldLeg(acc.(header := hdr), slot.ident, slot.port.SendRaw(hdr, bodyLen, slot.ident in room))
  }

  function RawSlotLegs(hdr: Header, slots: seq<Slot>, source: nat, bodyLen: nat, room: set<nat>): Flood {
    if slots == [] then Flood([], hdr, None, false)
    else
      RawSlotLeg(RawSlotLegs(hdr, slots[..|slots| - 1], source, bodyLen, room),
                 slots[|slots| - 1], source, bodyLen, room)
  }

  function RawUpstreamLeg(acc: Flood, upstream: Option<Port>, source: nat, bodyLen: nat, room: set<nat>): Flood {
    if upstream.None? || source == UPSTREAM_IDENT then acc
    else
      FoldLeg(acc, UPSTREAM_IDENT, upstream.value.SendRaw(acc.header, bodyLen, UPSTREAM_IDENT in room))
  }

  /** All legs of a forwarded broadcast that came in on `source`; `hdr` has its TTL already spent. */
  function RawLegs(s: RouterState, hdr: Header, source: nat, bodyLen: nat, room: set<nat>): Flood {
    RawUpstreamLeg(RawSlotLegs(hdr, s.slots, source, bodyLen, room), s.upstream, source, bodyLen, room)
  }

  /** What `send_raw` reports for a broadcast. */
  function RawVerdict(acc: Flood): Result<(), SendError> {
    if acc.legs != [] then Ok(())
    else if acc.genuine.Some? then Err(acc.genuine.value)
    else Err(if acc.tried then NoRouteToDest else RoutingLoop)
  }

  function PortOf(s: RouterState, ident: nat): Option<Port> {
    if ident == UPSTREAM_IDENT then s.upstream
    else
      var pos := SlotByIdent(s.slots, ident);
      if pos < |s.slots| then Some(s.slots[pos].port) else None
  }

  function BroadcastRaw(s: RouterState, hdr: Header, bodyLen: nat, source: nat, room: set<nat>)
    : (r: (seq<Leg>, Result<(), SendError>))
  {
    if hdr.anyAll.None? then ([], Err(AnyPortMissingKey))
    else if s.slots == [] && s.upstream.None? then ([], Err(NoRouteToDest))
    else
      var acc := RawLegs(s, hdr, source, bodyLen, room);
      (acc.legs, RawVerdict(acc))
  }

  function UnicastRaw(s: RouterState, hdr: Header, bodyLen: nat, source: nat, room: set<nat>, gcAt: Instant,
                      readAt: Instant)
    : (r: (RouterState, seq<Leg>, Result<(), SendError>))
  {
    var (s', out) := Find(s, hdr.dst, hdr.anyAll.Some?, Some(source), gcAt, readAt);
    match out
    case Err(e) => (s', [], Err(e))
    case Ok(ident) =>
      match PortOf(s', ident)
      case None => (s', [], Err(NoRouteToDest))
      case Some(port) =>
        var (legs, verdict) := ThroughPort(port, ident, hdr, bodyLen, room);
        (s', legs, verdict)
  }

  function ThroughPort(port: Port, ident: nat, hdr: Header, bodyLen: nat, room: set<nat>)
    : (r: (seq<Leg>, Result<(), SendError>))
  {
    match port.SendRaw(hdr, bodyLen, ident in room)
    case Err(e) => ([], Err(e))
    case Ok(h) => ([Leg(ident, h)], Ok(()))
  }

  // ------------------------------------------------------------------------
  // Forwarding on healthy links
  // ------------------------------------------------------------------------

  predicate IsFlooding(h: Header) {
    h.dst.port == BROADCAST_PORT && h.anyAll.Some? && h.kind != PROTOCOL_ERROR
  }

  predicate LinkUp(port: Port, net: u16, own: u8, bodyLen: nat) {
    port.state == Online(net, own) && port.own == own && port.mtu >= MAX_HDR_ENCODED_SIZE + bodyLen
  }

  /** Every link is active and distinctly numbered, and every queue has room. */
  ghost predicate Ready(s: RouterState, bodyLen: nat, room: set<nat>) {
    && SlotsInv(s)
    && (forall i :: 0 <= i < |s.slots| ==>
          && s.slots[i].netId != 0 && s.slots[i].ident in room
          && LinkUp(s.slots[i].port, s.slots[i].netId, CENTRAL_NODE_ID, bodyLen)
          && s.slots[i].port.other == EDGE_NODE_ID)
    && (s.upstream.Some? ==>
          && s.upstream.value.state.Online? && UPSTREAM_IDENT in room
          && LinkUp(s.upstream.value, s.upstream.value.state.netId, EDGE_NODE_ID, bodyLen)
          && s.upstream.value.other == CENTRAL_NODE_ID
          && s.upstream.value.state.netId != 0
          && !HasNet(s.slots, s.upstream.value.state.netId))
  }

  /** The slots a frame from `source` is copied to, in table order. */
  function Others(slots: seq<Slot>, source: nat): (r: seq<Slot>) {
    if slots == [] then []
    else
      var rest := Others(slots[..|slots| - 1], source);
      if slots[|slots| - 1].ident == source then rest else rest + [slots[|slots| - 1]]
  }

  function LegTo(hdr: Header, slot: Slot): Leg {
    Leg(slot.ident,
        hdr.(src := if hdr.src.net != 0 then hdr.src
                    else Address(slot.netId, if hdr.src.node == 0 then CENTRAL_NODE_ID else hdr.src.node, hdr.src.port),
             dst := Address(slot.netId, EDGE_NODE_ID, BROADCAST_PORT)))
  }

  function LegsTo(hdr: Header, slots: seq<Slot>): (r: seq<Leg>)
    ensures |r| == |slots|
    ensures forall i :: 0 <= i < |r| ==> r[i] == LegTo(hdr, slots[i])
  {
    seq(|slots|, i requires 0 <= i < |slots| => LegTo(hdr, slots[i]))
  }

  /** On healthy links the slot legs are exactly the other slots, and the header
      the loop leaves behind is addressed to one of them or untouched. */
  lemma {:induction false} SlotLegsAreOthers(hdr: Header, slots: seq<Slot>, source: nat, bodyLen: nat, room: set<nat>)
    requires IsFlooding(hdr)
    requires forall i :: 0 <= i < |slots| ==>
               && slots[i].ident in room && slots[i].port.other == EDGE_NODE_ID
               && LinkUp(slots[i].port, slots[i].netId, CENTRAL_NODE_ID, bodyLen)
    ensures var acc := RawSlotLegs(hdr, slots, source, bodyLen, room);
            && acc.legs == LegsTo(hdr, Others(slots, source))
            && acc.genuine == None
            && (acc.tried <==> Others(slots, source) != [])
            && acc.header == hdr.(dst := acc.header.dst)
            && acc.header.dst.port == BROADCAST_PORT
            && (acc.header.dst == hdr.dst || HasNet(slots, acc.header.dst.net))
  {
    if slots != [] {
      var front, last := slots[..|slots| - 1], slots[|slots| - 1];
      SlotLegsAreOthers(hdr, front, source, bodyLen, room);
      var acc := RawSlotLegs(hdr, front, source, bodyLen, room);
      NetsOfFront(slots, acc.header.dst.net);
      assert slots[SlotByNet(slots, last.netId)].netId == last.netId;
    }
  }

  lemma {:induction false} NetsOfFront(slots: seq<Slot>, net: nat)
    requires slots != []
    ensures HasNet(slots[..|slots| - 1], net) ==> HasNet(slots, net)
    ensures HasNet(slots, slots[|slots| - 1].netId)
  {
    var front := slots[..|slots| - 1];
    if HasNet(front, net) {
      assert slots[SlotByNet(front, net)].netId == net;
    }
  }

  /** A ready router copies a broadcast to every slot but its source, and to the
      upstream unless it came from there. */
  lemma {:induction false} ReadyRouterFloods(s: RouterState, hdr: Header, source: nat, bodyLen: nat, room: set<nat>)
    requires Ready(s, bodyLen, room) && IsFlooding(hdr)
    requires s.upstream.Some? && source != UPSTREAM_IDENT ==> hdr.dst.net != s.upstream.value.state.netId
    ensures var legs := RawLegs(s, hdr, source, bodyLen, room).legs;
            var others := Others(s.slots, source);
            && (s.upstream.None? || source == UPSTREAM_IDENT ==> legs == LegsTo(hdr, others))
            && (s.upstream.Some? && source != UPSTREAM_IDENT ==>
                  && |legs| == |others| + 1 && legs[..|others|] == LegsTo(hdr, others)
                  && legs[|others|].ident == UPSTREAM_IDENT
                  && IsFlooding(legs[|others|].header)
                  && legs[|others|].header.ttl == hdr.ttl
                  && legs[|others|].header.dst.net == s.upstream.value.state.netId)
  {
    SlotLegsAreOthers(hdr, s.slots, source, bodyLen, room);
  }

  /** The header the slot loop leaves behind, whatever state the links are in. */
  lemma {:induction false} HeaderAfterSlots(hdr: Header, slots: seq<Slot>, source: nat, bodyLen: nat, room: set<nat>)
    ensures var acc := RawSlotLegs(hdr, slots, source, bodyLen, room);
            var others := Others(slots, source);
            && acc.header == hdr.(dst := if others == [] then hdr.dst
                                         else hdr.dst.(net := others[|others| - 1].netId, node := EDGE_NODE_ID))
            && (forall leg :: leg in acc.legs ==> HasIdent(slots, leg.ident))
  {
    if slots != [] {
      var front := slots[..|slots| - 1];
      HeaderAfterSlots(hdr, front, source, bodyLen, room);
      forall k | HasIdent(front, k) ensures HasIdent(slots, k) {
        assert slots[SlotByIdent(front, k)].ident == k;
      }
      IdentPresent(slots, |slots| - 1);
    }
  }

  predicate UpstreamReached(acc: Flood) {
    exists leg :: leg in acc.legs && leg.ident == UPSTREAM_IDENT
  }

  /** The loop rewrites one shared header, so the upstream sees the destination
      of the last slot tried. With the upstream active and its queue free, the
      copy to it is swallowed as self-addressed exactly when that destination
      names the upstream port itself. */
  lemma {:induction false} UpstreamReachedIff(s: RouterState, hdr: Header, source: nat, bodyLen: nat, room: set<nat>)
    requires SlotsInv(s) && s.upstream.Some? && source != UPSTREAM_IDENT && IsFlooding(hdr)
    requires s.upstream.value.state.Online? && UPSTREAM_IDENT in room
    requires s.upstream.value.mtu >= MAX_HDR_ENCODED_SIZE + bodyLen
    ensures var up, others := s.upstream.value, Others(s.slots, source);
            UpstreamReached(RawLegs(s, hdr, source, bodyLen, room)) <==>
            !(if others == [] then hdr.dst.net == up.state.netId && hdr.dst.node == up.own
              else others[|others| - 1].netId == up.state.netId && up.own == EDGE_NODE_ID)
  {
    HeaderAfterSlots(hdr, s.slots, source, bodyLen, room);
    var before := RawSlotLegs(hdr, s.slots, source, bodyLen, room);
    var after := RawLegs(s, hdr, source, bodyLen, room);
    forall leg | leg in before.legs ensures leg.ident != UPSTREAM_IDENT {
      assert s.slots[SlotByIdent(s.slots, leg.ident)].ident == leg.ident;
    }
    if |after.legs| > |before.legs| {
      assert after.legs[|before.legs|] in after.legs;
    }
  }

  // ------------------------------------------------------------------------
  // Locally originated broadcasts
  // ------------------------------------------------------------------------

  /** `send` clones the header for every slot and skips pending ones. */
  function SendSlotLeg(acc: Flood, slot: Slot, room: set<nat>): Flood {
    if slot.netId == 0 then acc
    else
      var hdr := acc.header.(dst := acc.header.dst.(net := slot.netId, node := EDGE_NODE_ID));
      FoldLeg(acc, slot.ident, Queued(slot.port.CommonSend(hdr), slot.ident in room))
  }

  function Queued(r: Result<Header, SendError>, room: bool): Result<Header, SendError> {
    if r.Ok? && (r.value.kind == PROTOCOL_ERROR || !room) then Err(InterfaceFull) else r
  }

  function SendSlotLegs(hdr: Header, slots: seq<Slot>, room: set<nat>): Flood {
    if slots == [] then Flood([], hdr, None, false)
    else SendSlotLeg(SendSlotLegs(hdr, slots[..|slots| - 1], room), slots[|slots| - 1], room)
  }

  function SendLegs(s: RouterState, hdr: Header, room: set<nat>): Flood {
    var acc := SendSlotLegs(hdr, s.slots, room);
    if s.upstream.None? then acc
    else FoldLeg(acc, UPSTREAM_IDENT, Queued(s.upstream.value.CommonSend(hdr), UPSTREAM_IDENT in room))
  }

  function SendVerdict(acc: Flood): Result<(), SendError> {
    if acc.legs != [] then Ok(())
    else if acc.genuine.Some? then Err(acc.genuine.value)
    else Err(NoRouteToDest)
  }

  /** A ready router sends its own broadcast out of every port. */
  lemma {:induction false} ReadyRouterSends(s: RouterState, hdr: Header, bodyLen: nat, room: set<nat>)
    requires Ready(s, bodyLen, room) && IsFlooding(hdr) && hdr.dst.net == 0
    ensures var legs := SendLegs(s, hdr, room).legs;
            && (s.upstream.None? ==> legs == LegsTo(hdr, s.slots))
            && (s.upstream.Some? ==>
                  && |legs| == |s.slots| + 1 && legs[..|s.slots|] == LegsTo(hdr, s.slots)
                  && legs[|s.slots|].ident == UPSTREAM_IDENT
                  && IsFlooding(legs[|s.slots|].header)
                  && legs[|s.slots|].header.ttl == hdr.ttl
                  && legs[|s.slots|].header.dst.net == s.upstream.value.state.netId)
  {
    SendSlotLegsAll(s, hdr, s.slots, bodyLen, room);
  }

  lemma {:induction false} SendSlotLegsAll(s: RouterState, hdr: Header, slots: seq<Slot>, bodyLen: nat, room: set<nat>)
    requires Ready(s, bodyLen, room) && IsFlooding(hdr) && slots <= s.slots
    ensures SendSlotLegs(hdr, slots, room) == Flood(LegsTo(hdr, slots), hdr, None, slots != [])
  {
    if slots != [] {
      SendSlotLegsAll(s, hdr, slots[..|slots| - 1], bodyLen, room);
    }
  }
}
