/** Where a frame leaves and with what header, and what the sender hears, said of ports and slots themselves. */
module SendingLaws {
  import opened Wrappers
  import opened Leases
  import opened Headers
  import opened Ports
  import opened RouterModel
  import opened RouterInvariant
  import opened RouterLaws
  import opened Broadcasts

  /** What a port makes of a header: an unknown source becomes the link's, a
      broadcast is readdressed to the other end, the rest stays. */
  predicate Readdressed(port: Port, hdr: Header, h: Header) {
    && port.state.Online?
    && h == hdr.(src := h.src, dst := h.dst)
    && h.src.port == hdr.src.port
    && (hdr.src.net != 0 ==> h.src == hdr.src)
    && (hdr.src.net == 0 ==>
          h.src.net == port.state.netId && h.src.node == if hdr.src.node == 0 then port.own else hdr.src.node)
    && (hdr.dst.port != 255 ==> h.dst == hdr.dst)
    && (hdr.dst.port == 255 ==> h.dst == Address(port.state.netId, port.other, 255))
  }

  /** Sending through a port: the reasons against it in their order, and the header sent. */
  lemma {:induction false} PortSends(port: Port, hdr: Header, bodyLen: nat, room: bool)
    ensures var r := port.SendRaw(hdr, bodyLen, room);
            if 24 + bodyLen > port.mtu then r == Err(PacketTooBig(port.mtu))
            else if !port.state.Online? then r == Err(NoRouteToDest)
            else if hdr.dst.net == port.state.netId && hdr.dst.node == port.own then r == Err(DestinationLocal)
            else if hdr.dst.port in {0, 255} && hdr.anyAll.None? then r == Err(AnyPortMissingKey)
            else if hdr.kind == 0 || !room then r == Err(InterfaceFull)
            else r.Ok? && Readdressed(port, hdr, r.value)
  {}

  /** A port state: reserved node ids are refused, and a state with a node id
      makes it the port's own. */
  lemma {:induction false} PortChangesState(port: Port, state: InterfaceState)
    ensures var r := port.SetState(state);
            && (r.None? <==> (state.Online? && state.nodeId in {0, 255})
                             || (state.ActiveLocal? && state.localNode in {0, 255}))
            && (r.Some? ==>
                  && r.value.state == state && r.value.other == port.other && r.value.mtu == port.mtu
                  && r.value.own == if state.Online? then state.nodeId
                                    else if state.ActiveLocal? then state.localNode else port.own)
  {}

  // ------------------------------------------------------------------------
  // One destination
  // ------------------------------------------------------------------------

  /** A frame for one node leaves through the port its route names, and through
      no other; without a route, or refused by the port, it does not leave. */
  lemma {:induction false} UnicastLeavesByItsRoute(s: RouterState, hdr: Header, bodyLen: nat, source: nat,
                                                   room: set<nat>, gcAt: Instant, readAt: Instant)
    requires Inv(s)
    ensures var (s', legs, r) := UnicastRaw(s, hdr, bodyLen, source, room, gcAt, readAt);
            var (found, route) := Find(s, hdr.dst, hdr.anyAll.Some?, Some(source), gcAt, readAt);
            && s' == found
            && (route.Err? ==> legs == [] && r == Err(route.error))
            && (route.Ok? && route.value == 255 ==>
                  s.upstream.Some? && SentBy(s.upstream.value, 255, hdr, bodyLen, room, legs, r))
            && (route.Ok? && route.value != 255 ==>
                  forall x :: x in s.slots && x.ident == route.value ==>
                    SentBy(x.port, x.ident, hdr, bodyLen, room, legs, r))
  {
    var (found, route) := Find(s, hdr.dst, hdr.anyAll.Some?, Some(source), gcAt, readAt);
    if route.Ok? {
      SweepRoutes(s, Collect(gcAt));
      RouteIsSound(found, hdr.dst, Some(source), readAt);
    }
    forall x | x in s.slots ensures PortOf(s, x.ident) == Some(x.port) {
      PortOfSlot(s, x);
    }
  }

  lemma {:induction false} PortOfSlot(s: RouterState, x: Slot)
    requires SlotsInv(s) && x in s.slots
    ensures PortOf(s, x.ident) == Some(x.port)
  {
    var _ := SlotNamed(s, x);
  }

  /** One leg, and success, exactly when the port sends. */
  ghost predicate SentBy(port: Port, ident: nat, hdr: Header, bodyLen: nat, room: set<nat>, legs: seq<Leg>,
                         r: Result<(), SendError>)
  {
    var sent := port.SendRaw(hdr, bodyLen, ident in room);
    && (sent.Ok? ==> r == Ok(()) && legs == [Leg(ident, sent.value)])
    && (sent.Err? ==> r == Err(sent.error) && legs == [])
  }

  // ------------------------------------------------------------------------
  // Everybody
  // ------------------------------------------------------------------------

  /** A broadcast succeeds exactly when it left somewhere. */
  lemma {:induction false} BroadcastSucceedsIff(s: RouterState, hdr: Header, bodyLen: nat, source: nat, room: set<nat>)
    ensures var (legs, r) := BroadcastRaw(s, hdr, bodyLen, source, room);
            && (r.Ok? <==> legs != [])
            && (hdr.anyAll.None? <==> r == Err(AnyPortMissingKey) && legs == [] && hdr.anyAll.None?)
            && (hdr.anyAll.Some? && s.slots == [] && s.upstream.None? ==> r == Err(NoRouteToDest))
  {}

  /** What a slot's port says to the header addressed to the other end of its link. */
  function Said(x: Slot, hdr: Header, bodyLen: nat, room: set<nat>): Result<Header, SendError> {
    x.port.SendRaw(hdr.(dst := Address(x.netId, 2, hdr.dst.port)), bodyLen, x.ident in room)
  }

  /** A frame of the node's own is not measured against the MTU. */
  function SaidOwn(x: Slot, hdr: Header, room: set<nat>): Result<Header, SendError> {
    Said(x.(port := x.port.(mtu := 24)), hdr, 0, room)
  }

  /** A reason to tell the sender about, and not just a link nobody is on. */
  predicate Refused(r: Result<Header, SendError>) {
    r.Err? && r.error !in {NoRouteToDest, RoutingLoop, DestinationLocal}
  }

  /** One leg, in table order, for each slot whose port sends, and none besides. */
  ghost predicate LegsOf(legs: seq<Leg>, slots: seq<Slot>, said: Slot -> Result<Header, SendError>,
                         skips: Slot -> bool)
  {
    if slots == [] then legs == []
    else
      var x := slots[|slots| - 1];
      if skips(x) || said(x).Err? then LegsOf(legs, slots[..|slots| - 1], said, skips)
      else
        && legs != [] && legs[|legs| - 1] == Leg(x.ident, said(x).value)
        && LegsOf(legs[..|legs| - 1], slots[..|slots| - 1], said, skips)
  }

  /** The error remembered is that of the last slot that refused. */
  ghost predicate LastRefusal(genuine: Option<SendError>, slots: seq<Slot>, said: Slot -> Result<Header, SendError>,
                              skips: Slot -> bool)
  {
    match genuine
    case None => forall x :: x in slots && !skips(x) ==> !Refused(said(x))
    case Some(e) =>
      exists i :: 0 <= i < |slots| && !skips(slots[i]) && Refused(said(slots[i])) && said(slots[i]).error == e
        && forall j :: i < j < |slots| && !skips(slots[j]) ==> !Refused(said(slots[j]))
  }

  lemma {:induction false} RefusalOfFront(genuine: Option<SendError>, slots: seq<Slot>,
                                          said: Slot -> Result<Header, SendError>, skips: Slot -> bool)
    requires slots != [] && LastRefusal(genuine, slots[..|slots| - 1], said, skips)
    ensures var x := slots[|slots| - 1];
            LastRefusal(if !skips(x) && Refused(said(x)) then Some(said(x).error) else genuine, slots, said, skips)
  {
    var front, x := slots[..|slots| - 1], slots[|slots| - 1];
    if !skips(x) && Refused(said(x)) {
      assert slots[|slots| - 1] == x;
    } else if genuine.None? {
      assert forall y :: y in slots <==> y in front || y == x;
    } else {
      var i :| 0 <= i < |front| && !skips(front[i]) && Refused(said(front[i])) && said(front[i]).error == genuine.value
               && forall j :: i < j < |front| && !skips(front[j]) ==> !Refused(said(front[j]));
      assert slots[i] == front[i];
      forall j | i < j < |slots| && !skips(slots[j]) ensures !Refused(said(slots[j])) {
        assert j < |front| ==> slots[j] == front[j];
      }
    }
  }

  /** Each slot but the source is tried by itself, whatever became of the
      others, and hears the frame readdressed to its own link. */
  lemma {:induction false} EachSlotByItself(hdr: Header, slots: seq<Slot>, source: nat, bodyLen: nat, room: set<nat>)
    ensures var acc := RawSlotLegs(hdr, slots, source, bodyLen, room);
            var said := (x: Slot) => Said(x, hdr, bodyLen, room);
            var skips := (x: Slot) => x.ident == source;
            && LegsOf(acc.legs, slots, said, skips)
            && LastRefusal(acc.genuine, slots, said, skips)
  {
    if slots != [] {
      var front, x := slots[..|slots| - 1], slots[|slots| - 1];
      var acc := RawSlotLegs(hdr, front, source, bodyLen, room);
      EachSlotByItself(hdr, front, source, bodyLen, room);
      HeaderAfterSlots(hdr, front, source, bodyLen, room);
      RefusalOfFront(acc.genuine, slots, (x: Slot) => Said(x, hdr, bodyLen, room), (x: Slot) => x.ident == source);
    }
  }

  lemma {:induction false} HearsOwn(acc: Flood, x: Slot, room: set<nat>)
    requires x.netId != 0
    ensures SendSlotLeg(acc, x, room) == FoldLeg(acc, x.ident, SaidOwn(x, acc.header, room))
  {}

  /** The same for a frame of the node's own, which pending slots do not hear. */
  lemma {:induction false} EachSlotHearsOwn(hdr: Header, slots: seq<Slot>, room: set<nat>)
    ensures var acc := SendSlotLegs(hdr, slots, room);
            var said := (x: Slot) => SaidOwn(x, hdr, room);
            var skips := (x: Slot) => x.netId == 0;
            && LegsOf(acc.legs, slots, said, skips)
            && LastRefusal(acc.genuine, slots, said, skips)
            && acc.header == hdr
  {
    if slots != [] {
      var front, x := slots[..|slots| - 1], slots[|slots| - 1];
      var acc := SendSlotLegs(hdr, front, room);
      EachSlotHearsOwn(hdr, front, room);
      if x.netId != 0 { HearsOwn(acc, x, room); }
      RefusalOfFront(acc.genuine, slots, (x: Slot) => SaidOwn(x, hdr, room), (x: Slot) => x.netId == 0);
    }
  }

  /** The upstream comes after the slots, unless the frame came from it: a
      forwarded frame is still addressed to the last slot tried, a frame of the
      node's own as its sender addressed it. */
  lemma {:induction false} UpstreamComesLast(s: RouterState, hdr: Header, source: nat, bodyLen: nat, room: set<nat>)
    requires s.upstream.Some?
    ensures var slotLegs := RawSlotLegs(hdr, s.slots, source, bodyLen, room).legs;
            var all := RawLegs(s, hdr, source, bodyLen, room).legs;
            var others := Others(s.slots, source);
            var h := if others == [] then hdr
                     else hdr.(dst := Address(others[|others| - 1].netId, 2, hdr.dst.port));
            var said := s.upstream.value.SendRaw(h, bodyLen, 255 in room);
            all == slotLegs + if source != 255 && said.Ok? then [Leg(255, said.value)] else []
    ensures var slotLegs, all := SendSlotLegs(hdr, s.slots, room).legs, SendLegs(s, hdr, room).legs;
            var said := s.upstream.value.(mtu := 24).SendRaw(hdr, 0, 255 in room);
            all == slotLegs + if said.Ok? then [Leg(255, said.value)] else []
  {
    HeaderAfterSlots(hdr, s.slots, source, bodyLen, room);
    EachSlotHearsOwn(hdr, s.slots, room);
  }

  /** What the slots other than the source have done to the fold. */
  lemma {:induction false} IdleSlotsLeaveNoTrace(hdr: Header, slots: seq<Slot>, source: nat, bodyLen: nat,
                                                 room: set<nat>)
    requires forall x :: x in slots && x.ident != source ==> !x.port.state.Online? && 24 + bodyLen <= x.port.mtu
    ensures var acc := RawSlotLegs(hdr, slots, source, bodyLen, room);
            acc.legs == [] && acc.genuine == None && (acc.tried <==> exists x :: x in slots && x.ident != source)
  {
    if slots != [] {
      var front := slots[..|slots| - 1];
      IdleSlotsLeaveNoTrace(hdr, front, source, bodyLen, room);
      assert slots[|slots| - 1] in slots;
      assert forall x :: x in slots <==> x in front || x == slots[|slots| - 1];
    }
  }

  /** With every other link idle nobody is there to hear: a routing loop when
      the frame's own link is the only one, no route otherwise. */
  lemma {:induction false} NobodyHears(s: RouterState, hdr: Header, bodyLen: nat, source: nat, room: set<nat>)
    requires hdr.anyAll.Some? && (s.slots != [] || s.upstream.Some?)
    requires forall x :: x in s.slots && x.ident != source ==> !x.port.state.Online? && 24 + bodyLen <= x.port.mtu
    requires s.upstream.Some? && source != 255 ==>
               !s.upstream.value.state.Online? && 24 + bodyLen <= s.upstream.value.mtu
    ensures var elsewhere := (exists x :: x in s.slots && x.ident != source) || (s.upstream.Some? && source != 255);
            BroadcastRaw(s, hdr, bodyLen, source, room)
            == ([], Err(if elsewhere then NoRouteToDest else RoutingLoop))
  {
    IdleSlotsLeaveNoTrace(hdr, s.slots, source, bodyLen, room);
  }

  lemma {:induction false} FullSlotsAreRemembered(hdr: Header, slots: seq<Slot>, source: nat, bodyLen: nat)
    requires IsFlooding(hdr)
    requires forall x :: x in slots && x.ident != source ==>
               LinkUp(x.port, x.netId, CENTRAL_NODE_ID, bodyLen)
    ensures var acc := RawSlotLegs(hdr, slots, source, bodyLen, {});
            && acc.legs == [] && acc.header == hdr.(dst := acc.header.dst) && acc.header.dst.port == 255
            && acc.genuine == (if exists x :: x in slots && x.ident != source then Some(InterfaceFull) else None)
  {
    if slots != [] {
      var front := slots[..|slots| - 1];
      FullSlotsAreRemembered(hdr, front, source, bodyLen);
      assert slots[|slots| - 1] in slots;
      assert forall x :: x in slots <==> x in front || x == slots[|slots| - 1];
    }
  }

  /** With every queue full a root reports that, and not that nobody is there. */
  lemma {:induction false} FullQueuesAreReported(s: RouterState, hdr: Header, bodyLen: nat, source: nat, x: Slot)
    requires IsFlooding(hdr) && s.upstream.None? && x in s.slots && x.ident != source
    requires forall y :: y in s.slots && y.ident != source ==>
               LinkUp(y.port, y.netId, CENTRAL_NODE_ID, bodyLen)
    ensures BroadcastRaw(s, hdr, bodyLen, source, {}) == ([], Err(InterfaceFull))
  {
    FullSlotsAreRemembered(hdr, s.slots, source, bodyLen);
  }
}
