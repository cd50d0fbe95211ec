/**
 How an edge learns its net_id: from the first frame plausibly addressed to it
 while the discovery window is open. A known net_id is kept over a liveness
 reset, which opens the window again.
 */
module EdgeDiscovery {
  import opened Wrappers
  import opened Headers
  import opened Ports

  /** A frame off the wire: undecodable, or its header and whether the profile
      already routes its destination net somewhere else. */
  datatype Arrival = Garbage | Arrival(hdr: Header, transit: bool)

  /** The processor's fields and the state of its interface, if there is one. */
  datatype Edge = Edge(netId: Option<u16>, own: u8, activated: bool, rediscovering: bool,
                       state: Option<InterfaceState>)

  /** The net_id a frame would give an edge. */
  function Donation(a: Arrival, own: u8): Option<u16> {
    if a.Garbage? || a.hdr.dst.net == 0 || a.hdr.dst.node != own || a.transit then None else Some(a.hdr.dst.net)
  }

  /** Only a proper frame for this node on a net that is known to lie nowhere else gives one. */
  lemma {:induction false} DonatesIff(a: Arrival, own: u8, net: u16)
    ensures Donation(a, own) == Some(net) <==>
            a.Arrival? && net != 0 && !a.transit && a.hdr.dst.net == net && a.hdr.dst.node == own
  {}

  /** An edge with the window open, after a frame was seen. */
  function Discover(e: Edge, a: Arrival): Edge
    requires a.Arrival?
  {
    if e.state.None? then e
    else if e.state.value.ActiveLocal? then e.(activated := true)
    else if e.state.value.Online? && e.state.value.netId != 0 && !e.rediscovering then
      e.(netId := Some(e.state.value.netId), activated := true)
    else
      var donation := Donation(a, e.own);
      var net := if donation.Some? then donation else e.netId;
      if net.None? || e.own == 0 || e.own == 255 then e
      else Edge(net, e.own, e.activated || donation.Some?, e.rediscovering && donation.None?,
                Some(Online(net.value, e.own)))
  }

  function AfterFrame(e: Edge, a: Arrival): Edge {
    if a.Garbage? || e.activated then e else Discover(e, a)
  }

  function AfterReset(e: Edge, state: Option<InterfaceState>): Edge {
    e.(activated := false, rediscovering := e.netId.Some?, state := state)
  }

  /** The interface of the edge, as its profile keeps it. */
  class Link {
    var port: Option<Port>

    constructor (port: Option<Port>)
      ensures this.port == port
    {
      this.port := port;
    }

    ghost function State(): Option<InterfaceState>
      reads this`port
    {
      if port.None? then None else Some(port.value.state)
    }

    method SetInterfaceState(state: InterfaceState) returns (ok: bool)
      modifies this`port
      ensures ok <==> old(port).Some? && old(port).value.SetState(state).Some?
      ensures port == if ok then old(port).value.SetState(state) else old(port)
    {
      ok := false;
      if port.Some? {
        var next := port.value.SetState(state);
        if next.Some? {
          port, ok := next, true;
        }
      }
    }
  }

  class EdgeFrameProcessor {
    var netId: Option<u16>
    const own: u8
    var activated: bool
    var rediscovering: bool

    /** Target mode: no net_id yet. */
    constructor ()
      ensures netId == None && own == EDGE_NODE_ID && !activated && !rediscovering
    {
      netId, own, activated, rediscovering := None, EDGE_NODE_ID, false, false;
    }

    constructor Controller(net: u16)
      ensures netId == Some(net) && own == CENTRAL_NODE_ID && !activated && !rediscovering
    {
      netId, own, activated, rediscovering := Some(net), CENTRAL_NODE_ID, false, false;
    }

    ghost function On(link: Link): Edge
      reads this`netId, this`activated, this`rediscovering, link`port
    {
      Edge(netId, own, activated, rediscovering, link.State())
    }

    method Reset()
      modifies this`activated, this`rediscovering
      ensures !activated && rediscovering == netId.Some?
    {
      activated := false;
      rediscovering := netId.Some?;
    }

    /** Process one frame: whether the interface changed, and the header handed on, if any. */
    method ProcessFrame(a: Arrival, link: Link) returns (changed: bool, forwarded: Option<Header>)
      requires own != 0 && own != 255
      modifies this`netId, this`activated, this`rediscovering, link`port
      ensures On(link) == AfterFrame(old(On(link)), a)
      ensures changed <==> link.State() != old(link.State())
      ensures forwarded == if a.Garbage? || (!old(activated) && link.port.None?) then None
                           else SourceChecked(netId, own, a.hdr)
    {
      if a.Garbage? {
        return false, None;
      }
      changed := false;
      if !activated {
        if link.port.None? {
          return false, None;
        }
        match link.port.value.state {
          case ActiveLocal(_) =>
            activated := true;
          case Online(net, _) =>
            if net != 0 && !rediscovering {
              netId, activated := Some(net), true;
            } else {
              changed := Donate(a, link);
            }
          case Inactive =>
            changed := Donate(a, link);
          case Down =>
            changed := Donate(a, link);
        }
      }
      if netId.Some? && a.hdr.src.net == 0 {
        if a.hdr.src.node == 0 || a.hdr.src.node == own {
          return changed, None;
        }
        return changed, Some(a.hdr.(src := a.hdr.src.(net := netId.value)));
      }
      forwarded := Some(a.hdr);
    }

    /** The open window, on an interface that is not known to be active. */
    method Donate(a: Arrival, link: Link) returns (changed: bool)
      requires own != 0 && own != 255
      requires a.Arrival? && !activated && link.port.Some?
      requires !link.port.value.state.ActiveLocal?
      requires link.port.value.state.Online? ==> link.port.value.state.netId == 0 || rediscovering
      modifies this`netId, this`activated, this`rediscovering, link`port
      ensures On(link) == Discover(old(On(link)), a) && link.port.Some?
      ensures changed <==> link.State() != old(link.State())
    {
      var donates := a.hdr.dst.net != 0 && a.hdr.dst.node == own && !a.transit;
      var net := if donates then Some(a.hdr.dst.net) else netId;
      changed := false;
      if net.Some? {
        var wanted := Online(net.value, own);
        if link.port.value.state != wanted {
          var ok := link.SetInterfaceState(wanted);
          changed := true;
        }
        netId := net;
        if donates {
          activated, rediscovering := true, false;
        }
      }
    }
  }

  /** A source net of zero becomes the link's; a sender without a node id, or
      one that gives ours, is dropped. */
  function SourceChecked(net: Option<u16>, own: u8, hdr: Header): (r: Option<Header>)
    ensures r.Some? ==> r.value.(src := hdr.src) == hdr && r.value.src.(net := hdr.src.net) == hdr.src
    ensures r.Some? && net.Some? && hdr.src.net == 0 ==> r.value.src.net == net.value
    ensures r.Some? && (net.None? || hdr.src.net != 0) ==> r.value == hdr
    ensures r.None? <==> net.Some? && hdr.src.net == 0 && hdr.src.node in {0, own}
  {
    if net.None? || hdr.src.net != 0 then Some(hdr)
    else if hdr.src.node == 0 || hdr.src.node == own then None
    else Some(hdr.(src := hdr.src.(net := net.value)))
  }

  // ------------------------------------------------------------------------
  // Discovery over whole histories
  // ------------------------------------------------------------------------

  /** A reset may come with a move of the interface. `Outside` is a move that
      comes without one, as when a link goes down or its worker starts again. */
  datatype Event = Frame(arrival: Arrival) | Reset(moved: Option<InterfaceState>) | Outside(state: InterfaceState)

  /** States without a net_id: down, inactive or link-local. */
  predicate Idle(state: InterfaceState) {
    state.Down? || state.Inactive? || (state.Online? && state.netId == 0)
  }

  predicate Proper(event: Event) {
    match event
    case Frame(_) => true
    case Reset(moved) => moved.Some? ==> Idle(moved.value)
    case Outside(state) => Idle(state)
  }

  function After(e: Edge, event: Event): Edge {
    match event
    case Frame(a) => AfterFrame(e, a)
    case Reset(moved) => AfterReset(e, if moved.Some? then moved else e.state)
    case Outside(state) => e.(state := Some(state))
  }

  function Run(e: Edge, history: seq<Event>): Edge {
    if history == [] then e else After(Run(e, history[..|history| - 1]), history[|history| - 1])
  }

  /** The frames between resets, the current epoch last. */
  function Epochs(history: seq<Event>): (r: seq<seq<Arrival>>)
    ensures r != []
  {
    if history == [] then [[]] else
    var before := Epochs(history[..|history| - 1]);
    match history[|history| - 1]
    case Reset(_) => before + [[]]
    case Outside(_) => before
    case Frame(a) => before[..|before| - 1] + [before[|before| - 1] + [a]]
  }

  /** The first net_id donated in an epoch. */
  function FirstDonation(epoch: seq<Arrival>, own: u8): Option<u16> {
    if epoch == [] then None
    else if Donation(epoch[0], own).Some? then Donation(epoch[0], own)
    else FirstDonation(epoch[1..], own)
  }

  /** The first donation of the latest epoch that has one. */
  function Discovered(epochs: seq<seq<Arrival>>, own: u8): Option<u16> {
    if epochs == [] then None
    else if FirstDonation(epochs[|epochs| - 1], own).Some? then FirstDonation(epochs[|epochs| - 1], own)
    else Discovered(epochs[..|epochs| - 1], own)
  }

  lemma {:induction false} FirstDonationAppend(epoch: seq<Arrival>, a: Arrival, own: u8)
    ensures FirstDonation(epoch + [a], own)
         == if FirstDonation(epoch, own).Some? then FirstDonation(epoch, own) else Donation(a, own)
  {
    if epoch == [] {
      assert epoch + [a] == [a];
    } else {
      assert (epoch + [a])[1..] == epoch[1..] + [a];
      FirstDonationAppend(epoch[1..], a, own);
    }
  }

  /** A target whose interface is down, inactive or link-local at first. */
  predicate Booted(e: Edge) {
    && e.netId == None && e.own == EDGE_NODE_ID && !e.activated && !e.rediscovering
    && e.state.Some? && Idle(e.state.value)
  }

  /** What holds of an edge between events. */
  predicate Settled(e: Edge) {
    && e.own == EDGE_NODE_ID
    && e.netId != Some(0)
    && e.rediscovering == (!e.activated && e.netId.Some?)
    && (e.activated ==> e.netId.Some?)
    && e.state.Some? && !e.state.value.ActiveLocal?
    && (e.netId.None? ==> Idle(e.state.value))
  }

  lemma {:induction false} EventSettles(e: Edge, event: Event)
    requires Settled(e) && Proper(event)
    ensures Settled(After(e, event))
  {}

  /** With the window open, a frame for this node is taken at its word; one for
      another node, or on a net that lies elsewhere, only brings back a net_id that is known. */
  lemma {:induction false} OpenWindowAdopts(e: Edge, a: Arrival)
    requires Settled(e) && !e.activated && Idle(e.state.value) && a.Arrival?
    ensures var now := AfterFrame(e, a);
            if a.hdr.dst.net != 0 && a.hdr.dst.node == EDGE_NODE_ID && !a.transit then
              && now.netId == Some(a.hdr.dst.net) && now.activated && !now.rediscovering
              && now.state == Some(Online(a.hdr.dst.net, EDGE_NODE_ID))
            else
              && now.netId == e.netId && !now.activated && now.rediscovering == e.rediscovering
              && now.state == if e.netId.None? then e.state else Some(Online(e.netId.value, EDGE_NODE_ID))
  {}

  /** An interface that someone else has brought up closes the window as it is,
      and without an interface, or with a node id that is reserved, nothing is learnt. */
  lemma {:induction false} ActiveInterfaceIsKept(e: Edge, a: Arrival)
    requires !e.activated && a.Arrival?
    ensures var now := AfterFrame(e, a);
            match e.state
            case None => now == e
            case Some(ActiveLocal(_)) => now == e.(activated := true)
            case Some(Online(net, _)) =>
              && (net != 0 && !e.rediscovering ==> now == e.(netId := Some(net), activated := true))
              && (net == 0 && e.own in {0, 255} ==> now == e)
            case Some(_) => e.own in {0, 255} ==> now == e
  {}

  /** Over any history, the net_id is the first donation of the latest epoch
      that has one, and the window is closed exactly when that is the current. */
  lemma {:induction false} DiscoveryIsAFold(e: Edge, history: seq<Event>)
    requires Booted(e) && forall i :: 0 <= i < |history| ==> Proper(history[i])
    ensures var now, epochs := Run(e, history), Epochs(history);
            && Settled(now)
            && now.netId == Discovered(epochs, EDGE_NODE_ID)
            && now.activated == FirstDonation(epochs[|epochs| - 1], EDGE_NODE_ID).Some?
    decreases |history|
  {
    if history != [] {
      var before, event := history[..|history| - 1], history[|history| - 1];
      DiscoveryIsAFold(e, before);
      EventSettles(Run(e, before), event);
      var was := Epochs(before);
      var now := Epochs(history);
      assert event.Reset? ==> now[..|now| - 1] == was;
      assert event.Frame? ==> now[..|now| - 1] == was[..|was| - 1];
      if event.Frame? {
        FirstDonationAppend(was[|was| - 1], event.arrival, EDGE_NODE_ID);
      }
    }
  }

  /** What was discovered came from a frame of the history addressed to this
      node, on a net that is not zero and was not a transit net at the time. */
  lemma {:induction false} DiscoveredFromAFrame(e: Edge, history: seq<Event>) returns (at: nat)
    requires Booted(e) && forall i :: 0 <= i < |history| ==> Proper(history[i])
    requires Run(e, history).netId.Some?
    ensures at < |history| && history[at].Frame? && history[at].arrival.Arrival?
    ensures var a := history[at].arrival;
            && a.hdr.dst.net == Run(e, history).netId.value != 0
            && a.hdr.dst.node == EDGE_NODE_ID
            && !a.transit
    ensures !Run(e, history[..at]).activated && Run(e, history[..at + 1]).activated
    decreases |history|
  {
    var n := |history| - 1;
    var before := history[..n];
    DiscoveryIsAFold(e, before);
    if Run(e, before).netId == Run(e, history).netId && !(Run(e, history).activated && !Run(e, before).activated) {
      at := DiscoveredFromAFrame(e, before);
      assert before[..at] == history[..at] && before[..at + 1] == history[..at + 1];
    } else {
      at := n;
      assert history[..n + 1] == history;
    }
  }

  /** As long as nobody moves the interface from outside, a closed window means
      that it is online with the net_id discovered. */
  lemma {:induction false} ClosedMeansOnline(e: Edge, history: seq<Event>)
    requires Booted(e) && forall i :: 0 <= i < |history| ==> Proper(history[i]) && !history[i].Outside?
    ensures var now := Run(e, history);
            now.activated ==> now.netId.Some? && now.state == Some(Online(now.netId.value, EDGE_NODE_ID))
    decreases |history|
  {
    DiscoveryIsAFold(e, history);
    if history != [] {
      var before := history[..|history| - 1];
      DiscoveryIsAFold(e, before);
      ClosedMeansOnline(e, before);
    }
  }

  /** While the window is closed no frame changes anything, whatever the
      interface has become in the meantime: only a reset opens it again. */
  lemma {:induction false} ClosedWindowChangesNothing(e: Edge, frames: seq<Event>)
    requires e.activated && forall i :: 0 <= i < |frames| ==> frames[i].Frame?
    ensures Run(e, frames) == e
    decreases |frames|
  {
    if frames != [] {
      ClosedWindowChangesNothing(e, frames[..|frames| - 1]);
    }
  }

  /** After a reset the next frame that decodes, transit or not, brings the
      interface back with a known net_id, and with the same one unless it donates another. */
  lemma {:induction false} ResetReactivates(e: Edge, history: seq<Event>, moved: Option<InterfaceState>, a: Arrival)
    requires Booted(e) && forall i :: 0 <= i < |history| ==> Proper(history[i])
    requires Proper(Reset(moved)) && a.Arrival?
    requires Run(e, history).netId.Some?
    ensures var was, now := Run(e, history), Run(e, history + [Reset(moved), Frame(a)]);
            && now.netId.Some? && now.state == Some(Online(now.netId.value, EDGE_NODE_ID))
            && now.netId == (if Donation(a, EDGE_NODE_ID).Some? then Donation(a, EDGE_NODE_ID) else was.netId)
            && now.activated == Donation(a, EDGE_NODE_ID).Some?
  {
    DiscoveryIsAFold(e, history);
    var all := history + [Reset(moved), Frame(a)];
    assert all[..|all| - 1] == history + [Reset(moved)];
    assert (history + [Reset(moved)])[..|history|] == history;
  }

  // ------------------------------------------------------------------------
  // An interface that goes down and comes back
  // ------------------------------------------------------------------------

  predicate Donates(event: Event) {
    event.Frame? && Donation(event.arrival, EDGE_NODE_ID).Some?
  }

  /** Every donation so far was followed by a reset. */
  ghost predicate ResetSinceClosed(history: seq<Event>) {
    forall j :: 0 <= j < |history| && Donates(history[j]) ==> exists k :: j < k < |history| && history[k].Reset?
  }

  lemma {:induction false} OpenIff(history: seq<Event>)
    ensures var epochs := Epochs(history);
            FirstDonation(epochs[|epochs| - 1], EDGE_NODE_ID).None? <==> ResetSinceClosed(history)
    decreases |history|
  {
    if history != [] {
      var n := |history| - 1;
      var before, event := history[..n], history[n];
      var was := Epochs(before);
      OpenIff(before);
      if event.Frame? {
        FirstDonationAppend(was[|was| - 1], event.arrival, EDGE_NODE_ID);
      }
      if event.Reset? {
        assert history[n].Reset?;
      } else {
        LaterResets(history);
      }
    }
  }

  /** An event that is no reset leaves the donations before it as they were. */
  lemma {:induction false} LaterResets(history: seq<Event>)
    requires history != [] && !history[|history| - 1].Reset?
    ensures ResetSinceClosed(history) <==>
            ResetSinceClosed(history[..|history| - 1]) && !Donates(history[|history| - 1])
  {
    var n := |history| - 1;
    var before := history[..n];
    if ResetSinceClosed(history) {
      forall j | 0 <= j < n && Donates(before[j]) ensures exists k :: j < k < n && before[k].Reset? {
        assert Donates(history[j]);
        var k :| j < k < |history| && history[k].Reset?;
        assert before[k].Reset?;
      }
    }
    if ResetSinceClosed(before) && !Donates(history[n]) {
      forall j | 0 <= j <= n && Donates(history[j]) ensures exists k :: j < k <= n && history[k].Reset? {
        assert Donates(before[j]);
        var k :| j < k < n && before[k].Reset?;
        assert history[k].Reset?;
      }
    }
  }

  /** An interface that went down and came back link-local is given a net_id by
      the next frame that could donate one exactly when a reset came since the
      window closed. */
  lemma {:induction false} ReturnIsDiscoveredIff(e: Edge, history: seq<Event>, node: u8, a: Arrival)
    requires Booted(e) && forall i :: 0 <= i < |history| ==> Proper(history[i])
    requires Donation(a, EDGE_NODE_ID).Some?
    ensures Run(e, history + [Outside(Online(0, node)), Frame(a)]).state
            == Some(Online(Donation(a, EDGE_NODE_ID).value, EDGE_NODE_ID))
            <==> ResetSinceClosed(history)
  {
    DiscoveryIsAFold(e, history);
    OpenIff(history);
    var all := history + [Outside(Online(0, node)), Frame(a)];
    assert all[..|all| - 1] == history + [Outside(Online(0, node))];
    assert (history + [Outside(Online(0, node))])[..|history|] == history;
  }

  /** A link that drops and is started again without a reset stays link-local,
      for all the frames addressed to the edge. */
  lemma {:induction false} ReturnWithoutReset(e: Edge, a: Arrival, frames: seq<Event>)
    requires Booted(e) && Donation(a, EDGE_NODE_ID).Some? && forall i :: 0 <= i < |frames| ==> frames[i].Frame?
    ensures var dropped := Run(e, [Frame(a), Outside(Down), Outside(Online(0, EDGE_NODE_ID))]);
            Run(dropped, frames).state == Some(Online(0, EDGE_NODE_ID))
  {
    RunOneMore(e, [], Frame(a));
    RunOneMore(e, [Frame(a)], Outside(Down));
    RunOneMore(e, [Frame(a), Outside(Down)], Outside(Online(0, EDGE_NODE_ID)));
    assert [] + [Frame(a)] == [Frame(a)];
    assert [Frame(a)] + [Outside(Down)] == [Frame(a), Outside(Down)];
    assert [Frame(a), Outside(Down)] + [Outside(Online(0, EDGE_NODE_ID))]
        == [Frame(a), Outside(Down), Outside(Online(0, EDGE_NODE_ID))];
    var dropped := Run(e, [Frame(a), Outside(Down), Outside(Online(0, EDGE_NODE_ID))]);
    ClosedWindowChangesNothing(dropped, frames);
  }

  lemma {:induction false} RunOneMore(e: Edge, history: seq<Event>, event: Event)
    ensures Run(e, history + [event]) == After(Run(e, history), event)
  {
    assert (history + [event])[..|history|] == history;
  }
}
