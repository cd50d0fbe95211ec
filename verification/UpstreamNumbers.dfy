/**
 A bridge together with the frame processor of its upstream port: when the
 number the upstream discovers stays apart from the numbers below.
 */
module UpstreamNumbers {
  import opened Wrappers
  import opened Leases
  import opened SeedLeases
  import opened Headers
  import opened Ports
  import opened RouterModel
  import opened RouterInvariant
  import opened RouterRuns
  import opened Broadcasts
  import E = EdgeDiscovery

  /** No slot and no route, up or down, has the number of the upstream. */
  ghost predicate Apart(s: RouterState) {
    s.upstream.Some? && s.upstream.value.state.Online? && s.upstream.value.state.netId != 0 ==>
      !TakenBelow(s, s.upstream.value.state.netId)
  }

  ghost predicate TakenBelow(s: RouterState, net: nat) {
    HasNet(s.slots, net) || HasKey(s.routes, net)
  }

  // ------------------------------------------------------------------------
  // What the router does by itself
  // ------------------------------------------------------------------------

  /** No key appears that was not there, but for `granted`. */
  ghost predicate KeysFrom(a: seq<RouteEntry>, b: seq<RouteEntry>, granted: Option<nat>) {
    forall e :: e in b ==> granted == Some(e.key) || exists e0 :: e0 in a && e0.key == e.key
  }

  lemma {:induction false} KeysThen(a: seq<RouteEntry>, b: seq<RouteEntry>, c: seq<RouteEntry>, granted: Option<nat>)
    requires KeysFrom(a, b, None) && KeysFrom(b, c, granted)
    ensures KeysFrom(a, c, granted)
  {
    forall e | e in c && granted != Some(e.key) ensures exists e0 :: e0 in a && e0.key == e.key {
      var e1 :| e1 in b && e1.key == e.key;
    }
  }

  lemma {:induction false} KeysSwept(a: seq<RouteEntry>, sweep: Sweep<nat>)
    ensures KeysFrom(a, Swept(a, sweep), None)
  {
    forall e | e in Swept(a, sweep) ensures exists e0 :: e0 in a && e0.key == e.key {
      var e0 :| e0 in a && Retained(e0, sweep) == Some(e);
    }
  }

  lemma {:induction false} KeysInPlace(a: seq<RouteEntry>, b: seq<RouteEntry>)
    requires |a| == |b| && forall k :: 0 <= k < |a| ==> a[k].key == b[k].key
    ensures KeysFrom(a, b, None)
  {
    forall e | e in b ensures exists e0 :: e0 in a && e0.key == e.key {
      var k :| 0 <= k < |b| && b[k] == e;
      assert a[k] in a;
    }
  }

  lemma {:induction false} NoNewKey(a: seq<RouteEntry>, b: seq<RouteEntry>, granted: Option<nat>, net: nat)
    requires KeysFrom(a, b, granted) && granted != Some(net) && HasKey(b, net)
    ensures HasKey(a, net)
  {
    var e := b[KeyIndex(b, net)];
    assert e in b;
    var e0 :| e0 in a && e0.key == net;
    var i :| 0 <= i < |a| && a[i] == e0;
  }

  lemma {:induction false} CommitReleaseKeys(s: RouterState, source: nat, net: nat, req: Token, at: Instant)
    ensures KeysFrom(s.routes, CommitRelease(s, source, net, req, at).0.routes, None)
  {
    var (checked, pos) := CheckRelease(s, source, net, req, at);
    KeysInPlace(s.routes, checked.routes);
    if pos.Ok? {
      KeysSwept(checked.routes, DropExact(net, source));
      KeysThen(s.routes, checked.routes, Swept(checked.routes, DropExact(net, source)), None);
    }
  }

  lemma {:induction false} ReleaseOpKeys(s: RouterState, op: ReleaseOp, at: Instant)
    ensures KeysFrom(s.routes, ApplyRelease(s, op, at).routes, None)
  {
    var swept := Gc(s, at);
    KeysSwept(s.routes, Collect(at));
    match op
    case OpPrepareRelease(source, net, req) =>
      KeysInPlace(swept.routes, PrepareRelease(s, source, net, req, at).0.routes);
      KeysThen(s.routes, swept.routes, PrepareRelease(s, source, net, req, at).0.routes, None);
    case OpReleaseSeed(source, net, req) =>
      CommitReleaseKeys(swept, source, net, req, at);
      KeysThen(s.routes, swept.routes, ReleaseSeed(s, source, net, req, at).0.routes, None);
    case OpCommitRelease(source, net, req) => CommitReleaseKeys(s, source, net, req, at);
  }

  lemma {:induction false} DelegationKeys(s: RouterState, source: nat, parent: SeedLease, at: Instant, token: Token)
    ensures var (s', answer) := RegisterDelegated(s, source, parent, at, token);
            KeysFrom(s.routes, s'.routes, DelegationGrants(s, OpRegisterDelegated(source, parent, token), at))
  {
    var (s', answer) := RegisterDelegated(s, source, parent, at, token);
    var swept := Gc(s, at).routes;
    var freed := Swept(swept, DropKey(parent.netId));
    KeysSwept(s.routes, Collect(at));
    KeysFreed(s.routes, at, parent.netId);
    if answer.Ok? {
      var e := s'.routes[|freed|];
      assert s'.routes == freed + [e];
      KeysGranted(freed, e);
      KeysThen(s.routes, freed, freed + [e], Some(parent.netId));
    }
  }

  lemma {:induction false} KeysFreed(a: seq<RouteEntry>, at: Instant, key: nat)
    ensures KeysFrom(a, Swept(Swept(a, Collect(at)), DropKey(key)), None)
  {
    KeysSwept(a, Collect(at));
    KeysSwept(Swept(a, Collect(at)), DropKey(key));
    KeysThen(a, Swept(a, Collect(at)), Swept(Swept(a, Collect(at)), DropKey(key)), None);
  }

  lemma {:induction false} KeysGranted(a: seq<RouteEntry>, e: RouteEntry)
    ensures KeysFrom(a, a + [e], Some(e.key))
  {}

  lemma {:induction false} SeedOpKeys(s: RouterState, op: SeedOp, at: Instant)
    requires ParentsDelegable(s) && s.upstream.Some? && !op.OpRegisterDelegated?
    ensures KeysFrom(s.routes, ApplySeed(s, op, at).routes, None)
  {
    match op
    case OpPrepareDelegated(source, net, req) => PrepareKeys(s, source, net, req, at);
    case OpRefreshSeed(source, net, req, newToken) =>
      KeysInPlace(s.routes, RefreshSeed(s, source, net, req, at, newToken).0.routes);
    case OpCommitDelegated(source, req, newToken, p) =>
      KeysInPlace(s.routes, CommitDelegated(s, source, req, at, newToken, p).0.routes);
    case OpRequestSeed(_, _) => KeysInPlace(s.routes, s.routes);
    case OpCanDelegate(_) => KeysSwept(s.routes, Collect(at));
    case OpRegisterDelegated(_, _, _) =>
  }

  lemma {:induction false} PrepareKeys(s: RouterState, source: nat, net: nat, req: Token, at: Instant)
    requires ParentsDelegable(s)
    ensures KeysFrom(s.routes, PrepareDelegated(s, source, net, req, at).0.routes, None)
  {
    var swept, after := Gc(s, at).routes, PrepareDelegated(s, source, net, req, at).0.routes;
    KeysSwept(s.routes, Collect(at));
    KeysInPlace(swept, after);
    KeysThen(s.routes, swept, after, None);
  }

  lemma {:induction false} LookupOpKeys(s: RouterState, op: LookupOp, at: Instant)
    ensures KeysFrom(s.routes, ApplyLookup(s, op, at).routes, None)
  {
    match op
    case OpIsTransit(net) => TransitKeys(s, net, at);
    case OpFind(_, _) =>
      KeysInPlace(s.routes, s.routes);
      KeysSwept(s.routes, Collect(at));
  }

  lemma {:induction false} TransitKeys(s: RouterState, net: nat, at: Instant)
    ensures KeysFrom(s.routes, IsTransit(s, net, at).0.routes, None)
  {
    var a, b := s.routes, IsTransit(s, net, at).0.routes;
    var pos := KeyIndex(a, net);
    if |a| == |b| {
      KeysInPlace(a, b);
    } else {
      forall e | e in b ensures e in a {
        var k :| 0 <= k < |b| && b[k] == e;
        assert b[k] == a[if k == pos then |a| - 1 else k];
      }
    }
  }

  lemma {:induction false} InterfaceOpTakesNothing(s: RouterState, op: InterfaceOp, at: Instant, net: nat)
    requires s.upstream.Some? && UpstreamOwns(s, net) && net != 0 && !TakenBelow(s, net)
    requires !op.OpSetState?
    ensures !TakenBelow(ApplyInterface(s, op, at), net)
  {
    match op
    case OpRegister(_) =>
    case OpRegisterPending(_) =>
    case OpDeregister(ident) =>
      var pos := SlotByIdent(s.slots, ident);
      if pos < |s.slots| {
        var s' := Deregister(s, ident, at).0;
        SwapRemovedNames(s.slots, pos);
        KeysInPlace(s.routes, s'.routes);
        if HasKey(s'.routes, net) { NoNewKey(s.routes, s'.routes, None, net); }
      }
    case OpReassign(ident, net') =>
      var pos := SlotByIdent(s.slots, ident);
      if Reassign(s, ident, net').1.Ok? {
        RenumberedNames(s.slots, pos, Reassign(s, ident, net').0.slots[pos]);
      }
    case OpSetState(_, _) =>
  }

  /** Registration, renumbering, leases, releases, claims and lookups all keep
      the numbers below apart from that of a bridge's upstream. */
  lemma {:induction false} OpKeepsApart(s: RouterState, t: Timed)
    requires Inv(s) && s.upstream.Some? && Apart(s)
    requires t.op.Interface? ==> !t.op.interface.OpSetState?
    ensures Apply(s, t).upstream == s.upstream && Apart(Apply(s, t))
  {
    var port := s.upstream.value;
    assert Apply(s, t).upstream == s.upstream by { UpstreamStays(s, t); }
    if port.state.Online? && port.state.netId != 0 {
      OpTakesNothing(s, t, port.state.netId);
    }
  }

  lemma {:induction false} UpstreamStays(s: RouterState, t: Timed)
    requires Inv(s) && (t.op.Interface? ==> !t.op.interface.OpSetState?)
    ensures Apply(s, t).upstream == s.upstream
    ensures !t.op.Interface? ==> Apply(s, t).slots == s.slots
  {
    match t.op
    case Interface(op) => InterfaceOpKeepsUpstream(s, op, t.at);
    case Seed(op) => SeedOpKeepsPorts(s, op, t.at);
    case Release(op) => ReleaseOpKeepsPorts(s, op, t.at);
    case Claim(op) =>
    case Lookup(op) =>
  }

  lemma {:induction false} InterfaceOpKeepsUpstream(s: RouterState, op: InterfaceOp, at: Instant)
    requires !op.OpSetState?
    ensures ApplyInterface(s, op, at).upstream == s.upstream
  {}

  lemma {:induction false} SeedOpKeepsPorts(s: RouterState, op: SeedOp, at: Instant)
    requires ParentsDelegable(s)
    ensures ApplySeed(s, op, at).upstream == s.upstream && ApplySeed(s, op, at).slots == s.slots
  {}

  lemma {:induction false} ReleaseOpKeepsPorts(s: RouterState, op: ReleaseOp, at: Instant)
    ensures ApplyRelease(s, op, at).upstream == s.upstream && ApplyRelease(s, op, at).slots == s.slots
  {}

  lemma {:induction false} OpTakesNothing(s: RouterState, t: Timed, net: nat)
    requires Inv(s) && s.upstream.Some? && UpstreamOwns(s, net) && net != 0 && !TakenBelow(s, net)
    requires t.op.Interface? ==> !t.op.interface.OpSetState?
    ensures !TakenBelow(Apply(s, t), net)
  {
    if t.op.Interface? {
      InterfaceOpTakesNothing(s, t.op.interface, t.at, net);
    } else {
      UpstreamStays(s, t);
      RouteOpKeys(s, t, net);
    }
  }

  lemma {:induction false} RouteOpKeys(s: RouterState, t: Timed, net: nat)
    requires Inv(s) && s.upstream.Some? && UpstreamOwns(s, net) && !HasKey(s.routes, net)
    requires !t.op.Interface?
    ensures !HasKey(Apply(s, t).routes, net)
  {
    var granted := if t.op.Seed? && t.op.seed.OpRegisterDelegated? then DelegationGrants(s, t.op.seed, t.at) else None;
    match t.op {
      case Seed(op) =>
        match op {
          case OpRegisterDelegated(source, parent, token) => DelegationKeys(s, source, parent, t.at, token);
          case _ => SeedOpKeys(s, op, t.at);
        }
      case Release(op) => ReleaseOpKeys(s, op, t.at);
      case Claim(_) => KeysInPlace(s.routes, Apply(s, t).routes);
      case Lookup(op) => LookupOpKeys(s, op, t.at);
    }
    if HasKey(Apply(s, t).routes, net) { NoNewKey(s.routes, Apply(s, t).routes, granted, net); }
  }

  function DelegationGrants(s: RouterState, op: SeedOp, at: Instant): Option<nat>
    requires op.OpRegisterDelegated?
  {
    if RegisterDelegated(s, op.source, op.parent, at, op.token).1.Ok? then Some(op.parent.netId) else None
  }

  // ------------------------------------------------------------------------
  // What a frame from upstream does
  // ------------------------------------------------------------------------

  /** The discovery window is open for this frame: the edge takes its chance. */
  predicate Looks(e: E.Edge) {
    && !e.activated && e.state.Some? && !e.state.value.ActiveLocal?
    && (e.state.value.Online? && e.state.value.netId != 0 ==> e.rediscovering)
  }

  /** A frame on the upstream port: the transit lookup if the frame might donate
      a net_id, and what the edge makes of the port. */
  function FrameAtUpstream(s: RouterState, e0: E.Edge, hdr: Header, at: Instant): (RouterState, E.Edge)
    requires s.upstream.Some?
  {
    var port := s.upstream.value;
    var e := e0.(state := Some(port.state));
    var (s1, transit) :=
      if Looks(e) && hdr.dst.net != 0 && hdr.dst.node == e.own then IsTransit(s, hdr.dst.net, at) else (s, false);
    var e1 := E.AfterFrame(e, E.Arrival(hdr, transit));
    var moved := if e1.state == e.state || e1.state.None? then Some(port) else port.SetState(e1.state.value);
    (s1.(upstream := moved), e1)
  }

  /** The frame donates nothing, and the edge goes back to the net_id it knows. */
  predicate Resumes(s: RouterState, e: E.Edge, hdr: Header, at: Instant)
    requires s.upstream.Some?
  {
    && Looks(e.(state := Some(s.upstream.value.state))) && e.netId.Some?
    && !(hdr.dst.net != 0 && hdr.dst.node == e.own && !IsTransit(s, hdr.dst.net, at).1)
  }

  lemma {:induction false} TransitIsTaken(s: RouterState, net: nat, at: Instant)
    requires Inv(s) && net != 0
    ensures !IsTransit(s, net, at).1 ==> !TakenBelow(IsTransit(s, net, at).0, net)
    ensures IsTransit(s, net, at).1 ==> forall k :: TakenBelow(IsTransit(s, net, at).0, k) <==> TakenBelow(s, k)
  {
    var (s', transit) := IsTransit(s, net, at);
    var a, b := s.routes, s'.routes;
    var pos := KeyIndex(a, net);
    if !HasNet(s.slots, net) && pos < |a| {
      if transit {
        KeysInPlace(a, b);
        KeysInPlace(b, a);
        forall k ensures HasKey(b, k) <==> HasKey(a, k) {
          if HasKey(b, k) { NoNewKey(a, b, None, k); }
          if HasKey(a, k) { NoNewKey(b, a, None, k); }
        }
      } else {
        forall k | 0 <= k < |b| ensures b[k].key != net {
          assert b[k] == a[if k == pos then |a| - 1 else k];
        }
      }
    }
  }

  /** A frame from upstream leaves all numbers apart, except when a known net_id
      is resumed that something below has taken since. */
  lemma {:induction false} FrameKeepsApartIff(s: RouterState, e: E.Edge, hdr: Header, at: Instant)
    requires Inv(s) && s.upstream.Some? && Apart(s)
    requires e.own == EDGE_NODE_ID && e.netId != Some(0)
    ensures Apart(FrameAtUpstream(s, e, hdr, at).0) <==>
            !(Resumes(s, e, hdr, at) && TakenBelow(s, e.netId.value))
  {
    var port := s.upstream.value;
    var e0 := e.(state := Some(port.state));
    if Looks(e0) {
      if hdr.dst.net != 0 && hdr.dst.node == e.own {
        TransitIsTaken(s, hdr.dst.net, at);
        AskedAboutTransit(s, e, hdr, at);
      } else {
        NotAsked(s, e, hdr, at);
      }
    }
  }

  lemma {:induction false} AskedAboutTransit(s: RouterState, e: E.Edge, hdr: Header, at: Instant)
    requires s.upstream.Some? && e.own == EDGE_NODE_ID && Looks(e.(state := Some(s.upstream.value.state)))
    requires hdr.dst.net != 0 && hdr.dst.node == e.own
    ensures var (s', transit) := IsTransit(s, hdr.dst.net, at);
            var after := FrameAtUpstream(s, e, hdr, at).0;
            && after == s'.(upstream := after.upstream)
            && var net := if transit then e.netId else Some(hdr.dst.net);
               if net.None? then after.upstream == s.upstream
               else after.upstream.Some? && after.upstream.value.state == Online(net.value, EDGE_NODE_ID)
  {}

  lemma {:induction false} NotAsked(s: RouterState, e: E.Edge, hdr: Header, at: Instant)
    requires s.upstream.Some? && e.own == EDGE_NODE_ID && Looks(e.(state := Some(s.upstream.value.state)))
    requires hdr.dst.net == 0 || hdr.dst.node != e.own
    ensures var after := FrameAtUpstream(s, e, hdr, at).0;
            && after == s.(upstream := after.upstream)
            && if e.netId.None? then after.upstream == s.upstream
               else after.upstream.Some? && after.upstream.value.state == Online(e.netId.value, EDGE_NODE_ID)
  {}

  // ------------------------------------------------------------------------
  // A run in which it happens
  // ------------------------------------------------------------------------

  function Fresh(): RouterState { RouterState(4, 0, 0, [], [], [], Some(NewTarget(100))) }

  /** A bridge with slot 0 on net 6, and slot 1 and the upstream as given. */
  function Bridge(state1: InterfaceState, net1: u16, upstream: InterfaceState): RouterState {
    RouterState(4, 0, 0, [Slot(0, NewController(Online(6, CENTRAL_NODE_ID), 100), 6),
                          Slot(1, NewController(state1, 100), net1)],
                [], [], Some(NewTarget(100).(state := upstream)))
  }

  function At(op: InterfaceOp): Timed { Timed(0, Interface(op)) }

  lemma {:induction false} RunOne(s: RouterState, op: InterfaceOp)
    requires ParentsDelegable(s)
    ensures Run(s, [At(op)]) == ApplyInterface(s, op, 0)
  {
    assert [At(op)][1..] == [];
  }

  lemma {:induction false} RunMore(s: RouterState, ops: seq<Timed>, op: InterfaceOp)
    requires Inv(s)
    ensures Inv(Run(s, ops)) && Run(s, ops + [At(op)]) == ApplyInterface(Run(s, ops), op, 0)
    decreases |ops|
  {
    if ops == [] {
      assert [] + [At(op)] == [At(op)];
      RunOne(s, op);
    } else {
      OpKeepsInv(s, ops[0]);
      assert (ops + [At(op)])[1..] == ops[1..] + [At(op)];
      RunMore(Apply(s, ops[0]), ops[1..], op);
    }
  }

  const TwoPending := [At(OpRegisterPending(100)), At(OpRegisterPending(100))]
  const LinkUp := TwoPending + [At(OpReassign(0, 6))] + [At(OpSetState(UPSTREAM_IDENT, Online(0, EDGE_NODE_ID)))]
  const LinkLost := [At(OpSetState(UPSTREAM_IDENT, Inactive))] + [At(OpReassign(1, 7))]

  lemma {:induction false} Registers()
    ensures Inv(Fresh())
    ensures Run(Fresh(), TwoPending)
         == Bridge(Down, 0, Down).(slots := [Slot(0, NewController(Down, 100), 0),
                                             Slot(1, NewController(Down, 100), 0)])
  {
    var op := OpRegisterPending(100);
    var one := Fresh().(slots := [Slot(0, NewController(Down, 100), 0)]);
    RunOne(Fresh(), op);
    assert Run(Fresh(), [At(op)]) == one;
    RunMore(Fresh(), [At(op)], op);
    SecondIdent();
    assert TwoPending == [At(op)] + [At(op)];
    assert one.slots + [Slot(1, NewController(Down, 100), 0)]
        == [Slot(0, NewController(Down, 100), 0), Slot(1, NewController(Down, 100), 0)];
  }

  lemma {:induction false} SecondIdent()
    ensures LowestFreeIdent([Slot(0, NewController(Down, 100), 0)], 0, 4) == 1
  {
    var slots := [Slot(0, NewController(Down, 100), 0)];
    assert HasIdent(slots, 0) && !HasIdent(slots, 1);
  }

  lemma {:induction false} ComesUp()
    ensures Run(Fresh(), LinkUp) == Bridge(Down, 0, Online(0, EDGE_NODE_ID))
  {
    Registers();
    var ops := TwoPending + [At(OpReassign(0, 6))];
    RunMore(Fresh(), TwoPending, OpReassign(0, 6));
    assert Run(Fresh(), ops) == Bridge(Down, 0, Down);
    RunMore(Fresh(), ops, OpSetState(UPSTREAM_IDENT, Online(0, EDGE_NODE_ID)));
  }

  lemma {:induction false} GoesDown()
    ensures Inv(Bridge(Down, 0, Online(7, EDGE_NODE_ID)))
    ensures Run(Bridge(Down, 0, Online(7, EDGE_NODE_ID)), LinkLost) == Bridge(Online(7, CENTRAL_NODE_ID), 7, Inactive)
  {
    var s := Bridge(Down, 0, Online(7, EDGE_NODE_ID));
    RunOne(s, OpSetState(UPSTREAM_IDENT, Inactive));
    assert ApplyInterface(s, OpSetState(UPSTREAM_IDENT, Inactive), 0) == Bridge(Down, 0, Inactive);
    RunMore(s, [At(OpSetState(UPSTREAM_IDENT, Inactive))], OpReassign(1, 7));
    TakesSeven();
  }

  lemma {:induction false} TakesSeven()
    ensures ApplyInterface(Bridge(Down, 0, Inactive), OpReassign(1, 7), 0)
         == Bridge(Online(7, CENTRAL_NODE_ID), 7, Inactive)
  {
    var s := Bridge(Down, 0, Inactive);
    assert SlotByIdent(s.slots, 1) == 1;
    assert !HasKey(s.routes, 7) && !UpstreamOwns(s, 7);
  }

  /** A frame for net 7, and later one for net 6. */
  const ForSeven := Header(Address(3, 1, 9), Address(7, EDGE_NODE_ID, 9), None, 1, Normal, 5)
  const ForSix := Header(Address(3, 1, 9), Address(6, EDGE_NODE_ID, 9), None, 1, Normal, 5)

  /** A broadcast that comes in on slot 0. */
  const FromSlotZero := Header(Address(6, 2, 9), Address(6, 1, BROADCAST_PORT),
                               Some(AnyAll([1, 2, 3, 4, 5, 6, 7, 8], None)), 3, Normal, 5)

  function NewEdge(): E.Edge { E.Edge(None, EDGE_NODE_ID, false, false, None) }

  /** From a new bridge: its upstream learns net 7, is lost and reset; slot 1 is
      given net 7; and the next frame from upstream resumes net 7. */
  ghost function StickyRun(): Option<RouterState> {
    var linked := Run(Fresh(), LinkUp);
    if linked.upstream.None? then None
    else
      var (learned, edge) := FrameAtUpstream(linked, NewEdge(), ForSeven, 0);
      var lost := Run(learned, LinkLost);
      if lost.upstream.None? then None
      else Some(FrameAtUpstream(lost, E.AfterReset(edge, Some(Inactive)), ForSix, 0).0)
  }

  lemma {:induction false} EdgeLearns()
    ensures var s := Bridge(Down, 0, Online(0, EDGE_NODE_ID));
            FrameAtUpstream(s, NewEdge(), ForSeven, 0)
            == (Bridge(Down, 0, Online(7, EDGE_NODE_ID)),
                E.Edge(Some(7), EDGE_NODE_ID, true, false, Some(Online(7, EDGE_NODE_ID))))
  {
    var s := Bridge(Down, 0, Online(0, EDGE_NODE_ID));
    assert !HasNet(s.slots, 7);
    assert IsTransit(s, 7, 0) == (s, false);
  }

  lemma {:induction false} EdgeResumes()
    ensures var s := Bridge(Online(7, CENTRAL_NODE_ID), 7, Inactive);
            FrameAtUpstream(s, E.Edge(Some(7), EDGE_NODE_ID, false, true, Some(Inactive)), ForSix, 0).0
            == Bridge(Online(7, CENTRAL_NODE_ID), 7, Online(7, EDGE_NODE_ID))
  {
    var s := Bridge(Online(7, CENTRAL_NODE_ID), 7, Inactive);
    assert HasNet(s.slots, 6) by { assert s.slots[0].netId == 6; }
    assert IsTransit(s, 6, 0) == (s, true);
  }

  /** In the state that run reaches slot 1 has the number of the upstream, and a
      broadcast that comes in from slot 0 does not reach the upstream. */
  lemma {:induction false} SharedNumberSilencesUpstream()
    ensures StickyRun().Some?
    ensures var s := StickyRun().value;
            && s.upstream.Some? && s.upstream.value.NetId() == Some(7) && TakenBelow(s, 7)
            && !UpstreamReached(RawLegs(s, FromSlotZero, 0, 10, {0, 1, UPSTREAM_IDENT}))
  {
    ComesUp();
    EdgeLearns();
    GoesDown();
    EdgeResumes();
    var s := Bridge(Online(7, CENTRAL_NODE_ID), 7, Online(7, EDGE_NODE_ID));
    assert StickyRun() == Some(s);
    Silent(s);
  }

  lemma {:induction false} Silent(s: RouterState)
    requires s == Bridge(Online(7, CENTRAL_NODE_ID), 7, Online(7, EDGE_NODE_ID))
    ensures TakenBelow(s, 7) && !UpstreamReached(RawLegs(s, FromSlotZero, 0, 10, {0, 1, UPSTREAM_IDENT}))
  {
    assert HasNet(s.slots, 7) by { assert s.slots[1].netId == 7; }
    assert s.slots[..1] == [s.slots[0]] && s.slots[..1][..0] == [];
    assert Others(s.slots[..1], 0) == [];
    assert Others(s.slots, 0) == [s.slots[1]];
    UpstreamReachedIff(s, FromSlotZero, 0, 10, {0, 1, UPSTREAM_IDENT});
  }
}
