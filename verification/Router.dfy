/** The router profile with its state updated in place, proved against `RouterModel`. */
module Routers {
  import opened Wrappers
  import opened Leases
  import opened LeaseTables
  import opened SeedLeases
  import opened Headers
  import opened Ports
  import Model = RouterModel
  import opened RouterInvariant
  import B = Broadcasts

  class Router {
    const maxSlots: nat
    const seedRoutes: LeaseTable<nat, Model.SeedRoute>
    const nodeClaims: LeaseTable<nat, nat>
    var slots: seq<Model.Slot>
    var upstream: Option<Port>

    ghost predicate Valid()
      reads this, seedRoutes, nodeClaims
    {
      && seedRoutes as object != nodeClaims as object
      && Inv(State())
    }

    ghost function State(): Model.RouterState
      reads this, seedRoutes, nodeClaims
    {
      Model.RouterState(maxSlots, seedRoutes.capacity, nodeClaims.capacity,
                        slots, seedRoutes.entries, nodeClaims.entries, upstream)
    }

    /** A root router has no upstream port, a bridge has one in the target role. */
    constructor (maxSlots: nat, maxRoutes: nat, maxClaims: nat, upstreamMtu: Option<nat>)
      requires maxSlots <= 255
      ensures Valid() && fresh(seedRoutes) && fresh(nodeClaims)
      ensures State() == Model.RouterState(maxSlots, maxRoutes, maxClaims, [], [], [],
                                           if upstreamMtu.None? then None else Some(NewTarget(upstreamMtu.value)))
    {
      this.maxSlots := maxSlots;
      seedRoutes := new LeaseTable(maxRoutes);
      nodeClaims := new LeaseTable(maxClaims);
      slots := [];
      upstream := if upstreamMtu.None? then None else Some(NewTarget(upstreamMtu.value));
    }

    // ----------------------------------------------------------------------
    // Lookups
    // ----------------------------------------------------------------------

    method FindSlot(ident: nat) returns (pos: nat)
      ensures pos == Model.SlotByIdent(slots, ident)
    {
      pos := 0;
      while pos < |slots| && slots[pos].ident != ident
        invariant pos <= |slots|
        invariant forall i :: 0 <= i < pos ==> slots[i].ident != ident
      {
        pos := pos + 1;
      }
    }

    method FindSlotByNet(net: nat) returns (pos: nat)
      ensures pos == Model.SlotByNet(slots, net)
    {
      pos := 0;
      while pos < |slots| && slots[pos].netId != net
        invariant pos <= |slots|
        invariant forall i :: 0 <= i < pos ==> slots[i].netId != net
      {
        pos := pos + 1;
      }
    }

    method NetIdInUse(net: nat) returns (used: bool)
      ensures used == Model.NetIdTaken(State(), net)
    {
      var slot := FindSlotByNet(net);
      var route := seedRoutes.Find(net);
      used := slot < |slots| || route < |seedRoutes.entries|
              || (upstream.Some? && upstream.value.NetId() == Some(net));
    }

    /** The lowest free net_id in 1..65535, if there is one. */
    method AllocNetId() returns (net: Option<u16>)
      ensures net == Model.LowestFreeNet(State(), 1)
    {
      for id := 1 to Model.NET_ID_END
        invariant Model.LowestFreeNet(State(), 1) == Model.LowestFreeNet(State(), id)
      {
        var used := NetIdInUse(id);
        if !used {
          return Some(id);
        }
      }
      return None;
    }

    /** The lowest ident without a slot; there is one whenever a slot is free. */
    method AllocIdent() returns (ident: nat)
      requires Valid() && |slots| < maxSlots
      ensures ident == Model.LowestFreeIdent(slots, 0, maxSlots) && ident < maxSlots
    {
      FreeIdentExists(State());
      ident := 0;
      while ident < maxSlots
        invariant ident <= maxSlots
        invariant Model.LowestFreeIdent(slots, 0, maxSlots) == Model.LowestFreeIdent(slots, ident, maxSlots)
      {
        var pos := FindSlot(ident);
        if pos == |slots| {
          return;
        }
        ident := ident + 1;
      }
    }

    // ----------------------------------------------------------------------
    // Interfaces
    // ----------------------------------------------------------------------

    method RegisterPending(mtu: nat) returns (r: Result<nat, Model.RegisterError>)
      requires Valid()
      modifies this`slots
      ensures Valid()
      ensures (State(), r) == Model.RegisterPending(old(State()), mtu)
    {
      RegisterPendingKeepsInv(State(), mtu);
      if |slots| >= maxSlots {
        return Err(Model.Full);
      }
      var ident := AllocIdent();
      slots := slots + [Model.Slot(ident, NewController(Down, mtu), 0)];
      return Ok(ident);
    }

    /** Drop what has run out from the table of seed routes. */
    method CollectRoutes(now: Instant)
      requires Valid()
      modifies seedRoutes
      ensures Valid()
      ensures State() == Model.Gc(old(State()), now)
    {
      SweepRoutes(State(), Collect(now));
      seedRoutes.RetainMut(Collect(now));
    }

    method Register(mtu: nat, now: Instant) returns (r: Result<nat, Model.RegisterError>)
      requires Valid()
      modifies this`slots, seedRoutes
      ensures Valid()
      ensures (State(), r) == Model.Register(old(State()), mtu, now)
    {
      ghost var target := Model.Register(State(), mtu, now);
      RegisterKeepsInv(State(), mtu, now);
      if upstream.Some? {
        return Err(Model.BridgeRequiresSeedAssignment);
      }
      CollectRoutes(now);
      if |slots| >= maxSlots {
        return Err(Model.Full);
      }
      var ident := AllocIdent();
      var net := AllocNetId();
      if net.None? {
        return Err(Model.NetIdsExhausted);
      }
      var state := Online(net.value, CENTRAL_NODE_ID);
      slots := slots + [Model.Slot(ident, NewController(state, mtu), net.value)];
      r := Ok(ident);
      assert (State(), r) == target;
    }

    /** Anchor the grace period of every route through `ident` to now. */
    method TombstoneVia(ident: nat, now: Instant)
      modifies seedRoutes
      ensures seedRoutes.entries == Model.TombstoneVia(old(seedRoutes.entries), ident, now)
    {
      var clearTime := now + TOMBSTONE_SECS * SECOND;
      ghost var target := Model.TombstoneVia(seedRoutes.entries, ident, now);
      for i := 0 to |seedRoutes.entries|
        invariant |seedRoutes.entries| == |target|
        invariant forall k :: 0 <= k < i ==> seedRoutes.entries[k] == target[k]
        invariant forall k :: i <= k < |target| ==> seedRoutes.entries[k] == old(seedRoutes.entries)[k]
      {
        var e := seedRoutes.entries[i];
        if e.extra.via == ident {
          seedRoutes.Update(i, e.(kind := Tombstone(clearTime)));
        }
      }
    }

    method Deregister(ident: nat, now: Instant) returns (found: bool)
      requires Valid()
      modifies this`slots, seedRoutes, nodeClaims
      ensures Valid()
      ensures (State(), found) == Model.Deregister(old(State()), ident, now)
    {
      ghost var target := Model.Deregister(State(), ident, now);
      DeregisterKeepsInv(State(), ident, now);
      var pos := FindSlot(ident);
      if pos == |slots| {
        return false;
      }
      var net := slots[pos].netId;
      slots := SwapRemoved(slots, pos);
      TombstoneVia(ident, now);
      nodeClaims.RetainMut(DropScope(net));
      found := true;
      assert (State(), found) == target;
    }

    method SetInterfaceState(ident: nat, state: InterfaceState) returns (r: Result<(), Model.SetStateError>)
      requires Valid()
      modifies this`slots, this`upstream
      ensures Valid()
      ensures (State(), r) == Model.SetInterfaceState(old(State()), ident, state)
    {
      SetInterfaceStateKeepsInv(State(), ident, state);
      if ident == Model.UPSTREAM_IDENT {
        if upstream.None? {
          return Err(Model.InterfaceNotFound);
        }
        var port := upstream.value.SetState(state);
        if port.None? {
          return Err(Model.InvalidNodeId);
        }
        upstream := port;
        return Ok(());
      }
      var pos := FindSlot(ident);
      if pos == |slots| {
        return Err(Model.InterfaceNotFound);
      }
      var port := slots[pos].port.SetState(state);
      if port.None? {
        return Err(Model.InvalidNodeId);
      }
      slots := slots[pos := slots[pos].(port := port.value)];
      return Ok(());
    }

    method NetUsedElsewhere(ident: nat, net: nat) returns (used: bool)
      ensures used == Model.NetUsedElsewhere(slots, ident, net)
    {
      used := false;
      for i := 0 to |slots|
        invariant used <==> exists k :: 0 <= k < i && slots[k].ident != ident && slots[k].netId == net
      {
        if slots[i].ident != ident && slots[i].netId == net {
          used := true;
        }
      }
    }

    method Reassign(ident: nat, net: u16) returns (r: Result<(), Model.SetStateError>)
      requires Valid()
      modifies this`slots, nodeClaims
      ensures Valid()
      ensures (State(), r) == Model.Reassign(old(State()), ident, net)
    {
      ghost var target := Model.Reassign(State(), ident, net);
      ReassignKeepsInv(State(), ident, net);
      var elsewhere := NetUsedElsewhere(ident, net);
      var route := seedRoutes.Find(net);
      if net == 0 || elsewhere || route < |seedRoutes.entries|
         || (upstream.Some? && upstream.value.NetId() == Some(net)) {
        return Err(Model.NetIdInUse);
      }
      var pos := FindSlot(ident);
      if pos == |slots| {
        return Err(Model.InterfaceNotFound);
      }
      if slots[pos].netId != net {
        nodeClaims.RetainMut(DropScope(slots[pos].netId));
      }
      Renumber(pos, net);
      assert slots == target.0.slots && nodeClaims.entries == target.0.claims;
      r := Ok(());
    }

    method Renumber(pos: nat, net: u16)
      requires pos < |slots|
      modifies this`slots
      ensures var port := old(slots)[pos].port.(state := Online(net, CENTRAL_NODE_ID), own := CENTRAL_NODE_ID);
              slots == old(slots)[pos := old(slots)[pos].(netId := net, port := port)]
    {
      var port := slots[pos].port.SetState(Online(net, CENTRAL_NODE_ID));
      slots := slots[pos := slots[pos].(netId := net, port := port.value)];
    }

    // ----------------------------------------------------------------------
    // Seed leases
    // ----------------------------------------------------------------------

    method RequestSeed(source: nat, now: Instant, token: Token)
      returns (r: Result<SeedNetAssignment, Model.AssignError>)
      requires Valid()
      modifies seedRoutes
      ensures Valid()
      ensures (State(), r) == Model.RequestSeed(old(State()), source, now, token)
    {
      RequestSeedKeepsInv(State(), source, now, token);
      if upstream.Some? {
        return Err(Model.ProfileCantSeed);
      }
      if source == 0 {
        return Err(Model.UnknownSource);
      }
      seedRoutes.RetainMut(Collect(now));
      var pos := FindSlotByNet(source);
      if pos == |slots| {
        return Err(Model.UnknownSource);
      }
      var full := seedRoutes.IsFull();
      if full {
        return Err(Model.RouteTableFull);
      }
      var net := AllocNetId();
      if net.None? {
        return Err(Model.NoFreeNetId);
      }
      var _ := seedRoutes.Push(net.value, source, Model.SeedRoute(slots[pos].ident, None),
                               NewLease(now, INITIAL_LEASE_SECS, token));
      return Ok(RootAssignment(net.value, token, INITIAL_LEASE_SECS));
    }

    method CanDelegateSeed(source: nat, now: Instant) returns (refused: Option<Model.AssignError>)
      requires Valid()
      modifies seedRoutes
      ensures Valid()
      ensures (State(), refused) == Model.CanDelegateSeed(old(State()), source, now)
    {
      CollectRoutes(now);
      var pos := FindSlotByNet(source);
      if source == 0 || pos == |slots| {
        return Some(Model.UnknownSource);
      }
      var full := seedRoutes.IsFull();
      return if full then Some(Model.RouteTableFull) else None;
    }

    method RegisterDelegated(source: nat, parent: SeedLease, now: Instant, token: Token)
      returns (r: Result<SeedNetAssignment, Model.AssignError>)
      requires Valid()
      modifies seedRoutes
      ensures Valid()
      ensures (State(), r) == Model.RegisterDelegated(old(State()), source, parent, now, token)
    {
      RegisterDelegatedKeepsInv(State(), source, parent, now, token);
      seedRoutes.RetainMut(Collect(now));
      if source == 0 {
        return Err(Model.UnknownSource);
      }
      var pos := FindSlotByNet(source);
      if pos == |slots| {
        return Err(Model.UnknownSource);
      }
      var collision := FindSlotByNet(parent.netId);
      if collision < |slots| || (upstream.Some? && upstream.value.NetId() == Some(parent.netId)) {
        return Err(Model.NetIdCollision);
      }
      if parent.minRefresh <= DELEGATION_MARGIN {
        return Err(Model.DelegationTooDeep);
      }
      seedRoutes.RetainMut(DropKey(parent.netId));
      var full := seedRoutes.IsFull();
      if full {
        return Err(Model.RouteTableFull);
      }
      var _ := seedRoutes.Push(parent.netId, source, Model.SeedRoute(slots[pos].ident, Some(parent)),
                               NewLease(now, parent.expiresSeconds, token));
      return Ok(DelegatedAssignment(parent, token, parent.expiresSeconds));
    }

    method RefreshSeed(source: nat, net: nat, req: Token, now: Instant, newToken: Token)
      returns (r: Result<SeedNetAssignment, SeedRefreshError>)
      requires Valid()
      modifies seedRoutes
      ensures Valid()
      ensures (State(), r) == Model.RefreshSeed(old(State()), source, net, req, now, newToken)
    {
      RefreshSeedKeepsInv(State(), source, net, req, now, newToken);
      var pos := seedRoutes.FindScoped(net, source);
      if pos == |seedRoutes.entries| {
        return Err(UnknownNetId);
      }
      var e := seedRoutes.entries[pos];
      var (kind, answer) := e.kind.Refresh(req, now, newToken, true);
      seedRoutes.Update(pos, e.(kind := kind));
      match answer {
        case Ok((lease, replayed)) =>
          var secs := MAX_LEASE_SECS;
          if replayed {
            secs := RemainingLeaseSeconds(lease.expiration, now);
          }
          r := Ok(RootAssignment(net, lease.token, secs));
        case Err(denied) =>
          r := Err(RefreshError(denied));
      }
    }

    method PrepareDelegated(source: nat, net: nat, req: Token, now: Instant)
      returns (r: Result<Preparation, SeedRefreshError>)
      requires Valid()
      modifies seedRoutes
      ensures Valid()
      ensures Model.ParentsDelegable(old(State()))
      ensures (State(), r) == Model.PrepareDelegated(old(State()), source, net, req, now)
    {
      PrepareDelegatedKeepsInv(State(), source, net, req, now);
      SweepRoutes(State(), Collect(now));
      seedRoutes.RetainMut(Collect(now));
      var pos := seedRoutes.Find(net);
      if pos == |seedRoutes.entries| {
        return Err(UnknownNetId);
      }
      var e := seedRoutes.entries[pos];
      if e.scope != source {
        return Err(BadRequest);
      }
      RouteOf(State(), pos);
      var (kind, answer) := PrepareRefresh(e.kind, e.extra.parent, req, now);
      seedRoutes.Update(pos, e.(kind := kind));
      r := answer;
    }

    method CommitDelegated(source: nat, req: Token, now: Instant, newToken: Token, refreshed: SeedLease)
      returns (r: Result<SeedNetAssignment, SeedRefreshError>)
      requires Valid()
      modifies seedRoutes
      ensures Valid()
      ensures (State(), r) == Model.CommitDelegated(old(State()), source, req, now, newToken, refreshed)
    {
      CommitDelegatedKeepsInv(State(), source, req, now, newToken, refreshed);
      if refreshed.minRefresh <= DELEGATION_MARGIN {
        return Err(DelegationDepthExceeded);
      }
      var pos := seedRoutes.FindScoped(refreshed.netId, source);
      if pos == |seedRoutes.entries| {
        return Err(UnknownNetId);
      }
      var e := seedRoutes.entries[pos];
      var (kind, parent, answer) := CommitRefresh(e.kind, e.extra.parent, req, now, newToken, refreshed);
      seedRoutes.Update(pos, e.(kind := kind, extra := e.extra.(parent := parent)));
      r := answer;
    }

    method PrepareRelease(source: nat, net: nat, req: Token, now: Instant)
      returns (r: Result<SeedLease, SeedRefreshError>)
      requires Valid()
      modifies seedRoutes
      ensures Valid()
      ensures (State(), r) == Model.PrepareRelease(old(State()), source, net, req, now)
    {
      PrepareReleaseKeepsInv(State(), source, net, req, now);
      seedRoutes.RetainMut(Collect(now));
      var pos := seedRoutes.FindScoped(net, source);
      if pos == |seedRoutes.entries| {
        return Err(UnknownNetId);
      }
      var e := seedRoutes.entries[pos];
      var (kind, checked) := e.kind.ValidateToken(req, now, false);
      seedRoutes.Update(pos, e.(kind := kind));
      if checked.Err? {
        return Err(DelegatedError(checked.error));
      }
      return if e.extra.parent.None? then Err(NotAssigned) else Ok(e.extra.parent.value);
    }

    method CommitRelease(source: nat, net: nat, req: Token, now: Instant) returns (r: Result<(), SeedRefreshError>)
      requires Valid()
      modifies seedRoutes
      ensures Valid()
      ensures (State(), r) == Model.CommitRelease(old(State()), source, net, req, now)
    {
      CommitReleaseKeepsInv(State(), source, net, req, now);
      var pos := seedRoutes.FindScoped(net, source);
      if pos == |seedRoutes.entries| {
        return Err(UnknownNetId);
      }
      var e := seedRoutes.entries[pos];
      var (kind, checked) := e.kind.ValidateToken(req, now, false);
      seedRoutes.Update(pos, e.(kind := kind));
      if checked.Err? {
        return Err(DelegatedError(checked.error));
      }
      seedRoutes.RetainMut(DropExact(net, source));
      return Ok(());
    }

    method ReleaseSeed(source: nat, net: nat, req: Token, now: Instant) returns (r: Result<(), SeedRefreshError>)
      requires Valid()
      modifies seedRoutes
      ensures Valid()
      ensures (State(), r) == Model.ReleaseSeed(old(State()), source, net, req, now)
    {
      CollectRoutes(now);
      r := CommitRelease(source, net, req, now);
    }

    // ----------------------------------------------------------------------
    // Bus node claims
    // ----------------------------------------------------------------------

    method RequestClaim(source: nat, node: nat, nonce: nat, now: Instant, token: Token)
      returns (r: Result<Model.NodeClaim, Model.ClaimError>)
      requires Valid()
      modifies nodeClaims
      ensures Valid()
      ensures (State(), r) == Model.RequestClaim(old(State()), source, node, nonce, now, token)
    {
      RequestClaimKeepsInv(State(), source, node, nonce, now, token);
      if Model.Reserved(node) {
        return Err(Model.ReservedNodeId);
      }
      nodeClaims.RetainMut(Collect(now));
      var slot := FindSlotByNet(source);
      if source == 0 || slot == |slots| {
        return Err(Model.ClaimSourceUnknown);
      }
      var pos := nodeClaims.FindScoped(node, source);
      if pos < |nodeClaims.entries| {
        return Model.ReclaimAnswer(nodeClaims.entries[pos], nonce, now);
      }
      var full := nodeClaims.IsFull();
      if full {
        return Err(Model.Exhausted);
      }
      var _ := nodeClaims.Push(node, source, nonce, NewLease(now, INITIAL_LEASE_SECS, token));
      return Ok(Model.NodeClaim(node, source, INITIAL_LEASE_SECS, token));
    }

    method RefreshClaim(source: nat, node: nat, req: Token, now: Instant, newToken: Token)
      returns (r: Result<Model.NodeClaim, Model.ClaimRefreshError>)
      requires Valid()
      modifies nodeClaims
      ensures Valid()
      ensures (State(), r) == Model.RefreshClaim(old(State()), source, node, req, now, newToken)
    {
      RefreshClaimKeepsInv(State(), source, node, req, now, newToken);
      var pos := nodeClaims.FindScoped(node, source);
      if pos == |nodeClaims.entries| {
        return Err(Model.UnknownNodeId);
      }
      var e := nodeClaims.entries[pos];
      var (kind, answer) := e.kind.Refresh(req, now, newToken, true);
      nodeClaims.Update(pos, e.(kind := kind));
      match answer {
        case Ok((lease, replayed)) =>
          var secs := MAX_LEASE_SECS;
          if replayed {
            secs := RemainingLeaseSeconds(lease.expiration, now);
          }
          r := Ok(Model.NodeClaim(node, source, secs, lease.token));
        case Err(Expired) => r := Err(Model.ClaimExpired);
        case Err(BadToken) => r := Err(Model.ClaimBadRequest);
        case Err(TooSoon) => r := Err(Model.ClaimTooSoon);
      }
    }

    method IsNodeClaimed(net: nat, node: nat, now: Instant) returns (claimed: bool)
      ensures claimed == Model.IsNodeClaimed(State(), net, node, now)
    {
      if node == CENTRAL_NODE_ID || node == EDGE_NODE_ID {
        return true;
      }
      var pos := nodeClaims.FindScoped(node, net);
      return pos < |nodeClaims.entries| && nodeClaims.entries[pos].kind.IsActive(now);
    }

    // ----------------------------------------------------------------------
    // Routing
    // ----------------------------------------------------------------------

    method IsTransit(net: nat, now: Instant) returns (transit: bool)
      requires Valid()
      modifies seedRoutes
      ensures Valid()
      ensures (State(), transit) == Model.IsTransit(old(State()), net, now)
    {
      IsTransitKeepsInv(State(), net, now);
      if net == 0 {
        return false;
      }
      var pos := FindSlotByNet(net);
      if pos < |slots| {
        return true;
      }
      transit := seedRoutes.ContainsKeyAt(net, now);
    }

    /** Choose the port for a frame. The clock is read for the collection and
        again, no earlier, for the lookup. */
    method Find(dst: Address, anyAll: bool, source: Option<nat>, gcAt: Instant, readAt: Instant)
      returns (r: Result<nat, SendError>)
      requires Valid() && gcAt <= readAt
      modifies seedRoutes
      ensures Valid()
      ensures (State(), r) == Model.Find(old(State()), dst, anyAll, source, gcAt, readAt)
      ensures r.Ok? ==> source != Some(r.value)
      ensures r.Ok? && r.value != Model.UPSTREAM_IDENT ==> Model.HasIdent(slots, r.value)
    {
      if dst.port == 0 && !anyAll {
        return Err(AnyPortMissingKey);
      }
      CollectRoutes(gcAt);
      r := Route(dst, source, readAt);
      if r.Ok? {
        RouteIsSound(State(), dst, source, readAt);
      }
    }

    method Route(dst: Address, source: Option<nat>, now: Instant) returns (r: Result<nat, SendError>)
      requires Valid()
      ensures r == Model.Route(State(), dst, source, now)
    {
      // Direct link; pending slots hold net_id 0 and must not intercept.
      var pos := 0;
      while pos < |slots| && !(slots[pos].netId != 0 && slots[pos].netId == dst.net)
        invariant pos <= |slots|
        invariant forall i :: 0 <= i < pos ==> slots[i].netId == 0 || slots[i].netId != dst.net
      {
        pos := pos + 1;
      }
      if pos < |slots| {
        if dst.node == CENTRAL_NODE_ID {
          return Err(DestinationLocal);
        }
        if source == Some(slots[pos].ident) {
          return Err(RoutingLoop);
        }
        return Ok(slots[pos].ident);
      }

      // Seed route, then upstream.
      var route := seedRoutes.Find(dst.net);
      if route == |seedRoutes.entries| {
        r := FindUpstream(source);
        return;
      }
      var e := seedRoutes.entries[route];
      if !e.kind.IsActive(now) {
        return Err(NoRouteToDest);
      }
      if source == Some(e.extra.via) {
        return Err(RoutingLoop);
      }
      RouteOf(State(), route);
      var via := FindSlot(e.extra.via);
      // A live route never names a slot that is gone.
      assert via < |slots|;
      return Ok(slots[via].ident);
    }

    method FindUpstream(source: Option<nat>) returns (r: Result<nat, SendError>)
      ensures r == if upstream.None? then Err(NoRouteToDest)
                   else Model.Leaving(Model.UPSTREAM_IDENT, source)
    {
      if upstream.None? {
        return Err(NoRouteToDest);
      }
      if source == Some(Model.UPSTREAM_IDENT) {
        return Err(RoutingLoop);
      }
      return Ok(Model.UPSTREAM_IDENT);
    }

    // ----------------------------------------------------------------------
    // Sending
    // ----------------------------------------------------------------------

    /** Forward a received frame. The legs are what the sinks are handed; `room`
        are the idents whose sink has space. */
    method SendRaw(hdr0: Header, bodyLen: nat, source: nat, room: set<nat>, gcAt: Instant, readAt: Instant)
      returns (legs: seq<B.Leg>, r: Result<(), SendError>)
      requires Valid() && gcAt <= readAt
      modifies seedRoutes
      ensures Valid()
      ensures hdr0.ttl == 0 ==> State() == old(State()) && legs == [] && r == Err(TtlExpired)
      ensures hdr0.ttl > 0 && hdr0.dst.port == BROADCAST_PORT ==>
                && State() == old(State())
                && (legs, r) == B.BroadcastRaw(old(State()), hdr0.(ttl := hdr0.ttl - 1), bodyLen, source, room)
      ensures hdr0.ttl > 0 && hdr0.dst.port != BROADCAST_PORT ==>
                (State(), legs, r)
                == B.UnicastRaw(old(State()), hdr0.(ttl := hdr0.ttl - 1), bodyLen, source, room, gcAt, readAt)
    {
      if hdr0.ttl == 0 {
        return [], Err(TtlExpired);
      }
      var hdr := hdr0.(ttl := hdr0.ttl - 1);
      if hdr.dst.port == BROADCAST_PORT {
        legs, r := BroadcastRaw(hdr, bodyLen, source, room);
      } else {
        legs, r := UnicastRaw(hdr, bodyLen, source, room, gcAt, readAt);
      }
    }

    method UnicastRaw(hdr: Header, bodyLen: nat, source: nat, room: set<nat>, gcAt: Instant, readAt: Instant)
      returns (legs: seq<B.Leg>, r: Result<(), SendError>)
      requires Valid() && gcAt <= readAt
      modifies seedRoutes
      ensures Valid()
      ensures (State(), legs, r) == B.UnicastRaw(old(State()), hdr, bodyLen, source, room, gcAt, readAt)
    {
      var out := Find(hdr.dst, hdr.anyAll.Some?, Some(source), gcAt, readAt);
      if out.Err? {
        return [], Err(out.error);
      }
      var port := upstream;
      if out.value != Model.UPSTREAM_IDENT {
        var pos := FindSlot(out.value);
        port := Some(slots[pos].port);
      }
      if port.None? {
        return [], Err(NoRouteToDest);
      }
      match port.value.SendRaw(hdr, bodyLen, out.value in room) {
        case Ok(h) => legs, r := [B.Leg(out.value, h)], Ok(());
        case Err(e) => legs, r := [], Err(e);
      }
    }

    method BroadcastRaw(hdr0: Header, bodyLen: nat, source: nat, room: set<nat>)
      returns (legs: seq<B.Leg>, r: Result<(), SendError>)
      ensures (legs, r) == B.BroadcastRaw(State(), hdr0, bodyLen, source, room)
    {
      if hdr0.anyAll.None? {
        return [], Err(AnyPortMissingKey);
      }
      if slots == [] && upstream.None? {
        return [], Err(NoRouteToDest);
      }
      var hdr := hdr0;
      var defaultError := RoutingLoop;
      var genuine: Option<SendError> := None;
      legs := [];
      for i := 0 to |slots|
        invariant B.RawSlotLegs(hdr0, slots[..i], source, bodyLen, room)
               == B.Flood(legs, hdr, genuine, defaultError == NoRouteToDest)
        invariant defaultError == RoutingLoop || defaultError == NoRouteToDest
        invariant legs != [] ==> defaultError == NoRouteToDest
      {
        assert slots[..i + 1][..i] == slots[..i];
        if slots[i].ident != source {
          defaultError := NoRouteToDest;
          hdr := hdr.(dst := hdr.dst.(net := slots[i].netId, node := EDGE_NODE_ID));
          legs, genuine := FoldLeg(legs, genuine, slots[i].ident,
                                   slots[i].port.SendRaw(hdr, bodyLen, slots[i].ident in room));
        }
      }
      assert slots[..|slots|] == slots;
      if upstream.Some? && source != Model.UPSTREAM_IDENT {
        defaultError := NoRouteToDest;
        legs, genuine := FoldLeg(legs, genuine, Model.UPSTREAM_IDENT,
                                 upstream.value.SendRaw(hdr, bodyLen, Model.UPSTREAM_IDENT in room));
      }
      r := if legs != [] then Ok(()) else if genuine.Some? then Err(genuine.value) else Err(defaultError);
    }

    /** Fold one leg's result: benign refusals leave no trace. */
    method FoldLeg(legs: seq<B.Leg>, genuine: Option<SendError>, ident: nat, sent: Result<Header, SendError>)
      returns (legs': seq<B.Leg>, genuine': Option<SendError>)
      ensures forall hdr, tried ::
                B.Flood(legs', hdr, genuine', true) == B.FoldLeg(B.Flood(legs, hdr, genuine, tried), ident, sent)
    {
      legs', genuine' := legs, genuine;
      match sent {
        case Ok(h) => legs' := legs + [B.Leg(ident, h)];
        case Err(e) => if !B.Benign(e) { genuine' := Some(e); }
      }
    }

    /** Broadcast a message of our own; `hdr` has its TTL already spent. */
    method BroadcastOwn(hdr: Header, room: set<nat>) returns (legs: seq<B.Leg>, r: Result<(), SendError>)
      ensures var acc := B.SendLegs(State(), hdr, room);
              (legs, r) == if hdr.anyAll.Some? then (acc.legs, B.SendVerdict(acc)) else ([], Err(AnyPortMissingKey))
    {
      if hdr.anyAll.None? {
        return [], Err(AnyPortMissingKey);
      }
      var genuine: Option<SendError> := None;
      ghost var tried := false;
      legs := [];
      for i := 0 to |slots|
        invariant B.SendSlotLegs(hdr, slots[..i], room) == B.Flood(legs, hdr, genuine, tried)
      {
        assert slots[..i + 1][..i] == slots[..i];
        if slots[i].netId != 0 {
          var bhdr := hdr.(dst := hdr.dst.(net := slots[i].netId, node := EDGE_NODE_ID));
          var sent := B.Queued(slots[i].port.CommonSend(bhdr), slots[i].ident in room);
          legs, genuine := FoldLeg(legs, genuine, slots[i].ident, sent);
          tried := true;
        }
      }
      assert slots[..|slots|] == slots;
      if upstream.Some? {
        var sent := B.Queued(upstream.value.CommonSend(hdr), Model.UPSTREAM_IDENT in room);
        legs, genuine := FoldLeg(legs, genuine, Model.UPSTREAM_IDENT, sent);
      }
      r := if legs != [] then Ok(()) else if genuine.Some? then Err(genuine.value) else Err(NoRouteToDest);
    }
  }
}
