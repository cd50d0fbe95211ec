/**
 The router as a state and what each operation makes of it: the specification
 the imperative `Router` is proved against, and the ground for statements
 about whole runs.
 */
module RouterModel {
  import opened Wrappers
  import opened Leases
  import opened SeedLeases
  import opened Headers
  import opened Ports

  const UPSTREAM_IDENT: nat := 255
  const NET_ID_END: nat := 0xFFFF

  datatype Slot = Slot(ident: nat, port: Port, netId: u16)

  /** `via` is the slot through which the net is reached; a route granted by
      this router itself has no parent lease. */
  datatype SeedRoute = SeedRoute(via: nat, parent: Option<SeedLease>)

  type RouteEntry = LeaseEntry<nat, SeedRoute>

  /** A bus node claim: key = node id, scope = bus net_id, extra = nonce. */
  type ClaimEntry = LeaseEntry<nat, nat>

  datatype RouterState = RouterState(
    maxSlots: nat, maxRoutes: nat, maxClaims: nat,
    slots: seq<Slot>,
    routes: seq<RouteEntry>,
    claims: seq<ClaimEntry>,
    upstream: Option<Port>)

  datatype RegisterError = Full | NetIdsExhausted | BridgeRequiresSeedAssignment
  datatype SetStateError = InterfaceNotFound | InvalidNodeId | NetIdInUse
  datatype AssignError =
    ProfileCantSeed | UnknownSource | RouteTableFull | NoFreeNetId | NetIdCollision | DelegationTooDeep
  datatype ClaimError = Conflict | Exhausted | ClaimSourceUnknown | ReservedNodeId
  datatype ClaimRefreshError = UnknownNodeId | ClaimExpired | ClaimBadRequest | ClaimTooSoon
  datatype NodeClaim = NodeClaim(nodeId: nat, netId: nat, expiresSeconds: nat, token: Token)

  // ------------------------------------------------------------------------
  // Lookups
  // ------------------------------------------------------------------------

  function SlotByIdent(slots: seq<Slot>, ident: nat, from: nat := 0): (pos: nat)
    requires from <= |slots|
    ensures from <= pos <= |slots|
    ensures pos < |slots| ==> slots[pos].ident == ident
    ensures forall i :: from <= i < pos ==> slots[i].ident != ident
    decreases |slots| - from
  {
    if from == |slots| || slots[from].ident == ident then from else SlotByIdent(slots, ident, from + 1)
  }

  function SlotByNet(slots: seq<Slot>, net: nat, from: nat := 0): (pos: nat)
    requires from <= |slots|
    ensures from <= pos <= |slots|
    ensures pos < |slots| ==> slots[pos].netId == net
    ensures forall i :: from <= i < pos ==> slots[i].netId != net
    decreases |slots| - from
  {
    if from == |slots| || slots[from].netId == net then from else SlotByNet(slots, net, from + 1)
  }

  predicate HasIdent(slots: seq<Slot>, ident: nat) {
    SlotByIdent(slots, ident) < |slots|
  }

  predicate HasNet(slots: seq<Slot>, net: nat) {
    SlotByNet(slots, net) < |slots|
  }

  predicate UpstreamOwns(s: RouterState, net: nat) {
    s.upstream.Some? && s.upstream.value.NetId() == Some(net)
  }

  predicate NetIdTaken(s: RouterState, net: nat) {
    HasNet(s.slots, net) || HasKey(s.routes, net) || UpstreamOwns(s, net)
  }

  /** The lowest id in `from..65535` that is not taken. */
  function LowestFreeNet(s: RouterState, from: nat): (r: Option<u16>)
    ensures r.Some? ==> from <= r.value < NET_ID_END && !NetIdTaken(s, r.value)
    ensures r.Some? ==> forall k :: from <= k < r.value ==> NetIdTaken(s, k)
    ensures r.None? ==> forall k :: from <= k < NET_ID_END ==> NetIdTaken(s, k)
    decreases NET_ID_END - from, |s.slots|
  {
    if from >= NET_ID_END then None
    else if !NetIdTaken(s, from) then Some(from)
    else LowestFreeNet(s, from + 1)
  }

  /** The lowest ident no slot has. */
  function LowestFreeIdent(slots: seq<Slot>, from: nat, end: nat): (r: nat)
    requires from <= end
    ensures from <= r <= end
    ensures r < end ==> !HasIdent(slots, r)
    ensures forall k :: from <= k < r ==> HasIdent(slots, k)
    decreases end - from
  {
    if from == end || !HasIdent(slots, from) then from else LowestFreeIdent(slots, from + 1, end)
  }

  function Gc(s: RouterState, now: Instant): RouterState {
    s.(routes := Swept(s.routes, Collect(now)))
  }

  // ------------------------------------------------------------------------
  // Interfaces
  // ------------------------------------------------------------------------

  function RegisterPending(s: RouterState, mtu: nat): (RouterState, Result<nat, RegisterError>) {
    if |s.slots| >= s.maxSlots then (s, Err(Full))
    else
      var ident := LowestFreeIdent(s.slots, 0, s.maxSlots);
      (s.(slots := s.slots + [Slot(ident, NewController(Down, mtu), 0)]), Ok(ident))
  }

  function Register(s0: RouterState, mtu: nat, now: Instant): (RouterState, Result<nat, RegisterError>) {
    if s0.upstream.Some? then (s0, Err(BridgeRequiresSeedAssignment))
    else
      var s := Gc(s0, now);
      if |s.slots| >= s.maxSlots then (s, Err(Full))
      else
        var ident := LowestFreeIdent(s.slots, 0, s.maxSlots);
        match LowestFreeNet(s, 1)
        case None => (s, Err(NetIdsExhausted))
        case Some(net) =>
          (s.(slots := s.slots + [Slot(ident, NewController(Online(net, CENTRAL_NODE_ID), mtu), net)]), Ok(ident))
  }

  /** Routes through a removed slot stay reserved from now on for the grace period. */
  function TombstoneVia(routes: seq<RouteEntry>, via: nat, now: Instant): (r: seq<RouteEntry>)
    ensures |r| == |routes|
    ensures forall i :: 0 <= i < |r| ==>
              r[i] == if routes[i].extra.via != via then routes[i]
                      else routes[i].(kind := Tombstone(now + TOMBSTONE_SECS * SECOND))
  {
    if routes == [] then []
    else
      var e := routes[0];
      [if e.extra.via != via then e else e.(kind := Tombstone(now + TOMBSTONE_SECS * SECOND))]
      + TombstoneVia(routes[1..], via, now)
  }

  function Deregister(s: RouterState, ident: nat, now: Instant): (RouterState, bool) {
    var pos := SlotByIdent(s.slots, ident);
    if pos == |s.slots| then (s, false)
    else
      (s.(slots := SwapRemoved(s.slots, pos),
          routes := TombstoneVia(s.routes, ident, now),
          claims := Swept(s.claims, DropScope(s.slots[pos].netId))), true)
  }

  function SetInterfaceState(s: RouterState, ident: nat, state: InterfaceState)
    : (RouterState, Result<(), SetStateError>)
  {
    if ident == UPSTREAM_IDENT then
      if s.upstream.None? then (s, Err(InterfaceNotFound))
      else
        match s.upstream.value.SetState(state)
        case None => (s, Err(InvalidNodeId))
        case Some(p) => (s.(upstream := Some(p)), Ok(()))
    else
      var pos := SlotByIdent(s.slots, ident);
      if pos == |s.slots| then (s, Err(InterfaceNotFound))
      else
        match s.slots[pos].port.SetState(state)
        case None => (s, Err(InvalidNodeId))
        case Some(p) => (s.(slots := s.slots[pos := s.slots[pos].(port := p)]), Ok(()))
  }

  /** Another slot than `ident` already uses `net`. */
  predicate NetUsedElsewhere(slots: seq<Slot>, ident: nat, net: nat) {
    exists i :: 0 <= i < |slots| && slots[i].ident != ident && slots[i].netId == net
  }

  function Reassign(s: RouterState, ident: nat, net: u16): (RouterState, Result<(), SetStateError>) {
    if net == 0 || NetUsedElsewhere(s.slots, ident, net) || HasKey(s.routes, net) || UpstreamOwns(s, net) then
      (s, Err(NetIdInUse))
    else
      var pos := SlotByIdent(s.slots, ident);
      if pos == |s.slots| then (s, Err(InterfaceNotFound))
      else
        var slot := s.slots[pos];
        var port := slot.port.(state := Online(net, CENTRAL_NODE_ID), own := CENTRAL_NODE_ID);
        (s.(slots := s.slots[pos := slot.(netId := net, port := port)],
            claims := if slot.netId == net then s.claims else Swept(s.claims, DropScope(slot.netId))), Ok(()))
  }

  // ------------------------------------------------------------------------
  // Seed leases
  // ------------------------------------------------------------------------

  function RequestSeed(s0: RouterState, source: nat, now: Instant, token: Token)
    : (RouterState, Result<SeedNetAssignment, AssignError>)
  {
    if s0.upstream.Some? then (s0, Err(ProfileCantSeed))
    else if source == 0 then (s0, Err(UnknownSource))
    else
      var s := Gc(s0, now);
      var pos := SlotByNet(s.slots, source);
      if pos == |s.slots| then (s, Err(UnknownSource))
      else if |s.routes| >= s.maxRoutes then (s, Err(RouteTableFull))
      else
        match LowestFreeNet(s, 1)
        case None => (s, Err(NoFreeNetId))
        case Some(net) =>
          var entry := LeaseEntry(net, source, SeedRoute(s.slots[pos].ident, None),
                                  NewLease(now, INITIAL_LEASE_SECS, token));
          (s.(routes := s.routes + [entry]), Ok(RootAssignment(net, token, INITIAL_LEASE_SECS)))
  }

  function CanDelegateSeed(s0: RouterState, source: nat, now: Instant): (RouterState, Option<AssignError>) {
    var s := Gc(s0, now);
    if source == 0 || !HasNet(s.slots, source) then (s, Some(UnknownSource))
    else if |s.routes| >= s.maxRoutes then (s, Some(RouteTableFull))
    else (s, None)
  }

  function RegisterDelegated(s0: RouterState, source: nat, parent: SeedLease, now: Instant, token: Token)
    : (RouterState, Result<SeedNetAssignment, AssignError>)
  {
    var s := Gc(s0, now);
    var pos := SlotByNet(s.slots, source);
    if source == 0 || pos == |s.slots| then (s, Err(UnknownSource))
    else if HasNet(s.slots, parent.netId) || UpstreamOwns(s, parent.netId) then (s, Err(NetIdCollision))
    else if !CanDelegate(parent) then (s, Err(DelegationTooDeep))
    else
      var freed := s.(routes := Swept(s.routes, DropKey(parent.netId)));
      if |freed.routes| >= s.maxRoutes then (freed, Err(RouteTableFull))
      else
        var entry := LeaseEntry(parent.netId, source, SeedRoute(s.slots[pos].ident, Some(parent)),
                                NewLease(now, parent.expiresSeconds, token));
        (freed.(routes := freed.routes + [entry]), Ok(DelegatedAssignment(parent, token, parent.expiresSeconds)))
  }

  function RefreshSeed(s: RouterState, source: nat, net: nat, req: Token, now: Instant, newToken: Token)
    : (RouterState, Result<SeedNetAssignment, SeedRefreshError>)
  {
    var pos := ScopedIndex(s.routes, net, source);
    if pos == |s.routes| then (s, Err(UnknownNetId))
    else
      var (kind, answer) := RootRefresh(net, s.routes[pos].kind, req, now, newToken);
      (s.(routes := s.routes[pos := s.routes[pos].(kind := kind)]), answer)
  }

  function PrepareDelegated(s0: RouterState, source: nat, net: nat, req: Token, now: Instant)
    : (RouterState, Result<Preparation, SeedRefreshError>)
    requires ParentsDelegable(s0)
  {
    var s := Gc(s0, now);
    GcKeepsParents(s0, now);
    var pos := KeyIndex(s.routes, net);
    if pos == |s.routes| then (s, Err(UnknownNetId))
    else if s.routes[pos].scope != source then (s, Err(BadRequest))
    else
      var e := s.routes[pos];
      assert e in s.routes;
      var (kind, answer) := PrepareRefresh(e.kind, e.extra.parent, req, now);
      (s.(routes := s.routes[pos := e.(kind := kind)]), answer)
  }

  function CommitDelegated(s: RouterState, source: nat, req: Token, now: Instant, newToken: Token, refreshed: SeedLease)
    : (RouterState, Result<SeedNetAssignment, SeedRefreshError>)
  {
    if !CanDelegate(refreshed) then (s, Err(DelegationDepthExceeded))
    else
      var pos := ScopedIndex(s.routes, refreshed.netId, source);
      if pos == |s.routes| then (s, Err(UnknownNetId))
      else
        var e := s.routes[pos];
        var (kind, parent, answer) := CommitRefresh(e.kind, e.extra.parent, req, now, newToken, refreshed);
        (s.(routes := s.routes[pos := e.(kind := kind, extra := e.extra.(parent := parent))]), answer)
  }

  /** Shared by the three release paths: the lease must be live and the token
      current. The pair is the table with the record checked, and its position. */
  function CheckRelease(s: RouterState, source: nat, net: nat, req: Token, now: Instant)
    : (r: (RouterState, Result<nat, SeedRefreshError>))
    ensures r.1.Ok? ==> r.1.value < |r.0.routes| && r.0.routes[r.1.value] in r.0.routes
  {
    var pos := ScopedIndex(s.routes, net, source);
    if pos == |s.routes| then (s, Err(UnknownNetId))
    else
      var (kind, checked) := s.routes[pos].kind.ValidateToken(req, now, false);
      (s.(routes := s.routes[pos := s.routes[pos].(kind := kind)]),
       if checked.Ok? then Ok(pos) else Err(DelegatedError(checked.error)))
  }

  function PrepareRelease(s: RouterState, source: nat, net: nat, req: Token, now: Instant)
    : (RouterState, Result<SeedLease, SeedRefreshError>)
  {
    var (checked, pos) := CheckRelease(Gc(s, now), source, net, req, now);
    match pos
    case Err(e) => (checked, Err(e))
    case Ok(i) =>
      var parent := checked.routes[i].extra.parent;
      (checked, if parent.None? then Err(NotAssigned) else Ok(parent.value))
  }

  function CommitRelease(s: RouterState, source: nat, net: nat, req: Token, now: Instant)
    : (RouterState, Result<(), SeedRefreshError>)
  {
    var (checked, pos) := CheckRelease(s, source, net, req, now);
    match pos
    case Err(e) => (checked, Err(e))
    case Ok(_) => (checked.(routes := Swept(checked.routes, DropExact(net, source))), Ok(()))
  }

  function ReleaseSeed(s: RouterState, source: nat, net: nat, req: Token, now: Instant)
    : (RouterState, Result<(), SeedRefreshError>)
  {
    CommitRelease(Gc(s, now), source, net, req, now)
  }

  // ------------------------------------------------------------------------
  // Bus node claims
  // ------------------------------------------------------------------------

  predicate Reserved(node: nat) {
    node == 0 || node == CENTRAL_NODE_ID || node == EDGE_NODE_ID || node == 255
  }

  /** Claiming a node id that has a record: only its own device gets it, again. */
  function ReclaimAnswer(e: ClaimEntry, nonce: nat, now: Instant): Result<NodeClaim, ClaimError> {
    if e.kind.Active? && e.extra == nonce then
      Ok(NodeClaim(e.key, e.scope, WholeSecondsLeft(e.kind.lease.expiration, now), e.kind.lease.token))
    else Err(Conflict)
  }

  /** Seconds left, rounded down and truncated to 16 bits. */
  function WholeSecondsLeft(expiration: Instant, now: Instant): nat {
    if expiration <= now then 0 else (expiration - now) / SECOND % 0x1_0000
  }

  function RequestClaim(s0: RouterState, source: nat, node: nat, nonce: nat, now: Instant, token: Token)
    : (RouterState, Result<NodeClaim, ClaimError>)
  {
    if Reserved(node) then (s0, Err(ReservedNodeId))
    else
      var s := s0.(claims := Swept(s0.claims, Collect(now)));
      if source == 0 || !HasNet(s.slots, source) then (s, Err(ClaimSourceUnknown))
      else
        var pos := ScopedIndex(s.claims, node, source);
        if pos < |s.claims| then
          (s, ReclaimAnswer(s.claims[pos], nonce, now))
        else if |s.claims| >= s.maxClaims then (s, Err(Exhausted))
        else
          (s.(claims := s.claims + [LeaseEntry(node, source, nonce, NewLease(now, INITIAL_LEASE_SECS, token))]),
           Ok(NodeClaim(node, source, INITIAL_LEASE_SECS, token)))
  }

  function RefreshClaim(s: RouterState, source: nat, node: nat, req: Token, now: Instant, newToken: Token)
    : (RouterState, Result<NodeClaim, ClaimRefreshError>)
  {
    var pos := ScopedIndex(s.claims, node, source);
    if pos == |s.claims| then (s, Err(UnknownNodeId))
    else
      var e := s.claims[pos];
      var (kind, answer) := e.kind.Refresh(req, now, newToken, true);
      (s.(claims := s.claims[pos := e.(kind := kind)]),
       match answer
       case Err(Expired) => Err(ClaimExpired)
       case Err(BadToken) => Err(ClaimBadRequest)
       case Err(TooSoon) => Err(ClaimTooSoon)
       case Ok((lease, replayed)) =>
         Ok(NodeClaim(node, source,
                      if replayed then RemainingLeaseSeconds(lease.expiration, now) else MAX_LEASE_SECS,
                      lease.token)))
  }

  predicate IsNodeClaimed(s: RouterState, net: nat, node: nat, now: Instant) {
    if node == CENTRAL_NODE_ID || node == EDGE_NODE_ID then true
    else
      var pos := ScopedIndex(s.claims, node, net);
      pos < |s.claims| && s.claims[pos].kind.IsActive(now)
  }

  // ------------------------------------------------------------------------
  // Routing
  // ------------------------------------------------------------------------

  function IsTransit(s: RouterState, net: nat, now: Instant): (RouterState, bool) {
    if net == 0 then (s, false)
    else if HasNet(s.slots, net) then (s, true)
    else
      var (routes, found) := LazilyChecked(s.routes, net, now);
      (s.(routes := routes), found)
  }

  /** The port a frame leaves through: a slot's ident, or `UPSTREAM_IDENT`.
      `source` is the port it came in on, if any. The clock is read twice. */
  function Find(s0: RouterState, dst: Address, anyAll: bool, source: Option<nat>, gcAt: Instant, readAt: Instant)
    : (RouterState, Result<nat, SendError>)
  {
    if dst.port == 0 && !anyAll then (s0, Err(AnyPortMissingKey))
    else
      var s := Gc(s0, gcAt);
      (s, Route(s, dst, source, readAt))
  }

  /** Direct slot, else active seed route, else upstream. */
  function Route(s: RouterState, dst: Address, source: Option<nat>, now: Instant): Result<nat, SendError> {
    var slot := SlotByNet(s.slots, dst.net);
    var route := KeyIndex(s.routes, dst.net);
    if dst.net != 0 && slot < |s.slots| then
      if dst.node == CENTRAL_NODE_ID then Err(DestinationLocal)
      else Leaving(s.slots[slot].ident, source)
    else if route < |s.routes| then
      if s.routes[route].kind.IsActive(now) then Leaving(s.routes[route].extra.via, source)
      else Err(NoRouteToDest)
    else if s.upstream.None? then Err(NoRouteToDest)
    else Leaving(UPSTREAM_IDENT, source)
  }

  function Leaving(ident: nat, source: Option<nat>): Result<nat, SendError> {
    if source == Some(ident) then Err(RoutingLoop) else Ok(ident)
  }

  // ------------------------------------------------------------------------
  // The registry invariant
  // ------------------------------------------------------------------------

  ghost predicate ParentsDelegable(s: RouterState) {
    forall e :: e in s.routes && e.extra.parent.Some? ==> CanDelegate(e.extra.parent.value)
  }

  lemma {:induction false} GcKeepsParents(s: RouterState, now: Instant)
    requires ParentsDelegable(s)
    ensures ParentsDelegable(Gc(s, now))
  {
    forall e | e in Gc(s, now).routes && e.extra.parent.Some? ensures CanDelegate(e.extra.parent.value) {
      var e0: RouteEntry :| e0 in s.routes && Retained(e0, Collect(now)) == Some(e);
    }
  }
}
