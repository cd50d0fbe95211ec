/** The registry invariant of a router, and its preservation by every operation. */
module RouterInvariant {
  import opened Wrappers
  import opened Leases
  import opened SeedLeases
  import opened Headers
  import opened Ports
  import opened RouterModel

  ghost predicate SlotsInv(s: RouterState) {
    && |s.slots| <= s.maxSlots <= 255
    && (forall i :: 0 <= i < |s.slots| ==> s.slots[i].ident < s.maxSlots)
    && (forall i, j :: 0 <= i < j < |s.slots| ==> s.slots[i].ident != s.slots[j].ident)
    && (forall i, j :: 0 <= i < j < |s.slots| ==> s.slots[i].netId != s.slots[j].netId || s.slots[i].netId == 0)
  }

  /** A leased id belongs to no slot, and a live route leads through a live slot. */
  ghost predicate RouteInv(slots: seq<Slot>, e: RouteEntry) {
    && (e.key == 0 || !HasNet(slots, e.key))
    && (e.kind.Active? ==> HasIdent(slots, e.extra.via))
    && (e.extra.parent.Some? ==> CanDelegate(e.extra.parent.value))
  }

  ghost predicate RoutesInv(s: RouterState) {
    && |s.routes| <= s.maxRoutes
    && UniqueKeys(s.routes)
    && forall e :: e in s.routes ==> RouteInv(s.slots, e)
  }

  /** A claim's segment is a live slot, under a net_id it really has. */
  ghost predicate ClaimInv(slots: seq<Slot>, c: ClaimEntry) {
    c.scope != 0 && HasNet(slots, c.scope) && !Reserved(c.key)
  }

  ghost predicate ClaimsInv(s: RouterState) {
    && |s.claims| <= s.maxClaims
    && UniqueScoped(s.claims)
    && forall c :: c in s.claims ==> ClaimInv(s.slots, c)
  }

  ghost predicate Inv(s: RouterState) {
    SlotsInv(s) && RoutesInv(s) && ClaimsInv(s)
  }

  // ------------------------------------------------------------------------
  // Building blocks
  // ------------------------------------------------------------------------

  lemma {:induction false} SweepRoutes(s: RouterState, sweep: Sweep<nat>)
    requires Inv(s)
    ensures Inv(s.(routes := Swept(s.routes, sweep)))
    ensures ParentsDelegable(s)
  {
    var s' := s.(routes := Swept(s.routes, sweep));
    SweepKeepsUniqueKeys(s.routes, sweep);
    forall e: RouteEntry | e in s'.routes ensures RouteInv(s.slots, e) {
      var e0: RouteEntry :| e0 in s.routes && Retained(e0, sweep) == Some(e);
    }
  }

  lemma {:induction false} SweepClaims(s: RouterState, sweep: Sweep<nat>)
    requires Inv(s)
    ensures Inv(s.(claims := Swept(s.claims, sweep)))
  {
    SweepKeepsUniqueScoped(s.claims, sweep);
    forall c: ClaimEntry | c in Swept(s.claims, sweep) ensures ClaimInv(s.slots, c) {
      var c0: ClaimEntry :| c0 in s.claims && Retained(c0, sweep) == Some(c);
    }
  }

  /** One record is rewritten in place; a dead one is not brought back. */
  lemma {:induction false} UpdateRoute(s: RouterState, pos: nat, e: RouteEntry)
    requires Inv(s) && pos < |s.routes|
    requires e.key == s.routes[pos].key && e.extra.via == s.routes[pos].extra.via
    requires e.kind.Active? ==> s.routes[pos].kind.Active?
    requires e.extra.parent.Some? ==> CanDelegate(e.extra.parent.value)
    ensures Inv(s.(routes := s.routes[pos := e]))
  {
    assert RouteInv(s.slots, s.routes[pos]) by { assert s.routes[pos] in s.routes; }
    forall x: RouteEntry | x in s.routes[pos := e] ensures RouteInv(s.slots, x) {
      if x != e { assert x in s.routes; }
    }
  }

  lemma {:induction false} PushRoute(s: RouterState, e: RouteEntry)
    requires Inv(s) && |s.routes| < s.maxRoutes
    requires !HasKey(s.routes, e.key) && RouteInv(s.slots, e)
    ensures Inv(s.(routes := s.routes + [e]))
  {
    forall x: RouteEntry | x in s.routes + [e] ensures RouteInv(s.slots, x) {
      if x != e { assert x in s.routes; }
    }
  }

  lemma {:induction false} UpdateClaim(s: RouterState, pos: nat, kind: LeaseKind)
    requires Inv(s) && pos < |s.claims|
    ensures Inv(s.(claims := s.claims[pos := s.claims[pos].(kind := kind)]))
  {
    assert ClaimInv(s.slots, s.claims[pos]) by { assert s.claims[pos] in s.claims; }
    forall x: ClaimEntry | x in s.claims[pos := s.claims[pos].(kind := kind)] ensures ClaimInv(s.slots, x) {
      if x in s.claims { assert ClaimInv(s.slots, x); }
    }
  }

  lemma {:induction false} RouteOf(s: RouterState, pos: nat)
    requires Inv(s) && pos < |s.routes|
    ensures RouteInv(s.slots, s.routes[pos])
  {
    assert s.routes[pos] in s.routes;
  }

  /** Growing the slots by a new ident and an unused net_id. */
  lemma {:induction false} PushSlot(s: RouterState, slot: Slot)
    requires Inv(s) && |s.slots| < s.maxSlots && slot.ident < s.maxSlots && !HasIdent(s.slots, slot.ident)
    requires slot.netId == 0 || (!HasNet(s.slots, slot.netId) && !HasKey(s.routes, slot.netId))
    ensures Inv(s.(slots := s.slots + [slot]))
  {
    var slots := s.slots + [slot];
    assert slots[|s.slots|] == slot;
    forall e: RouteEntry | e in s.routes ensures RouteInv(slots, e) {
      assert RouteInv(s.slots, e);
      assert e.kind.Active? ==> slots[SlotByIdent(s.slots, e.extra.via)].ident == e.extra.via;
    }
    forall c: ClaimEntry | c in s.claims ensures ClaimInv(slots, c) {
      assert ClaimInv(s.slots, c);
      assert slots[SlotByNet(s.slots, c.scope)].netId == c.scope;
    }
  }

  // ------------------------------------------------------------------------
  // Pigeonhole
  // ------------------------------------------------------------------------

  /** Fewer slots than idents leave an ident free, so picking one cannot fail. */
  lemma {:induction false} FreeIdentExists(s: RouterState)
    requires SlotsInv(s) && |s.slots| < s.maxSlots
    ensures LowestFreeIdent(s.slots, 0, s.maxSlots) < s.maxSlots
  {
    if LowestFreeIdent(s.slots, 0, s.maxSlots) == s.maxSlots {
      var idents := seq(|s.slots|, i requires 0 <= i < |s.slots| => s.slots[i].ident);
      forall k: nat | k < s.maxSlots ensures k in idents {
        assert HasIdent(s.slots, k);
        assert idents[SlotByIdent(s.slots, k)] == k;
      }
      TooFewToCover(idents, 0, s.maxSlots);
      assert false;
    }
  }

  /** Allocation finds a net_id as long as slots, routes and upstream together
      are fewer than the 65534 ids, whatever those are. */
  lemma {:induction false} FreeNetExists(s: RouterState)
    requires |s.slots| + |s.routes| + (if s.upstream.Some? then 1 else 0) < NET_ID_END - 1
    ensures LowestFreeNet(s, 1).Some?
  {
    if LowestFreeNet(s, 1).None? {
      var nets := NetsInUse(s);
      forall k: nat | 1 <= k < NET_ID_END ensures k in nets {
        assert NetIdTaken(s, k);
        if HasNet(s.slots, k) {
          assert nets[SlotByNet(s.slots, k)] == k;
        } else if HasKey(s.routes, k) {
          assert nets[|s.slots| + KeyIndex(s.routes, k)] == k;
        } else {
          assert nets[|nets| - 1] == k;
        }
      }
      TooFewToCover(nets, 1, NET_ID_END);
      assert false;
    }
  }

  ghost function NetsInUse(s: RouterState): (r: seq<nat>)
    ensures |r| == |s.slots| + |s.routes| + (if s.upstream.Some? then 1 else 0)
    ensures forall i :: 0 <= i < |s.slots| ==> r[i] == s.slots[i].netId
    ensures forall i :: 0 <= i < |s.routes| ==> r[|s.slots| + i] == s.routes[i].key
    ensures s.upstream.Some? && s.upstream.value.NetId().Some? ==> r[|r| - 1] == s.upstream.value.NetId().value
  {
    seq(|s.slots|, i requires 0 <= i < |s.slots| => s.slots[i].netId)
    + seq(|s.routes|, i requires 0 <= i < |s.routes| => s.routes[i].key)
    + if s.upstream.None? then [] else [if s.upstream.value.NetId().Some? then s.upstream.value.NetId().value else 0]
  }

  /** A list shorter than a range misses some of it. */
  lemma {:induction false} TooFewToCover(xs: seq<nat>, lo: nat, hi: nat)
    requires lo <= hi && forall k: nat :: lo <= k < hi ==> k in xs
    ensures hi - lo <= |xs|
  {
    Subset(Below(hi) - Below(lo), set x: int | x in xs);
    assert Below(lo) <= Below(hi);
    AtMost(xs);
  }

  lemma {:induction false} AtMost(xs: seq<int>)
    ensures |set x: int | x in xs| <= |xs|
  {
    if xs == [] {
      assert (set x: int | x in xs) == {};
    } else {
      var front := xs[..|xs| - 1];
      AtMost(front);
      assert (set x: int | x in xs) == (set x: int | x in front) + {xs[|xs| - 1]};
    }
  }

  ghost function Below(n: nat): (r: set<int>)
    ensures |r| == n
    ensures forall k :: k in r <==> 0 <= k < n
  {
    if n == 0 then {} else Below(n - 1) + {n - 1}
  }

  lemma {:induction false} Subset<T>(a: set<T>, b: set<T>)
    requires a <= b
    ensures |a| <= |b|
  {
    if a != {} {
      var x :| x in a;
      Subset(a - {x}, b - {x});
    }
  }

  // ------------------------------------------------------------------------
  // Interface operations
  // ------------------------------------------------------------------------

  lemma {:induction false} RegisterPendingKeepsInv(s: RouterState, mtu: nat)
    requires Inv(s)
    ensures Inv(RegisterPending(s, mtu).0)
  {
    if |s.slots| < s.maxSlots {
      FreeIdentExists(s);
      PushSlot(s, Slot(LowestFreeIdent(s.slots, 0, s.maxSlots), NewController(Down, mtu), 0));
    }
  }

  lemma {:induction false} RegisterKeepsInv(s0: RouterState, mtu: nat, now: Instant)
    requires Inv(s0)
    ensures Inv(Register(s0, mtu, now).0)
  {
    SweepRoutes(s0, Collect(now));
    var s := Gc(s0, now);
    if s0.upstream.None? && |s.slots| < s.maxSlots {
      FreeIdentExists(s);
      var free := LowestFreeNet(s, 1);
      if free.Some? {
        PushSlot(s, Slot(LowestFreeIdent(s.slots, 0, s.maxSlots),
                         NewController(Online(free.value, CENTRAL_NODE_ID), mtu), free.value));
      }
    }
  }

  /** Everything but the removed slot is still there, and nothing new is. */
  lemma {:induction false} SwapRemovedSlots(slots: seq<Slot>, pos: nat)
    requires pos < |slots|
    ensures forall i :: 0 <= i < |slots| && i != pos ==> slots[i] in SwapRemoved(slots, pos)
    ensures forall j :: 0 <= j < |slots| - 1 ==>
              SwapRemoved(slots, pos)[j] == slots[if j == pos then |slots| - 1 else j]
  {
    var r := SwapRemoved(slots, pos);
    forall i | 0 <= i < |slots| && i != pos ensures slots[i] in r {
      assert slots[i] == r[if i == |slots| - 1 then pos else i];
    }
  }

  /** Lookups by any other name are not touched by a removal. */
  lemma {:induction false} SwapRemovedNames(slots: seq<Slot>, pos: nat)
    requires pos < |slots|
    ensures forall k :: HasIdent(slots, k) && k != slots[pos].ident ==> HasIdent(SwapRemoved(slots, pos), k)
    ensures forall k :: HasNet(slots, k) && k != slots[pos].netId ==> HasNet(SwapRemoved(slots, pos), k)
    ensures forall k :: HasNet(SwapRemoved(slots, pos), k) ==> HasNet(slots, k)
  {
    SwapRemovedSlots(slots, pos);
    var r := SwapRemoved(slots, pos);
    forall k | HasIdent(slots, k) && k != slots[pos].ident ensures HasIdent(r, k) {
      assert slots[SlotByIdent(slots, k)] in r;
    }
    forall k | HasNet(slots, k) && k != slots[pos].netId ensures HasNet(r, k) {
      assert slots[SlotByNet(slots, k)] in r;
    }
  }

  lemma {:induction false} DeregisterKeepsRoutes(s: RouterState, ident: nat, now: Instant)
    requires Inv(s)
    ensures var s' := Deregister(s, ident, now).0;
            forall e: RouteEntry :: e in s'.routes ==> RouteInv(s'.slots, e)
  {
    var pos := SlotByIdent(s.slots, ident);
    var s' := Deregister(s, ident, now).0;
    if pos < |s.slots| {
      SwapRemovedNames(s.slots, pos);
      forall e: RouteEntry | e in s'.routes ensures RouteInv(s'.slots, e) {
        var i :| 0 <= i < |s'.routes| && s'.routes[i] == e;
        RouteOf(s, i);
      }
    }
  }

  lemma {:induction false} DeregisterKeepsClaims(s: RouterState, ident: nat, now: Instant)
    requires Inv(s)
    ensures ClaimsInv(Deregister(s, ident, now).0)
  {
    var pos := SlotByIdent(s.slots, ident);
    if pos < |s.slots| {
      var s' := Deregister(s, ident, now).0;
      SwapRemovedNames(s.slots, pos);
      SweepClaims(s, DropScope(s.slots[pos].netId));
      forall c: ClaimEntry | c in s'.claims ensures ClaimInv(s'.slots, c) {
        var c0: ClaimEntry :| c0 in s.claims && Retained(c0, DropScope(s.slots[pos].netId)) == Some(c);
      }
    }
  }

  lemma {:induction false} DeregisterKeepsInv(s: RouterState, ident: nat, now: Instant)
    requires Inv(s)
    ensures Inv(Deregister(s, ident, now).0)
  {
    var pos := SlotByIdent(s.slots, ident);
    DeregisterKeepsRoutes(s, ident, now);
    DeregisterKeepsClaims(s, ident, now);
    if pos < |s.slots| {
      SwapRemovedSlots(s.slots, pos);
    }
  }

  lemma {:induction false} SetInterfaceStateKeepsInv(s: RouterState, ident: nat, state: InterfaceState)
    requires Inv(s)
    ensures Inv(SetInterfaceState(s, ident, state).0)
  {
    var pos := SlotByIdent(s.slots, ident);
    if ident != UPSTREAM_IDENT && pos < |s.slots| && s.slots[pos].port.SetState(state).Some? {
      var slots := SetInterfaceState(s, ident, state).0.slots;
      SameNames(s.slots, slots);
      forall e: RouteEntry | e in s.routes ensures RouteInv(slots, e) { assert RouteInv(s.slots, e); }
      forall c: ClaimEntry | c in s.claims ensures ClaimInv(slots, c) { assert ClaimInv(s.slots, c); }
    }
  }

  /** Lookups only see idents and net_ids. */
  lemma {:induction false} SameNames(a: seq<Slot>, b: seq<Slot>)
    requires |a| == |b|
    requires forall i :: 0 <= i < |a| ==> a[i].ident == b[i].ident && a[i].netId == b[i].netId
    ensures forall k :: HasIdent(a, k) <==> HasIdent(b, k)
    ensures forall k :: HasNet(a, k) <==> HasNet(b, k)
  {
    forall k ensures HasIdent(a, k) <==> HasIdent(b, k) {
      var i, j := SlotByIdent(a, k), SlotByIdent(b, k);
      if i < |a| { assert b[i].ident == k; }
      if j < |b| { assert a[j].ident == k; }
    }
    forall k ensures HasNet(a, k) <==> HasNet(b, k) {
      var i, j := SlotByNet(a, k), SlotByNet(b, k);
      if i < |a| { assert b[i].netId == k; }
      if j < |b| { assert a[j].netId == k; }
    }
  }

  /** Giving one slot another net_id. */
  lemma {:induction false} RenumberedNames(slots: seq<Slot>, pos: nat, slot: Slot)
    requires pos < |slots| && slot.ident == slots[pos].ident
    ensures forall k :: HasIdent(slots, k) ==> HasIdent(slots[pos := slot], k)
    ensures forall k :: HasNet(slots, k) && k != slots[pos].netId ==> HasNet(slots[pos := slot], k)
    ensures forall k :: HasNet(slots[pos := slot], k) ==> HasNet(slots, k) || k == slot.netId
    ensures HasNet(slots[pos := slot], slot.netId)
  {
    var r := slots[pos := slot];
    assert r[pos] == slot;
    forall k | HasIdent(slots, k) ensures HasIdent(r, k) {
      assert r[SlotByIdent(slots, k)].ident == k;
    }
    forall k | HasNet(slots, k) && k != slots[pos].netId ensures HasNet(r, k) {
      assert r[SlotByNet(slots, k)].netId == k;
    }
    forall k | HasNet(r, k) && k != slot.netId ensures HasNet(slots, k) {
      assert slots[SlotByNet(r, k)].netId == k;
    }
  }

  lemma {:induction false} ReassignKeepsClaims(s: RouterState, ident: nat, net: u16)
    requires Inv(s) && Reassign(s, ident, net).1.Ok?
    ensures ClaimsInv(Reassign(s, ident, net).0)
  {
    var pos := SlotByIdent(s.slots, ident);
    var s' := Reassign(s, ident, net).0;
    var before := s.slots[pos].netId;
    SweepClaims(s, DropScope(before));
    RenumberedNames(s.slots, pos, s'.slots[pos]);
    forall c: ClaimEntry | c in s'.claims ensures ClaimInv(s'.slots, c) {
      if before != net {
        var c0: ClaimEntry :| c0 in s.claims && Retained(c0, DropScope(before)) == Some(c);
      }
      assert ClaimInv(s.slots, c);
    }
  }

  lemma {:induction false} ReassignKeepsInv(s: RouterState, ident: nat, net: u16)
    requires Inv(s)
    ensures Inv(Reassign(s, ident, net).0)
  {
    var s' := Reassign(s, ident, net).0;
    if Reassign(s, ident, net).1.Ok? {
      var pos := SlotByIdent(s.slots, ident);
      ReassignKeepsClaims(s, ident, net);
      RenumberedNames(s.slots, pos, s'.slots[pos]);
      forall e: RouteEntry | e in s'.routes ensures RouteInv(s'.slots, e) {
        assert RouteInv(s.slots, e);
        assert HasKey(s.routes, e.key);
      }
      assert SlotsInv(s');
    }
  }

  // ------------------------------------------------------------------------
  // Lease operations
  // ------------------------------------------------------------------------

  lemma {:induction false} RequestSeedKeepsInv(s0: RouterState, source: nat, now: Instant, token: Token)
    requires Inv(s0)
    ensures Inv(RequestSeed(s0, source, now, token).0)
  {
    SweepRoutes(s0, Collect(now));
    var s := Gc(s0, now);
    if RequestSeed(s0, source, now, token).1.Ok? {
      var e := Last(RequestSeed(s0, source, now, token).0.routes);
      PushRoute(s, e);
    }
  }

  function Last(routes: seq<RouteEntry>): RouteEntry
    requires routes != []
  {
    routes[|routes| - 1]
  }

  lemma {:induction false} RegisterDelegatedKeepsInv(s0: RouterState, source: nat, parent: SeedLease, now: Instant,
                                                     token: Token)
    requires Inv(s0)
    ensures Inv(RegisterDelegated(s0, source, parent, now, token).0)
  {
    SweepRoutes(s0, Collect(now));
    var s := Gc(s0, now);
    SweepRoutes(s, DropKey(parent.netId));
    var freed := s.(routes := Swept(s.routes, DropKey(parent.netId)));
    if RegisterDelegated(s0, source, parent, now, token).1.Ok? {
      DroppedKeyIsGone(s.routes, parent.netId);
      PushRoute(freed, Last(RegisterDelegated(s0, source, parent, now, token).0.routes));
    }
  }

  lemma {:induction false} RefreshSeedKeepsInv(s: RouterState, source: nat, net: nat, req: Token, now: Instant,
                                               newToken: Token)
    requires Inv(s)
    ensures Inv(RefreshSeed(s, source, net, req, now, newToken).0)
  {
    var pos := ScopedIndex(s.routes, net, source);
    if pos < |s.routes| {
      RouteOf(s, pos);
      UpdateRoute(s, pos, RefreshSeed(s, source, net, req, now, newToken).0.routes[pos]);
    }
  }

  lemma {:induction false} PrepareDelegatedKeepsInv(s0: RouterState, source: nat, net: nat, req: Token, now: Instant)
    requires Inv(s0)
    ensures ParentsDelegable(s0)
    ensures Inv(PrepareDelegated(s0, source, net, req, now).0)
  {
    SweepRoutes(s0, Collect(now));
    var s := Gc(s0, now);
    var pos := KeyIndex(s.routes, net);
    if pos < |s.routes| && s.routes[pos].scope == source {
      RouteOf(s, pos);
      UpdateRoute(s, pos, PrepareDelegated(s0, source, net, req, now).0.routes[pos]);
    }
  }

  lemma {:induction false} CommitDelegatedKeepsInv(s: RouterState, source: nat, req: Token, now: Instant,
                                                   newToken: Token, refreshed: SeedLease)
    requires Inv(s)
    ensures Inv(CommitDelegated(s, source, req, now, newToken, refreshed).0)
  {
    var pos := ScopedIndex(s.routes, refreshed.netId, source);
    if CanDelegate(refreshed) && pos < |s.routes| {
      RouteOf(s, pos);
      UpdateRoute(s, pos, CommitDelegated(s, source, req, now, newToken, refreshed).0.routes[pos]);
    }
  }

  lemma {:induction false} CheckReleaseKeepsInv(s: RouterState, source: nat, net: nat, req: Token, now: Instant)
    requires Inv(s)
    ensures Inv(CheckRelease(s, source, net, req, now).0)
  {
    var pos := ScopedIndex(s.routes, net, source);
    if pos < |s.routes| {
      RouteOf(s, pos);
      UpdateRoute(s, pos, CheckRelease(s, source, net, req, now).0.routes[pos]);
    }
  }

  lemma {:induction false} PrepareReleaseKeepsInv(s: RouterState, source: nat, net: nat, req: Token, now: Instant)
    requires Inv(s)
    ensures Inv(PrepareRelease(s, source, net, req, now).0)
  {
    SweepRoutes(s, Collect(now));
    CheckReleaseKeepsInv(Gc(s, now), source, net, req, now);
  }

  lemma {:induction false} CommitReleaseKeepsInv(s: RouterState, source: nat, net: nat, req: Token, now: Instant)
    requires Inv(s)
    ensures Inv(CommitRelease(s, source, net, req, now).0)
  {
    CheckReleaseKeepsInv(s, source, net, req, now);
    SweepRoutes(CheckRelease(s, source, net, req, now).0, DropExact(net, source));
  }

  lemma {:induction false} RequestClaimKeepsInv(s0: RouterState, source: nat, node: nat, nonce: nat, now: Instant,
                                                token: Token)
    requires Inv(s0)
    ensures Inv(RequestClaim(s0, source, node, nonce, now, token).0)
  {
    SweepClaims(s0, Collect(now));
    var s := s0.(claims := Swept(s0.claims, Collect(now)));
    var s' := RequestClaim(s0, source, node, nonce, now, token).0;
    if |s'.claims| > |s.claims| {
      forall c: ClaimEntry | c in s'.claims ensures ClaimInv(s'.slots, c) {
        if c in s.claims { assert ClaimInv(s.slots, c); }
      }
    }
  }

  lemma {:induction false} RefreshClaimKeepsInv(s: RouterState, source: nat, node: nat, req: Token, now: Instant,
                                                newToken: Token)
    requires Inv(s)
    ensures Inv(RefreshClaim(s, source, node, req, now, newToken).0)
  {
    var pos := ScopedIndex(s.claims, node, source);
    if pos < |s.claims| {
      UpdateClaim(s, pos, RefreshClaim(s, source, node, req, now, newToken).0.claims[pos].kind);
    }
  }

  /** The lazy test advances or removes one record at most. */
  lemma {:induction false} IsTransitKeepsInv(s: RouterState, net: nat, now: Instant)
    requires Inv(s)
    ensures Inv(IsTransit(s, net, now).0)
  {
    var pos := KeyIndex(s.routes, net);
    if net != 0 && !HasNet(s.slots, net) && pos < |s.routes| {
      RouteOf(s, pos);
      match Retained(s.routes[pos], Collect(now)) {
        case Some(e) => UpdateRoute(s, pos, e);
        case None =>
          var r := SwapRemoved(s.routes, pos);
          forall e: RouteEntry | e in r ensures RouteInv(s.slots, e) {
            assert e in s.routes;
          }
      }
    }
  }

  // ------------------------------------------------------------------------
  // Routing
  // ------------------------------------------------------------------------

  /** A routed frame leaves through a live slot or the upstream, and never
      through the port it came in on; so no route names a slot that is gone. */
  lemma {:induction false} RouteIsSound(s: RouterState, dst: Address, source: Option<nat>, now: Instant)
    requires Inv(s) && Route(s, dst, source, now).Ok?
    ensures var port := Route(s, dst, source, now).value;
            && source != Some(port)
            && (if port == UPSTREAM_IDENT then s.upstream.Some? else HasIdent(s.slots, port))
  {
    var slot := SlotByNet(s.slots, dst.net);
    var route := KeyIndex(s.routes, dst.net);
    if dst.net != 0 && slot < |s.slots| {
      IdentPresent(s.slots, slot);
    } else if route < |s.routes| {
      RouteOf(s, route);
      var via := s.routes[route].extra.via;
      assert s.slots[SlotByIdent(s.slots, via)].ident == via;
    }
  }

  lemma {:induction false} IdentPresent(slots: seq<Slot>, pos: nat)
    requires pos < |slots|
    ensures HasIdent(slots, slots[pos].ident)
  {}
}
