/**
 What the operations of a router mean for its tables: which records and slots
 are there afterwards, said of the tables themselves.
 */
module RouterLaws {
  import opened Wrappers
  import opened Leases
  import opened SeedLeases
  import opened Headers
  import opened Ports
  import opened RouterModel
  import opened RouterInvariant

  /** Some slot has the ident; some slot has the number; some record has the net. */
  ghost predicate Named(s: RouterState, ident: nat) {
    exists x :: x in s.slots && x.ident == ident
  }

  ghost predicate Numbered(s: RouterState, net: nat) {
    exists x :: x in s.slots && x.netId == net
  }

  ghost predicate Leased(s: RouterState, net: nat) {
    exists e :: e in s.routes && e.key == net
  }

  /** The lookups find what is there. */
  lemma {:induction false} LookupsFind(s: RouterState, k: nat)
    ensures Named(s, k) <==> HasIdent(s.slots, k)
    ensures Numbered(s, k) <==> HasNet(s.slots, k)
    ensures Leased(s, k) <==> HasKey(s.routes, k)
  {
    assert HasIdent(s.slots, k) ==> s.slots[SlotByIdent(s.slots, k)] in s.slots;
    assert HasNet(s.slots, k) ==> s.slots[SlotByNet(s.slots, k)] in s.slots;
    assert HasKey(s.routes, k) ==> s.routes[KeyIndex(s.routes, k)] in s.routes;
  }

  // ------------------------------------------------------------------------
  // Interfaces
  // ------------------------------------------------------------------------

  /** A pending slot has an ident nobody had, the lowest such, and no number. */
  lemma {:induction false} PendingSlotIsNew(s: RouterState, mtu: nat)
    requires Inv(s)
    ensures var (s', r) := RegisterPending(s, mtu);
            && (r.Ok? <==> |s.slots| < s.maxSlots)
            && (r.Err? ==> s' == s && r.error == Full)
            && (r.Ok? ==>
                  && s' == s.(slots := s.slots + [Slot(r.value, Port(Down, 1, 2, mtu), 0)])
                  && !Named(s, r.value) && (forall k: nat :: k < r.value ==> Named(s, k)))
  {
    if |s.slots| < s.maxSlots {
      FreeIdentExists(s);
      IdentIsNew(s, LowestFreeIdent(s.slots, 0, s.maxSlots));
    }
  }

  lemma {:induction false} IdentIsNew(s: RouterState, ident: nat)
    requires ident == LowestFreeIdent(s.slots, 0, s.maxSlots) < s.maxSlots
    ensures !Named(s, ident) && forall k: nat :: k < ident ==> Named(s, k)
  {
    LookupsFind(s, ident);
    forall k: nat | k < ident ensures Named(s, k) { LookupsFind(s, k); }
  }

  /** Who has a number: a slot, a route or tombstone, or the upstream. */
  ghost predicate InUse(s: RouterState, net: nat) {
    || Numbered(s, net) || Leased(s, net)
    || (s.upstream.Some? && s.upstream.value.state.Online? && s.upstream.value.state.netId == net)
  }

  lemma {:induction false} TakenMeansInUse(s: RouterState, net: nat)
    ensures NetIdTaken(s, net) <==> InUse(s, net)
  {
    LookupsFind(s, net);
  }

  /** A root gives a new interface the lowest free ident and the lowest free
      number, in the slot and in its port alike. */
  lemma {:induction false} RegisteredSlotIsNew(s: RouterState, mtu: nat, now: Instant)
    requires Inv(s)
    ensures var (s', r) := Register(s, mtu, now);
            var collected := s.(routes := Swept(s.routes, Collect(now)));
            && (s.upstream.Some? ==> s' == s && r == Err(BridgeRequiresSeedAssignment))
            && (s.upstream.None? && |s.slots| >= s.maxSlots ==> s' == collected && r == Err(Full))
            && (s.upstream.None? && |s.slots| < s.maxSlots ==>
                  if forall k: nat :: 1 <= k < 65535 ==> InUse(collected, k) then
                    s' == collected && r == Err(NetIdsExhausted)
                  else
                    && r.Ok? && !Named(s, r.value)
                    && exists net: u16 ::
                         && 1 <= net < 65535 && !InUse(collected, net)
                         && (forall k: nat :: 1 <= k < net ==> InUse(collected, k))
                         && s' == collected.(slots := s.slots + [Slot(r.value, Port(Online(net, 1), 1, 2, mtu), net)]))
  {
    if s.upstream.None? && |s.slots| < s.maxSlots {
      SweepRoutes(s, Collect(now));
      var collected := Gc(s, now);
      FreeIdentExists(collected);
      IdentIsNew(collected, LowestFreeIdent(s.slots, 0, s.maxSlots));
      forall k: nat ensures NetIdTaken(collected, k) <==> InUse(collected, k) { TakenMeansInUse(collected, k); }
      var net := LowestFreeNet(collected, 1);
      if net.Some? {
        assert !InUse(collected, net.value);
      }
    }
  }

  /** Removal takes one slot, anchors the grace of every route through it to now,
      and drops the claims of its segment; it touches nothing else. */
  lemma {:induction false} DeregisteredSlotIsGone(s: RouterState, ident: nat, now: Instant, gone: Slot)
    requires Inv(s) && gone in s.slots && gone.ident == ident
    ensures var (s', found) := Deregister(s, ident, now);
            && found && s'.upstream == s.upstream
            && (forall x :: x in s'.slots <==> x in s.slots && x.ident != ident)
            && |s'.slots| == |s.slots| - 1
            && |s'.routes| == |s.routes|
            && (forall i :: 0 <= i < |s.routes| ==>
                  s'.routes[i] == if s.routes[i].extra.via == ident
                                  then s.routes[i].(kind := Tombstone(now + 30 * SECOND)) else s.routes[i])
            && (forall c :: c in s'.claims <==> c in s.claims && c.scope != gone.netId)
  {
    var pos := SlotNamed(s, gone);
    DeregisteredAt(s, pos, now);
    SlotTakenOut(s.slots, pos);
    DroppedScope(s.claims, gone.netId);
  }

  lemma {:induction false} DeregisteredAt(s: RouterState, pos: nat, now: Instant)
    requires pos < |s.slots| && SlotByIdent(s.slots, s.slots[pos].ident) == pos
    ensures var (s', found) := Deregister(s, s.slots[pos].ident, now);
            && found && s'.upstream == s.upstream
            && s'.slots == SwapRemoved(s.slots, pos)
            && s'.routes == TombstoneVia(s.routes, s.slots[pos].ident, now)
            && s'.claims == Swept(s.claims, DropScope(s.slots[pos].netId))
  {}

  lemma {:induction false} SlotNamed(s: RouterState, x: Slot) returns (pos: nat)
    requires SlotsInv(s) && x in s.slots
    ensures pos == SlotByIdent(s.slots, x.ident) < |s.slots| && s.slots[pos] == x
  {
    pos :| 0 <= pos < |s.slots| && s.slots[pos] == x;
    assert SlotByIdent(s.slots, x.ident) == pos;
  }

  lemma {:induction false} SlotTakenOut(slots: seq<Slot>, pos: nat)
    requires pos < |slots|
    requires forall i, j :: 0 <= i < j < |slots| ==> slots[i].ident != slots[j].ident
    ensures forall x :: x in SwapRemoved(slots, pos) <==> x in slots && x.ident != slots[pos].ident
  {
    var r := SwapRemoved(slots, pos);
    SwapRemovedSlots(slots, pos);
    forall x | x in r ensures x in slots && x.ident != slots[pos].ident {
      var j :| 0 <= j < |r| && r[j] == x;
      assert x == slots[if j == pos then |slots| - 1 else j];
    }
  }

  lemma {:induction false} UnknownIdentIsLeft(s: RouterState, ident: nat, now: Instant)
    requires !Named(s, ident)
    ensures Deregister(s, ident, now) == (s, false)
  {
    LookupsFind(s, ident);
  }

  lemma {:induction false} DroppedScope<K, X>(es: seq<LeaseEntry<K, X>>, scope: nat)
    ensures forall e :: e in Swept(es, DropScope(scope)) <==> e in es && e.scope != scope
  {
    forall e | e in es && e.scope != scope ensures e in Swept(es, DropScope(scope)) {
      assert Retained(e, DropScope(scope)) == Some(e);
    }
  }

  lemma {:induction false} DroppedKey<K, X>(es: seq<LeaseEntry<K, X>>, key: K)
    ensures forall e :: e in Swept(es, DropKey(key)) <==> e in es && e.key != key
  {
    forall e | e in es && e.key != key ensures e in Swept(es, DropKey(key)) {
      assert Retained(e, DropKey(key)) == Some(e);
    }
  }

  lemma {:induction false} DroppedExact<K, X>(es: seq<LeaseEntry<K, X>>, key: K, scope: nat)
    ensures forall e :: e in Swept(es, DropExact(key, scope)) <==> e in es && !(e.key == key && e.scope == scope)
  {
    forall e | e in es && !(e.key == key && e.scope == scope) ensures e in Swept(es, DropExact(key, scope)) {
      assert Retained(e, DropExact(key, scope)) == Some(e);
    }
  }

  /** Setting a state reaches one port: that of the slot, or the upstream. */
  lemma {:induction false} StateIsSet(s: RouterState, ident: nat, state: InterfaceState)
    requires Inv(s)
    ensures var (s', r) := SetInterfaceState(s, ident, state);
            var reserved := (state.Online? && state.nodeId in {0, 255})
                            || (state.ActiveLocal? && state.localNode in {0, 255});
            var there := if ident == 255 then s.upstream.Some? else Named(s, ident);
            && (r == Err(InterfaceNotFound) <==> !there)
            && (r == Err(InvalidNodeId) <==> there && reserved)
            && (r.Err? ==> s' == s)
            && s'.routes == s.routes && s'.claims == s.claims && |s'.slots| == |s.slots|
            && (r.Ok? && ident == 255 ==> s'.upstream == s.upstream.value.SetState(state) && s'.slots == s.slots)
            && (r.Ok? && ident != 255 ==>
                  && s'.upstream == s.upstream
                  && forall i :: 0 <= i < |s.slots| ==>
                       && s'.slots[i] == s.slots[i].(port := s'.slots[i].port)
                       && if s.slots[i].ident == ident then Some(s'.slots[i].port) == s.slots[i].port.SetState(state)
                          else s'.slots[i] == s.slots[i])
  {
    LookupsFind(s, ident);
  }

  /** Renumbering: refused when zero or in use by another, and then slot and
      port both have the new number and the claims of an old one are gone. */
  lemma {:induction false} SlotIsRenumbered(s: RouterState, ident: nat, net: u16)
    requires Inv(s)
    ensures var (s', r) := Reassign(s, ident, net);
            var taken := || net == 0 || (exists x :: x in s.slots && x.ident != ident && x.netId == net)
                         || Leased(s, net)
                         || (s.upstream.Some? && s.upstream.value.NetId() == Some(net));
            && (r == Err(NetIdInUse) <==> taken)
            && (r == Err(InterfaceNotFound) <==> !taken && !Named(s, ident))
            && (r.Err? ==> s' == s)
            && s'.routes == s.routes && s'.upstream == s.upstream && |s'.slots| == |s.slots|
            && (r.Ok? ==>
                  forall i :: 0 <= i < |s.slots| ==>
                    if s.slots[i].ident == ident then
                      && s'.slots[i].ident == ident && s'.slots[i].netId == net
                      && Some(s'.slots[i].port) == s.slots[i].port.SetState(Online(net, 1))
                      && forall c :: c in s'.claims <==>
                           c in s.claims && (c.scope != s.slots[i].netId || s.slots[i].netId == net)
                    else s'.slots[i] == s.slots[i])
  {
    var pos := SlotByIdent(s.slots, ident);
    LookupsFind(s, ident);
    LookupsFind(s, net);
    if pos < |s.slots| { DroppedScope(s.claims, s.slots[pos].netId); }
  }

  // ------------------------------------------------------------------------
  // Routing
  // ------------------------------------------------------------------------

  /** Through this port, unless the frame came in on it. */
  predicate Through(r: Result<nat, SendError>, port: nat, source: Option<nat>) {
    r == if source == Some(port) then Err(RoutingLoop) else Ok(port)
  }

  /** A net of our own: node 1 is ourselves, the rest is behind that slot. */
  lemma {:induction false} DirectNetIsRouted(s: RouterState, slot: Slot, dst: Address, source: Option<nat>,
                                             now: Instant)
    requires Inv(s) && slot in s.slots && slot.netId == dst.net != 0
    ensures var r := Route(s, dst, source, now);
            if dst.node == 1 then r == Err(DestinationLocal) else Through(r, slot.ident, source)
  {
    var i :| 0 <= i < |s.slots| && s.slots[i] == slot;
  }

  /** A leased net: through the slot it was granted on while the lease is live,
      else nowhere, whether there is an upstream or not. */
  lemma {:induction false} LeasedNetIsRouted(s: RouterState, e: RouteEntry, dst: Address, source: Option<nat>,
                                             now: Instant)
    requires Inv(s) && e in s.routes && e.key == dst.net
    requires dst.net == 0 || !Numbered(s, dst.net)
    ensures var r := Route(s, dst, source, now);
            if e.kind.Active? && now < e.kind.lease.expiration then Through(r, e.extra.via, source)
            else r == Err(NoRouteToDest)
  {
    var i :| 0 <= i < |s.routes| && s.routes[i] == e;
    LookupsFind(s, dst.net);
  }

  /** Any other net: to the upstream, if there is one. */
  lemma {:induction false} OtherNetGoesUp(s: RouterState, dst: Address, source: Option<nat>, now: Instant)
    requires dst.net == 0 || !Numbered(s, dst.net)
    requires !Leased(s, dst.net)
    ensures var r := Route(s, dst, source, now);
            if s.upstream.Some? then Through(r, 255, source) else r == Err(NoRouteToDest)
  {
    LookupsFind(s, dst.net);
  }

  /** A lookup asks for an appendix on port 0, collects, and then routes. */
  lemma {:induction false} FindRoutesAfterCollecting(s: RouterState, dst: Address, anyAll: bool, source: Option<nat>,
                                                     gcAt: Instant, readAt: Instant)
    ensures var (s', r) := Find(s, dst, anyAll, source, gcAt, readAt);
            if dst.port == 0 && !anyAll then s' == s && r == Err(AnyPortMissingKey)
            else s' == s.(routes := Swept(s.routes, Collect(gcAt))) && r == Route(s', dst, source, readAt)
  {}

  /** Known nets are those of slots, and of routes whose reservation is not over. */
  lemma {:induction false} TransitNets(s: RouterState, net: nat, now: Instant)
    requires Inv(s)
    ensures IsTransit(s, net, now).1 <==>
            net != 0 && (Numbered(s, net)
                         || exists e :: e in s.routes && e.key == net && now < e.kind.ReservedUntil())
  {
    LookupsFind(s, net);
    var pos := KeyIndex(s.routes, net);
    if e :| e in s.routes && e.key == net && now < e.kind.ReservedUntil() {
      var i :| 0 <= i < |s.routes| && s.routes[i] == e;
      assert i == pos;
    }
  }
}
