/** What granting, refreshing, delegating and releasing a lease do to the one record concerned. */
module LeaseLaws {
  import opened Wrappers
  import opened Leases
  import opened SeedLeases
  import opened Headers
  import opened Ports
  import opened RouterModel
  import opened RouterInvariant
  import opened RouterLaws

  // ------------------------------------------------------------------------
  // One lease
  // ------------------------------------------------------------------------

  /** A refresh extends a live lease for its current token within the last 62 s,
      replays it for the previous one, and otherwise says why not. */
  lemma {:induction false} RefreshOutcome(lease: Lease, req: Token, now: Instant, newToken: Token)
    ensures var (after, r) := Active(lease).Refresh(req, now, newToken, true);
            var current, replay := req == lease.token, lease.previous == Some(req);
            && (r == Err(BadToken) <==> !current && !replay)
            && (r == Err(Expired) <==> (current || replay) && lease.expiration <= now)
            && (r == Err(TooSoon) <==> current && now + 62 * SECOND < lease.expiration)
            && (r.Err? && r.error != Expired ==> after == Active(lease))
            && (r == Err(Expired) ==> after == Tombstone(lease.expiration + 30 * SECOND))
            && (r.Ok? && current ==>
                  after == Active(Lease(now + 120 * SECOND, newToken, Some(req))) && r.value == (after.lease, false))
            && (r.Ok? && !current ==> after == Active(lease) && r.value == (lease, true))
  {}

  // ------------------------------------------------------------------------
  // Finding and replacing a record
  // ------------------------------------------------------------------------

  /** The one record with its key is where every lookup finds it. */
  lemma {:induction false} IndexOf(s: RouterState, e: RouteEntry) returns (i: nat)
    requires Inv(s) && e in s.routes
    ensures i < |s.routes| && s.routes[i] == e
    ensures KeyIndex(s.routes, e.key) == i == ScopedIndex(s.routes, e.key, e.scope)
  {
    i :| 0 <= i < |s.routes| && s.routes[i] == e;
  }

  /** The table with `e` in the place of `e0`, and nothing else different. */
  ghost predicate Replaced(a: seq<RouteEntry>, e0: RouteEntry, e: RouteEntry, b: seq<RouteEntry>) {
    && e0 in a && e.key == e0.key && e.scope == e0.scope && e in b && |b| == |a|
    && forall x: RouteEntry :: x.key != e0.key ==> (x in b <==> x in a)
  }

  lemma {:induction false} ReplacedAt(s: RouterState, i: nat, e: RouteEntry)
    requires Inv(s) && i < |s.routes| && e.key == s.routes[i].key && e.scope == s.routes[i].scope
    ensures Replaced(s.routes, s.routes[i], e, s.routes[i := e])
  {
    var b := s.routes[i := e];
    assert b[i] == e;
    forall x: RouteEntry | x.key != e.key ensures x in b <==> x in s.routes {
      if x in b {
        var k :| 0 <= k < |b| && b[k] == x;
        assert s.routes[k] == x;
      }
      if x in s.routes {
        var k :| 0 <= k < |s.routes| && s.routes[k] == x;
        assert b[k] == x;
      }
    }
  }

  /** What collection leaves of one record. */
  lemma {:induction false} CollectedRecord(s: RouterState, e: RouteEntry, now: Instant)
    requires Inv(s) && e in s.routes
    ensures Inv(Gc(s, now))
    ensures e.kind.Active? && now < e.kind.lease.expiration ==> e in Gc(s, now).routes
    ensures e.kind.Active? && e.kind.lease.expiration <= now < e.kind.ReservedUntil() ==>
              e.(kind := Tombstone(e.kind.ReservedUntil())) in Gc(s, now).routes
    ensures e.kind.Tombstone? && now < e.kind.clearTime ==> e in Gc(s, now).routes
    ensures e.kind.ReservedUntil() <= now ==> !Leased(Gc(s, now), e.key)
  {
    SweepRoutes(s, Collect(now));
    if e.kind.GcRetain(now).Some? {
      assert Retained(e, Collect(now)).value in Gc(s, now).routes;
    }
    forall x | x in Gc(s, now).routes && x.key == e.key ensures now < e.kind.ReservedUntil() {
      var x0: RouteEntry :| x0 in s.routes && Retained(x0, Collect(now)) == Some(x);
      var i, j :| 0 <= i < |s.routes| && s.routes[i] == e && 0 <= j < |s.routes| && s.routes[j] == x0;
    }
  }

  // ------------------------------------------------------------------------
  // Granting
  // ------------------------------------------------------------------------

  /** A root grants the lowest number nobody uses, for 30 s, to the slot whose
      number the request came from. */
  lemma {:induction false} SeedIsGranted(s: RouterState, source: nat, now: Instant, token: Token)
    requires Inv(s)
    ensures var (s', r) := RequestSeed(s, source, now, token);
            var collected := s.(routes := Swept(s.routes, Collect(now)));
            && (r == Err(ProfileCantSeed) <==> s.upstream.Some?)
            && (r == Err(UnknownSource) <==> s.upstream.None? && (source == 0 || !Numbered(s, source)))
            && (s.upstream.None? && source != 0 && Numbered(s, source) ==>
                  && (r == Err(RouteTableFull) <==> |collected.routes| >= s.maxRoutes)
                  && (r == Err(NoFreeNetId) <==>
                        |collected.routes| < s.maxRoutes && forall k: nat :: 1 <= k < 65535 ==> InUse(collected, k)))
            && (r.Err? ==> s' == s || s' == collected)
            && (r.Ok? ==>
                  && s.upstream.None? && source != 0
                  && var a := r.value;
                     && 1 <= a.netId < 65535 && !InUse(collected, a.netId)
                     && (forall k: nat :: 1 <= k < a.netId ==> InUse(collected, k))
                     && a == SeedNetAssignment(a.netId, 30, 120, 62, token)
                     && exists x :: x in s.slots && x.netId == source
                                    && s' == collected.(routes := collected.routes
                                         + [LeaseEntry(a.netId, source, SeedRoute(x.ident, None),
                                                       Active(Lease(now + 30 * SECOND, token, None)))]))
  {
    LookupsFind(s, source);
    var collected := Gc(s, now);
    forall k: nat ensures NetIdTaken(collected, k) <==> InUse(collected, k) { TakenMeansInUse(collected, k); }
    var pos := SlotByNet(s.slots, source);
    if pos < |s.slots| { assert s.slots[pos] in s.slots; }
    var net := LowestFreeNet(collected, 1);
    if net.Some? { assert !InUse(collected, net.value); }
  }

  /** Until the lease ends, frames for the granted net leave through that slot. */
  lemma {:induction false} GrantedNetIsRouted(s: RouterState, source: nat, now: Instant, token: Token, x: Slot,
                                              dst: Address, from: Option<nat>, t: Instant)
    requires Inv(s) && x in s.slots && x.netId == source
    requires RequestSeed(s, source, now, token).1.Ok? && dst.net == RequestSeed(s, source, now, token).1.value.netId
    requires t < now + 30 * SECOND
    ensures Through(Route(RequestSeed(s, source, now, token).0, dst, from, t), x.ident, from)
  {
    SeedIsGranted(s, source, now, token);
    RequestSeedKeepsInv(s, source, now, token);
    var (s', r) := RequestSeed(s, source, now, token);
    var e := s'.routes[|s'.routes| - 1];
    var i :| 0 <= i < |s.slots| && s.slots[i] == x;
    LookupsFind(s', dst.net);
    assert !Numbered(Gc(s, now), dst.net);
    LeasedNetIsRouted(s', e, dst, from, t);
  }

  /** What stops a delegation: the slot, the number, the depth, the room. */
  ghost predicate DelegationFits(s: RouterState, source: nat, parent: SeedLease) {
    && source != 0 && Numbered(s, source)
    && !Numbered(s, parent.netId) && !UpstreamOwns(s, parent.netId)
    && parent.minRefresh > 5
  }

  lemma {:induction false} DelegationAnswers(s: RouterState, source: nat, parent: SeedLease, now: Instant, token: Token)
    ensures var (s', r) := RegisterDelegated(s, source, parent, now, token);
            var collected := Swept(s.routes, Collect(now));
            && (r == Err(UnknownSource) <==> source == 0 || !Numbered(s, source))
            && (r == Err(NetIdCollision) <==>
                  source != 0 && Numbered(s, source) && (Numbered(s, parent.netId) || UpstreamOwns(s, parent.netId)))
            && (r.Ok? ==> DelegationFits(s, source, parent))
            && (&& DelegationFits(s, source, parent)
                && (|collected| < s.maxRoutes || (|collected| == s.maxRoutes && HasKey(collected, parent.netId)))
                ==> r.Ok?)
            && s' == s.(routes := s'.routes)
  {
    LookupsFind(s, source);
    LookupsFind(s, parent.netId);
    DroppedKeyMakesRoom(Swept(s.routes, Collect(now)), parent.netId);
  }

  /** The record a delegation leaves, for the slot it was asked for on. */
  function DelegatedEntry(x: Slot, source: nat, parent: SeedLease, now: Instant, token: Token): RouteEntry {
    LeaseEntry(parent.netId, source, SeedRoute(x.ident, Some(parent)),
               Active(Lease(now + parent.expiresSeconds * SECOND, token, None)))
  }

  /** A bridge registers a delegated number for as long as its own lease says,
      in the place of any record it had for it, and hands on 5 s less of window. */
  lemma {:induction false} DelegationIsRegistered(s: RouterState, source: nat, parent: SeedLease, now: Instant,
                                                  token: Token)
    requires Inv(s) && RegisterDelegated(s, source, parent, now, token).1.Ok?
    ensures var (s', r) := RegisterDelegated(s, source, parent, now, token);
            var collected := Swept(s.routes, Collect(now));
            && parent.minRefresh > 5
            && r.value == SeedNetAssignment(parent.netId, parent.expiresSeconds, parent.maxRefresh,
                                            parent.minRefresh - 5, token)
            && (forall e: RouteEntry :: e.key != parent.netId ==> (e in s'.routes <==> e in collected))
            && exists x :: x in s.slots && x.netId == source
                           && DelegatedEntry(x, source, parent, now, token) in s'.routes
  {
    var collected := Swept(s.routes, Collect(now));
    var s' := RegisterDelegated(s, source, parent, now, token).0;
    var x := SlotDelegatedTo(s, source, parent, now, token);
    KeyReplaced(collected, parent.netId, DelegatedEntry(x, source, parent, now, token), s'.routes);
  }

  lemma {:induction false} SlotDelegatedTo(s: RouterState, source: nat, parent: SeedLease, now: Instant, token: Token)
    returns (x: Slot)
    requires RegisterDelegated(s, source, parent, now, token).1.Ok?
    ensures x in s.slots && x.netId == source && parent.minRefresh > 5
    ensures var (s', r) := RegisterDelegated(s, source, parent, now, token);
            && s'.routes == Swept(Swept(s.routes, Collect(now)), DropKey(parent.netId))
                            + [DelegatedEntry(x, source, parent, now, token)]
            && r.value == SeedNetAssignment(parent.netId, parent.expiresSeconds, parent.maxRefresh,
                                            parent.minRefresh - 5, token)
  {
    var pos := SlotByNet(s.slots, source);
    assert source != 0 && pos < |s.slots| && CanDelegate(parent);
    x := s.slots[pos];
    var (s', r) := RegisterDelegated(s, source, parent, now, token);
    assert r.value == DelegatedAssignment(parent, token, parent.expiresSeconds);
    var entry := DelegatedEntry(x, source, parent, now, token);
    assert entry.kind == NewLease(now, parent.expiresSeconds, token);
    var freed := Gc(s, now).(routes := Swept(Gc(s, now).routes, DropKey(parent.netId)));
    assert s' == freed.(routes := freed.routes + [entry]);
  }

  lemma {:induction false} KeyReplaced(es: seq<RouteEntry>, key: nat, e: RouteEntry, es': seq<RouteEntry>)
    requires e.key == key && es' == Swept(es, DropKey(key)) + [e]
    ensures e in es' && forall x: RouteEntry :: x.key != key ==> (x in es' <==> x in es)
  {
    DroppedKey(es, key);
    assert es'[|es'| - 1] == e;
  }

  lemma {:induction false} DroppedKeyMakesRoom(es: seq<RouteEntry>, key: nat)
    ensures HasKey(es, key) ==> |Swept(es, DropKey(key))| < |es|
  {
    if es != [] {
      var front := es[..|es| - 1];
      DroppedKeyMakesRoom(front, key);
      var pos := KeyIndex(es, key);
      assert pos < |es| - 1 ==> front[pos].key == key;
    }
  }

  /** A nonzero number names one slot. */
  lemma {:induction false} OneSlot(s: RouterState, x: Slot, y: Slot)
    requires Inv(s) && x in s.slots && y in s.slots && x.netId == y.netId != 0
    ensures x == y
  {
    var i, j :| 0 <= i < |s.slots| && s.slots[i] == x && 0 <= j < |s.slots| && s.slots[j] == y;
  }

  lemma {:induction false} DelegatedNetIsRouted(s: RouterState, source: nat, parent: SeedLease, now: Instant,
                                                token: Token, x: Slot, dst: Address, from: Option<nat>, t: Instant)
    requires Inv(s) && x in s.slots && x.netId == source
    requires RegisterDelegated(s, source, parent, now, token).1.Ok? && dst.net == parent.netId != 0
    requires t < now + parent.expiresSeconds * SECOND
    ensures Through(Route(RegisterDelegated(s, source, parent, now, token).0, dst, from, t), x.ident, from)
  {
    DelegationAnswers(s, source, parent, now, token);
    DelegationIsRegistered(s, source, parent, now, token);
    RegisterDelegatedKeepsInv(s, source, parent, now, token);
    var s' := RegisterDelegated(s, source, parent, now, token).0;
    var y :| y in s.slots && y.netId == source && DelegatedEntry(y, source, parent, now, token) in s'.routes;
    OneSlot(s, x, y);
    assert !Numbered(s', dst.net) by { assert s'.slots == s.slots; }
    LeasedNetIsRouted(s', DelegatedEntry(y, source, parent, now, token), dst, from, t);
  }

  /** A bridge asks before it leases upstream: what it does not refuse then it
      can register, unless the number collides or the chain is too deep. */
  lemma {:induction false} CheckedBeforeLeasing(s: RouterState, source: nat, parent: SeedLease, at: Instant,
                                                now: Instant, token: Token)
    requires Inv(s) && at <= now && CanDelegateSeed(s, source, at).1.None?
    ensures var s1 := CanDelegateSeed(s, source, at).0;
            && source != 0 && Numbered(s1, source)
            && (RegisterDelegated(s1, source, parent, now, token).1.Err? ==> !DelegationFits(s1, source, parent))
  {
    LookupsFind(s, source);
    SweepRoutes(s, Collect(at));
    var s1 := CanDelegateSeed(s, source, at).0;
    SweepRoutes(s1, Collect(now));
    DelegationAnswers(s1, source, parent, now, token);
  }
}
