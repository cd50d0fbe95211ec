/** What refreshing and releasing a lease do to its record, and what the next request then hears. */
module RefreshLaws {
  import opened Wrappers
  import opened Leases
  import opened SeedLeases
  import opened Ports
  import opened RouterModel
  import opened RouterInvariant
  import opened RouterLaws
  import opened LeaseLaws

  predicate Live(e: RouteEntry, now: Instant) {
    e.kind.Active? && now < e.kind.lease.expiration
  }

  /** The record after an extension. */
  function Renewed(e: RouteEntry, parent: Option<SeedLease>, expiration: Instant, token: Token): RouteEntry
    requires e.kind.Active?
  {
    e.(kind := Active(Lease(expiration, token, Some(e.kind.lease.token))), extra := SeedRoute(e.extra.via, parent))
  }

  // ------------------------------------------------------------------------
  // At the root
  // ------------------------------------------------------------------------

  /** A live lease granted by the root: the current token within the window
      extends and rotates it, the previous one only repeats the answer. */
  lemma {:induction false} RootRefreshIsRecorded(s: RouterState, e: RouteEntry, req: Token, now: Instant,
                                                 newToken: Token)
    requires Inv(s) && e in s.routes && Live(e, now) && e.kind.lease.expiration <= now + 120 * SECOND
    ensures var (s', r) := RefreshSeed(s, e.scope, e.key, req, now, newToken);
            var lease := e.kind.lease;
            && s' == s.(routes := s'.routes)
            && (req == lease.token && lease.expiration <= now + 62 * SECOND ==>
                  && r == Ok(SeedNetAssignment(e.key, 120, 120, 62, newToken))
                  && Replaced(s.routes, e, Renewed(e, e.extra.parent, now + 120 * SECOND, newToken), s'.routes))
            && (req == lease.token && lease.expiration > now + 62 * SECOND ==> r == Err(TooEarly) && s' == s)
            && (req != lease.token && lease.previous == Some(req) ==>
                  && r.Ok? && s' == s
                  && r.value == SeedNetAssignment(e.key, r.value.expiresSeconds, 120, 62, lease.token)
                  && lease.expiration <= now + r.value.expiresSeconds * SECOND < lease.expiration + SECOND)
            && (req != lease.token && lease.previous != Some(req) ==> r == Err(BadRequest) && s' == s)
  {
    var i := IndexOf(s, e);
    RefreshOutcome(e.kind.lease, req, now, newToken);
    assert s.routes[i := e] == s.routes;
    if req == e.kind.lease.token && e.kind.lease.expiration <= now + 62 * SECOND {
      ReplacedAt(s, i, Renewed(e, e.extra.parent, now + 120 * SECOND, newToken));
    }
  }

  /** No record with that number for that segment: nothing happens. */
  lemma {:induction false} UnknownLeaseIsRefused(s: RouterState, source: nat, net: nat, req: Token, now: Instant,
                                                 newToken: Token)
    requires forall e :: e in s.routes ==> e.key != net || e.scope != source
    ensures RefreshSeed(s, source, net, req, now, newToken) == (s, Err(UnknownNetId))
    ensures CommitRelease(s, source, net, req, now) == (s, Err(UnknownNetId))
  {
    var pos := ScopedIndex(s.routes, net, source);
    assert forall i :: 0 <= i < |s.routes| ==> s.routes[i] in s.routes;
  }

  // ------------------------------------------------------------------------
  // At a bridge
  // ------------------------------------------------------------------------

  /** The first half on a live delegated lease: the current token is forwarded
      with the lease held from above, the previous one repeats the answer. */
  lemma {:induction false} PreparedFromRecord(s: RouterState, e: RouteEntry, source: nat, req: Token, now: Instant)
    requires Inv(s) && e in s.routes && Live(e, now) && e.extra.parent.Some?
    requires e.kind.lease.expiration <= now + 0xFFFF * SECOND
    ensures ParentsDelegable(s)
    ensures var (s', r) := PrepareDelegated(s, source, e.key, req, now);
            var lease, parent := e.kind.lease, e.extra.parent.value;
            && e in s'.routes
            && (source != e.scope ==> r == Err(BadRequest))
            && (source == e.scope && req == lease.token ==> r == Ok(Forward(parent)))
            && (source == e.scope && req != lease.token && lease.previous == Some(req) ==>
                  && r.Ok? && r.value.ReplayAnswer?
                  && var a := r.value.assignment;
                     && a == SeedNetAssignment(parent.netId, a.expiresSeconds, parent.maxRefresh, parent.minRefresh - 5,
                                               lease.token)
                     && lease.expiration <= now + a.expiresSeconds * SECOND < lease.expiration + SECOND)
            && (source == e.scope && req != lease.token && lease.previous != Some(req) ==> r == Err(BadRequest))
  {
    CollectedRecord(s, e, now);
    GcKeepsParents(s, now);
    var collected := Gc(s, now);
    var i := IndexOf(collected, e);
    assert collected.routes[i := e] == collected.routes;
  }

  /** A record that has run out is refused as expired, and one dropped is not known. */
  lemma {:induction false} PreparedFromNothing(s: RouterState, e: RouteEntry, req: Token, now: Instant)
    requires Inv(s) && e in s.routes && !Live(e, now)
    ensures ParentsDelegable(s)
    ensures var r := PrepareDelegated(s, e.scope, e.key, req, now).1;
            r == if now < e.kind.ReservedUntil() then Err(AlreadyExpired) else Err(UnknownNetId)
  {
    CollectedRecord(s, e, now);
    GcKeepsParents(s, now);
    var collected := Gc(s, now);
    if now < e.kind.ReservedUntil() {
      var dead := e.(kind := Tombstone(e.kind.ReservedUntil()));
      assert dead in collected.routes;
      var i := IndexOf(collected, dead);
    } else {
      LookupsFind(collected, e.key);
    }
  }

  /** The second half: the record ends when the lease from above does, has the
      new token, keeps the one presented for a replay, and remembers the new
      parent lease. No other record changes. */
  lemma {:induction false} CommitIsRecorded(s: RouterState, source: nat, req: Token, now: Instant, newToken: Token,
                                            refreshed: SeedLease)
    requires Inv(s) && CommitDelegated(s, source, req, now, newToken, refreshed).1.Ok?
    ensures var (s', r) := CommitDelegated(s, source, req, now, newToken, refreshed);
            var a := r.value;
            && refreshed.minRefresh > 5 && s' == s.(routes := s'.routes)
            && a == SeedNetAssignment(refreshed.netId, refreshed.expiresSeconds, refreshed.maxRefresh,
                                      refreshed.minRefresh - 5, newToken)
            && exists e: RouteEntry ::
                 && e in s.routes && e.key == refreshed.netId && e.scope == source
                 && Live(e, now) && e.kind.lease.token == req && e.extra.parent.Some?
                 && Replaced(s.routes, e, Renewed(e, Some(refreshed), now + a.expiresSeconds * SECOND, a.token),
                             s'.routes)
  {
    var pos := ScopedIndex(s.routes, refreshed.netId, source);
    var e := s.routes[pos];
    ReplacedAt(s, pos, Renewed(e, Some(refreshed), now + refreshed.expiresSeconds * SECOND, newToken));
  }

  /** And it goes through whenever the record is live and the token current. */
  lemma {:induction false} CommitSucceeds(s: RouterState, e: RouteEntry, now: Instant, newToken: Token,
                                          refreshed: SeedLease)
    requires Inv(s) && e in s.routes && Live(e, now) && e.extra.parent.Some?
    requires refreshed.netId == e.key && refreshed.minRefresh > 5
    ensures CommitDelegated(s, e.scope, e.kind.lease.token, now, newToken, refreshed).1.Ok?
  {
    var i := IndexOf(s, e);
  }

  /** After a commit the new token is forwarded with the new parent lease, and
      the old one hears the answer again. */
  lemma {:induction false} RequestsAfterCommit(s: RouterState, source: nat, req: Token, now: Instant, newToken: Token,
                                               refreshed: SeedLease, t: Instant)
    requires Inv(s) && CommitDelegated(s, source, req, now, newToken, refreshed).1.Ok?
    requires req != newToken && now <= t < now + refreshed.expiresSeconds * SECOND && refreshed.expiresSeconds <= 0xFFFF
    ensures var s' := CommitDelegated(s, source, req, now, newToken, refreshed).0;
            && ParentsDelegable(s')
            && PrepareDelegated(s', source, refreshed.netId, newToken, t).1 == Ok(Forward(refreshed))
            && var again := PrepareDelegated(s', source, refreshed.netId, req, t).1;
               again.Ok? && again.value.ReplayAnswer? && again.value.assignment.token == newToken
  {
    CommitIsRecorded(s, source, req, now, newToken, refreshed);
    CommitDelegatedKeepsInv(s, source, req, now, newToken, refreshed);
    var (s', r) := CommitDelegated(s, source, req, now, newToken, refreshed);
    var e: RouteEntry :|
      && e in s.routes && e.key == refreshed.netId && e.scope == source
      && Live(e, now) && e.kind.lease.token == req && e.extra.parent.Some?
      && Replaced(s.routes, e, Renewed(e, Some(refreshed), now + r.value.expiresSeconds * SECOND, r.value.token),
                  s'.routes);
    var e' := Renewed(e, Some(refreshed), now + refreshed.expiresSeconds * SECOND, newToken);
    PreparedFromRecord(s', e', source, newToken, t);
    PreparedFromRecord(s', e', source, req, t);
  }

  // ------------------------------------------------------------------------
  // Release
  // ------------------------------------------------------------------------

  /** A release takes exactly the one record, live and named by its current
      token, and is refused otherwise. */
  lemma {:induction false} ReleaseRemovesTheRecord(s: RouterState, e: RouteEntry, req: Token, now: Instant)
    requires Inv(s) && e in s.routes
    ensures var (s', r) := CommitRelease(s, e.scope, e.key, req, now);
            && s' == s.(routes := s'.routes)
            && (r.Ok? <==> Live(e, now) && e.kind.lease.token == req)
            && (r.Ok? ==> !Leased(s', e.key)
                          && forall x: RouteEntry :: x.key != e.key ==> (x in s'.routes <==> x in s.routes))
            && (r.Err? ==> Leased(s', e.key))
            && (r == Err(BadRequest) <==> e.kind.Active? && e.kind.lease.token != req)
  {
    var i := IndexOf(s, e);
    var (checked, pos) := CheckRelease(s, e.scope, e.key, req, now);
    ReplacedAt(s, i, checked.routes[i]);
    if pos.Ok? {
      CheckReleaseKeepsInv(s, e.scope, e.key, req, now);
      DroppedExact(checked.routes, e.key, e.scope);
      assert checked.routes[i] == e;
      forall x | x in checked.routes && x.key == e.key ensures x == e {
        var k :| 0 <= k < |checked.routes| && checked.routes[k] == x;
      }
    } else {
      assert checked.routes[i] in checked.routes;
    }
  }

  /** At the root the same, after a collection. */
  lemma {:induction false} RootReleaseRemovesTheRecord(s: RouterState, e: RouteEntry, req: Token, now: Instant)
    requires Inv(s) && e in s.routes && Live(e, now)
    ensures var (s', r) := ReleaseSeed(s, e.scope, e.key, req, now);
            && (r.Ok? <==> e.kind.lease.token == req)
            && (r.Ok? ==> !Leased(s', e.key))
            && (r.Err? ==> r == Err(BadRequest) && e in s'.routes)
  {
    CollectedRecord(s, e, now);
    ReleaseRemovesTheRecord(Gc(s, now), e, req, now);
    var i := IndexOf(Gc(s, now), e);
    assert Gc(s, now).routes[i := e] == Gc(s, now).routes;
  }

  /** A bridge first finds out which lease to give back above, and keeps its record. */
  lemma {:induction false} PreparedRelease(s: RouterState, e: RouteEntry, req: Token, now: Instant)
    requires Inv(s) && e in s.routes && Live(e, now)
    ensures var (s', r) := PrepareRelease(s, e.scope, e.key, req, now);
            && e in s'.routes
            && (r == Err(BadRequest) <==> e.kind.lease.token != req)
            && (r == Err(NotAssigned) <==> e.kind.lease.token == req && e.extra.parent.None?)
            && (r.Ok? ==> e.extra.parent == Some(r.value))
  {
    CollectedRecord(s, e, now);
    var i := IndexOf(Gc(s, now), e);
    assert Gc(s, now).routes[i := e] == Gc(s, now).routes;
  }
}
