/** What claiming a bus node id does to the claims, and what the next claim or refresh then hears. */
module ClaimLaws {
  import opened Wrappers
  import opened Leases
  import opened SeedLeases
  import opened Ports
  import opened RouterModel
  import opened RouterInvariant
  import opened RouterRuns
  import opened RouterLaws
  import opened LeaseLaws

  /** A record, live or dead, of this node id on this segment. */
  ghost predicate Claimed(claims: seq<ClaimEntry>, node: nat, net: nat) {
    exists c :: c in claims && c.key == node && c.scope == net
  }

  lemma {:induction false} ClaimLookupFinds(claims: seq<ClaimEntry>, node: nat, net: nat)
    ensures Claimed(claims, node, net) <==> ScopedIndex(claims, node, net) < |claims|
  {
    assert forall i :: 0 <= i < |claims| ==> claims[i] in claims;
  }

  lemma {:induction false} ClaimIndexOf(claims: seq<ClaimEntry>, c: ClaimEntry) returns (i: nat)
    requires UniqueScoped(claims) && c in claims
    ensures i < |claims| && claims[i] == c && ScopedIndex(claims, c.key, c.scope) == i
  {
    i :| 0 <= i < |claims| && claims[i] == c;
  }

  /** The claim a device gets. */
  function FreshClaim(node: nat, net: nat, nonce: nat, now: Instant, token: Token): ClaimEntry {
    LeaseEntry(node, net, nonce, Active(Lease(now + 30 * SECOND, token, None)))
  }

  /** A node id nobody has on a segment is granted for 30 s to the nonce that
      asks, with the token that is told; all refusals leave the claims collected. */
  lemma {:induction false} FreeNodeIsClaimed(s: RouterState, source: nat, node: nat, nonce: nat, now: Instant,
                                             token: Token)
    requires Inv(s) && node !in {0, 1, 2, 255}
    requires !Claimed(Swept(s.claims, Collect(now)), node, source)
    ensures var (s', r) := RequestClaim(s, source, node, nonce, now, token);
            var collected := Swept(s.claims, Collect(now));
            && (r == Err(ClaimSourceUnknown) <==> source == 0 || !Numbered(s, source))
            && (r == Err(Exhausted) <==> source != 0 && Numbered(s, source) && |collected| >= s.maxClaims)
            && r != Err(Conflict) && r != Err(ReservedNodeId)
            && (r.Err? ==> s' == s.(claims := collected))
            && (r.Ok? ==>
                  && r.value == NodeClaim(node, source, 30, token)
                  && s' == s.(claims := collected + [FreshClaim(node, source, nonce, now, token)]))
  {
    LookupsFind(s, source);
    ClaimLookupFinds(Swept(s.claims, Collect(now)), node, source);
  }

  /** Reserved node ids are never granted. */
  lemma {:induction false} ReservedNodesAreRefused(s: RouterState, source: nat, node: nat, nonce: nat, now: Instant,
                                                   token: Token)
    requires node in {0, 1, 2, 255}
    ensures RequestClaim(s, source, node, nonce, now, token) == (s, Err(ReservedNodeId))
  {}

  /** Whoever is granted a free node id owns it, and its frames pass until the lease ends. */
  lemma {:induction false} ClaimantOwns(s: RouterState, source: nat, node: nat, nonce: nat, now: Instant, token: Token)
    requires Inv(s) && !Claimed(Swept(s.claims, Collect(now)), node, source)
    requires RequestClaim(s, source, node, nonce, now, token).1.Ok?
    ensures var s' := RequestClaim(s, source, node, nonce, now, token).0;
            && Inv(s') && FreshClaim(node, source, nonce, now, token) in s'.claims
            && Owns(s', node, source, nonce, now + 60 * SECOND)
            && (forall t: Instant :: IsNodeClaimed(s', source, node, t) <==> t < now + 30 * SECOND)
  {
    RequestClaimKeepsInv(s, source, node, nonce, now, token);
    assert node !in {0, 1, 2, 255};
    FreeNodeIsClaimed(s, source, node, nonce, now, token);
    var s' := RequestClaim(s, source, node, nonce, now, token).0;
    var c := FreshClaim(node, source, nonce, now, token);
    assert s'.claims[|s'.claims| - 1] == c;
    var i := ClaimIndexOf(s'.claims, c);
  }

  /** A node id somebody has: only a live claim of the same nonce is answered,
      with its token and the seconds left, rounded down. */
  lemma {:induction false} TakenNodeIsAnswered(s: RouterState, c: ClaimEntry, nonce: nat, now: Instant, token: Token)
    requires Inv(s) && c in s.claims && c.kind.Active? && now < c.kind.lease.expiration <= now + 120 * SECOND
    ensures var (s', r) := RequestClaim(s, c.scope, c.key, nonce, now, token);
            && s' == s.(claims := Swept(s.claims, Collect(now)))
            && (nonce != c.extra ==> r == Err(Conflict))
            && (nonce == c.extra ==>
                  && r.Ok? && r.value == NodeClaim(c.key, c.scope, r.value.expiresSeconds, c.kind.lease.token)
                  && r.value.expiresSeconds * SECOND <= c.kind.lease.expiration - now
                     < (r.value.expiresSeconds + 1) * SECOND)
  {
    assert ClaimInv(s.slots, c);
    assert Retained(c, Collect(now)) == Some(c);
    SweepClaims(s, Collect(now));
    var i := ClaimIndexOf(Swept(s.claims, Collect(now)), c);
    SecondsLeft(c.kind.lease.expiration, now);
  }

  /** While it lasts the same device hears the same token again, any other device
      is told of the conflict, and the token extends the claim. */
  lemma {:induction false} AfterAClaim(s: RouterState, source: nat, node: nat, nonce: nat, now: Instant, token: Token,
                                       other: nat, t: Instant, newToken: Token)
    requires Inv(s) && !Claimed(Swept(s.claims, Collect(now)), node, source)
    requires RequestClaim(s, source, node, nonce, now, token).1.Ok? && now <= t < now + 30 * SECOND
    ensures var s' := RequestClaim(s, source, node, nonce, now, token).0;
            var again := RequestClaim(s', source, node, nonce, t, newToken).1;
            && again.Ok? && again.value.token == token && again.value.nodeId == node && again.value.netId == source
            && (other != nonce ==> RequestClaim(s', source, node, other, t, newToken).1 == Err(Conflict))
            && RefreshClaim(s', source, node, token, t, newToken).1 == Ok(NodeClaim(node, source, 120, newToken))
  {
    ClaimantOwns(s, source, node, nonce, now, token);
    var s' := RequestClaim(s, source, node, nonce, now, token).0;
    var c := FreshClaim(node, source, nonce, now, token);
    TakenNodeIsAnswered(s', c, nonce, t, newToken);
    TakenNodeIsAnswered(s', c, other, t, newToken);
    ClaimRefreshIsRecorded(s', c, token, t, newToken);
  }

  lemma {:induction false} SecondsLeft(expiration: Instant, now: Instant)
    requires now < expiration <= now + 120 * SECOND
    ensures var secs := WholeSecondsLeft(expiration, now);
            secs * SECOND <= expiration - now < (secs + 1) * SECOND
  {}

  /** A live claim under refresh: the record moves as one lease does, in place. */
  lemma {:induction false} ClaimRefreshIsRecorded(s: RouterState, c: ClaimEntry, req: Token, now: Instant,
                                                  newToken: Token)
    requires Inv(s) && c in s.claims && c.kind.Active?
    requires now < c.kind.lease.expiration <= now + 120 * SECOND
    ensures var (s', r) := RefreshClaim(s, c.scope, c.key, req, now, newToken);
            var lease := c.kind.lease;
            && s' == s.(claims := s'.claims) && |s'.claims| == |s.claims|
            && (forall x: ClaimEntry :: x.key != c.key || x.scope != c.scope ==> (x in s'.claims <==> x in s.claims))
            && (req == lease.token && lease.expiration <= now + 62 * SECOND ==>
                  && r == Ok(NodeClaim(c.key, c.scope, 120, newToken))
                  && c.(kind := Active(Lease(now + 120 * SECOND, newToken, Some(req)))) in s'.claims)
            && (req == lease.token && lease.expiration > now + 62 * SECOND ==> r == Err(ClaimTooSoon) && c in s'.claims)
            && (req != lease.token && lease.previous == Some(req) ==>
                  && c in s'.claims && r.Ok? && r.value.token == lease.token
                  && lease.expiration <= now + r.value.expiresSeconds * SECOND < lease.expiration + SECOND)
            && (req != lease.token && lease.previous != Some(req) ==> r == Err(ClaimBadRequest) && c in s'.claims)
  {
    var i := ClaimIndexOf(s.claims, c);
    RefreshOutcome(c.kind.lease, req, now, newToken);
    var s' := RefreshClaim(s, c.scope, c.key, req, now, newToken).0;
    assert s'.claims == s.claims[i := s'.claims[i]];
    assert s'.claims[i] in s'.claims;
    forall x: ClaimEntry | x.key != c.key || x.scope != c.scope ensures x in s'.claims <==> x in s.claims {
      if x in s'.claims {
        var k :| 0 <= k < |s'.claims| && s'.claims[k] == x;
        assert s.claims[k] == x;
      }
      if x in s.claims {
        var k :| 0 <= k < |s.claims| && s.claims[k] == x;
        assert s'.claims[k] == x;
      }
    }
  }

  /** A frame's sender passes when it has a point-to-point role, or a live claim
      on the very segment the frame came from. */
  lemma {:induction false} ClaimedNodesPass(s: RouterState, net: nat, node: nat, now: Instant)
    requires Inv(s)
    ensures IsNodeClaimed(s, net, node, now) <==>
            node == 1 || node == 2
            || exists c :: c in s.claims && c.key == node && c.scope == net && c.kind.IsActive(now)
  {
    var pos := ScopedIndex(s.claims, node, net);
    assert pos < |s.claims| ==> s.claims[pos] in s.claims;
    forall c | c in s.claims && c.key == node && c.scope == net ensures pos < |s.claims| && s.claims[pos] == c {
      var i := ClaimIndexOf(s.claims, c);
    }
  }
}
