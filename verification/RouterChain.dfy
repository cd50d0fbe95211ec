/** The nodes of a delegation chain are routers: each step of a node is what a router does to its record. */
module RouterChain {
  import opened Wrappers
  import opened Leases
  import opened SeedLeases
  import opened Ports
  import opened RouterModel
  import opened RouterInvariant
  import opened RouterLaws
  import opened LeaseLaws
  import opened RefreshLaws
  import C = LeaseChain

  /** The router's one record for the net is the node's, for the segment of its child. */
  ghost predicate Mirrors(s: RouterState, source: nat, n: C.Node, net: nat) {
    match n.entry
    case None => !Leased(s, net)
    case Some(kind) => exists via: nat :: RecordOf(via, source, n, net, kind) in s.routes
  }

  function RecordOf(via: nat, source: nat, n: C.Node, net: nat, kind: LeaseKind): RouteEntry {
    LeaseEntry(net, source, SeedRoute(via, n.held), kind)
  }

  /** `c'` has exactly one reply more than `c`, over `link` to `port`. */
  ghost predicate Answered(c: C.State, c': C.State, link: nat, port: nat, a: SeedNetAssignment) {
    exists index: int, rounding: nat ::
      c'.replies == c.replies + {C.Reply(link, port, a, index, c.now, rounding)}
  }

  lemma {:induction false} RecordMoves(s: RouterState, s': RouterState, i: nat, e: RouteEntry)
    requires i < |s.routes| && s'.routes == s.routes[i := e]
    ensures e in s'.routes
  {
    assert s'.routes[i] == e;
  }

  /** A root grants: its record and its answer are those of a chain that begins. */
  lemma {:induction false} GrantBegins(s: RouterState, source: nat, now: Instant, token: Token)
    requires Inv(s) && RequestSeed(s, source, now, token).1.Ok?
    ensures var (s', r) := RequestSeed(s, source, now, token);
            && Mirrors(s', source, C.Granted(now, token), r.value.netId)
            && r.value == RootAssignment(r.value.netId, token, INITIAL_LEASE_SECS)
  {
    SeedIsGranted(s, source, now, token);
    var (s', r) := RequestSeed(s, source, now, token);
    var x :| x in s.slots && x.netId == source
             && s'.routes == Swept(s.routes, Collect(now))
                + [LeaseEntry(r.value.netId, source, SeedRoute(x.ident, None),
                              Active(Lease(now + 30 * SECOND, token, None)))];
    var n := C.Granted(now, token);
    assert RecordOf(x.ident, source, n, r.value.netId, n.entry.value) == s'.routes[|s'.routes| - 1];
  }

  /** A bridge registers what it was offered: it becomes the next node, and its
      answer is the next offer. */
  lemma {:induction false} DelegationJoins(s: RouterState, source: nat, c: C.State, token: Token)
    requires Inv(s) && C.Enabled(c, C.JoinBridge(token))
    requires RegisterDelegated(s, source, Held(c.offer.value.assignment), c.now, token).1.Ok?
    ensures var lease := Held(c.offer.value.assignment);
            var (s', r) := RegisterDelegated(s, source, lease, c.now, token);
            var c' := C.ApplyJoinBridge(c, token);
            && Mirrors(s', source, c'.nodes[|c'.nodes| - 1], lease.netId)
            && c'.offer == Some(C.Offer(r.value, c.now))
  {
    var lease := Held(c.offer.value.assignment);
    DelegationIsRegistered(s, source, lease, c.now, token);
    var s' := RegisterDelegated(s, source, lease, c.now, token).0;
    var x :| x in s.slots && x.netId == source && DelegatedEntry(x, source, lease, c.now, token) in s'.routes;
    NewNode(c, x, source, token);
    MirroredBy(s', source, C.ApplyJoinBridge(c, token).nodes[|c.nodes|], lease.netId, x.ident);
  }

  lemma {:induction false} MirroredBy(s: RouterState, source: nat, n: C.Node, net: nat, via: nat)
    requires n.entry.Some? && RecordOf(via, source, n, net, n.entry.value) in s.routes
    ensures Mirrors(s, source, n, net)
  {}

  lemma {:induction false} NewNode(c: C.State, x: Slot, source: nat, token: Token)
    requires C.Enabled(c, C.JoinBridge(token))
    ensures var n, lease := C.ApplyJoinBridge(c, token).nodes[|c.nodes|], Held(c.offer.value.assignment);
            && n.entry.Some?
            && RecordOf(x.ident, source, n, lease.netId, n.entry.value)
               == DelegatedEntry(x, source, lease, c.now, token)
  {}

  /** Collection. */
  lemma {:induction false} CollectionMirrors(s: RouterState, source: nat, n: C.Node, net: nat, now: Instant)
    requires Inv(s) && Mirrors(s, source, n, net)
    ensures Inv(Gc(s, now)) && Mirrors(Gc(s, now), source, n.(entry := C.Collected(n.entry, now)), net)
  {
    SweepRoutes(s, Collect(now));
    match n.entry {
      case None =>
        forall x | x in Gc(s, now).routes ensures x.key != net {
          var x0: RouteEntry :| x0 in s.routes && Retained(x0, Collect(now)) == Some(x);
        }
      case Some(kind) =>
        var via: nat :| RecordOf(via, source, n, net, kind) in s.routes;
        var e := RecordOf(via, source, n, net, kind);
        CollectedRecord(s, e, now);
        if kind.GcRetain(now).Some? {
          var n' := n.(entry := C.Collected(n.entry, now));
          assert RecordOf(via, source, n', net, n'.entry.value) == Retained(e, Collect(now)).value;
        }
    }
  }

  /** Serving a refresh at the root. */
  lemma {:induction false} RootServesAsRouter(s: RouterState, source: nat, c: C.State, r: C.Request, newToken: Token)
    requires Inv(s) && C.Enabled(c, C.ServeRoot(r, newToken)) && c.nodes[0].entry.Some?
    requires Mirrors(s, source, c.nodes[0], c.netId)
    requires c.nodes[0].entry.value.Active? ==> c.nodes[0].entry.value.lease.token in c.nodes[0].issued
    ensures var (s', a) := RefreshSeed(s, source, c.netId, r.token, c.now, newToken);
            var c' := C.ApplyServeRoot(c, r, newToken);
            && Mirrors(s', source, c'.nodes[0], c.netId)
            && (a.Ok? ==> Answered(c, c', 0, r.port, a.value))
            && (a.Err? ==> c'.replies == c.replies)
  {
    var n := c.nodes[0];
    var kind := n.entry.value;
    var via: nat :| RecordOf(via, source, n, c.netId, kind) in s.routes;
    var i := IndexOf(s, RecordOf(via, source, n, c.netId, kind));
    var (s', a) := RefreshSeed(s, source, c.netId, r.token, c.now, newToken);
    var c' := C.ApplyServeRoot(c, r, newToken);
    var n' := c'.nodes[0];
    RootKindMoves(c, r, newToken);
    RecordMoves(s, s', i, RecordOf(via, source, n', c.netId, n'.entry.value));
    if a.Ok? {
      assert c'.replies == c.replies + {C.Reply(0, r.port, a.value, n'.Gen(), c.now,
                                                C.Rounding(a.value.expiresSeconds, c.now, n'.Ends()))};
    }
  }

  lemma {:induction false} RootKindMoves(c: C.State, r: C.Request, newToken: Token)
    requires C.Enabled(c, C.ServeRoot(r, newToken)) && c.nodes[0].entry.Some?
    ensures var n, n' := c.nodes[0], C.ApplyServeRoot(c, r, newToken).nodes[0];
            && n'.held == n.held
            && n'.entry == Some(RootRefresh(c.netId, n.entry.value, r.token, c.now, newToken).0)
  {}

  /** The first half of a refresh at a bridge: a replay is answered, a current
      token is forwarded with the lease the node holds. */
  lemma {:induction false} BridgePreparesAsRouter(s: RouterState, source: nat, c: C.State, r: C.Request, port: nat)
    requires Inv(s) && C.Enabled(c, C.ServeBridge(r, port))
    requires Mirrors(s, source, c.nodes[r.link], c.netId)
    ensures ParentsDelegable(s)
    ensures var (s', a) := PrepareDelegated(s, source, c.netId, r.token, c.now);
            var n := c.nodes[r.link];
            var c' := C.ApplyServeBridge(c, r, port);
            && Mirrors(s', source, c'.nodes[r.link], c.netId)
            && (a.Ok? && a.value.ReplayAnswer? ==> Answered(c, c', r.link, r.port, a.value.assignment))
            && (a.Ok? && a.value.Forward? ==>
                  && n.held == Some(a.value.parent)
                  && c'.nodes[r.link].call == Some(C.Call(port, c.now, Some(C.Child(r.port, r.token))))
                  && c'.requests == c.requests
                                    + {C.Request(r.link - 1, port, a.value.parent.token, n.Origin(), c.now)})
            && (a.Err? ==> c'.replies == c.replies && c'.nodes[r.link].call.None?)
  {
    CollectionMirrors(s, source, c.nodes[r.link], c.netId, c.now);
    GcKeepsParents(s, c.now);
    var n := c.nodes[r.link];
    var collected := Gc(s, c.now);
    match C.Collected(n.entry, c.now) {
      case None => LookupsFind(collected, c.netId);
      case Some(kind) =>
        PreparedRecordMoves(collected, source, c, r, port, kind);
        CallsAbove(c, r, port, kind);
    }
  }

  lemma {:induction false} CallsAbove(c: C.State, r: C.Request, port: nat, kind: LeaseKind)
    requires C.Enabled(c, C.ServeBridge(r, port)) && C.Collected(c.nodes[r.link].entry, c.now) == Some(kind)
    ensures var n := c.nodes[r.link];
            var a := PrepareRefresh(kind, n.held, r.token, c.now).1;
            var c' := C.ApplyServeBridge(c, r, port);
            && (a.Ok? && a.value.Forward? ==>
                  && c'.nodes[r.link].call == Some(C.Call(port, c.now, Some(C.Child(r.port, r.token))))
                  && c'.requests == c.requests
                                    + {C.Request(r.link - 1, port, n.held.value.token, n.Origin(), c.now)})
            && (a.Err? ==> c'.replies == c.replies && c'.nodes[r.link].call.None?)
  {}

  lemma {:induction false} PreparedRecordMoves(s: RouterState, source: nat, c: C.State, r: C.Request, port: nat,
                                               kind: LeaseKind)
    requires Inv(s) && C.Enabled(c, C.ServeBridge(r, port))
    requires C.Collected(c.nodes[r.link].entry, c.now) == Some(kind)
    requires Mirrors(s, source, c.nodes[r.link].(entry := Some(kind)), c.netId)
    ensures var n := c.nodes[r.link];
            var pos := KeyIndex(s.routes, c.netId);
            && pos < |s.routes| && s.routes[pos].scope == source
            && s.routes[pos].kind == kind && s.routes[pos].extra.parent == n.held
            && var (kind', a) := PrepareRefresh(kind, n.held, r.token, c.now);
               var c' := C.ApplyServeBridge(c, r, port);
               var s' := s.(routes := s.routes[pos := s.routes[pos].(kind := kind')]);
               && Mirrors(s', source, c'.nodes[r.link], c.netId)
               && (a.Ok? && a.value.ReplayAnswer? ==> Answered(c, c', r.link, r.port, a.value.assignment))
               && (a.Ok? && a.value.Forward? ==> n.held == Some(a.value.parent))
  {
    var n := c.nodes[r.link];
    var via: nat :| RecordOf(via, source, n.(entry := Some(kind)), c.netId, kind) in s.routes;
    var e := RecordOf(via, source, n, c.netId, kind);
    var pos := IndexOf(s, e);
    var (kind', a) := PrepareRefresh(kind, n.held, r.token, c.now);
    var c' := C.ApplyServeBridge(c, r, port);
    var n' := c'.nodes[r.link];
    RecordMoves(s, s.(routes := s.routes[pos := e.(kind := kind')]), pos,
                RecordOf(via, source, n', c.netId, n'.entry.value));
    if a.Ok? && a.value.ReplayAnswer? {
      assert c'.replies == c.replies + {C.Reply(r.link, r.port, a.value.assignment, n.Gen(), c.now,
                                                C.Rounding(a.value.assignment.expiresSeconds, c.now, n.Ends()))};
    }
  }

  /** The second half: the node takes the answer that came from above, and the
      child hears what the router answers. */
  lemma {:induction false} BridgeCommitsAsRouter(s: RouterState, source: nat, c: C.State, p: C.Reply, newToken: Token)
    requires Inv(s) && C.Commits(c, p, newToken) && p.assignment.netId == c.netId
    requires Mirrors(s, source, c.nodes[p.link + 1], c.netId)
    ensures var i := p.link + 1;
            var child := c.nodes[i].call.value.child.value;
            var (s', a) := CommitDelegated(s, source, child.token, c.now, newToken, Held(p.assignment));
            var c' := C.ApplyCommit(c, p, newToken);
            && Mirrors(s', source, c'.nodes[i], c.netId)
            && (a.Ok? ==> Answered(c, c', i, child.port, a.value) && c'.nodes[i].held == Some(Held(p.assignment)))
            && (a.Err? ==> c'.replies == c.replies && c'.nodes[i].held == c.nodes[i].held)
  {
    var i := p.link + 1;
    var n := c.nodes[i];
    var child := n.call.value.child.value;
    match n.entry {
      case None => LookupsFind(s, c.netId);
        assert ScopedIndex(s.routes, c.netId, source) == |s.routes| by {
          assert forall k :: 0 <= k < |s.routes| ==> s.routes[k] in s.routes;
        }
      case Some(kind) =>
        var via: nat :| RecordOf(via, source, n, c.netId, kind) in s.routes;
        var e := RecordOf(via, source, n, c.netId, kind);
        var pos := IndexOf(s, e);
        if CanDelegate(Held(p.assignment)) {
          CommittedRecordMoves(s, source, c, p, newToken, via, pos);
        } else {
          assert RecordOf(via, source, C.ApplyCommit(c, p, newToken).nodes[i], c.netId, kind) == e;
        }
    }
  }

  lemma {:induction false} CommittedRecordMoves(s: RouterState, source: nat, c: C.State, p: C.Reply, newToken: Token,
                                                via: nat, pos: nat)
    requires C.Commits(c, p, newToken) && p.assignment.netId == c.netId && CanDelegate(Held(p.assignment))
    requires c.nodes[p.link + 1].entry.Some? && pos < |s.routes|
    requires var n := c.nodes[p.link + 1]; s.routes[pos] == RecordOf(via, source, n, c.netId, n.entry.value)
    requires ScopedIndex(s.routes, c.netId, source) == pos
    ensures var i := p.link + 1;
            var child := c.nodes[i].call.value.child.value;
            var (s', a) := CommitDelegated(s, source, child.token, c.now, newToken, Held(p.assignment));
            var c' := C.ApplyCommit(c, p, newToken);
            && Mirrors(s', source, c'.nodes[i], c.netId)
            && (a.Ok? ==> Answered(c, c', i, child.port, a.value) && c'.nodes[i].held == Some(Held(p.assignment)))
            && (a.Err? ==> c'.replies == c.replies && c'.nodes[i].held == c.nodes[i].held)
  {
    var i := p.link + 1;
    var n := c.nodes[i];
    var child := n.call.value.child.value;
    var (s', a) := CommitDelegated(s, source, child.token, c.now, newToken, Held(p.assignment));
    var c' := C.ApplyCommit(c, p, newToken);
    var n' := c'.nodes[i];
    RecordMoves(s, s', pos, RecordOf(via, source, n', c.netId, n'.entry.value));
    if a.Ok? {
      assert c'.replies == c.replies + {C.Reply(i, child.port, a.value, n'.Gen(), c.now, 0)};
    }
  }

  lemma {:induction false} UnpluggedNode(c: C.State, i: nat)
    requires C.Enabled(c, C.Unplug(i))
    ensures var n, n' := c.nodes[i], C.Apply(c, C.Unplug(i)).nodes[i];
            && n'.held == n.held
            && n'.entry == if n.entry.None? then None else Some(Tombstone(c.now + 30 * SECOND))
  {}

  /** Losing the interface the child is on. */
  lemma {:induction false} UnplugMirrors(s: RouterState, source: nat, c: C.State, i: nat, x: Slot)
    requires Inv(s) && c.nodes != [] && C.Enabled(c, C.Unplug(i)) && x in s.slots
    requires Mirrors(s, source, c.nodes[i], c.netId)
    requires forall e :: e in s.routes && e.key == c.netId ==> e.extra.via == x.ident
    ensures Mirrors(Deregister(s, x.ident, c.now).0, source, C.Apply(c, C.Unplug(i)).nodes[i], c.netId)
  {
    DeregisteredSlotIsGone(s, x.ident, c.now, x);
    var s' := Deregister(s, x.ident, c.now).0;
    var n, n' := c.nodes[i], C.Apply(c, C.Unplug(i)).nodes[i];
    UnpluggedNode(c, i);
    match n.entry {
      case None =>
        forall e | e in s'.routes ensures e.key != c.netId {
          var k :| 0 <= k < |s'.routes| && s'.routes[k] == e;
          assert s.routes[k] in s.routes;
        }
      case Some(kind) =>
        var via: nat :| RecordOf(via, source, n, c.netId, kind) in s.routes;
        var k :| 0 <= k < |s.routes| && s.routes[k] == RecordOf(via, source, n, c.netId, kind);
        assert s.routes[k] in s.routes;
        assert s'.routes[k] == RecordOf(via, source, n', c.netId, n'.entry.value);
        MirroredBy(s', source, n', c.netId, via);
    }
  }
}
