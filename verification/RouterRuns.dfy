/** Whole runs of one router: what holds after any sequence of operations. */
module RouterRuns {
  import opened Wrappers
  import opened Leases
  import opened SeedLeases
  import opened Headers
  import opened Ports
  import opened RouterModel
  import opened RouterInvariant

  datatype InterfaceOp =
    | OpRegister(mtu: nat)
    | OpRegisterPending(mtu: nat)
    | OpDeregister(ident: nat)
    | OpSetState(ident: nat, state: InterfaceState)
    | OpReassign(ident: nat, net: u16)

  datatype SeedOp =
    | OpRequestSeed(source: nat, token: Token)
    | OpRegisterDelegated(source: nat, parent: SeedLease, token: Token)
    | OpCanDelegate(source: nat)
    | OpRefreshSeed(source: nat, net: nat, req: Token, newToken: Token)
    | OpPrepareDelegated(source: nat, net: nat, req: Token)
    | OpCommitDelegated(source: nat, req: Token, newToken: Token, refreshed: SeedLease)

  datatype ReleaseOp =
    | OpPrepareRelease(source: nat, net: nat, req: Token)
    | OpCommitRelease(source: nat, net: nat, req: Token)
    | OpReleaseSeed(source: nat, net: nat, req: Token)

  datatype ClaimOp =
    | OpRequestClaim(source: nat, node: nat, nonce: nat, token: Token)
    | OpRefreshClaim(source: nat, node: nat, req: Token, newToken: Token)

  datatype LookupOp =
    | OpIsTransit(net: nat)
    | OpFind(dst: Address, anyAll: bool)

  datatype Op =
    | Interface(interface: InterfaceOp)
    | Seed(seed: SeedOp)
    | Release(release: ReleaseOp)
    | Claim(claim: ClaimOp)
    | Lookup(lookup: LookupOp)

  datatype Timed = Timed(at: Instant, op: Op)

  function ApplyInterface(s: RouterState, op: InterfaceOp, at: Instant): RouterState {
    match op
    case OpRegister(mtu) => Register(s, mtu, at).0
    case OpRegisterPending(mtu) => RegisterPending(s, mtu).0
    case OpDeregister(ident) => Deregister(s, ident, at).0
    case OpSetState(ident, state) => SetInterfaceState(s, ident, state).0
    case OpReassign(ident, net) => Reassign(s, ident, net).0
  }

  function ApplySeed(s: RouterState, op: SeedOp, at: Instant): RouterState
    requires ParentsDelegable(s)
  {
    match op
    case OpRequestSeed(source, token) => RequestSeed(s, source, at, token).0
    case OpRegisterDelegated(source, parent, token) => RegisterDelegated(s, source, parent, at, token).0
    case OpCanDelegate(source) => CanDelegateSeed(s, source, at).0
    case OpRefreshSeed(source, net, req, newToken) => RefreshSeed(s, source, net, req, at, newToken).0
    case OpPrepareDelegated(source, net, req) => PrepareDelegated(s, source, net, req, at).0
    case OpCommitDelegated(source, req, newToken, p) => CommitDelegated(s, source, req, at, newToken, p).0
  }

  function ApplyRelease(s: RouterState, op: ReleaseOp, at: Instant): RouterState {
    match op
    case OpPrepareRelease(source, net, req) => PrepareRelease(s, source, net, req, at).0
    case OpCommitRelease(source, net, req) => CommitRelease(s, source, net, req, at).0
    case OpReleaseSeed(source, net, req) => ReleaseSeed(s, source, net, req, at).0
  }

  function ApplyClaim(s: RouterState, op: ClaimOp, at: Instant): RouterState {
    match op
    case OpRequestClaim(source, node, nonce, token) => RequestClaim(s, source, node, nonce, at, token).0
    case OpRefreshClaim(source, node, req, newToken) => RefreshClaim(s, source, node, req, at, newToken).0
  }

  function ApplyLookup(s: RouterState, op: LookupOp, at: Instant): RouterState {
    match op
    case OpIsTransit(net) => IsTransit(s, net, at).0
    case OpFind(dst, anyAll) => Find(s, dst, anyAll, None, at, at).0
  }

  function Apply(s: RouterState, t: Timed): RouterState
    requires ParentsDelegable(s)
  {
    match t.op
    case Interface(op) => ApplyInterface(s, op, t.at)
    case Seed(op) => ApplySeed(s, op, t.at)
    case Release(op) => ApplyRelease(s, op, t.at)
    case Claim(op) => ApplyClaim(s, op, t.at)
    case Lookup(op) => ApplyLookup(s, op, t.at)
  }

  lemma {:induction false} InterfaceOpKeepsInv(s: RouterState, op: InterfaceOp, at: Instant)
    requires Inv(s)
    ensures Inv(ApplyInterface(s, op, at))
  {
    match op
    case OpRegister(mtu) => RegisterKeepsInv(s, mtu, at);
    case OpRegisterPending(mtu) => RegisterPendingKeepsInv(s, mtu);
    case OpDeregister(ident) => DeregisterKeepsInv(s, ident, at);
    case OpSetState(ident, state) => SetInterfaceStateKeepsInv(s, ident, state);
    case OpReassign(ident, net) => ReassignKeepsInv(s, ident, net);
  }

  lemma {:induction false} SeedOpKeepsInv(s: RouterState, op: SeedOp, at: Instant)
    requires Inv(s)
    ensures Inv(ApplySeed(s, op, at))
  {
    match op
    case OpRequestSeed(source, token) => RequestSeedKeepsInv(s, source, at, token);
    case OpRegisterDelegated(source, parent, token) => RegisterDelegatedKeepsInv(s, source, parent, at, token);
    case OpCanDelegate(_) => SweepRoutes(s, Collect(at));
    case OpRefreshSeed(source, net, req, newToken) => RefreshSeedKeepsInv(s, source, net, req, at, newToken);
    case OpPrepareDelegated(source, net, req) => PrepareDelegatedKeepsInv(s, source, net, req, at);
    case OpCommitDelegated(source, req, newToken, p) => CommitDelegatedKeepsInv(s, source, req, at, newToken, p);
  }

  lemma {:induction false} ReleaseOpKeepsInv(s: RouterState, op: ReleaseOp, at: Instant)
    requires Inv(s)
    ensures Inv(ApplyRelease(s, op, at))
  {
    match op
    case OpPrepareRelease(source, net, req) => PrepareReleaseKeepsInv(s, source, net, req, at);
    case OpCommitRelease(source, net, req) => CommitReleaseKeepsInv(s, source, net, req, at);
    case OpReleaseSeed(source, net, req) =>
      SweepRoutes(s, Collect(at));
      CommitReleaseKeepsInv(Gc(s, at), source, net, req, at);
  }

  lemma {:induction false} ClaimOpKeepsInv(s: RouterState, op: ClaimOp, at: Instant)
    requires Inv(s)
    ensures Inv(ApplyClaim(s, op, at))
  {
    match op
    case OpRequestClaim(source, node, nonce, token) => RequestClaimKeepsInv(s, source, node, nonce, at, token);
    case OpRefreshClaim(source, node, req, newToken) => RefreshClaimKeepsInv(s, source, node, req, at, newToken);
  }

  lemma {:induction false} LookupOpKeepsInv(s: RouterState, op: LookupOp, at: Instant)
    requires Inv(s)
    ensures Inv(ApplyLookup(s, op, at))
  {
    match op
    case OpIsTransit(net) => IsTransitKeepsInv(s, net, at);
    case OpFind(_, _) => SweepRoutes(s, Collect(at));
  }

  lemma {:induction false} OpKeepsInv(s: RouterState, t: Timed)
    requires Inv(s)
    ensures ParentsDelegable(s)
    ensures Inv(Apply(s, t))
  {
    SweepRoutes(s, Collect(t.at));
    match t.op
    case Interface(op) => InterfaceOpKeepsInv(s, op, t.at);
    case Seed(op) => SeedOpKeepsInv(s, op, t.at);
    case Release(op) => ReleaseOpKeepsInv(s, op, t.at);
    case Claim(op) => ClaimOpKeepsInv(s, op, t.at);
    case Lookup(op) => LookupOpKeepsInv(s, op, t.at);
  }

  ghost predicate InitialRouter(s: RouterState) {
    s.maxSlots <= 255 && s.slots == [] && s.routes == [] && s.claims == []
  }

  /** The state after `ops`; unchanged past a state that is not a router's. */
  ghost function Run(s: RouterState, ops: seq<Timed>): RouterState
    decreases |ops|
  {
    if ops == [] || !ParentsDelegable(s) then s else Run(Apply(s, ops[0]), ops[1..])
  }

  ghost predicate InTimeOrder(ops: seq<Timed>) {
    forall i, j :: 0 <= i < j < |ops| ==> ops[i].at <= ops[j].at
  }

  lemma {:induction false} RunKeepsInv(s: RouterState, ops: seq<Timed>)
    requires Inv(s)
    ensures Inv(Run(s, ops))
    decreases |ops|
  {
    if ops != [] {
      OpKeepsInv(s, ops[0]);
      RunKeepsInv(Apply(s, ops[0]), ops[1..]);
    }
  }

  /** In every reachable state the registry is consistent, so the slot idents
      picked on registration always exist, and only 65534 ids in use stop an
      allocation, which slots and routes too few for that cannot do. */
  lemma {:induction false} ReachableRegistry(s: RouterState, ops: seq<Timed>)
    requires InitialRouter(s)
    ensures var r := Run(s, ops);
            && SlotsInv(r) && RoutesInv(r) && ClaimsInv(r)
            && (|r.slots| < r.maxSlots ==> LowestFreeIdent(r.slots, 0, r.maxSlots) < r.maxSlots)
            && (LowestFreeNet(r, 1).None? <==> forall k :: 1 <= k < NET_ID_END ==> NetIdTaken(r, k))
            && (r.maxSlots + r.maxRoutes + 1 < NET_ID_END - 1 ==> LowestFreeNet(r, 1).Some?)
  {
    RunKeepsInv(s, ops);
    var r := Run(s, ops);
    if |r.slots| < r.maxSlots { FreeIdentExists(r); }
    if r.maxSlots + r.maxRoutes + 1 < NET_ID_END - 1 { FreeNetExists(r); }
  }

  // ------------------------------------------------------------------------
  // Node claims
  // ------------------------------------------------------------------------

  function ClaimAt(s: RouterState, node: nat, net: nat): Option<ClaimEntry> {
    var pos := ScopedIndex(s.claims, node, net);
    if pos == |s.claims| then None else Some(s.claims[pos])
  }

  lemma {:induction false} ClaimIsUnique(claims: seq<ClaimEntry>, c: ClaimEntry)
    requires UniqueScoped(claims) && c in claims
    ensures ScopedIndex(claims, c.key, c.scope) < |claims|
    ensures claims[ScopedIndex(claims, c.key, c.scope)] == c
  {
    var i :| 0 <= i < |claims| && claims[i] == c;
  }

  /** `nonce` owns the node id on the segment at least until `until`. */
  predicate Owns(s: RouterState, node: nat, net: nat, nonce: nat, until: Instant) {
    var c := ClaimAt(s, node, net);
    c.Some? && c.value.extra == nonce && until <= c.value.kind.ReservedUntil()
  }

  /** The operation neither removes nor renumbers the interface of segment `net`. */
  predicate KeepsSegment(s: RouterState, op: Op, net: nat) {
    match op
    case Interface(OpDeregister(ident)) =>
      var pos := SlotByIdent(s.slots, ident);
      pos == |s.slots| || s.slots[pos].netId != net
    case Interface(OpReassign(ident, net')) =>
      var pos := SlotByIdent(s.slots, ident);
      net' == net || pos == |s.slots| || s.slots[pos].netId != net
    case _ => true
  }

  lemma {:induction false} SweepKeepsOwner(s: RouterState, sweep: Sweep<nat>, node: nat, net: nat, c: ClaimEntry,
                                           c': ClaimEntry)
    requires Inv(s) && ClaimAt(s, node, net) == Some(c) && Retained(c, sweep) == Some(c')
    ensures ClaimAt(s.(claims := Swept(s.claims, sweep)), node, net) == Some(c')
  {
    assert c in s.claims;
    SweepKeepsUniqueScoped(s.claims, sweep);
    ClaimIsUnique(Swept(s.claims, sweep), c');
  }

  /** An operation before the reservation ends leaves the owner in place, and the
      reservation no shorter. */
  lemma {:induction false} OpKeepsOwner(s: RouterState, t: Timed, node: nat, net: nat, nonce: nat, until: Instant)
    requires Inv(s) && Owns(s, node, net, nonce, until) && KeepsSegment(s, t.op, net)
    requires t.at < ClaimAt(s, node, net).value.kind.ReservedUntil()
    ensures Owns(Apply(s, t), node, net, nonce, until)
  {
    match t.op
    case Interface(op) => InterfaceOpKeepsOwner(s, op, t.at, node, net, nonce, until);
    case Claim(op) => ClaimOpKeepsOwner(s, op, t.at, node, net, nonce, until);
    case _ => OtherOpsKeepClaims(s, t);
  }

  lemma {:induction false} OtherOpsKeepClaims(s: RouterState, t: Timed)
    requires ParentsDelegable(s) && (t.op.Seed? || t.op.Release? || t.op.Lookup?)
    ensures Apply(s, t).claims == s.claims
  {
    match t.op
    case Seed(op) => assert ApplySeed(s, op, t.at).claims == s.claims;
    case _ =>
  }

  lemma {:induction false} InterfaceOpKeepsOwner(s: RouterState, op: InterfaceOp, at: Instant, node: nat, net: nat,
                                                 nonce: nat, until: Instant)
    requires Inv(s) && Owns(s, node, net, nonce, until) && KeepsSegment(s, Interface(op), net)
    ensures Owns(ApplyInterface(s, op, at), node, net, nonce, until)
  {
    var c := ClaimAt(s, node, net).value;
    match op
    case OpDeregister(ident) =>
      var pos := SlotByIdent(s.slots, ident);
      if pos < |s.slots| { SweepKeepsOwner(s, DropScope(s.slots[pos].netId), node, net, c, c); }
    case OpReassign(ident, net') =>
      var pos := SlotByIdent(s.slots, ident);
      if pos < |s.slots| && s.slots[pos].netId != net {
        SweepKeepsOwner(s, DropScope(s.slots[pos].netId), node, net, c, c);
      }
    case _ =>
  }

  lemma {:induction false} ClaimOpKeepsOwner(s: RouterState, op: ClaimOp, at: Instant, node: nat, net: nat,
                                             nonce: nat, until: Instant)
    requires Inv(s) && Owns(s, node, net, nonce, until)
    requires at < ClaimAt(s, node, net).value.kind.ReservedUntil()
    ensures Owns(ApplyClaim(s, op, at), node, net, nonce, until)
  {
    var c := ClaimAt(s, node, net).value;
    match op
    case OpRequestClaim(source, node', nonce', token) =>
      if ApplyClaim(s, op, at) != s {
        SweepKeepsOwner(s, Collect(at), node, net, c, Retained(c, Collect(at)).value);
        AppendKeepsOwner(Swept(s.claims, Collect(at)), ApplyClaim(s, op, at).claims, node, net);
      }
    case OpRefreshClaim(source, node', req, newToken) =>
      RefreshKeepsOwner(s, source, node', req, at, newToken, node, net);
  }

  lemma {:induction false} AppendKeepsOwner(a: seq<ClaimEntry>, b: seq<ClaimEntry>, node: nat, net: nat)
    requires a <= b && ScopedIndex(a, node, net) < |a|
    ensures ScopedIndex(b, node, net) == ScopedIndex(a, node, net)
  {
    var i, j := ScopedIndex(a, node, net), ScopedIndex(b, node, net);
    assert b[i] == a[i];
    assert forall k :: 0 <= k < i ==> b[k] == a[k];
  }

  lemma {:induction false} RefreshKeepsOwner(s: RouterState, source: nat, node': nat, req: Token, now: Instant,
                                             newToken: Token, node: nat, net: nat)
    requires ClaimAt(s, node, net).Some?
    ensures var s' := RefreshClaim(s, source, node', req, now, newToken).0;
            && ClaimAt(s', node, net).Some?
            && ClaimAt(s', node, net).value.extra == ClaimAt(s, node, net).value.extra
            && ClaimAt(s, node, net).value.kind.ReservedUntil() <= ClaimAt(s', node, net).value.kind.ReservedUntil()
  {
    var s' := RefreshClaim(s, source, node', req, now, newToken).0;
    var i, j := ScopedIndex(s.claims, node, net), ScopedIndex(s'.claims, node, net);
    assert s'.claims[i].key == node && s'.claims[i].scope == net;
    assert i == j;
  }

  /** No operation of the run removes or renumbers segment `net`. */
  ghost predicate RunKeepsSegment(s: RouterState, ops: seq<Timed>, net: nat)
    decreases |ops|
  {
    ops == [] || !ParentsDelegable(s)
    || (KeepsSegment(s, ops[0].op, net) && RunKeepsSegment(Apply(s, ops[0]), ops[1..], net))
  }

  /** Over any run that keeps the segment, an owner holds its node id until an
      operation comes at least 30 s after the expiration it has then; the
      reservation never shortens on the way. */
  lemma {:induction false} OwnershipIsExclusive(s: RouterState, ops: seq<Timed>, node: nat, net: nat, nonce: nat,
                                                until: Instant)
    requires Inv(s) && Owns(s, node, net, nonce, until) && RunKeepsSegment(s, ops, net)
    ensures Owns(Run(s, ops), node, net, nonce, until)
            || exists k :: 0 <= k < |ops| && Owns(Run(s, ops[..k]), node, net, nonce, until)
                           && ClaimAt(Run(s, ops[..k]), node, net).value.kind.ReservedUntil() <= ops[k].at
    decreases |ops|
  {
    if ops != [] {
      OpKeepsInv(s, ops[0]);
      assert ops[..0] == [];
      if ops[0].at < ClaimAt(s, node, net).value.kind.ReservedUntil() {
        var s1, rest := Apply(s, ops[0]), ops[1..];
        OpKeepsOwner(s, ops[0], node, net, nonce, until);
        OwnershipIsExclusive(s1, rest, node, net, nonce, until);
        if !Owns(Run(s, ops), node, net, nonce, until) {
          var k :| 0 <= k < |rest| && Owns(Run(s1, rest[..k]), node, net, nonce, until)
                   && ClaimAt(Run(s1, rest[..k]), node, net).value.kind.ReservedUntil() <= rest[k].at;
          assert ops[..k + 1][0] == ops[0] && ops[..k + 1][1..] == rest[..k];
          assert Run(s, ops[..k + 1]) == Run(s1, rest[..k]);
          assert ops[k + 1] == rest[k];
        }
      } else {
        assert Run(s, ops[..0]) == s;
      }
    }
  }

  /** While the node id is reserved, a claim for it succeeds exactly for the same
      nonce on a lease that has not expired; it then returns the token already
      granted and takes no further entry. */
  lemma {:induction false} ClaimWhileReserved(s: RouterState, node: nat, net: nat, nonce: nat, now: Instant,
                                              token: Token)
    requires Inv(s) && ClaimAt(s, node, net).Some?
    requires now < ClaimAt(s, node, net).value.kind.ReservedUntil()
    ensures var c := ClaimAt(s, node, net).value;
            var (s', answer) := RequestClaim(s, net, node, nonce, now, token);
            && s'.claims == Swept(s.claims, Collect(now))
            && (answer.Ok? <==> c.kind.IsActive(now) && c.extra == nonce)
            && (answer.Ok? ==> answer.value.token == c.kind.lease.token)
            && (answer.Err? ==> answer.error == Conflict)
  {
    var c := ClaimAt(s, node, net).value;
    assert c in s.claims && ClaimInv(s.slots, c);
    SweepKeepsOwner(s, Collect(now), node, net, c, Retained(c, Collect(now)).value);
  }
}
