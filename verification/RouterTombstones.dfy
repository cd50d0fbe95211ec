/** How long an id stays reserved after its route is gone, over whole runs of a router. */
module RouterTombstones {
  import opened Wrappers
  import opened Leases
  import opened SeedLeases
  import opened Headers
  import opened Ports
  import opened RouterModel
  import opened RouterInvariant
  import opened RouterRuns

  const GRACE: nat := TOMBSTONE_SECS * SECOND

  /** `e` is the tombstone `e0`, its grace unchanged or anchored anew to `at`. */
  predicate StillDown(e0: RouteEntry, e: RouteEntry, at: Instant) {
    && e.key == e0.key && e.kind.Tombstone? && e0.kind.Tombstone?
    && (e.kind.clearTime == e0.kind.clearTime || e.kind.clearTime == at + GRACE)
  }

  /** A tombstone has at most the whole grace left, or is an old one. */
  ghost predicate OldOrGraced(a: seq<RouteEntry>, e: RouteEntry, at: Instant) {
    e.kind.Tombstone? ==> e.kind.clearTime <= at + GRACE || exists e0 :: e0 in a && e0.kind == e.kind
  }

  /** A tombstone whose grace is not over is still down, unless its key is `but`. */
  ghost predicate Stays(b: seq<RouteEntry>, e0: RouteEntry, at: Instant, but: Option<nat>) {
    e0.kind.Tombstone? && at < e0.kind.clearTime && but != Some(e0.key) ==> exists e :: e in b && StillDown(e0, e, at)
  }

  /** What becomes of records from `a` to `b` at one instant. */
  ghost predicate Ages(a: seq<RouteEntry>, b: seq<RouteEntry>, at: Instant, but: Option<nat>) {
    && (forall e {:trigger OldOrGraced(a, e, at)} :: e in b ==> OldOrGraced(a, e, at))
    && (forall e0 {:trigger Stays(b, e0, at, but)} :: e0 in a ==> Stays(b, e0, at, but))
  }

  lemma {:induction false} AgesTwice(a: seq<RouteEntry>, b: seq<RouteEntry>, c: seq<RouteEntry>, at: Instant,
                                     but: Option<nat>)
    requires Ages(a, b, at, but) && Ages(b, c, at, but)
    ensures Ages(a, c, at, but)
  {
    forall e | e in c ensures OldOrGraced(a, e, at) {
      assert OldOrGraced(b, e, at);
      if e.kind.Tombstone? && e.kind.clearTime > at + GRACE {
        var e1 :| e1 in b && e1.kind == e.kind;
        assert OldOrGraced(a, e1, at);
      }
    }
    forall e0 | e0 in a ensures Stays(c, e0, at, but) {
      assert Stays(b, e0, at, but);
      if e0.kind.Tombstone? && at < e0.kind.clearTime && but != Some(e0.key) {
        var e1 :| e1 in b && StillDown(e0, e1, at);
        assert Stays(c, e1, at, but);
        var e :| e in c && StillDown(e1, e, at);
        assert StillDown(e0, e, at);
      }
    }
  }

  lemma {:induction false} AgesBut(a: seq<RouteEntry>, b: seq<RouteEntry>, at: Instant, but: Option<nat>)
    requires Ages(a, b, at, None)
    ensures Ages(a, b, at, but)
  {
    forall e0 | e0 in a ensures Stays(b, e0, at, but) { assert Stays(b, e0, at, None); }
  }

  /** One record rewritten in place, or left as it was. */
  predicate Rewritten(e0: RouteEntry, e: RouteEntry, at: Instant) {
    && e.key == e0.key
    && (e0.kind.Tombstone? ==> StillDown(e0, e, at))
    && (e0.kind.Active? && e.kind.Tombstone? ==> e.kind.clearTime <= at + GRACE)
  }

  lemma {:induction false} AgesInPlace(a: seq<RouteEntry>, b: seq<RouteEntry>, at: Instant)
    requires |a| == |b| && forall k :: 0 <= k < |a| ==> a[k] == b[k] || Rewritten(a[k], b[k], at)
    ensures Ages(a, b, at, None)
  {
    forall e | e in b ensures OldOrGraced(a, e, at) {
      var k :| 0 <= k < |b| && b[k] == e;
      assert a[k] in a;
    }
    forall e0 | e0 in a ensures Stays(b, e0, at, None) {
      var k :| 0 <= k < |a| && a[k] == e0;
      assert e0.kind.Tombstone? ==> b[k] in b && StillDown(e0, b[k], at);
    }
  }

  lemma {:induction false} AgesCollected(a: seq<RouteEntry>, at: Instant)
    ensures Ages(a, Swept(a, Collect(at)), at, None)
  {
    var b := Swept(a, Collect(at));
    forall e | e in b ensures OldOrGraced(a, e, at) {
      var e0 :| e0 in a && Retained(e0, Collect(at)) == Some(e);
    }
    forall e0 | e0 in a ensures Stays(b, e0, at, None) {
      if e0.kind.Tombstone? && at < e0.kind.clearTime {
        assert Retained(e0, Collect(at)).value in b && StillDown(e0, e0, at);
      }
    }
  }

  /** Removing live records, or those of one key, takes no other tombstone. */
  lemma {:induction false} AgesDropped(a: seq<RouteEntry>, sweep: Sweep<nat>, at: Instant, but: Option<nat>)
    requires !sweep.Collect?
    requires forall e :: e in a && e.kind.Tombstone? && Retained(e, sweep).None? ==> but == Some(e.key)
    ensures Ages(a, Swept(a, sweep), at, but)
  {
    var b := Swept(a, sweep);
    forall e | e in b ensures OldOrGraced(a, e, at) {
      var e0 :| e0 in a && Retained(e0, sweep) == Some(e);
    }
    forall e0 | e0 in a ensures Stays(b, e0, at, but) {
      if e0.kind.Tombstone? && but != Some(e0.key) {
        assert Retained(e0, sweep).value in b && StillDown(e0, e0, at);
      }
    }
  }

  lemma {:induction false} AgesGranted(a: seq<RouteEntry>, e: RouteEntry, at: Instant)
    requires e.kind.Active?
    ensures Ages(a, a + [e], at, None)
  {
    forall x | x in a + [e] ensures OldOrGraced(a, x, at) {}
    forall e0 | e0 in a ensures Stays(a + [e], e0, at, None) {
      assert e0.kind.Tombstone? ==> e0 in a + [e] && StillDown(e0, e0, at);
    }
  }

  lemma {:induction false} AgesNot(a: seq<RouteEntry>, at: Instant)
    ensures Ages(a, a, at, None)
  {
    AgesInPlace(a, a, at);
  }

  // ------------------------------------------------------------------------
  // Operation by operation
  // ------------------------------------------------------------------------

  lemma {:induction false} InterfaceOpAges(s: RouterState, op: InterfaceOp, at: Instant)
    ensures Ages(s.routes, ApplyInterface(s, op, at).routes, at, None)
  {
    match op
    case OpDeregister(ident) => AgesInPlace(s.routes, Deregister(s, ident, at).0.routes, at);
    case OpRegister(mtu) => RegisterAges(s, mtu, at);
    case _ => AgesNot(s.routes, at);
  }

  lemma {:induction false} RegisterAges(s: RouterState, mtu: nat, at: Instant)
    ensures Ages(s.routes, Register(s, mtu, at).0.routes, at, None)
  {
    var after := Register(s, mtu, at).0.routes;
    if s.upstream.Some? {
      AgesNot(s.routes, at);
    } else {
      assert after == Swept(s.routes, Collect(at));
      AgesCollected(s.routes, at);
    }
  }

  lemma {:induction false} GrantAges(s: RouterState, source: nat, at: Instant, token: Token)
    ensures Ages(s.routes, RequestSeed(s, source, at, token).0.routes, at, None)
  {
    var swept := Gc(s, at).routes;
    var (s', answer) := RequestSeed(s, source, at, token);
    if answer.Ok? {
      var e := s'.routes[|swept|];
      assert s'.routes == swept + [e];
      AgesThenGrants(s.routes, swept, e, at);
    } else if s'.routes == s.routes {
      AgesNot(s.routes, at);
    } else {
      assert s'.routes == swept;
      AgesCollected(s.routes, at);
    }
  }

  lemma {:induction false} AgesThenGrants(a: seq<RouteEntry>, swept: seq<RouteEntry>, e: RouteEntry, at: Instant)
    requires swept == Swept(a, Collect(at)) && e.kind.Active?
    ensures Ages(a, swept + [e], at, None)
  {
    AgesCollected(a, at);
    AgesGranted(swept, e, at);
    AgesTwice(a, swept, swept + [e], at, None);
  }

  lemma {:induction false} DelegationAges(s: RouterState, source: nat, parent: SeedLease, at: Instant, token: Token)
    ensures Ages(s.routes, RegisterDelegated(s, source, parent, at, token).0.routes, at, Some(parent.netId))
  {
    var but := Some(parent.netId);
    var swept := Gc(s, at).routes;
    var freed := Swept(swept, DropKey(parent.netId));
    var after := RegisterDelegated(s, source, parent, at, token).0.routes;
    AgesCollected(s.routes, at);
    AgesBut(s.routes, swept, at, but);
    AgesDropped(swept, DropKey(parent.netId), at, but);
    AgesTwice(s.routes, swept, freed, at, but);
    if RegisterDelegated(s, source, parent, at, token).1.Ok? {
      var e := after[|freed|];
      AgesGranted(freed, e, at);
      AgesBut(freed, freed + [e], at, but);
      assert after == freed + [e];
      AgesTwice(s.routes, freed, after, at, but);
    }
  }

  lemma {:induction false} SeedOpAges(s: RouterState, op: SeedOp, at: Instant)
    requires ParentsDelegable(s) && !op.OpRegisterDelegated?
    ensures Ages(s.routes, ApplySeed(s, op, at).routes, at, None)
  {
    match op
    case OpRequestSeed(source, token) => GrantAges(s, source, at, token);
    case OpCanDelegate(_) => AgesCollected(s.routes, at);
    case OpPrepareDelegated(source, net, req) =>
      var swept := Gc(s, at).routes;
      AgesCollected(s.routes, at);
      AgesInPlace(swept, PrepareDelegated(s, source, net, req, at).0.routes, at);
      AgesTwice(s.routes, swept, PrepareDelegated(s, source, net, req, at).0.routes, at, None);
    case OpRefreshSeed(source, net, req, newToken) =>
      AgesInPlace(s.routes, RefreshSeed(s, source, net, req, at, newToken).0.routes, at);
    case OpCommitDelegated(source, req, newToken, p) =>
      AgesInPlace(s.routes, CommitDelegated(s, source, req, at, newToken, p).0.routes, at);
    case OpRegisterDelegated(_, _, _) =>
  }

  /** A release takes the one record of the key, which is live. */
  lemma {:induction false} CommitReleaseAges(s: RouterState, source: nat, net: nat, req: Token, at: Instant)
    requires Inv(s)
    ensures Ages(s.routes, CommitRelease(s, source, net, req, at).0.routes, at, None)
  {
    var (checked, pos) := CheckRelease(s, source, net, req, at);
    AgesInPlace(s.routes, checked.routes, at);
    if pos.Ok? {
      CheckReleaseKeepsInv(s, source, net, req, at);
      var live := checked.routes[pos.value];
      forall e | e in checked.routes && e.kind.Tombstone? ensures Retained(e, DropExact(net, source)).Some? {
        var k :| 0 <= k < |checked.routes| && checked.routes[k] == e;
        assert live.kind.Active? && live.key == net;
      }
      AgesDropped(checked.routes, DropExact(net, source), at, None);
      AgesTwice(s.routes, checked.routes, CommitRelease(s, source, net, req, at).0.routes, at, None);
    }
  }

  lemma {:induction false} ReleaseOpAges(s: RouterState, op: ReleaseOp, at: Instant)
    requires Inv(s)
    ensures Ages(s.routes, ApplyRelease(s, op, at).routes, at, None)
  {
    match op
    case OpPrepareRelease(source, net, req) => PrepareReleaseAges(s, source, net, req, at);
    case OpReleaseSeed(source, net, req) => ReleaseSeedAges(s, source, net, req, at);
    case OpCommitRelease(source, net, req) => CommitReleaseAges(s, source, net, req, at);
  }

  lemma {:induction false} PrepareReleaseAges(s: RouterState, source: nat, net: nat, req: Token, at: Instant)
    ensures Ages(s.routes, PrepareRelease(s, source, net, req, at).0.routes, at, None)
  {
    var swept, after := Gc(s, at).routes, PrepareRelease(s, source, net, req, at).0.routes;
    AgesCollected(s.routes, at);
    AgesInPlace(swept, after, at);
    AgesTwice(s.routes, swept, after, at, None);
  }

  lemma {:induction false} ReleaseSeedAges(s: RouterState, source: nat, net: nat, req: Token, at: Instant)
    requires Inv(s)
    ensures Ages(s.routes, ReleaseSeed(s, source, net, req, at).0.routes, at, None)
  {
    SweepRoutes(s, Collect(at));
    CommitReleaseAges(Gc(s, at), source, net, req, at);
    AgesCollected(s.routes, at);
    AgesTwice(s.routes, Gc(s, at).routes, ReleaseSeed(s, source, net, req, at).0.routes, at, None);
  }

  lemma {:induction false} TransitAges(s: RouterState, net: nat, at: Instant)
    ensures Ages(s.routes, IsTransit(s, net, at).0.routes, at, None)
  {
    var a, b := s.routes, IsTransit(s, net, at).0.routes;
    var pos := KeyIndex(a, net);
    if |a| == |b| {
      AgesInPlace(a, b, at);
    } else {
      forall e | e in b ensures OldOrGraced(a, e, at) {
        var k :| 0 <= k < |b| && b[k] == e;
        assert b[k] == a[if k == pos then |a| - 1 else k];
      }
      forall e0 | e0 in a ensures Stays(b, e0, at, None) {
        if e0.kind.Tombstone? && at < e0.kind.clearTime {
          var i :| 0 <= i < |a| && a[i] == e0;
          assert b[if i == |a| - 1 then pos else i] == e0 && StillDown(e0, e0, at);
        }
      }
    }
  }

  lemma {:induction false} LookupOpAges(s: RouterState, op: LookupOp, at: Instant)
    ensures Ages(s.routes, ApplyLookup(s, op, at).routes, at, None)
  {
    AgesNot(s.routes, at);
    match op
    case OpIsTransit(net) => TransitAges(s, net, at);
    case OpFind(_, _) => AgesCollected(s.routes, at);
  }

  /** The id that an operation takes over from the upstream. */
  function Delegated(op: Op): Option<nat> {
    if op.Seed? && op.seed.OpRegisterDelegated? then Some(op.seed.parent.netId) else None
  }

  lemma {:induction false} OpAges(s: RouterState, t: Timed)
    requires Inv(s)
    ensures Ages(s.routes, Apply(s, t).routes, t.at, Delegated(t.op))
  {
    match t.op
    case Interface(op) => InterfaceOpAges(s, op, t.at);
    case Seed(op) =>
      match op {
        case OpRegisterDelegated(source, parent, token) => DelegationAges(s, source, parent, t.at, token);
        case _ => SeedOpAges(s, op, t.at);
      }
    case Release(op) => ReleaseOpAges(s, op, t.at);
    case Claim(_) => AgesNot(s.routes, t.at);
    case Lookup(op) => LookupOpAges(s, op, t.at);
  }

  // ------------------------------------------------------------------------
  // Runs
  // ------------------------------------------------------------------------

  /** No tombstone is reserved for longer than the grace from `now`. */
  ghost predicate Graced(s: RouterState, now: Instant) {
    forall e :: e in s.routes && e.kind.Tombstone? ==> e.kind.clearTime <= now + GRACE
  }

  /** The id has a tombstone whose grace lasts at least until `until`. */
  ghost predicate Down(s: RouterState, key: nat, until: Instant) {
    exists e :: e in s.routes && e.key == key && e.kind.Tombstone? && until <= e.kind.clearTime
  }

  /** Nobody has the id: no slot, and no route that is up. */
  ghost predicate Nobodys(s: RouterState, key: nat) {
    !HasNet(s.slots, key) && forall e :: e in s.routes && e.key == key ==> e.kind.Tombstone?
  }

  lemma {:induction false} OpKeepsDown(s: RouterState, t: Timed, now: Instant, key: nat, until: Instant)
    requires Inv(s) && Graced(s, now) && now <= t.at
    ensures ParentsDelegable(s) && Inv(Apply(s, t)) && Graced(Apply(s, t), t.at)
    ensures Down(s, key, until) && t.at < until && Delegated(t.op) != Some(key) ==> Down(Apply(s, t), key, until)
  {
    OpKeepsInv(s, t);
    OpAges(s, t);
    forall e | e in Apply(s, t).routes && e.kind.Tombstone? ensures e.kind.clearTime <= t.at + GRACE {
      assert OldOrGraced(s.routes, e, t.at);
    }
    if Down(s, key, until) && t.at < until && Delegated(t.op) != Some(key) {
      var e0 :| e0 in s.routes && e0.key == key && e0.kind.Tombstone? && until <= e0.kind.clearTime;
      assert Stays(Apply(s, t).routes, e0, t.at, Delegated(t.op));
      var e :| e in Apply(s, t).routes && StillDown(e0, e, t.at);
    }
  }

  lemma {:induction false} DownIsNobodys(s: RouterState, key: nat, until: Instant)
    requires Inv(s) && Down(s, key, until) && key != 0
    ensures Nobodys(s, key)
  {
    var e :| e in s.routes && e.key == key && e.kind.Tombstone? && until <= e.kind.clearTime;
    assert RouteInv(s.slots, e);
    var i :| 0 <= i < |s.routes| && s.routes[i] == e;
    forall x | x in s.routes && x.key == key ensures x.kind.Tombstone? {
      var j :| 0 <= j < |s.routes| && s.routes[j] == x;
    }
  }

  /** The time of the last of the operations, or `start`. */
  function Clock(start: Instant, ops: seq<Timed>): Instant {
    if ops == [] then start else ops[|ops| - 1].at
  }

  lemma {:induction false} RunIsGraced(s: RouterState, ops: seq<Timed>, now: Instant)
    requires Inv(s) && Graced(s, now) && InTimeOrder(ops) && (ops != [] ==> now <= ops[0].at)
    ensures Inv(Run(s, ops)) && Graced(Run(s, ops), Clock(now, ops))
    decreases |ops|
  {
    if ops != [] {
      OpKeepsDown(s, ops[0], now, 0, 0);
      RunIsGraced(Apply(s, ops[0]), ops[1..], ops[0].at);
    }
  }

  /** Every operation comes before `until`, and none takes the id over from the upstream. */
  ghost predicate Early(ops: seq<Timed>, key: nat, until: Instant) {
    forall k :: 0 <= k < |ops| ==> ops[k].at < until && Delegated(ops[k].op) != Some(key)
  }

  lemma {:induction false} RunKeepsDown(s: RouterState, ops: seq<Timed>, now: Instant, key: nat, until: Instant)
    requires Inv(s) && Graced(s, now) && InTimeOrder(ops) && (ops != [] ==> now <= ops[0].at)
    requires Down(s, key, until) && Early(ops, key, until)
    ensures Inv(Run(s, ops)) && Down(Run(s, ops), key, until)
    decreases |ops|
  {
    if ops != [] {
      OpKeepsDown(s, ops[0], now, key, until);
      RunKeepsDown(Apply(s, ops[0]), ops[1..], ops[0].at, key, until);
    }
  }

  lemma {:induction false} RunInTwo(s: RouterState, a: seq<Timed>, b: seq<Timed>)
    requires Inv(s)
    ensures Run(s, a + b) == Run(Run(s, a), b)
    decreases |a|
  {
    if a == [] {
      assert a + b == b;
    } else {
      OpKeepsInv(s, a[0]);
      assert (a + b)[1..] == a[1..] + b;
      RunInTwo(Apply(s, a[0]), a[1..], b);
    }
  }

  /** An id whose route has gone is nobody's until its grace is over: in any
      history of a router, after a tombstone was seen, no operations before its
      clear time give the id to a route or a slot, unless the upstream delegates
      it afresh. Nor does anything shorten the grace. */
  lemma {:induction false} TombstonedIdStaysReserved(s: RouterState, ops: seq<Timed>, n: nat, key: nat, until: Instant)
    requires InitialRouter(s) && InTimeOrder(ops) && n <= |ops| && key != 0
    requires Down(Run(s, ops[..n]), key, until)
    requires Early(ops[n..], key, until)
    ensures Down(Run(s, ops), key, until) && Nobodys(Run(s, ops), key)
  {
    var before, rest := ops[..n], ops[n..];
    RunIsGraced(s, before, 0);
    RunKeepsDown(Run(s, before), rest, Clock(0, before), key, until);
    assert ops == before + rest;
    RunInTwo(s, before, rest);
    DownIsNobodys(Run(s, ops), key, until);
  }
}
