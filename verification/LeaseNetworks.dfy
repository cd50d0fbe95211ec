/**
 What holds of the delegation chain over every run, and what only when the
 network keeps a promise about the replies that are accepted.
 */
module LeaseNetworks {
  import opened Wrappers
  import opened Leases
  import opened SeedLeases
  import opened LeaseChain

  /** `Prompt`: an answer a bridge accepts was sent at most 1 s ago.
      `Answering`: an answer accepted was sent while the accepting call was open. */
  datatype Network = Unbounded | Prompt | Answering | Orderly

  predicate Kept(s: State, step: Step, net: Network) {
    && (net.Prompt? || net.Orderly? ==> ArrivesPromptly(s, step))
    && (net.Answering? || net.Orderly? ==> AnswersItsCall(s, step))
  }

  predicate ArrivesPromptly(s: State, step: Step) {
    match step
    case JoinBridge(_) => s.offer.Some? && s.now <= s.offer.value.sentAt + SECOND
    case Accept(p, _) => s.IsLeaf(p.link + 1) || s.now <= p.sentAt + SECOND
    case _ => true
  }

  predicate AnswersItsCall(s: State, step: Step) {
    match step
    case Accept(p, _) =>
      && p.link + 1 < |s.nodes| && s.nodes[p.link + 1].call.Some?
      && s.nodes[p.link + 1].call.value.openedAt < p.sentAt
    case _ => true
  }

  ghost predicate Reaches(s: State, steps: seq<Step>, t: State, net: Network)
    decreases |steps|
  {
    if steps == [] then s == t
    else Enabled(s, steps[0]) && Kept(s, steps[0], net) && Reaches(Apply(s, steps[0]), steps[1..], t, net)
  }

  ghost predicate Reachable(s: State, net: Network) {
    exists s0, steps :: Init(s0) && Reaches(s0, steps, s, net)
  }

  lemma {:induction false} RunKeepsInv(s: State, steps: seq<Step>, t: State, net: Network)
    requires Inv(s) && Reaches(s, steps, t, net)
    ensures Inv(t)
    decreases |steps|
  {
    if steps != [] {
      StepKeepsInv(s, steps[0]);
      RunKeepsInv(Apply(s, steps[0]), steps[1..], t, net);
    }
  }

  lemma {:induction false} ReachableHasInv(s: State, net: Network)
    requires Reachable(s, net)
    ensures Inv(s)
  {
    var s0, steps :| Init(s0) && Reaches(s0, steps, s, net);
    InitHasInv(s0);
    RunKeepsInv(s0, steps, s, net);
  }

  // ------------------------------------------------------------------------
  // Every run
  // ------------------------------------------------------------------------

  /** No request that reaches the root, current or stale, is ever refused as too
      early, at whatever depth the holder that started it sits. */
  lemma {:induction false} RootNeverRefusesTooEarly(s: State, r: Request, newToken: Token)
    requires Reachable(s, Unbounded) && s.paced && r in s.requests && r.link == 0 && s.nodes != []
    requires s.nodes[0].entry.Some?
    ensures RootRefresh(s.netId, s.nodes[0].entry.value, r.token, s.now, newToken).1 != Err(TooEarly)
  {
    ReachableHasInv(s, Unbounded);
    assert RequestInv(s, r);
  }

  /** The commit of a bridge whose record is still live always goes through,
      whatever answer it accepted. */
  lemma {:induction false} CommitOfLiveRecordSucceeds(s: State, p: Reply, newToken: Token)
    requires Reachable(s, Unbounded) && Enabled(s, Accept(p, newToken)) && !s.IsLeaf(p.link + 1)
    requires s.nodes[p.link + 1].entry.Some? && s.nodes[p.link + 1].entry.value.IsActive(s.now)
    requires p.link + 2 < |s.nodes|
    ensures CanDelegate(Held(p.assignment))
    ensures var n := s.nodes[p.link + 1];
            CommitRefresh(n.entry.value, n.held, n.call.value.child.value.token, s.now, newToken,
                          Held(p.assignment)).2.Ok?
  {
    ReachableHasInv(s, Unbounded);
    assert ReplyInv(s, p) && HolderInv(s, p.link) && CallInv(s, p.link + 1);
  }

  /** The margin of 5 s per hop caps the chain at 12 routing bridges. */
  lemma {:induction false} AtMostTwelveBridges(s: State, i: nat)
    requires Reachable(s, Unbounded) && s.IsBridge(i)
    ensures i <= 12
  {
    ReachableHasInv(s, Unbounded);
    assert HolderInv(s, i - 1);
  }

  /** What the grantor of a link would refuse `r` with right now, if it would. */
  function Refusal(s: State, r: Request, newToken: Token): Option<SeedRefreshError>
    requires r.link < |s.nodes| && s.nodes[r.link].entry.Some?
    requires s.nodes[r.link].held.Some? ==> CanDelegate(s.nodes[r.link].held.value)
  {
    var k := s.nodes[r.link].entry.value;
    if r.link == 0 then
      var a := RootRefresh(s.netId, k, r.token, s.now, newToken).1;
      if a.Ok? then None else Some(a.error)
    else
      var a := PrepareRefresh(k, s.nodes[r.link].held, r.token, s.now).1;
      if a.Ok? then None else Some(a.error)
  }

  lemma {:induction false} GrantorHasRecord(s: State, i: nat)
    requires Inv(s) && i + 1 < |s.nodes|
    ensures RecordInv(s.nodes[i], s.now)
    ensures s.nodes[i].held.Some? ==> CanDelegate(s.nodes[i].held.value)
    ensures s.nodes[i].held.None? <==> i == 0
  {
    if i > 0 { assert HolderInv(s, i - 1); }
  }

  /** A request is refused as a bad one by a live lease exactly when the grantor
      has renewed twice since the token it carries was handed out. Otherwise it
      is granted, replayed or forwarded, or an unpaced holder hears TooEarly. */
  lemma {:induction false} RefusedIff(s: State, r: Request, newToken: Token)
    requires Reachable(s, Unbounded) && r in s.requests && r.link + 1 < |s.nodes|
    requires s.nodes[r.link].entry.Some? && s.nodes[r.link].entry.value.IsActive(s.now)
    ensures s.nodes[r.link].held.Some? ==> CanDelegate(s.nodes[r.link].held.value)
    ensures var refusal := Refusal(s, r, newToken);
            && (refusal == Some(BadRequest) <==> r.index + 1 < s.nodes[r.link].Gen())
            && (refusal.Some? && refusal.value != BadRequest ==> !s.paced && r.link == 0 && refusal.value == TooEarly)
  {
    ReachableHasInv(s, Unbounded);
    assert RequestInv(s, r);
    GrantorHasRecord(s, r.link);
  }

  /** The holder's stored token is the grantor's current or previous one. */
  predicate TokensAgreeOn(s: State, i: nat)
    requires i + 1 < |s.nodes| && s.nodes[i].entry.Some? && s.nodes[i].entry.value.Active?
  {
    var lease := s.nodes[i].entry.value.lease;
    s.nodes[i + 1].held.Some? &&
    (s.nodes[i + 1].held.value.token == lease.token || lease.previous == Some(s.nodes[i + 1].held.value.token))
  }

  /** They agree exactly when the grantor has renewed at most once since it sent
      the answer the holder accepted last. */
  lemma {:induction false} TokensAgreeIff(s: State, i: nat)
    requires Reachable(s, Unbounded) && i + 1 < |s.nodes|
    requires s.nodes[i].entry.Some? && s.nodes[i].entry.value.Active?
    ensures TokensAgreeOn(s, i) <==> s.nodes[i].Gen() <= s.nodes[i + 1].Origin() + 1
  {
    ReachableHasInv(s, Unbounded);
    GrantorHasRecord(s, i);
    assert HolderInv(s, i);
    assert Rests(Last(s.nodes[i + 1].renewals), s.nodes[i]);
  }

  /** The generation of the root's record that one of node i rests on in the end. */
  ghost function RootGen(s: State, i: nat, j: nat): (r: nat)
    requires Inv(s) && i < |s.nodes| && j < |s.nodes[i].renewals|
    ensures r < |s.nodes[0].renewals|
    decreases i
  {
    if i == 0 then j
    else
      assert HolderInv(s, i - 1) && Rests(s.nodes[i].renewals[j], s.nodes[i - 1]);
      RootGen(s, i - 1, s.nodes[i].renewals[j].origin)
  }

  /** Delays and roundings of all the answers in between. */
  ghost function Lag(s: State, i: nat, j: nat): nat
    requires Inv(s) && i < |s.nodes| && j < |s.nodes[i].renewals|
    decreases i
  {
    if i == 0 then 0
    else
      var w := s.nodes[i].renewals[j];
      assert HolderInv(s, i - 1) && Rests(w, s.nodes[i - 1]);
      w.delay + w.rounding + Lag(s, i - 1, w.origin)
  }

  /** A record outlasts the root's, generation by generation, by exactly the
      delays and roundings on the way down. */
  lemma {:induction false} ExpirationIsRootsPlusLag(s: State, i: nat, j: nat)
    requires Inv(s) && i < |s.nodes| && j < |s.nodes[i].renewals|
    ensures s.nodes[i].renewals[j].expiration
         == s.nodes[0].renewals[RootGen(s, i, j)].expiration + Lag(s, i, j)
    decreases i
  {
    if i > 0 {
      var w := s.nodes[i].renewals[j];
      assert HolderInv(s, i - 1) && Rests(w, s.nodes[i - 1]);
      ExpirationIsRootsPlusLag(s, i - 1, w.origin);
    }
  }

  lemma {:induction false} RootExpirationsGrow(s: State, j: nat, k: nat)
    requires Inv(s) && j <= k < |s.nodes[0].renewals|
    ensures s.nodes[0].renewals[j].expiration
            + (MAX_LEASE_SECS - MIN_REFRESH_SECS) * SECOND * (k - j) <= s.nodes[0].renewals[k].expiration
    decreases k - j
  {
    if j < k {
      RootExpirationsGrow(s, j + 1, k);
    }
  }

  /** When the root's collection first drops the id, unless it is renewed. */
  function DropTime(s: State): Instant
    requires s.nodes != []
  {
    s.nodes[0].Ends() + TOMBSTONE_SECS * SECOND
  }

  lemma {:induction false} DropsAt(s: State, t: Instant)
    requires Inv(s) && s.nodes[0].entry.Some?
    ensures Collected(s.nodes[0].entry, t) == None <==> DropTime(s) <= t
  {}

  /** A bridge still routes for the id when the root first may hand it out again
      exactly when the answers on the way down took longer, all together, than
      the grace and what the root has added since. */
  lemma {:induction false} GraceKeptIff(s: State, i: nat)
    requires Reachable(s, Unbounded) && s.IsBridge(i)
    requires s.nodes[i].entry.Some? && s.nodes[i].entry.value.Active?
    ensures Inv(s) && s.nodes[i].Gen() >= 0
    ensures var j, root := s.nodes[i].Gen(), s.nodes[0];
            !s.nodes[i].entry.value.IsActive(DropTime(s)) <==>
            Lag(s, i, j) <= TOMBSTONE_SECS * SECOND + (root.Ends() - root.renewals[RootGen(s, i, j)].expiration)
  {
    ReachableHasInv(s, Unbounded);
    assert HolderInv(s, i - 1);
    ExpirationIsRootsPlusLag(s, i, s.nodes[i].Gen());
  }

  // ------------------------------------------------------------------------
  // Prompt answers
  // ------------------------------------------------------------------------

  ghost predicate PromptInv(s: State) {
    forall i: nat, j: nat :: s.IsBridge(i) && j < |s.nodes[i].renewals| ==> s.nodes[i].renewals[j].delay <= SECOND
  }

  /** Generations are only added, and those of a bridge by prompt answers. */
  ghost predicate AddsPromptly(s: State, s': State) {
    && |s'.nodes| >= |s.nodes| && (s.leaf ==> s'.leaf && |s'.nodes| == |s.nodes|)
    && (forall i :: 0 <= i < |s.nodes| && !s.IsLeaf(i) ==>
          s'.nodes[i].renewals == s.nodes[i].renewals
          || exists w: Renewal :: w.delay <= SECOND && s'.nodes[i].renewals == s.nodes[i].renewals + [w])
    && (forall i :: |s.nodes| <= i < |s'.nodes| && !s'.IsLeaf(i) ==>
          forall j :: 0 <= j < |s'.nodes[i].renewals| ==> s'.nodes[i].renewals[j].delay <= SECOND)
  }

  lemma {:induction false} AddsKeepsPrompt(s: State, s': State)
    requires PromptInv(s) && AddsPromptly(s, s') && (s.nodes != [] ==> !s.IsLeaf(0))
    ensures PromptInv(s')
  {
    forall i: nat, j: nat | s'.IsBridge(i) && j < |s'.nodes[i].renewals|
      ensures s'.nodes[i].renewals[j].delay <= SECOND
    {
      if i < |s.nodes| {
        assert s.IsBridge(i);
      }
    }
  }

  lemma {:induction false} CommitAddsPromptly(s: State, p: Reply, t: Token)
    requires Enabled(s, Accept(p, t)) && !s.IsLeaf(p.link + 1) && s.now <= p.sentAt + SECOND
    ensures AddsPromptly(s, ApplyCommit(s, p, t))
  {
    assert RenewalBy(s, p).delay <= SECOND;
  }

  lemma {:induction false} ServeRootAddsPromptly(s: State, r: Request, t: Token)
    requires |s.nodes| > 0
    ensures AddsPromptly(s, ApplyServeRoot(s, r, t))
  {}

  lemma {:induction false} ServeBridgeAddsPromptly(s: State, r: Request, port: nat)
    requires Enabled(s, ServeBridge(r, port))
    ensures AddsPromptly(s, ApplyServeBridge(s, r, port))
  {}

  lemma {:induction false} JoinAddsPromptly(s: State, step: Step)
    requires Enabled(s, step) && ArrivesPromptly(s, step) && (step.JoinBridge? || step.JoinLeaf?)
    ensures AddsPromptly(s, Apply(s, step))
  {}

  lemma {:induction false} StepAddsPromptly(s: State, step: Step)
    requires Enabled(s, step) && ArrivesPromptly(s, step)
    ensures AddsPromptly(s, Apply(s, step))
  {
    match step
    case ServeRoot(r, t) => ServeRootAddsPromptly(s, r, t);
    case ServeBridge(r, port) => ServeBridgeAddsPromptly(s, r, port);
    case Accept(p, t) => if !s.IsLeaf(p.link + 1) { CommitAddsPromptly(s, p, t); }
    case JoinBridge(_) => JoinAddsPromptly(s, step);
    case JoinLeaf => JoinAddsPromptly(s, step);
    case _ =>
  }

  lemma {:induction false} StepKeepsPrompt(s: State, step: Step)
    requires Inv(s) && PromptInv(s) && Enabled(s, step) && ArrivesPromptly(s, step)
    ensures PromptInv(Apply(s, step))
  {
    StepAddsPromptly(s, step);
    AddsKeepsPrompt(s, Apply(s, step));
  }

  lemma {:induction false} RunKeepsPrompt(s: State, steps: seq<Step>, t: State, net: Network)
    requires Inv(s) && PromptInv(s) && Reaches(s, steps, t, net) && (net.Prompt? || net.Orderly?)
    ensures PromptInv(t)
    decreases |steps|
  {
    if steps != [] {
      StepKeepsInv(s, steps[0]);
      StepKeepsPrompt(s, steps[0]);
      RunKeepsPrompt(Apply(s, steps[0]), steps[1..], t, net);
    }
  }

  lemma {:induction false} PromptReachable(s: State, net: Network)
    requires Reachable(s, net) && (net.Prompt? || net.Orderly?)
    ensures Inv(s) && PromptInv(s)
  {
    ReachableHasInv(s, net);
    var s0, steps :| Init(s0) && Reaches(s0, steps, s, net);
    InitHasInv(s0);
    RunKeepsPrompt(s0, steps, s, net);
  }

  lemma {:induction false} LagIsSmall(s: State, i: nat, j: nat)
    requires Inv(s) && PromptInv(s) && i < |s.nodes| && !s.IsLeaf(i) && j < |s.nodes[i].renewals|
    ensures Lag(s, i, j) <= 2 * SECOND * i
    decreases i
  {
    if i > 0 {
      var w := s.nodes[i].renewals[j];
      assert HolderInv(s, i - 1) && Rests(w, s.nodes[i - 1]);
      assert s.IsBridge(i);
      LagIsSmall(s, i - 1, w.origin);
    }
  }

  /** Generation by generation, a bridge expires at or after the root, by at most 2 s a hop. */
  lemma {:induction false} ExpirationsTrackRoot(s: State, i: nat, j: nat)
    requires Reachable(s, Prompt) && s.IsBridge(i) && j < |s.nodes[i].renewals|
    ensures Inv(s)
    ensures var root := s.nodes[0].renewals[RootGen(s, i, j)].expiration;
            root <= s.nodes[i].renewals[j].expiration <= root + 2 * SECOND * i
  {
    PromptReachable(s, Prompt);
    ExpirationIsRootsPlusLag(s, i, j);
    LagIsSmall(s, i, j);
  }

  lemma {:induction false} GrantLast(s: State, i: nat)
    requires Inv(s) && PromptInv(s) && s.IsBridge(i)
    ensures s.nodes[i].Origin() < |s.nodes[i - 1].renewals|
    ensures var grant := s.nodes[i - 1].renewals[s.nodes[i].Origin()].expiration;
            grant <= s.nodes[i].Ends() < grant + 2 * SECOND
  {
    assert HolderInv(s, i - 1);
    assert Rests(Last(s.nodes[i].renewals), s.nodes[i - 1]);
  }

  /** A bridge's route ends at most 2 s after the generation of its grantor's
      record it rests on, and not before it. */
  lemma {:induction false} RouteExpiresWithItsGrant(s: State, i: nat)
    requires Reachable(s, Prompt) && s.IsBridge(i)
    ensures s.nodes[i].Origin() < |s.nodes[i - 1].renewals|
    ensures var grant := s.nodes[i - 1].renewals[s.nodes[i].Origin()].expiration;
            grant <= s.nodes[i].Ends() < grant + 2 * SECOND
  {
    PromptReachable(s, Prompt);
    GrantLast(s, i);
  }

  /** Every live bridge route ends within 24 s of the root's last expiration. */
  lemma {:induction false} RouteEndsInsideGrace(s: State, i: nat)
    requires Reachable(s, Prompt) && s.IsBridge(i)
    requires s.nodes[i].entry.Some? && s.nodes[i].entry.value.Active?
    ensures s.nodes[i].entry.value.lease.expiration <= s.nodes[0].Ends() + 24 * SECOND
  {
    PromptReachable(s, Prompt);
    assert HolderInv(s, i - 1);
    var j := s.nodes[i].Gen();
    ExpirationsTrackRoot(s, i, j);
    RootExpirationsGrow(s, RootGen(s, i, j), s.nodes[0].Gen());
  }

  /** Once the root has dropped the id, or would on its next collection, and may
      hand it out again, no bridge of the chain still routes for it. */
  lemma {:induction false} NoActiveRouteAfterGrace(s: State, i: nat)
    requires Reachable(s, Prompt) && s.IsBridge(i)
    requires Collected(s.nodes[0].entry, s.now) == None
    ensures s.nodes[i].entry.Some? ==> !s.nodes[i].entry.value.IsActive(s.now)
  {
    PromptReachable(s, Prompt);
    if s.nodes[i].entry.Some? && s.nodes[i].entry.value.Active? {
      RouteEndsInsideGrace(s, i);
    }
  }
}
