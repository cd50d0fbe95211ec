/** Tokens and generations of the delegation chain when every answer accepted was sent during its call. */
module LeaseAnswers {
  import opened Wrappers
  import opened Leases
  import opened SeedLeases
  import opened LeaseChain
  import opened LeaseNetworks

  /** Holder i + 1 is at most one generation behind its grantor, and no answer
      its open call may still take would set it back. */
  ghost predicate LinkFresh(s: State, i: nat)
    requires i + 1 < |s.nodes|
  {
    var g, h := s.nodes[i], s.nodes[i + 1];
    && h.Origin() <= g.Gen() <= h.Origin() + 1
    && (forall j, k :: 0 <= j < k < |h.renewals| ==> h.renewals[j].origin <= h.renewals[k].origin)
    && (forall r :: r in s.requests && r.link == i ==> r.index <= h.Origin())
    && (forall p :: p in s.replies && p.link == i && h.call.Some? && h.call.value.openedAt < p.sentAt ==>
          h.Origin() <= p.index)
    && (g.call.Some? ==> h.Origin() == g.Gen())
  }

  ghost predicate Fresh(s: State) {
    forall i: nat :: i + 1 < |s.nodes| ==> LinkFresh(s, i)
  }

  lemma {:induction false} InitIsFresh(s: State)
    requires Init(s)
    ensures Fresh(s)
  {}

  /** Nothing but time, records and closed calls changes. */
  ghost predicate Quiet(s: State, s': State) {
    && |s'.nodes| == |s.nodes| && s'.requests == s.requests && s'.replies == s.replies
    && forall i :: 0 <= i < |s.nodes| ==>
         && s'.nodes[i].renewals == s.nodes[i].renewals
         && (s'.nodes[i].call.None? || s'.nodes[i].call == s.nodes[i].call)
  }

  lemma {:induction false} QuietKeepsFresh(s: State, s': State)
    requires Fresh(s) && Quiet(s, s')
    ensures Fresh(s')
  {
    forall i: nat | i + 1 < |s'.nodes| ensures LinkFresh(s', i) { assert LinkFresh(s, i); }
  }

  lemma {:induction false} JoinKeepsFresh(s: State, step: Step)
    requires Inv(s) && Fresh(s) && Enabled(s, step) && (step.JoinBridge? || step.JoinLeaf?)
    ensures Fresh(Apply(s, step))
  {
    var s' := Apply(s, step);
    forall i: nat | i + 1 < |s'.nodes| ensures LinkFresh(s', i) {
      if i + 1 < |s.nodes| {
        assert LinkFresh(s, i);
      } else {
        forall r | r in s'.requests ensures r.link != i { assert RequestInv(s, r); }
        forall p | p in s'.replies ensures p.link != i { assert ReplyInv(s, p); }
      }
    }
  }

  lemma {:induction false} OpenCallKeepsFresh(s: State, i: nat, port: nat, child: Option<Child>)
    requires Inv(s) && Fresh(s) && 0 < i < |s.nodes| && s.nodes[i].held.Some?
    requires i + 1 < |s.nodes| ==> s.nodes[i + 1].Origin() == s.nodes[i].Gen()
    ensures Fresh(OpenCall(s, i, port, child))
  {
    var s' := OpenCall(s, i, port, child);
    forall k: nat | k + 1 < |s'.nodes| ensures LinkFresh(s', k) {
      assert LinkFresh(s, k);
      forall p | p in s'.replies ensures p.sentAt <= s.now { assert ReplyInv(s, p); }
    }
  }

  lemma {:induction false} AddReplyKeepsFresh(s: State, p: Reply)
    requires Fresh(s) && p.link < |s.nodes| && p.index == s.nodes[p.link].Gen()
    ensures Fresh(s.(replies := s.replies + {p}))
  {
    var s' := s.(replies := s.replies + {p});
    forall k: nat | k + 1 < |s'.nodes| ensures LinkFresh(s', k) { assert LinkFresh(s, k); }
  }

  /** A request with the current token comes from a holder that has it. */
  lemma {:induction false} CurrentMeansUpToDate(s: State, r: Request)
    requires Inv(s) && Fresh(s) && r in s.requests && r.link + 1 < |s.nodes|
    requires s.nodes[r.link].issued != [] && r.token == Last(s.nodes[r.link].issued)
    ensures s.nodes[r.link + 1].Origin() == s.nodes[r.link].Gen()
  {
    assert RequestInv(s, r) && LinkFresh(s, r.link);
    GrantorHasRecord(s, r.link);
  }

  lemma {:induction false} ServeRootKeepsFresh(s: State, r: Request, newToken: Token)
    requires Inv(s) && Fresh(s) && Enabled(s, ServeRoot(r, newToken))
    ensures Fresh(ApplyServeRoot(s, r, newToken))
  {
    var root := s.nodes[0];
    assert RequestInv(s, r);
    if root.entry.Some? {
      var (kind, answer) := RootRefresh(s.netId, root.entry.value, r.token, s.now, newToken);
      if answer.Err? {
        QuietKeepsFresh(s, ApplyServeRoot(s, r, newToken));
      } else {
        var root' := root;
        if Extends(root.entry.value, RefreshRequest(s.now, r.token, newToken)) {
          CurrentMeansUpToDate(s, r);
          root' := Extended(root, kind.lease);
          assert LinkFresh(s, 0);
        }
        var s' := s.(nodes := s.nodes[0 := root']);
        forall k: nat | k + 1 < |s'.nodes| ensures LinkFresh(s', k) { assert LinkFresh(s, k); }
        AddReplyKeepsFresh(s', Reply(0, r.port, answer.value, root'.Gen(), s.now,
                                     Rounding(answer.value.expiresSeconds, s.now, root'.Ends())));
      }
    }
  }

  lemma {:induction false} ServeBridgeKeepsFresh(s: State, r: Request, port: nat)
    requires Inv(s) && Fresh(s) && Enabled(s, ServeBridge(r, port))
    ensures Fresh(ApplyServeBridge(s, r, port))
  {
    var i := r.link;
    var n := s.nodes[i];
    assert RequestInv(s, r);
    GrantorHasRecord(s, i);
    match Collected(n.entry, s.now) {
      case None => QuietKeepsFresh(s, ApplyServeBridge(s, r, port));
      case Some(k) =>
        var (kind, prepared) := PrepareRefresh(k, n.held, r.token, s.now);
        var s' := s.(nodes := s.nodes[i := n.(entry := Some(kind))]);
        QuietKeepsFresh(s, s');
        if prepared.Ok? {
          match prepared.value {
            case ReplayAnswer(a) =>
              AddReplyKeepsFresh(s', Reply(i, r.port, a, n.Gen(), s.now, Rounding(a.expiresSeconds, s.now, n.Ends())));
            case Forward(_) =>
              CurrentMeansUpToDate(s, r);
              assert s' == s by { assert s.nodes[i := n] == s.nodes; }
              OpenCallKeepsFresh(s, i, port, Some(Child(r.port, r.token)));
          }
        }
    }
  }

  /** Accepting an answer of the current or the next generation, at any holder. */
  lemma {:induction false} RenewedKeepsFresh(s: State, p: Reply, n': Node)
    requires Inv(s) && Fresh(s) && p in s.replies && p.link + 1 < |s.nodes| && p.sentAt <= s.now && p.index >= 0
    requires s.nodes[p.link + 1].call.Some? && s.nodes[p.link + 1].call.value.openedAt < p.sentAt
    requires n'.renewals == s.nodes[p.link + 1].renewals + [RenewalBy(s, p)] && n'.call.None?
    ensures Fresh(s.(nodes := s.nodes[p.link + 1 := n']))
  {
    var s' := s.(nodes := s.nodes[p.link + 1 := n']);
    assert ReplyInv(s, p) && LinkFresh(s, p.link) && HolderInv(s, p.link);
    forall k: nat | k + 1 < |s'.nodes| ensures LinkFresh(s', k) { assert LinkFresh(s, k); }
  }

  lemma {:induction false} AcceptKeepsFresh(s: State, p: Reply, t: Token)
    requires Inv(s) && Fresh(s) && Enabled(s, Accept(p, t)) && AnswersItsCall(s, Accept(p, t))
    ensures Fresh(Apply(s, Accept(p, t)))
  {
    var i := p.link + 1;
    var n := s.nodes[i];
    if s.IsLeaf(i) {
      RenewedKeepsFresh(s, p, n.(held := Some(Held(p.assignment)), call := None,
                                 renewals := n.renewals + [RenewalBy(s, p)]));
    } else {
      CommitKeepsFresh(s, p, t);
    }
  }

  lemma {:induction false} CommitKeepsFresh(s: State, p: Reply, t: Token)
    requires Inv(s) && Fresh(s) && Commits(s, p, t)
    requires s.nodes[p.link + 1].call.value.openedAt < p.sentAt
    ensures Fresh(ApplyCommit(s, p, t))
  {
    var i := p.link + 1;
    var n := s.nodes[i];
    CommitFacts(s, p, t);
    if !CanDelegate(Held(p.assignment)) || n.entry.None? {
      QuietKeepsFresh(s, ApplyCommit(s, p, t));
    } else {
      var child := n.call.value.child.value;
      var (kind, parent, answer) :=
        CommitRefresh(n.entry.value, n.held, child.token, s.now, t, Held(p.assignment));
      if answer.Err? {
        QuietKeepsFresh(s, ApplyCommit(s, p, t));
      } else {
        var n' := n.(call := None, entry := Some(kind), held := parent, issued := n.issued + [t],
                     renewals := n.renewals + [RenewalBy(s, p)]);
        RenewedKeepsFresh(s, p, n');
        AddReplyKeepsFresh(s.(nodes := s.nodes[i := n']), Reply(i, child.port, answer.value, n'.Gen(), s.now, 0));
      }
    }
  }

  lemma {:induction false} StepKeepsFresh(s: State, step: Step)
    requires Inv(s) && Fresh(s) && Enabled(s, step) && AnswersItsCall(s, step)
    ensures Fresh(Apply(s, step))
  {
    match step
    case Tick(_) => QuietKeepsFresh(s, Apply(s, step));
    case Gc(_) => QuietKeepsFresh(s, Apply(s, step));
    case Unplug(_) => QuietKeepsFresh(s, Apply(s, step));
    case GiveUp(_) => QuietKeepsFresh(s, Apply(s, step));
    case JoinBridge(_) => JoinKeepsFresh(s, step);
    case JoinLeaf => JoinKeepsFresh(s, step);
    case LeafCall(port) => OpenCallKeepsFresh(s, |s.nodes| - 1, port, None);
    case ServeRoot(r, t) => ServeRootKeepsFresh(s, r, t);
    case ServeBridge(r, port) => ServeBridgeKeepsFresh(s, r, port);
    case Accept(p, t) => AcceptKeepsFresh(s, p, t);
  }

  lemma {:induction false} RunKeepsFresh(s: State, steps: seq<Step>, t: State, net: Network)
    requires Inv(s) && Fresh(s) && Reaches(s, steps, t, net) && (net.Answering? || net.Orderly?)
    ensures Fresh(t)
    decreases |steps|
  {
    if steps != [] {
      StepKeepsInv(s, steps[0]);
      StepKeepsFresh(s, steps[0]);
      RunKeepsFresh(Apply(s, steps[0]), steps[1..], t, net);
    }
  }

  lemma {:induction false} AnsweringReachable(s: State, net: Network)
    requires Reachable(s, net) && (net.Answering? || net.Orderly?)
    ensures Inv(s) && Fresh(s)
  {
    ReachableHasInv(s, net);
    var s0, steps :| Init(s0) && Reaches(s0, steps, s, net);
    InitHasInv(s0);
    InitIsFresh(s0);
    RunKeepsFresh(s0, steps, s, net);
  }

  lemma {:induction false} AnyNetwork(s: State, steps: seq<Step>, t: State, net: Network)
    requires Reaches(s, steps, t, net)
    ensures Reaches(s, steps, t, Unbounded)
    decreases |steps|
  {
    if steps != [] { AnyNetwork(Apply(s, steps[0]), steps[1..], t, net); }
  }

  lemma {:induction false} ReachableAnyhow(s: State, net: Network)
    requires Reachable(s, net)
    ensures Reachable(s, Unbounded)
  {
    var s0, steps :| Init(s0) && Reaches(s0, steps, s, net);
    AnyNetwork(s0, steps, s, net);
  }

  /** On every link the holder's stored token is the grantor's current or
      previous one, under any loss, repetition or delay of requests. */
  lemma {:induction false} TokensAgree(s: State, i: nat)
    requires Reachable(s, Answering) && i + 1 < |s.nodes|
    requires s.nodes[i].entry.Some? && s.nodes[i].entry.value.Active?
    ensures TokensAgreeOn(s, i)
  {
    AnsweringReachable(s, Answering);
    ReachableAnyhow(s, Answering);
    assert LinkFresh(s, i);
    TokensAgreeIff(s, i);
  }

  /** A retry with the stored token on a live lease, however often repeated, is
      granted, replayed or forwarded; only an unpaced holder can hear TooEarly. */
  lemma {:induction false} HonestRetryIsServed(s: State, r: Request, newToken: Token)
    requires Reachable(s, Answering) && r in s.requests && r.link + 1 < |s.nodes|
    requires s.nodes[r.link + 1].held.Some? && r.token == s.nodes[r.link + 1].held.value.token
    requires s.nodes[r.link].entry.Some? && s.nodes[r.link].entry.value.IsActive(s.now)
    ensures s.nodes[r.link].held.Some? ==> CanDelegate(s.nodes[r.link].held.value)
    ensures Refusal(s, r, newToken) == None
            || (!s.paced && r.link == 0 && Refusal(s, r, newToken) == Some(TooEarly))
  {
    AnsweringReachable(s, Answering);
    ReachableAnyhow(s, Answering);
    RefusedIff(s, r, newToken);
    assert LinkFresh(s, r.link) && RequestInv(s, r) && HolderInv(s, r.link);
    GrantorHasRecord(s, r.link);
  }

  // ------------------------------------------------------------------------
  // Children and their parents
  // ------------------------------------------------------------------------

  lemma {:induction false} RootGenGrows(s: State, i: nat, j: nat, k: nat)
    requires Inv(s) && Fresh(s) && i < |s.nodes| && j <= k < |s.nodes[i].renewals|
    ensures RootGen(s, i, j) <= RootGen(s, i, k)
    decreases i
  {
    if i > 0 {
      assert HolderInv(s, i - 1) && LinkFresh(s, i - 1);
      assert Rests(s.nodes[i].renewals[j], s.nodes[i - 1]) && Rests(s.nodes[i].renewals[k], s.nodes[i - 1]);
      RootGenGrows(s, i - 1, s.nodes[i].renewals[j].origin, s.nodes[i].renewals[k].origin);
    }
  }

  /** An earlier generation of a record never outlasts a later one by more than
      the lag, and falls behind it as soon as the root has moved on. */
  lemma {:induction false} GenerationsAdvance(s: State, i: nat, j: nat, k: nat)
    requires Inv(s) && Fresh(s) && PromptInv(s) && i <= 12 && i < |s.nodes| && !s.IsLeaf(i)
    requires j <= k < |s.nodes[i].renewals|
    ensures var early, late := s.nodes[i].renewals[j].expiration, s.nodes[i].renewals[k].expiration;
            && early <= late + 2 * SECOND * i
            && (RootGen(s, i, j) < RootGen(s, i, k) ==> early + 34 * SECOND <= late)
  {
    var a, b := RootGen(s, i, j), RootGen(s, i, k);
    RootGenGrows(s, i, j, k);
    RootExpirationsGrow(s, a, b);
    ExpirationIsRootsPlusLag(s, i, j);
    ExpirationIsRootsPlusLag(s, i, k);
    LagIsSmall(s, i, j);
    if a < b { assert 58 * SECOND * (b - a) >= 58 * SECOND; }
  }

  /** A bridge's route ends less than 2 s after its grantor's record, unless the
      grantor has since been answered again about the same renewal of the root;
      then at most 2 s later for every hop from the root. When the root has moved
      on in between, the route ends before the record. */
  lemma {:induction false} RouteExpiresWithItsParent(s: State, i: nat)
    requires Reachable(s, Orderly) && s.IsBridge(i)
    ensures Inv(s) && s.nodes[i].Origin() < |s.nodes[i - 1].renewals|
    ensures var o, parent := s.nodes[i].Origin(), s.nodes[i - 1];
            && s.nodes[i].Ends() <= parent.Ends() + 2 * SECOND * i
            && (o == parent.Gen() ==> parent.Ends() <= s.nodes[i].Ends() < parent.Ends() + 2 * SECOND)
            && (RootGen(s, i - 1, o) < RootGen(s, i - 1, parent.Gen()) ==> s.nodes[i].Ends() < parent.Ends())
  {
    PromptReachable(s, Orderly);
    AnsweringReachable(s, Orderly);
    ReachableAnyhow(s, Orderly);
    AtMostTwelveBridges(s, i);
    GrantLast(s, i);
    GrantorHasRecord(s, i - 1);
    GenerationsAdvance(s, i - 1, s.nodes[i].Origin(), s.nodes[i - 1].Gen());
  }
}
