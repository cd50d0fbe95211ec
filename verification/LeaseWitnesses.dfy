/** Runs of the delegation chain that show where its bounds are exact and what breaks without them. */
module LeaseWitnesses {
  import opened Wrappers
  import opened Leases
  import opened SeedLeases
  import opened LeaseChain
  import opened LeaseNetworks

  lemma {:induction false} ReachesOneMore(s: State, steps: seq<Step>, t: State, step: Step, net: Network)
    requires Reaches(s, steps, t, net) && Enabled(t, step) && Kept(t, step, net)
    ensures Reaches(s, steps + [step], Apply(t, step), net)
    decreases |steps|
  {
    if steps == [] {
      assert [] + [step] == [step] && [step][1..] == [];
    } else {
      ReachesOneMore(Apply(s, steps[0]), steps[1..], t, step, net);
      assert (steps + [step])[1..] == steps[1..] + [step];
    }
  }

  lemma {:induction false} Next(s: State, step: Step, t: State, net: Network)
    requires Reachable(s, net) && Enabled(s, step) && Kept(s, step, net) && Apply(s, step) == t
    ensures Reachable(t, net)
  {
    var s0, steps :| Init(s0) && Reaches(s0, steps, s, net);
    ReachesOneMore(s0, steps, s, step, net);
  }

  function Seconds(n: nat): Instant { n * SECOND }

  function Start(paced: bool, token: Token): State {
    State(7, paced, 0, [Granted(0, token)], Some(Offer(RootAssignment(7, token, INITIAL_LEASE_SECS), 0)), false, {}, {})
  }

  lemma {:induction false} Starts(paced: bool, token: Token, net: Network)
    ensures Reachable(Start(paced, token), net)
  {
    assert Reaches(Start(paced, token), [], Start(paced, token), net);
  }

  // ------------------------------------------------------------------------
  // Twelve bridges
  // ------------------------------------------------------------------------

  /** Bridge after bridge takes the offer at once; the window shrinks by 5 s each time. */
  lemma {:induction false} BridgesJoin(n: nat, net: Network) returns (s: State)
    requires n <= 12
    ensures Reachable(s, net) && |s.nodes| == n + 1 && !s.leaf && s.offer.Some? && s.offer.value.sentAt == s.now
    ensures s.offer.value.assignment.minRefresh == MIN_REFRESH_SECS - DELEGATION_MARGIN * n
  {
    if n == 0 {
      s := Start(true, 0);
      Starts(true, 0, net);
    } else {
      var before := BridgesJoin(n - 1, net);
      var step := JoinBridge(n);
      s := Apply(before, step);
      Next(before, step, s, net);
    }
  }

  /** The cap is exact: a chain of twelve routing bridges is reached, on any network. */
  lemma {:induction false} TwelveBridgesAreReached(net: Network)
    ensures exists s :: Reachable(s, net) && s.IsBridge(12)
  {
    var s := BridgesJoin(12, net);
    assert s.IsBridge(12);
  }

  // ------------------------------------------------------------------------
  // A stale answer, and a lost token
  // ------------------------------------------------------------------------

  /** Root and final holder; `n` generations of the root's record, which ends at `ends`. */
  function Pair(now: nat, root: Node, leaf: Node, requests: set<Request>, replies: set<Reply>): State {
    State(7, false, Seconds(now), [root, leaf], None, true, requests, replies)
  }

  function Root(ends: seq<nat>): Node
    requires ends != []
  {
    var last := |ends| - 1;
    Node(Some(Active(Lease(Seconds(ends[last]), last, if last == 0 then None else Some(last - 1)))), None, None,
         seq(|ends|, i => i), seq(|ends|, i requires 0 <= i < |ends| => Renewal(Seconds(ends[i]), 0, 0, 0)))
  }

  lemma {:induction false} RootGrows(ends: seq<nat>, end: nat)
    requires ends != []
    ensures Extended(Root(ends), Lease(Seconds(end), |ends|, Some(|ends| - 1))) == Root(ends + [end])
  {
    assert Extended(Root(ends), Lease(Seconds(end), |ends|, Some(|ends| - 1))).issued == Root(ends + [end]).issued;
  }

  function Leaf(token: Token, secs: nat, call: Option<Call>, renewals: seq<Renewal>): Node {
    Node(None, Some(Held(RootAssignment(7, token, secs))), call, [], renewals)
  }

  const Q0 := Request(0, 5, 0, 0, 0)
  const Q1 := Request(0, 5, 1, 1, Seconds(60))
  const Q2 := Request(0, 5, 2, 2, Seconds(60))
  const A1 := Reply(0, 5, RootAssignment(7, 1, 120), 1, 0, 0)
  const A1Again := Reply(0, 5, RootAssignment(7, 1, 60), 1, Seconds(60), 0)
  const A2 := Reply(0, 5, RootAssignment(7, 2, 120), 2, Seconds(60), 0)
  const W0 := [Renewal(Seconds(30), 0, 0, 0)]
  const W1 := W0 + [Renewal(Seconds(120), 1, 0, 0)]
  const W2 := W1 + [Renewal(Seconds(180), 2, 0, 0)]
  const W1Again := W2 + [Renewal(Seconds(120), 1, 0, 0)]

  /** The first refresh, and the same request once more a minute later. */
  lemma {:induction false} FirstRefresh()
    ensures Reachable(Pair(0, Root([30, 120]), Leaf(1, 120, None, W1), {Q0}, {A1}), Prompt)
  {
    Starts(false, 0, Prompt);
    var call := Some(Call(5, 0, None));
    var joined := Pair(0, Root([30]), Leaf(0, 30, None, W0), {}, {});
    assert Granted(0, 0) == Root([30]);
    Next(Start(false, 0), JoinLeaf, joined, Prompt);
    var called := Pair(0, Root([30]), Leaf(0, 30, call, W0), {Q0}, {});
    Next(joined, LeafCall(5), called, Prompt);
    var served := Pair(0, Root([30, 120]), Leaf(0, 30, call, W0), {Q0}, {A1});
    RootGrows([30], 120);
    assert [30] + [120] == [30, 120];
    Next(called, ServeRoot(Q0, 1), served, Prompt);
    Next(served, Accept(A1, 0), Pair(0, Root([30, 120]), Leaf(1, 120, None, W1), {Q0}, {A1}), Prompt);
  }

  lemma {:induction false} RepeatedRequest()
    ensures Reachable(Pair(60, Root([30, 120]), Leaf(1, 120, None, W1), {Q0}, {A1, A1Again}), Prompt)
  {
    FirstRefresh();
    var later := Pair(60, Root([30, 120]), Leaf(1, 120, None, W1), {Q0}, {A1});
    Next(Pair(0, Root([30, 120]), Leaf(1, 120, None, W1), {Q0}, {A1}), Tick(Seconds(60)), later, Prompt);
    Next(later, ServeRoot(Q0, 2), Pair(60, Root([30, 120]), Leaf(1, 120, None, W1), {Q0}, {A1, A1Again}), Prompt);
  }

  lemma {:induction false} SecondRefresh()
    ensures Reachable(Pair(60, Root([30, 120, 180]), Leaf(2, 120, None, W2), {Q0, Q1}, {A1, A1Again, A2}), Prompt)
  {
    RepeatedRequest();
    var call := Some(Call(5, Seconds(60), None));
    var called := Pair(60, Root([30, 120]), Leaf(1, 120, call, W1), {Q0, Q1}, {A1, A1Again});
    Next(Pair(60, Root([30, 120]), Leaf(1, 120, None, W1), {Q0}, {A1, A1Again}), LeafCall(5), called, Prompt);
    var served := Pair(60, Root([30, 120, 180]), Leaf(1, 120, call, W1), {Q0, Q1}, {A1, A1Again, A2});
    RootGrows([30, 120], 180);
    assert [30, 120] + [180] == [30, 120, 180];
    Next(called, ServeRoot(Q1, 2), served, Prompt);
    Next(served, Accept(A2, 0),
         Pair(60, Root([30, 120, 180]), Leaf(2, 120, None, W2), {Q0, Q1}, {A1, A1Again, A2}), Prompt);
  }

  /** The holder's next call takes the answer to the repeated request. */
  lemma {:induction false} SetBack()
    ensures Reachable(Pair(60, Root([30, 120, 180]), Leaf(1, 60, None, W1Again), {Q0, Q1, Q2}, {A1, A1Again, A2}),
                      Prompt)
  {
    SecondRefresh();
    var call := Some(Call(5, Seconds(60), None));
    var called := Pair(60, Root([30, 120, 180]), Leaf(2, 120, call, W2), {Q0, Q1, Q2}, {A1, A1Again, A2});
    Next(Pair(60, Root([30, 120, 180]), Leaf(2, 120, None, W2), {Q0, Q1}, {A1, A1Again, A2}), LeafCall(5), called,
         Prompt);
    Next(called, Accept(A1Again, 0),
         Pair(60, Root([30, 120, 180]), Leaf(1, 60, None, W1Again), {Q0, Q1, Q2}, {A1, A1Again, A2}), Prompt);
  }

  /** Prompt answers alone do not keep tokens in agreement: one to a repeated
      request, taken by the next call, sets the holder back, and an earlier
      request of its own then moves the root two generations ahead of it. */
  lemma {:induction false} StaleAnswerLosesToken()
    ensures exists s: State :: Reachable(s, Prompt) && |s.nodes| == 2
                               && s.nodes[0].entry.Some? && s.nodes[0].entry.value.Active? && !TokensAgreeOn(s, 0)
  {
    SetBack();
    var before := Pair(60, Root([30, 120, 180]), Leaf(1, 60, None, W1Again), {Q0, Q1, Q2}, {A1, A1Again, A2});
    var later := before.(now := Seconds(120));
    Next(before, Tick(Seconds(60)), later, Prompt);
    RootGrows([30, 120, 180], 240);
    assert [30, 120, 180] + [240] == [30, 120, 180, 240];
    var a3 := Reply(0, 5, RootAssignment(7, 3, 120), 3, Seconds(120), 0);
    var end := Pair(120, Root([30, 120, 180, 240]), Leaf(1, 60, None, W1Again), {Q0, Q1, Q2}, {A1, A1Again, A2, a3});
    Next(later, ServeRoot(Q2, 3), end, Prompt);
    assert !TokensAgreeOn(end, 0);
  }

  // ------------------------------------------------------------------------
  // A late answer, and a route that outlives the grace
  // ------------------------------------------------------------------------

  /** Root, one bridge and a final holder that keeps to its window. */
  function Trio(now: nat, root: Node, bridge: Node, leaf: Node, requests: set<Request>, replies: set<Reply>): State {
    State(7, true, Seconds(now), [root, bridge, leaf], None, true, requests, replies)
  }

  /** A bridge that holds root token `held`, with generations as in `ws`. */
  function Bridge(held: Token, secs: nat, call: Option<Call>, ws: seq<Renewal>): Node
    requires ws != []
  {
    var last := |ws| - 1;
    var lease := Lease(ws[last].expiration, 10 + last, if last == 0 then None else Some(9 + last));
    Node(Some(Active(lease)), Some(Held(RootAssignment(7, held, secs))), call,
         seq(|ws|, i requires 0 <= i < |ws| => 10 + i), ws)
  }

  function Below(token: Token, secs: nat, call: Option<Call>, ws: seq<Renewal>): Node {
    Node(None, Some(Held(Handed(token, secs))), call, [], ws)
  }

  function Handed(token: Token, secs: nat): SeedNetAssignment {
    SeedNetAssignment(7, secs, MAX_LEASE_SECS, 57, token)
  }

  const P0 := Request(1, 5, 10, 0, 0)
  const U0 := Request(0, 6, 0, 0, 0)
  const P1 := Request(1, 5, 11, 1, Seconds(63))
  const U1 := Request(0, 6, 1, 1, Seconds(63))
  const P2 := Request(1, 5, 11, 1, Seconds(119))
  const U2 := Request(0, 6, 1, 1, Seconds(119))
  const B1 := Reply(0, 6, RootAssignment(7, 1, 120), 1, 0, 0)
  const C1 := Reply(1, 5, Handed(11, 120), 1, 0, 0)
  const B2 := Reply(0, 6, RootAssignment(7, 2, 120), 2, Seconds(63), 0)
  const V0 := [Renewal(Seconds(30), 0, 0, 0)]
  const V1 := V0 + [Renewal(Seconds(120), 1, 0, 0)]
  const V2 := V1 + [Renewal(Seconds(239), 2, Seconds(56), 0)]

  function Call5(at: nat): Option<Call> { Some(Call(5, Seconds(at), None)) }

  function Call6(at: nat, token: Token): Option<Call> { Some(Call(6, Seconds(at), Some(Child(5, token)))) }

  lemma {:induction false} TrioJoins()
    ensures Reachable(Trio(0, Root([30]), Bridge(0, 30, None, V0), Below(10, 30, None, V0), {}, {}), Unbounded)
  {
    Starts(true, 0, Unbounded);
    assert Granted(0, 0) == Root([30]);
    var one := Start(true, 0).(nodes := [Root([30]), Bridge(0, 30, None, V0)], offer := Some(Offer(Handed(10, 30), 0)));
    assert Bridge(0, 30, None, V0).issued == [10];
    Next(Start(true, 0), JoinBridge(10), one, Unbounded);
    Next(one, JoinLeaf, Trio(0, Root([30]), Bridge(0, 30, None, V0), Below(10, 30, None, V0), {}, {}), Unbounded);
  }

  lemma {:induction false} TrioCalls()
    ensures Reachable(Trio(0, Root([30, 120]), Bridge(0, 30, Call6(0, 10), V0), Below(10, 30, Call5(0), V0),
                           {P0, U0}, {B1}), Unbounded)
  {
    TrioJoins();
    var a := Trio(0, Root([30]), Bridge(0, 30, None, V0), Below(10, 30, None, V0), {}, {});
    var b := Trio(0, Root([30]), Bridge(0, 30, None, V0), Below(10, 30, Call5(0), V0), {P0}, {});
    Next(a, LeafCall(5), b, Unbounded);
    var c := Trio(0, Root([30]), Bridge(0, 30, Call6(0, 10), V0), Below(10, 30, Call5(0), V0), {P0, U0}, {});
    Next(b, ServeBridge(P0, 6), c, Unbounded);
    RootGrows([30], 120);
    assert [30] + [120] == [30, 120];
    Next(c, ServeRoot(U0, 1), Trio(0, Root([30, 120]), Bridge(0, 30, Call6(0, 10), V0), Below(10, 30, Call5(0), V0),
                                   {P0, U0}, {B1}), Unbounded);
  }

  lemma {:induction false} TrioRefreshed()
    ensures Reachable(Trio(0, Root([30, 120]), Bridge(1, 120, None, V1), Below(11, 120, None, V1), {P0, U0}, {B1, C1}),
                      Unbounded)
  {
    TrioCalls();
    var a := Trio(0, Root([30, 120]), Bridge(0, 30, Call6(0, 10), V0), Below(10, 30, Call5(0), V0), {P0, U0}, {B1});
    var b := Trio(0, Root([30, 120]), Bridge(1, 120, None, V1), Below(10, 30, Call5(0), V0), {P0, U0}, {B1, C1});
    assert Bridge(0, 30, None, V0).issued + [11] == Bridge(1, 120, None, V1).issued;
    Next(a, Accept(B1, 11), b, Unbounded);
    Next(b, Accept(C1, 0),
         Trio(0, Root([30, 120]), Bridge(1, 120, None, V1), Below(11, 120, None, V1), {P0, U0}, {B1, C1}), Unbounded);
  }

  /** At 63 s the holder calls again, and so does the bridge. */
  lemma {:induction false} TrioCallsAgain()
    ensures Reachable(Trio(63, Root([30, 120]), Bridge(1, 120, Call6(63, 11), V1), Below(11, 120, Call5(63), V1),
                           {P0, U0, P1, U1}, {B1, C1}), Unbounded)
  {
    TrioRefreshed();
    var a := Trio(0, Root([30, 120]), Bridge(1, 120, None, V1), Below(11, 120, None, V1), {P0, U0}, {B1, C1});
    var b := a.(now := Seconds(63));
    Next(a, Tick(Seconds(63)), b, Unbounded);
    var c := Trio(63, Root([30, 120]), Bridge(1, 120, None, V1), Below(11, 120, Call5(63), V1), {P0, U0, P1}, {B1, C1});
    Next(b, LeafCall(5), c, Unbounded);
    Next(c, ServeBridge(P1, 6),
         Trio(63, Root([30, 120]), Bridge(1, 120, Call6(63, 11), V1), Below(11, 120, Call5(63), V1),
              {P0, U0, P1, U1}, {B1, C1}), Unbounded);
  }

  /** The root extends its record; its answer is still under way when both give up. */
  lemma {:induction false} TrioGivesUp()
    ensures Reachable(Trio(63, Root([30, 120, 183]), Bridge(1, 120, None, V1), Below(11, 120, None, V1),
                           {P0, U0, P1, U1}, {B1, C1, B2}), Unbounded)
  {
    TrioCallsAgain();
    var a := Trio(63, Root([30, 120]), Bridge(1, 120, Call6(63, 11), V1), Below(11, 120, Call5(63), V1),
                  {P0, U0, P1, U1}, {B1, C1});
    RootGrows([30, 120], 183);
    assert [30, 120] + [183] == [30, 120, 183];
    var b := Trio(63, Root([30, 120, 183]), Bridge(1, 120, Call6(63, 11), V1), Below(11, 120, Call5(63), V1),
                  {P0, U0, P1, U1}, {B1, C1, B2});
    Next(a, ServeRoot(U1, 2), b, Unbounded);
    var c := b.(nodes := [Root([30, 120, 183]), Bridge(1, 120, None, V1), Below(11, 120, Call5(63), V1)]);
    Next(b, GiveUp(1), c, Unbounded);
    Next(c, GiveUp(2), c.(nodes := [Root([30, 120, 183]), Bridge(1, 120, None, V1), Below(11, 120, None, V1)]),
         Unbounded);
  }

  /** At 119 s they call once more. */
  lemma {:induction false} TrioRetries()
    ensures Reachable(Trio(119, Root([30, 120, 183]), Bridge(1, 120, Call6(119, 11), V1),
                           Below(11, 120, Call5(119), V1),
                           {P0, U0, P1, U1, P2, U2}, {B1, C1, B2}), Unbounded)
  {
    TrioGivesUp();
    var a := Trio(63, Root([30, 120, 183]), Bridge(1, 120, None, V1), Below(11, 120, None, V1),
                  {P0, U0, P1, U1}, {B1, C1, B2});
    var b := a.(now := Seconds(119));
    Next(a, Tick(Seconds(56)), b, Unbounded);
    var c := Trio(119, Root([30, 120, 183]), Bridge(1, 120, None, V1), Below(11, 120, Call5(119), V1),
                  {P0, U0, P1, U1, P2}, {B1, C1, B2});
    Next(b, LeafCall(5), c, Unbounded);
    Next(c, ServeBridge(P2, 6),
         Trio(119, Root([30, 120, 183]), Bridge(1, 120, Call6(119, 11), V1), Below(11, 120, Call5(119), V1),
              {P0, U0, P1, U1, P2, U2}, {B1, C1, B2}), Unbounded);
  }

  /** The bridge takes the old answer for the new one. */
  lemma {:induction false} TrioTakesLateAnswer() returns (s: State)
    ensures Reachable(s, Unbounded) && s.now == Seconds(119) && |s.nodes| == 3 && s.IsBridge(1) && s.paced
    ensures s.nodes[0] == Root([30, 120, 183]) && s.nodes[1] == Bridge(2, 120, None, V2)
  {
    TrioRetries();
    var a := Trio(119, Root([30, 120, 183]), Bridge(1, 120, Call6(119, 11), V1), Below(11, 120, Call5(119), V1),
                  {P0, U0, P1, U1, P2, U2}, {B1, C1, B2});
    var c2 := Reply(1, 5, Handed(12, 120), 2, Seconds(119), 0);
    assert Bridge(1, 120, None, V1).issued + [12] == Bridge(2, 120, None, V2).issued;
    s := Trio(119, Root([30, 120, 183]), Bridge(2, 120, None, V2), Below(11, 120, Call5(119), V1),
              {P0, U0, P1, U1, P2, U2}, {B1, C1, B2, c2});
    Next(a, Accept(B2, 12), s, Unbounded);
  }

  /** Answers that may be late break the promise of the grace: at 214 s the root
      may hand the id out again, and the bridge routes for it until 239 s. */
  lemma {:induction false} LateAnswerOutlivesGrace()
    ensures exists s: State :: Reachable(s, Unbounded) && s.paced && s.IsBridge(1) && |s.nodes| == 3
                               && Collected(s.nodes[0].entry, s.now) == None
                               && s.nodes[1].entry.Some? && s.nodes[1].entry.value.IsActive(s.now)
  {
    var s := TrioTakesLateAnswer();
    var end := s.(now := Seconds(214));
    Next(s, Tick(Seconds(95)), end, Unbounded);
  }
}
