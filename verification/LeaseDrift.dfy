/**
 A run in which a grantor is answered twice about one renewal of the root, and
 its child outlasts it by more than 2 s.
 */
module LeaseDrift {
  import opened Wrappers
  import opened Leases
  import opened SeedLeases
  import opened LeaseChain
  import opened LeaseNetworks
  import opened LeaseWitnesses

  function Millis(n: nat): Instant { n * 1_000_000 }

  /** Root, two bridges and a final holder; times in milliseconds. */
  function Quad(now: nat, root: Node, one: Node, two: Node, leaf: Node, requests: set<Request>, replies: set<Reply>)
    : State
  {
    State(7, false, Millis(now), [root, one, two, leaf], None, true, requests, replies)
  }

  function RootUpTo(gen: nat): Node
    requires gen <= 1
  {
    if gen == 0 then Granted(0, 0)
    else
      Node(Some(Active(Lease(Millis(120_001), 1, Some(0)))), None, None, [0, 1],
           [Renewal(Millis(30_000), 0, 0, 0), Renewal(Millis(120_001), 0, 0, 0)])
  }

  lemma {:induction false} RootExtends()
    ensures Extended(RootUpTo(0), Lease(Millis(120_001), 1, Some(0))) == RootUpTo(1)
  {
    assert RootUpTo(0).issued + [1] == RootUpTo(1).issued;
  }

  /** What the grantor at `depth` hands out. */
  function Hand(depth: nat, token: Token, secs: nat): SeedNetAssignment
    requires depth <= 3
  {
    SeedNetAssignment(7, secs, MAX_LEASE_SECS, MIN_REFRESH_SECS - 5 * depth, token)
  }

  /** A bridge at `depth` that holds `held` and has issued tokens from 10 * depth on. */
  function Between(depth: nat, held: Token, secs: nat, call: Option<Call>, ws: seq<Renewal>): Node
    requires 1 <= depth <= 3 && ws != []
  {
    var last := |ws| - 1;
    Node(Some(Active(Lease(ws[last].expiration, 10 * depth + last,
                           if last == 0 then None else Some(10 * depth + last - 1)))),
         Some(Held(Hand(depth - 1, held, secs))), call,
         seq(|ws|, i requires 0 <= i < |ws| => 10 * depth + i), ws)
  }

  function AtEnd(held: Token, secs: nat, call: Option<Call>, ws: seq<Renewal>): Node {
    Node(None, Some(Held(Hand(2, held, secs))), call, [], ws)
  }

  const R0 := Renewal(Millis(30_000), 0, 0, 0)
  const First := Renewal(Millis(120_901), 1, Millis(900), 0)
  const Again := Renewal(Millis(120_001), 1, 0, 0)
  const Child2 := Renewal(Millis(122_702), 1, Millis(900), Millis(901))
  const LeafNext := Renewal(Millis(122_702), 1, 0, 0)

  const OneA := [R0]
  const OneB := OneA + [First]
  const OneC := OneB + [Again]
  const TwoB := OneA + [Child2]
  const EndB := OneA + [LeafNext]

  const Q0 := Request(2, 5, 20, 0, 0)
  const P0 := Request(1, 6, 10, 0, 0)
  const U0 := Request(0, 7, 0, 0, 0)
  const P1 := Request(1, 6, 10, 0, Millis(2801))
  const Q1 := Request(2, 5, 21, 1, Millis(3702))
  const P2 := Request(1, 6, 11, 1, Millis(3702))
  const U1 := Request(0, 7, 1, 1, Millis(3702))
  const A1 := Reply(0, 7, Hand(0, 1, 120), 1, Millis(1), 0)
  const B1 := Reply(1, 6, Hand(1, 11, 120), 1, Millis(901), 0)
  const B2 := Reply(1, 6, Hand(1, 11, 119), 1, Millis(2802), Millis(901))
  const C1 := Reply(2, 5, Hand(2, 21, 119), 1, Millis(3702), 0)
  const A2 := Reply(0, 7, Hand(0, 1, 116), 1, Millis(4001), 0)

  function LeafCalls(at: nat): Option<Call> { Some(Call(5, Millis(at), None)) }
  function Calls(port: nat, at: nat, back: nat, token: Token): Option<Call> {
    Some(Call(port, Millis(at), Some(Child(back, token))))
  }

  lemma {:induction false} Joined()
    ensures Reachable(Quad(0, RootUpTo(0), Between(1, 0, 30, None, OneA), Between(2, 10, 30, None, OneA),
                           AtEnd(20, 30, None, OneA), {}, {}), Orderly)
  {
    Starts(false, 0, Orderly);
    var s0 := Start(false, 0);
    assert Between(1, 0, 30, None, OneA).issued == [10] && Between(2, 10, 30, None, OneA).issued == [20];
    var s1 := s0.(nodes := [RootUpTo(0), Between(1, 0, 30, None, OneA)], offer := Some(Offer(Hand(1, 10, 30), 0)));
    Next(s0, JoinBridge(10), s1, Orderly);
    var s2 := s1.(nodes := s1.nodes + [Between(2, 10, 30, None, OneA)], offer := Some(Offer(Hand(2, 20, 30), 0)));
    Next(s1, JoinBridge(20), s2, Orderly);
    Next(s2, JoinLeaf, Quad(0, RootUpTo(0), Between(1, 0, 30, None, OneA), Between(2, 10, 30, None, OneA),
                            AtEnd(20, 30, None, OneA), {}, {}), Orderly);
  }

  /** All three call, one on behalf of the other. */
  lemma {:induction false} AllCall()
    ensures Reachable(Quad(0, RootUpTo(0), Between(1, 0, 30, Calls(7, 0, 6, 10), OneA),
                           Between(2, 10, 30, Calls(6, 0, 5, 20), OneA), AtEnd(20, 30, LeafCalls(0), OneA),
                           {Q0, P0, U0}, {}), Orderly)
  {
    Joined();
    var s0 := Quad(0, RootUpTo(0), Between(1, 0, 30, None, OneA), Between(2, 10, 30, None, OneA),
                   AtEnd(20, 30, None, OneA), {}, {});
    var s1 := s0.(nodes := s0.nodes[3 := AtEnd(20, 30, LeafCalls(0), OneA)], requests := {Q0});
    Next(s0, LeafCall(5), s1, Orderly);
    var s2 := s1.(nodes := s1.nodes[2 := Between(2, 10, 30, Calls(6, 0, 5, 20), OneA)], requests := {Q0, P0});
    Next(s1, ServeBridge(Q0, 6), s2, Orderly);
    Next(s2, ServeBridge(P0, 7),
         Quad(0, RootUpTo(0), Between(1, 0, 30, Calls(7, 0, 6, 10), OneA),
              Between(2, 10, 30, Calls(6, 0, 5, 20), OneA), AtEnd(20, 30, LeafCalls(0), OneA),
              {Q0, P0, U0}, {}), Orderly);
  }

  lemma {:induction false} RootServes()
    ensures Reachable(Quad(901, RootUpTo(1), Between(1, 0, 30, Calls(7, 0, 6, 10), OneA),
                           Between(2, 10, 30, Calls(6, 0, 5, 20), OneA), AtEnd(20, 30, LeafCalls(0), OneA),
                           {Q0, P0, U0}, {A1}), Orderly)
  {
    AllCall();
    var one, two := Between(1, 0, 30, Calls(7, 0, 6, 10), OneA), Between(2, 10, 30, Calls(6, 0, 5, 20), OneA);
    var leaf := AtEnd(20, 30, LeafCalls(0), OneA);
    var s0 := Quad(0, RootUpTo(0), one, two, leaf, {Q0, P0, U0}, {});
    var s1 := s0.(now := Millis(1));
    Next(s0, Tick(Millis(1)), s1, Orderly);
    RootExtends();
    var s2 := Quad(1, RootUpTo(1), one, two, leaf, {Q0, P0, U0}, {A1});
    Next(s1, ServeRoot(U0, 1), s2, Orderly);
    Next(s2, Tick(Millis(900)), s2.(now := Millis(901)), Orderly);
  }

  /** The first bridge is answered after 0.9 s; what it hands on is lost. */
  lemma {:induction false} FirstAnswer()
    ensures Reachable(Quad(901, RootUpTo(1), Between(1, 1, 120, None, OneB),
                           Between(2, 10, 30, None, OneA), AtEnd(20, 30, LeafCalls(0), OneA),
                           {Q0, P0, U0}, {A1, B1}), Orderly)
  {
    RootServes();
    var two, leaf := Between(2, 10, 30, Calls(6, 0, 5, 20), OneA), AtEnd(20, 30, LeafCalls(0), OneA);
    var s0 := Quad(901, RootUpTo(1), Between(1, 0, 30, Calls(7, 0, 6, 10), OneA), two, leaf, {Q0, P0, U0}, {A1});
    assert Between(1, 0, 30, None, OneA).issued + [11] == Between(1, 1, 120, None, OneB).issued;
    var s1 := Quad(901, RootUpTo(1), Between(1, 1, 120, None, OneB), two, leaf, {Q0, P0, U0}, {A1, B1});
    Next(s0, Accept(A1, 11), s1, Orderly);
    Next(s1, GiveUp(2), Quad(901, RootUpTo(1), Between(1, 1, 120, None, OneB), Between(2, 10, 30, None, OneA), leaf,
                             {Q0, P0, U0}, {A1, B1}), Orderly);
  }

  /** The second bridge asks again. */
  lemma {:induction false} AsksAgain()
    ensures Reachable(Quad(2802, RootUpTo(1), Between(1, 1, 120, None, OneB),
                           Between(2, 10, 30, Calls(6, 2801, 5, 20), OneA), AtEnd(20, 30, LeafCalls(0), OneA),
                           {Q0, P0, U0, P1}, {A1, B1}), Orderly)
  {
    FirstAnswer();
    var one, leaf := Between(1, 1, 120, None, OneB), AtEnd(20, 30, LeafCalls(0), OneA);
    var s0 := Quad(901, RootUpTo(1), one, Between(2, 10, 30, None, OneA), leaf, {Q0, P0, U0}, {A1, B1});
    var s1 := s0.(now := Millis(2801));
    Next(s0, Tick(Millis(1900)), s1, Orderly);
    var s2 := Quad(2801, RootUpTo(1), one, Between(2, 10, 30, Calls(6, 2801, 5, 20), OneA), leaf,
                   {Q0, P0, U0, P1}, {A1, B1});
    Next(s1, ServeBridge(Q0, 6), s2, Orderly);
    Next(s2, Tick(Millis(1)), s2.(now := Millis(2802)), Orderly);
  }

  /** It is told of the renewal again, rounded up. */
  lemma {:induction false} Replayed()
    ensures Reachable(Quad(2802, RootUpTo(1), Between(1, 1, 120, None, OneB),
                           Between(2, 10, 30, Calls(6, 2801, 5, 20), OneA), AtEnd(20, 30, LeafCalls(0), OneA),
                           {Q0, P0, U0, P1}, {A1, B1, B2}), Orderly)
  {
    AsksAgain();
    var s := Quad(2802, RootUpTo(1), Between(1, 1, 120, None, OneB),
                  Between(2, 10, 30, Calls(6, 2801, 5, 20), OneA), AtEnd(20, 30, LeafCalls(0), OneA),
                  {Q0, P0, U0, P1}, {A1, B1});
    assert RemainingLeaseSeconds(Millis(120_901), Millis(2802)) == 119;
    assert s.nodes[1 := s.nodes[1]] == s.nodes;
    Next(s, ServeBridge(P1, 7), s.(replies := {A1, B1, B2}), Orderly);
  }

  lemma {:induction false} SecondBridgeRefreshed()
    ensures Reachable(Quad(3702, RootUpTo(1), Between(1, 1, 120, None, OneB),
                           Between(2, 11, 119, None, TwoB), AtEnd(21, 119, None, EndB),
                           {Q0, P0, U0, P1}, {A1, B1, B2, C1}), Orderly)
  {
    Replayed();
    var one, leaf := Between(1, 1, 120, None, OneB), AtEnd(20, 30, LeafCalls(0), OneA);
    var s0 := Quad(2802, RootUpTo(1), one, Between(2, 10, 30, Calls(6, 2801, 5, 20), OneA), leaf,
                   {Q0, P0, U0, P1}, {A1, B1, B2});
    var s1 := s0.(now := Millis(3702));
    Next(s0, Tick(Millis(900)), s1, Orderly);
    assert Between(2, 10, 30, None, OneA).issued + [21] == Between(2, 11, 119, None, TwoB).issued;
    var s2 := Quad(3702, RootUpTo(1), one, Between(2, 11, 119, None, TwoB), leaf,
                   {Q0, P0, U0, P1}, {A1, B1, B2, C1});
    Next(s1, Accept(B2, 21), s2, Orderly);
    Next(s2, Accept(C1, 0), Quad(3702, RootUpTo(1), one, Between(2, 11, 119, None, TwoB), AtEnd(21, 119, None, EndB),
                                 {Q0, P0, U0, P1}, {A1, B1, B2, C1}), Orderly);
  }

  lemma {:induction false} LeafAndChildCall()
    ensures Reachable(Quad(3702, RootUpTo(1), Between(1, 1, 120, None, OneB),
                           Between(2, 11, 119, Calls(6, 3702, 5, 21), TwoB),
                           AtEnd(21, 119, LeafCalls(3702), EndB),
                           {Q0, P0, U0, P1, Q1, P2}, {A1, B1, B2, C1}), Orderly)
  {
    SecondBridgeRefreshed();
    var one, leaf := Between(1, 1, 120, None, OneB), AtEnd(21, 119, LeafCalls(3702), EndB);
    var s0 := Quad(3702, RootUpTo(1), one, Between(2, 11, 119, None, TwoB), AtEnd(21, 119, None, EndB),
                   {Q0, P0, U0, P1}, {A1, B1, B2, C1});
    var s1 := Quad(3702, RootUpTo(1), one, Between(2, 11, 119, None, TwoB), leaf,
                   {Q0, P0, U0, P1, Q1}, {A1, B1, B2, C1});
    Next(s0, LeafCall(5), s1, Orderly);
    Next(s1, ServeBridge(Q1, 6),
         Quad(3702, RootUpTo(1), one, Between(2, 11, 119, Calls(6, 3702, 5, 21), TwoB), leaf,
              {Q0, P0, U0, P1, Q1, P2}, {A1, B1, B2, C1}), Orderly);
  }

  lemma {:induction false} AllCallAgain()
    ensures Reachable(Quad(3702, RootUpTo(1), Between(1, 1, 120, Calls(7, 3702, 6, 11), OneB),
                           Between(2, 11, 119, Calls(6, 3702, 5, 21), TwoB),
                           AtEnd(21, 119, LeafCalls(3702), EndB),
                           {Q0, P0, U0, P1, Q1, P2, U1}, {A1, B1, B2, C1}), Orderly)
  {
    LeafAndChildCall();
    var two, leaf := Between(2, 11, 119, Calls(6, 3702, 5, 21), TwoB), AtEnd(21, 119, LeafCalls(3702), EndB);
    Next(Quad(3702, RootUpTo(1), Between(1, 1, 120, None, OneB), two, leaf,
              {Q0, P0, U0, P1, Q1, P2}, {A1, B1, B2, C1}),
         ServeBridge(P2, 7),
         Quad(3702, RootUpTo(1), Between(1, 1, 120, Calls(7, 3702, 6, 11), OneB), two, leaf,
              {Q0, P0, U0, P1, Q1, P2, U1}, {A1, B1, B2, C1}), Orderly);
  }

  /** The first bridge's first request arrives once more, and is answered. */
  lemma {:induction false} RootReplays()
    ensures Reachable(Quad(4001, RootUpTo(1), Between(1, 1, 120, Calls(7, 3702, 6, 11), OneB),
                           Between(2, 11, 119, Calls(6, 3702, 5, 21), TwoB),
                           AtEnd(21, 119, LeafCalls(3702), EndB),
                           {Q0, P0, U0, P1, Q1, P2, U1}, {A1, B1, B2, C1, A2}), Orderly)
  {
    AllCallAgain();
    var s0 := Quad(3702, RootUpTo(1), Between(1, 1, 120, Calls(7, 3702, 6, 11), OneB),
                   Between(2, 11, 119, Calls(6, 3702, 5, 21), TwoB), AtEnd(21, 119, LeafCalls(3702), EndB),
                   {Q0, P0, U0, P1, Q1, P2, U1}, {A1, B1, B2, C1});
    var s1 := s0.(now := Millis(4001));
    Next(s0, Tick(Millis(299)), s1, Orderly);
    assert RemainingLeaseSeconds(Millis(120_001), Millis(4001)) == 116;
    Next(s1, ServeRoot(U0, 9), s1.(replies := {A1, B1, B2, C1, A2}), Orderly);
  }

  /** The bridge takes that answer, and its record moves back by 0.9 s; its
      child's outlasts it by 2.7 s. */
  lemma {:induction false} ParentMovesBack()
    ensures exists s: State :: Reachable(s, Orderly) && s.IsBridge(2)
                               && s.nodes[2].Ends() > s.nodes[1].Ends() + 2 * SECOND
  {
    RootReplays();
    var two, leaf := Between(2, 11, 119, Calls(6, 3702, 5, 21), TwoB), AtEnd(21, 119, LeafCalls(3702), EndB);
    var s := Quad(4001, RootUpTo(1), Between(1, 1, 120, Calls(7, 3702, 6, 11), OneB), two, leaf,
                  {Q0, P0, U0, P1, Q1, P2, U1}, {A1, B1, B2, C1, A2});
    var c2 := Reply(1, 6, Hand(1, 12, 116), 2, Millis(4001), 0);
    assert Between(1, 1, 120, None, OneB).issued + [12] == Between(1, 1, 116, None, OneC).issued;
    var end := Quad(4001, RootUpTo(1), Between(1, 1, 116, None, OneC), two, leaf,
                    {Q0, P0, U0, P1, Q1, P2, U1}, {A1, B1, B2, C1, A2, c2});
    Next(s, Accept(A2, 12), end, Orderly);
    assert end.IsBridge(2);
  }
}
