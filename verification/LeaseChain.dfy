/**
 One leased net_id delegated down a chain of routers, as a timed step system.

 Node 0 is the root seed router, nodes 1, 2, ... are bridges, and the last
 node may be the final holder. Link i joins the grantor i to the holder i + 1.
 Every node reads one shared clock. A message once sent may arrive at any
 later time, any number of times, or never. Nothing in a reply says which call
 it answers: an open call takes whatever reply reaches its port. No step
 releases the lease or removes an interface of the root.
 */
module LeaseChain {
  import opened Wrappers
  import opened Leases
  import opened SeedLeases

  /** A refresh call a holder has open towards its grantor, and the port of its
      response socket. A bridge opens one only to serve a request of its own
      child, on whose behalf it will commit. */
  datatype Call = Call(port: nat, openedAt: Instant, child: Option<Child>)
  datatype Child = Child(port: nat, token: Token)

  /** One generation of a record: when it expires, which generation of the
      grantor's record it rests on, and by how much it outlasts that one: the
      time the answer took and what rounding to seconds added. */
  datatype Renewal = Renewal(expiration: Instant, origin: nat, delay: nat, rounding: nat)

  /**
   `entry` is the node's own record for its child (`None` once collected),
   `held` the lease it stores from its grantor. `issued` and `renewals` are
   history: the tokens and the generations of its record. For the final holder
   `renewals` is its own reckoning of when the lease ends.
   */
  datatype Node = Node(
    entry: Option<LeaseKind>,
    held: Option<SeedLease>,
    call: Option<Call>,
    issued: seq<Token>,
    renewals: seq<Renewal>)
  {
    function Gen(): int { |renewals| - 1 }

    /** The latest expiration of the node's record, live or not. */
    function Ends(): Instant { if renewals == [] then 0 else renewals[|renewals| - 1].expiration }

    /** The generation of the grantor's record that the stored lease shows. */
    function Origin(): nat { if renewals == [] then 0 else renewals[|renewals| - 1].origin }
  }

  /** `index` is history: the generation of the token carried. */
  datatype Request = Request(link: nat, port: nat, token: Token, index: int, sentAt: Instant)

  /** `index` and `rounding` are history: the generation shown, and by how much
      the whole seconds told exceed what is left of it. */
  datatype Reply = Reply(link: nat, port: nat, assignment: SeedNetAssignment, index: int, sentAt: Instant,
                         rounding: nat)
  datatype Offer = Offer(assignment: SeedNetAssignment, sentAt: Instant)

  /** `paced` says whether the final holder keeps to its own refresh window. */
  datatype State = State(
    netId: nat,
    paced: bool,
    now: Instant,
    nodes: seq<Node>,
    offer: Option<Offer>,
    leaf: bool,
    requests: set<Request>,
    replies: set<Reply>)
  {
    predicate IsLeaf(i: nat) { leaf && i == |nodes| - 1 }

    /** Node i routes for the leased id and is not the root. */
    predicate IsBridge(i: nat) { 0 < i < |nodes| && !IsLeaf(i) }
  }

  datatype Step =
    | Tick(dt: nat)
    | Gc(node: nat)
    | Unplug(node: nat)
    | JoinBridge(firstToken: Token)
    | JoinLeaf
    | LeafCall(leafPort: nat)
    | ServeRoot(request: Request, newToken: Token)
    | ServeBridge(request: Request, callPort: nat)
    | Accept(reply: Reply, commitToken: Token)
    | GiveUp(caller: nat)

  /** The root has granted the id and offers it on. */
  predicate Init(s: State) {
    && |s.nodes| == 1 && |s.nodes[0].issued| == 1
    && s.nodes[0] == Granted(s.now, s.nodes[0].issued[0])
    && s.offer == Some(Offer(RootAssignment(s.netId, s.nodes[0].issued[0], INITIAL_LEASE_SECS), s.now))
    && !s.leaf && s.requests == {} && s.replies == {}
  }

  function Granted(now: Instant, token: Token): Node {
    Node(Some(NewLease(now, INITIAL_LEASE_SECS, token)), None, None, [token],
         [Renewal(now + INITIAL_LEASE_SECS * SECOND, 0, 0, 0)])
  }

  /** What the protocol itself allows; nothing here limits how long messages take. */
  predicate Enabled(s: State, step: Step) {
    match step
    case Tick(_) => true
    case Gc(i) => i < |s.nodes|
    case Unplug(i) => s.IsBridge(i)
    case JoinBridge(_) =>
      && s.offer.Some? && !s.leaf && s.offer.value.sentAt <= s.now
      && CanDelegate(Held(s.offer.value.assignment))
    case JoinLeaf => s.offer.Some? && !s.leaf && s.offer.value.sentAt <= s.now
    case LeafCall(_) =>
      && s.leaf && |s.nodes| > 1
      && var leaf := s.nodes[|s.nodes| - 1];
      && leaf.call.None? && leaf.held.Some? && leaf.renewals != []
      && (s.paced ==> leaf.Ends() <= s.now + leaf.held.value.minRefresh * SECOND)
    case ServeRoot(r, t) =>
      r in s.requests && r.link == 0 && |s.nodes| > 0 && t !in s.nodes[0].issued
    case ServeBridge(r, _) =>
      && r in s.requests && s.IsBridge(r.link)
      && s.nodes[r.link].call.None? && s.nodes[r.link].held.Some? && CanDelegate(s.nodes[r.link].held.value)
      && s.nodes[r.link].renewals != []
    case Accept(p, t) =>
      && p in s.replies && p.link + 1 < |s.nodes| && p.sentAt <= s.now && p.index >= 0
      && var holder := s.nodes[p.link + 1];
      && holder.call.Some? && holder.call.value.port == p.port
      && (s.IsLeaf(p.link + 1) ||
          (s.now <= holder.call.value.openedAt + SECOND && holder.call.value.child.Some? && t !in holder.issued))
    case GiveUp(i) => i < |s.nodes|
  }

  function Apply(s: State, step: Step): State
    requires Enabled(s, step)
  {
    match step
    case Tick(dt) => s.(now := s.now + dt)
    case Gc(i) =>
      var n := s.nodes[i];
      s.(nodes := s.nodes[i := n.(entry := Collected(n.entry, s.now))])
    case Unplug(i) =>
      var n := s.nodes[i];
      s.(nodes := s.nodes[i := n.(entry := if n.entry.None? then None
                                            else Some(Tombstone(s.now + TOMBSTONE_SECS * SECOND)))])
    case JoinBridge(token) => ApplyJoinBridge(s, token)
    case JoinLeaf =>
      var lease := Held(s.offer.value.assignment);
      s.(offer := None, leaf := true,
         nodes := s.nodes + [Node(None, Some(lease), None, [], [FirstRenewal(s, lease)])])
    case LeafCall(port) => OpenCall(s, |s.nodes| - 1, port, None)
    case ServeRoot(r, t) => ApplyServeRoot(s, r, t)
    case ServeBridge(r, port) => ApplyServeBridge(s, r, port)
    case Accept(p, t) => if s.IsLeaf(p.link + 1) then ApplyLeafAccept(s, p) else ApplyCommit(s, p, t)
    case GiveUp(i) => s.(nodes := s.nodes[i := s.nodes[i].(call := None)])
  }

  function Collected(entry: Option<LeaseKind>, now: Instant): Option<LeaseKind> {
    match entry
    case None => None
    case Some(k) => k.GcRetain(now)
  }

  /** The first generation of a joining node rests on the first of its grantor. */
  function FirstRenewal(s: State, lease: SeedLease): Renewal
    requires s.offer.Some? && s.offer.value.sentAt <= s.now
  {
    Renewal(s.now + lease.expiresSeconds * SECOND, 0, s.now - s.offer.value.sentAt, 0)
  }

  /** A bridge takes the offered lease, registers it and offers it on. */
  function ApplyJoinBridge(s: State, token: Token): State
    requires s.offer.Some? && s.offer.value.sentAt <= s.now && CanDelegate(Held(s.offer.value.assignment))
  {
    var lease := Held(s.offer.value.assignment);
    s.(offer := Some(Offer(DelegatedAssignment(lease, token, lease.expiresSeconds), s.now)),
       nodes := s.nodes + [Node(Some(NewLease(s.now, lease.expiresSeconds, token)), Some(lease), None,
                                [token], [FirstRenewal(s, lease)])])
  }

  /** Node i opens a refresh call upstream with the lease it stores. */
  function OpenCall(s: State, i: nat, port: nat, child: Option<Child>): State
    requires 0 < i < |s.nodes| && s.nodes[i].held.Some?
  {
    var n := s.nodes[i];
    s.(nodes := s.nodes[i := n.(call := Some(Call(port, s.now, child)))],
       requests := s.requests + {Request(i - 1, port, n.held.value.token, n.Origin(), s.now)})
  }

  /** By how much whole seconds told at `now` exceed what is left. */
  function Rounding(secs: nat, now: Instant, expiration: Instant): nat {
    if now + secs * SECOND > expiration then now + secs * SECOND - expiration else 0
  }

  function ApplyServeRoot(s: State, r: Request, newToken: Token): State
    requires |s.nodes| > 0
  {
    var root := s.nodes[0];
    match root.entry
    case None => s
    case Some(k) =>
      var (kind, answer) := RootRefresh(s.netId, k, r.token, s.now, newToken);
      match answer
      case Err(_) => s.(nodes := s.nodes[0 := root.(entry := Some(kind))])
      case Ok(a) =>
        var rotated := Extends(k, RefreshRequest(s.now, r.token, newToken));
        var root' := if rotated then Extended(root, kind.lease) else root;
        s.(nodes := s.nodes[0 := root'],
           replies := s.replies + {Reply(0, r.port, a, root'.Gen(), s.now,
                                         Rounding(a.expiresSeconds, s.now, root'.Ends()))})
  }

  /** The root's record with a generation more. */
  function Extended(root: Node, lease: Lease): Node {
    root.(entry := Some(Active(lease)), issued := root.issued + [lease.token],
          renewals := root.renewals + [Renewal(lease.expiration, 0, 0, 0)])
  }

  /** A bridge answers a replay itself and forwards a current token upstream. */
  function ApplyServeBridge(s: State, r: Request, port: nat): State
    requires s.IsBridge(r.link) && s.nodes[r.link].held.Some? && CanDelegate(s.nodes[r.link].held.value)
  {
    var i := r.link;
    var n := s.nodes[i];
    match Collected(n.entry, s.now)
    case None => s.(nodes := s.nodes[i := n.(entry := None)])
    case Some(k) =>
      var (kind, prepared) := PrepareRefresh(k, n.held, r.token, s.now);
      var s' := s.(nodes := s.nodes[i := n.(entry := Some(kind))]);
      match prepared
      case Err(_) => s'
      case Ok(ReplayAnswer(a)) =>
        s'.(replies := s'.replies + {Reply(i, r.port, a, n.Gen(), s.now,
                                           Rounding(a.expiresSeconds, s.now, n.Ends()))})
      case Ok(Forward(_)) => OpenCall(s', i, port, Some(Child(r.port, r.token)))
  }

  /** The generation that accepting `p` now makes. */
  function RenewalBy(s: State, p: Reply): Renewal
    requires p.sentAt <= s.now && p.index >= 0
  {
    Renewal(s.now + p.assignment.expiresSeconds * SECOND, p.index, s.now - p.sentAt, p.rounding)
  }

  function ApplyLeafAccept(s: State, p: Reply): State
    requires p.link + 1 < |s.nodes| && p.sentAt <= s.now && p.index >= 0
  {
    var n := s.nodes[p.link + 1];
    s.(nodes := s.nodes[p.link + 1 :=
         n.(held := Some(Held(p.assignment)), call := None, renewals := n.renewals + [RenewalBy(s, p)])])
  }

  /** An upstream answer came in time: commit for the child and answer it. */
  function ApplyCommit(s: State, p: Reply, newToken: Token): State
    requires p.link + 1 < |s.nodes| && p.sentAt <= s.now && p.index >= 0
    requires s.nodes[p.link + 1].call.Some? && s.nodes[p.link + 1].call.value.child.Some?
  {
    var i := p.link + 1;
    var n := s.nodes[i];
    var child := n.call.value.child.value;
    var refreshed := Held(p.assignment);
    var closed := n.(call := None);
    if !CanDelegate(refreshed) || n.entry.None? then s.(nodes := s.nodes[i := closed])
    else
      var (kind, parent, answer) := CommitRefresh(n.entry.value, n.held, child.token, s.now, newToken, refreshed);
      match answer
      case Err(_) => s.(nodes := s.nodes[i := closed.(entry := Some(kind))])
      case Ok(a) =>
        var n' := closed.(entry := Some(kind), held := parent, issued := n.issued + [newToken],
                          renewals := n.renewals + [RenewalBy(s, p)]);
        s.(nodes := s.nodes[i := n'],
           replies := s.replies + {Reply(i, child.port, a, n'.Gen(), s.now, 0)})
  }

  // ------------------------------------------------------------------------
  // The invariant
  // ------------------------------------------------------------------------

  function Last<T>(s: seq<T>): T
    requires s != []
  {
    s[|s| - 1]
  }

  ghost predicate Distinct<T(!new)>(s: seq<T>) {
    forall i, j :: 0 <= i < j < |s| ==> s[i] != s[j]
  }

  /** The record of a granting node agrees with its history. */
  ghost predicate RecordInv(n: Node, now: Instant) {
    && n.renewals != [] && |n.issued| == |n.renewals| && Distinct(n.issued)
    && n.Ends() <= now + MAX_LEASE_SECS * SECOND
    && (n.entry.Some? && n.entry.value.Active? ==>
          && n.entry.value.lease.expiration == n.Ends()
          && n.entry.value.lease.token == Last(n.issued)
          && n.entry.value.lease.previous ==
             if |n.issued| == 1 then None else Some(n.issued[|n.issued| - 2]))
  }

  ghost predicate RootInv(s: State) {
    && s.nodes != [] && !s.IsLeaf(0)
    && var root := s.nodes[0];
    && RecordInv(root, s.now) && root.call.None? && root.held.None?
    && (forall j :: 0 <= j < |root.renewals| - 1 ==>
          root.renewals[j].expiration + (MAX_LEASE_SECS - MIN_REFRESH_SECS) * SECOND <= root.renewals[j + 1].expiration)
    && (root.entry.Some? && root.entry.value.Tombstone? ==>
          root.entry.value.ReservedUntil() == root.Ends() + TOMBSTONE_SECS * SECOND)
    && (root.entry.None? ==> root.Ends() + TOMBSTONE_SECS * SECOND <= s.now)
  }

  /** Every generation of a holder outlasts the one it rests on by the time its
      answer took and less than a second of rounding. */
  ghost predicate Rests(w: Renewal, g: Node) {
    && w.origin < |g.renewals| && w.origin < |g.issued| && w.rounding < SECOND
    && w.expiration == g.renewals[w.origin].expiration + w.delay + w.rounding
  }

  /** Node i + 1 as the holder of a lease from node i. */
  ghost predicate HolderInv(s: State, i: nat)
    requires i + 1 < |s.nodes|
  {
    var g, h := s.nodes[i], s.nodes[i + 1];
    && h.held.Some? && h.renewals != []
    && h.held.value.minRefresh + DELEGATION_MARGIN * i == MIN_REFRESH_SECS
    && (forall j :: 0 <= j < |h.renewals| ==> Rests(h.renewals[j], g))
    && h.held.value.token == g.issued[h.Origin()]
    && (s.IsLeaf(i + 1) ==> h.entry.None?)
    && (!s.IsLeaf(i + 1) ==> RecordInv(h, s.now) && CanDelegate(h.held.value))
  }

  /** A bridge with a call open serves its child's current token. */
  ghost predicate CallInv(s: State, i: nat)
    requires i < |s.nodes|
  {
    s.nodes[i].call.Some? ==>
      var c := s.nodes[i].call.value;
      && c.openedAt <= s.now
      && (s.IsLeaf(i) <==> c.child.None?)
      && (!s.IsLeaf(i) ==>
            i + 1 < |s.nodes| && s.nodes[i].issued != [] && c.child.value.token == Last(s.nodes[i].issued))
  }

  ghost predicate RequestInv(s: State, r: Request) {
    && r.link + 1 < |s.nodes| && r.sentAt <= s.now
    && var g := s.nodes[r.link];
    && 0 <= r.index < |g.issued| && r.index < |g.renewals|
    && r.token == g.issued[r.index]
    && (s.paced ==> g.renewals[r.index].expiration <= r.sentAt + MIN_REFRESH_SECS * SECOND)
  }

  ghost predicate ReplyInv(s: State, p: Reply) {
    && p.link + 1 < |s.nodes| && p.sentAt <= s.now
    && var g, a := s.nodes[p.link], p.assignment;
    && 0 <= p.index < |g.renewals| && p.index < |g.issued|
    && a.token == g.issued[p.index] && a.expiresSeconds <= MAX_LEASE_SECS
    && a.minRefresh + DELEGATION_MARGIN * (p.link + 1) == MIN_REFRESH_SECS + DELEGATION_MARGIN
    && p.rounding < SECOND
    && p.sentAt + a.expiresSeconds * SECOND == g.renewals[p.index].expiration + p.rounding
  }

  /** Until somebody takes the last offer, nobody can refresh at the last node. */
  ghost predicate OfferInv(s: State) {
    && (!s.leaf ==> s.nodes != [] && |Last(s.nodes).renewals| == 1 && Last(s.nodes).call.None?)
    && (s.offer.Some? ==>
          && !s.leaf && s.nodes != [] && |Last(s.nodes).issued| == 1
          && var o, n := s.offer.value, Last(s.nodes);
          && o.sentAt <= s.now && |n.renewals| == 1
          && o.assignment.token == n.issued[0] && o.assignment.expiresSeconds <= MAX_LEASE_SECS
          && o.assignment.minRefresh + DELEGATION_MARGIN * |s.nodes| == MIN_REFRESH_SECS + DELEGATION_MARGIN
          && n.renewals[0].expiration == o.sentAt + o.assignment.expiresSeconds * SECOND)
  }

  ghost predicate Inv(s: State) {
    && RootInv(s)
    && (forall i: nat :: i + 1 < |s.nodes| ==> HolderInv(s, i))
    && (forall i: nat :: i < |s.nodes| ==> CallInv(s, i))
    && (forall r :: r in s.requests ==> RequestInv(s, r))
    && (forall p :: p in s.replies ==> ReplyInv(s, p))
    && OfferInv(s)
  }

  lemma {:induction false} InitHasInv(s: State)
    requires Init(s)
    ensures Inv(s)
  {}

  lemma {:induction false} TickKeepsInv(s: State, dt: nat)
    requires Inv(s)
    ensures Inv(Apply(s, Tick(dt)))
  {
    var s' := Apply(s, Tick(dt));
    forall i: nat | i + 1 < |s'.nodes| ensures HolderInv(s', i) { assert HolderInv(s, i); }
    forall i: nat | i < |s'.nodes| ensures CallInv(s', i) { assert CallInv(s, i); }
    forall r | r in s'.requests ensures RequestInv(s', r) { assert RequestInv(s, r); }
    forall p | p in s'.replies ensures ReplyInv(s', p) { assert ReplyInv(s, p); }
  }

  /** Losing or tombstoning one record, or closing one call, breaks nothing. */
  lemma {:induction false} WeakenNode(s: State, i: nat, n': Node)
    requires Inv(s) && i < |s.nodes|
    requires n' == s.nodes[i].(entry := n'.entry, call := n'.call)
    requires n'.call.None? || n'.call == s.nodes[i].call
    requires n'.entry.None? || n'.entry == s.nodes[i].entry || (i > 0 && !s.IsLeaf(i) && n'.entry.value.Tombstone?)
             || (i == 0 && n'.entry.value == Tombstone(n'.Ends() + TOMBSTONE_SECS * SECOND))
    requires i == 0 && n'.entry.None? ==> n'.Ends() + TOMBSTONE_SECS * SECOND <= s.now
    ensures Inv(s.(nodes := s.nodes[i := n']))
  {
    var s' := s.(nodes := s.nodes[i := n']);
    forall k: nat | k + 1 < |s'.nodes| ensures HolderInv(s', k) { assert HolderInv(s, k); }
    forall k: nat | k < |s'.nodes| ensures CallInv(s', k) { assert CallInv(s, k); }
    forall r | r in s'.requests ensures RequestInv(s', r) { assert RequestInv(s, r); }
    forall p | p in s'.replies ensures ReplyInv(s', p) { assert ReplyInv(s, p); }
  }

  lemma {:induction false} GcKeepsInv(s: State, i: nat)
    requires Inv(s) && i < |s.nodes|
    ensures Inv(Apply(s, Gc(i)))
  {
    if i > 0 { assert HolderInv(s, i - 1); }
    WeakenNode(s, i, s.nodes[i].(entry := Collected(s.nodes[i].entry, s.now)));
  }

  lemma {:induction false} UnplugKeepsInv(s: State, i: nat)
    requires Inv(s) && s.IsBridge(i)
    ensures Inv(Apply(s, Unplug(i)))
  {
    WeakenNode(s, i, Apply(s, Unplug(i)).nodes[i]);
  }

  lemma {:induction false} JoinKeepsInv(s: State, step: Step)
    requires Inv(s) && Enabled(s, step) && (step.JoinBridge? || step.JoinLeaf?)
    ensures Inv(Apply(s, step))
  {
    var s' := Apply(s, step);
    forall k: nat | k + 1 < |s'.nodes| ensures HolderInv(s', k) {
      if k + 1 < |s.nodes| {
        assert HolderInv(s, k);
      } else if k > 0 {
        assert HolderInv(s, k - 1);
      }
    }
    forall k: nat | k < |s'.nodes| ensures CallInv(s', k) {
      if k < |s.nodes| { assert CallInv(s, k); }
    }
    forall r | r in s'.requests ensures RequestInv(s', r) { assert RequestInv(s, r); }
    forall p | p in s'.replies ensures ReplyInv(s', p) { assert ReplyInv(s, p); }
  }

  /** Node i may open a call on behalf of `child`. */
  ghost predicate MayCall(s: State, i: nat, child: Option<Child>) {
    && 0 < i < |s.nodes| && s.nodes[i].call.None?
    && s.nodes[i].held.Some? && s.nodes[i].renewals != []
    && (s.IsLeaf(i) <==> child.None?)
    && (child.Some? ==>
          i + 1 < |s.nodes| && s.nodes[i].issued != [] && child.value.token == Last(s.nodes[i].issued))
    && (s.paced ==> s.nodes[i].Ends() <= s.now + MIN_REFRESH_SECS * SECOND)
  }

  lemma {:induction false} OpenedCallMessages(s: State, i: nat, port: nat, child: Option<Child>)
    requires Inv(s) && MayCall(s, i, child)
    ensures var s' := OpenCall(s, i, port, child);
            && (forall r :: r in s'.requests ==> RequestInv(s', r))
            && (forall p :: p in s'.replies ==> ReplyInv(s', p))
  {
    var s' := OpenCall(s, i, port, child);
    assert HolderInv(s, i - 1);
    forall r | r in s'.requests ensures RequestInv(s', r) {
      if r in s.requests { assert RequestInv(s, r); } else { assert Rests(Last(s.nodes[i].renewals), s.nodes[i - 1]); }
    }
    forall p | p in s'.replies ensures ReplyInv(s', p) { assert ReplyInv(s, p); }
  }

  /** Opening a call is safe when the caller's lease is inside the root's window. */
  lemma {:induction false} OpenCallKeepsInv(s: State, i: nat, port: nat, child: Option<Child>)
    requires Inv(s) && MayCall(s, i, child)
    ensures Inv(OpenCall(s, i, port, child))
  {
    var s' := OpenCall(s, i, port, child);
    forall k: nat | k + 1 < |s'.nodes| ensures HolderInv(s', k) { assert HolderInv(s, k); }
    forall k: nat | k < |s'.nodes| ensures CallInv(s', k) { assert CallInv(s, k); }
    OpenedCallMessages(s, i, port, child);
  }

  lemma {:induction false} LeafCallKeepsInv(s: State, port: nat)
    requires Inv(s) && Enabled(s, LeafCall(port))
    ensures Inv(Apply(s, LeafCall(port)))
  {
    assert HolderInv(s, |s.nodes| - 2);
    OpenCallKeepsInv(s, |s.nodes| - 1, port, None);
  }

  lemma {:induction false} AddReplyKeepsInv(s: State, p: Reply)
    requires Inv(s) && ReplyInv(s, p)
    ensures Inv(s.(replies := s.replies + {p}))
  {
    var s' := s.(replies := s.replies + {p});
    forall k: nat | k + 1 < |s'.nodes| ensures HolderInv(s', k) { assert HolderInv(s, k); }
    forall k: nat | k < |s'.nodes| ensures CallInv(s', k) { assert CallInv(s, k); }
    forall r | r in s'.requests ensures RequestInv(s', r) { assert RequestInv(s, r); }
    forall q | q in s'.replies ensures ReplyInv(s', q) { if q in s.replies { assert ReplyInv(s, q); } }
  }

  /** One more generation at node i, and its call closed. */
  ghost predicate Renewed(s: State, i: nat, w: Renewal, n': Node) {
    && i < |s.nodes| && (s.leaf || i + 1 < |s.nodes|)
    && n'.renewals == s.nodes[i].renewals + [w] && n'.call.None?
    && s.nodes[i].issued <= n'.issued && (s.IsLeaf(i) ==> n'.entry.None?)
  }

  lemma {:induction false} RenewedMessages(s: State, i: nat, w: Renewal, n': Node)
    requires Inv(s) && Renewed(s, i, w, n')
    ensures var s' := s.(nodes := s.nodes[i := n']);
            && (forall r :: r in s'.requests ==> RequestInv(s', r))
            && (forall p :: p in s'.replies ==> ReplyInv(s', p))
            && (forall k: nat :: k < |s'.nodes| ==> CallInv(s', k))
  {
    var s' := s.(nodes := s.nodes[i := n']);
    forall r | r in s'.requests ensures RequestInv(s', r) { assert RequestInv(s, r); }
    forall p | p in s'.replies ensures ReplyInv(s', p) { assert ReplyInv(s, p); }
    forall k: nat | k < |s'.nodes| ensures CallInv(s', k) { assert CallInv(s, k); }
  }

  /** The holders below see a longer history of the same record. */
  lemma {:induction false} RenewedAsGrantor(s: State, i: nat, w: Renewal, n': Node)
    requires Inv(s) && Renewed(s, i, w, n') && i + 1 < |s.nodes|
    ensures HolderInv(s.(nodes := s.nodes[i := n']), i)
  {
    assert HolderInv(s, i);
  }

  lemma {:induction false} RenewedRootKeepsInv(s: State, w: Renewal, n': Node)
    requires Inv(s) && Renewed(s, 0, w, n') && RootInv(s.(nodes := s.nodes[0 := n']))
    ensures Inv(s.(nodes := s.nodes[0 := n']))
  {
    var s' := s.(nodes := s.nodes[0 := n']);
    RenewedMessages(s, 0, w, n');
    forall k: nat | k + 1 < |s'.nodes| ensures HolderInv(s', k) {
      if k == 0 { RenewedAsGrantor(s, 0, w, n'); } else { assert HolderInv(s, k); }
    }
  }

  lemma {:induction false} RenewedHolderKeepsInv(s: State, i: nat, w: Renewal, n': Node)
    requires Inv(s) && 0 < i && Renewed(s, i, w, n') && Rests(w, s.nodes[i - 1])
    requires n'.held.Some? && n'.held.value.minRefresh + DELEGATION_MARGIN * (i - 1) == MIN_REFRESH_SECS
    requires n'.held.value.token == s.nodes[i - 1].issued[w.origin]
    requires !s.IsLeaf(i) ==> RecordInv(n', s.now) && CanDelegate(n'.held.value)
    ensures Inv(s.(nodes := s.nodes[i := n']))
  {
    var s' := s.(nodes := s.nodes[i := n']);
    RenewedMessages(s, i, w, n');
    forall k: nat | k + 1 < |s'.nodes| ensures HolderInv(s', k) {
      assert HolderInv(s, k);
      if k == i { RenewedAsGrantor(s, i, w, n'); }
    }
  }

  lemma {:induction false} RootExtensionKeepsInv(s: State, r: Request, newToken: Token)
    requires Inv(s) && Enabled(s, ServeRoot(r, newToken)) && s.nodes[0].entry.Some?
    requires Extends(s.nodes[0].entry.value, RefreshRequest(s.now, r.token, newToken))
    ensures Inv(ApplyServeRoot(s, r, newToken))
  {
    var root := s.nodes[0];
    var (kind, answer) := RootRefresh(s.netId, root.entry.value, r.token, s.now, newToken);
    var root' := Extended(root, kind.lease);
    assert RequestInv(s, r);
    RenewedRootKeepsInv(s, Last(root'.renewals), root');
    var p := Reply(0, r.port, answer.value, root'.Gen(), s.now,
                   Rounding(answer.value.expiresSeconds, s.now, root'.Ends()));
    assert ReplyInv(s.(nodes := s.nodes[0 := root']), p);
    AddReplyKeepsInv(s.(nodes := s.nodes[0 := root']), p);
  }

  lemma {:induction false} RootReplayKeepsInv(s: State, r: Request, newToken: Token)
    requires Inv(s) && Enabled(s, ServeRoot(r, newToken)) && s.nodes[0].entry.Some?
    requires !Extends(s.nodes[0].entry.value, RefreshRequest(s.now, r.token, newToken))
    requires RootRefresh(s.netId, s.nodes[0].entry.value, r.token, s.now, newToken).1.Ok?
    ensures Inv(ApplyServeRoot(s, r, newToken))
  {
    var root := s.nodes[0];
    var answer := RootRefresh(s.netId, root.entry.value, r.token, s.now, newToken).1.value;
    assert RequestInv(s, r);
    var p := Reply(0, r.port, answer, root.Gen(), s.now, Rounding(answer.expiresSeconds, s.now, root.Ends()));
    assert ReplyInv(s, p);
    assert s.nodes[0 := root] == s.nodes;
    AddReplyKeepsInv(s, p);
  }

  lemma {:induction false} ServeRootKeepsInv(s: State, r: Request, newToken: Token)
    requires Inv(s) && Enabled(s, ServeRoot(r, newToken))
    ensures Inv(ApplyServeRoot(s, r, newToken))
  {
    var root := s.nodes[0];
    if root.entry.Some? {
      var (kind, answer) := RootRefresh(s.netId, root.entry.value, r.token, s.now, newToken);
      if answer.Err? {
        WeakenNode(s, 0, root.(entry := Some(kind)));
      } else if Extends(root.entry.value, RefreshRequest(s.now, r.token, newToken)) {
        RootExtensionKeepsInv(s, r, newToken);
      } else {
        RootReplayKeepsInv(s, r, newToken);
      }
    }
  }

  lemma {:induction false} BridgeReplayKeepsInv(s: State, r: Request, kind: LeaseKind, a: SeedNetAssignment)
    requires Inv(s) && r in s.requests && s.IsBridge(r.link) && s.nodes[r.link].entry == Some(kind)
    requires s.nodes[r.link].held.Some? && CanDelegate(s.nodes[r.link].held.value)
    requires PrepareRefresh(kind, s.nodes[r.link].held, r.token, s.now).1 == Ok(ReplayAnswer(a))
    ensures var n := s.nodes[r.link];
            Inv(s.(replies := s.replies + {Reply(r.link, r.port, a, n.Gen(), s.now,
                                                 Rounding(a.expiresSeconds, s.now, n.Ends()))}))
  {
    var n := s.nodes[r.link];
    var p := Reply(r.link, r.port, a, n.Gen(), s.now, Rounding(a.expiresSeconds, s.now, n.Ends()));
    assert RequestInv(s, r) && HolderInv(s, r.link - 1);
    assert ReplyInv(s, p);
    AddReplyKeepsInv(s, p);
  }

  lemma {:induction false} BridgeForwardKeepsInv(s: State, r: Request, kind: LeaseKind, port: nat)
    requires Inv(s) && Enabled(s, ServeBridge(r, port)) && s.nodes[r.link].entry == Some(kind)
    requires kind.Active? && kind.lease.token == r.token
    ensures Inv(OpenCall(s, r.link, port, Some(Child(r.port, r.token))))
  {
    assert RequestInv(s, r) && HolderInv(s, r.link - 1);
    OpenCallKeepsInv(s, r.link, port, Some(Child(r.port, r.token)));
  }

  lemma {:induction false} ServeBridgeKeepsInv(s: State, r: Request, port: nat)
    requires Inv(s) && Enabled(s, ServeBridge(r, port))
    ensures Inv(ApplyServeBridge(s, r, port))
  {
    var i := r.link;
    var n := s.nodes[i];
    match Collected(n.entry, s.now) {
      case None => WeakenNode(s, i, n.(entry := None));
      case Some(k) =>
        var (kind, prepared) := PrepareRefresh(k, n.held, r.token, s.now);
        if prepared.Err? {
          WeakenNode(s, i, n.(entry := Some(kind)));
        } else {
          assert kind == k == n.entry.value;
          assert s.nodes[i := n] == s.nodes;
          match prepared.value {
            case ReplayAnswer(a) => BridgeReplayKeepsInv(s, r, k, a);
            case Forward(_) => BridgeForwardKeepsInv(s, r, k, port);
          }
        }
    }
  }

  lemma {:induction false} LeafAcceptKeepsInv(s: State, p: Reply)
    requires Inv(s) && p in s.replies && s.IsLeaf(p.link + 1)
    ensures Inv(ApplyLeafAccept(s, p))
  {
    assert ReplyInv(s, p) && HolderInv(s, p.link);
    var n := s.nodes[p.link + 1];
    RenewedHolderKeepsInv(s, p.link + 1, RenewalBy(s, p),
                          n.(held := Some(Held(p.assignment)), call := None,
                             renewals := n.renewals + [RenewalBy(s, p)]));
  }

  /** An upstream answer a bridge accepts in time, whichever call it was meant for. */
  ghost predicate Commits(s: State, p: Reply, newToken: Token) {
    && p in s.replies && p.link + 1 < |s.nodes| && !s.IsLeaf(p.link + 1) && p.sentAt <= s.now && p.index >= 0
    && var n := s.nodes[p.link + 1];
    && n.call.Some? && n.call.value.child.Some? && newToken !in n.issued
  }

  /** What a commit draws on: while the call is open the child's token stays current. */
  lemma {:induction false} CommitFacts(s: State, p: Reply, newToken: Token)
    requires Inv(s) && Commits(s, p, newToken)
    ensures var n := s.nodes[p.link + 1];
            && n.held.Some? && RecordInv(n, s.now) && p.link + 2 < |s.nodes|
            && n.call.value.child.value.token == Last(n.issued)
    ensures ReplyInv(s, p)
  {
    assert HolderInv(s, p.link) && CallInv(s, p.link + 1);
  }

  /** A commit that goes through: the new record, and the answer for the child. */
  lemma {:induction false} GrantedCommitKeepsInv(s: State, p: Reply, newToken: Token, n': Node)
    requires Inv(s) && Commits(s, p, newToken) && CanDelegate(Held(p.assignment))
    requires var n := s.nodes[p.link + 1]; var w := RenewalBy(s, p);
             && n.issued != []
             && n' == Node(Some(Active(Lease(w.expiration, newToken, Some(Last(n.issued))))), Some(Held(p.assignment)),
                           None, n.issued + [newToken], n.renewals + [w])
    ensures Inv(s.(nodes := s.nodes[p.link + 1 := n'],
                   replies := s.replies + {Reply(p.link + 1, s.nodes[p.link + 1].call.value.child.value.port,
                                                 DelegatedAssignment(Held(p.assignment), newToken,
                                                                     p.assignment.expiresSeconds),
                                                 n'.Gen(), s.now, 0)}))
  {
    CommitFacts(s, p, newToken);
    var i := p.link + 1;
    assert HolderInv(s, p.link);
    RenewedHolderKeepsInv(s, i, RenewalBy(s, p), n');
    var s' := s.(nodes := s.nodes[i := n']);
    var q := Reply(i, s.nodes[i].call.value.child.value.port,
                   DelegatedAssignment(Held(p.assignment), newToken, p.assignment.expiresSeconds), n'.Gen(), s.now, 0);
    assert ReplyInv(s', q);
    AddReplyKeepsInv(s', q);
  }

  lemma {:induction false} CommitKeepsInv(s: State, p: Reply, newToken: Token)
    requires Inv(s) && Commits(s, p, newToken)
    ensures Inv(ApplyCommit(s, p, newToken))
  {
    CommitFacts(s, p, newToken);
    var i := p.link + 1;
    var n := s.nodes[i];
    if !CanDelegate(Held(p.assignment)) || n.entry.None? {
      WeakenNode(s, i, n.(call := None));
    } else {
      var (kind, parent, answer) :=
        CommitRefresh(n.entry.value, n.held, n.call.value.child.value.token, s.now, newToken, Held(p.assignment));
      if answer.Err? {
        WeakenNode(s, i, n.(call := None, entry := Some(kind)));
      } else {
        GrantedCommitKeepsInv(s, p, newToken,
                              n.(call := None, entry := Some(kind), held := parent, issued := n.issued + [newToken],
                                 renewals := n.renewals + [RenewalBy(s, p)]));
      }
    }
  }

  /** Every step of the protocol keeps the invariant, however late any message is. */
  lemma {:induction false} StepKeepsInv(s: State, step: Step)
    requires Inv(s) && Enabled(s, step)
    ensures Inv(Apply(s, step))
  {
    match step
    case Tick(dt) => TickKeepsInv(s, dt);
    case Gc(i) => GcKeepsInv(s, i);
    case Unplug(i) => UnplugKeepsInv(s, i);
    case JoinBridge(_) => JoinKeepsInv(s, step);
    case JoinLeaf => JoinKeepsInv(s, step);
    case LeafCall(port) => LeafCallKeepsInv(s, port);
    case ServeRoot(r, t) => ServeRootKeepsInv(s, r, t);
    case ServeBridge(r, port) => ServeBridgeKeepsInv(s, r, port);
    case Accept(p, t) => if s.IsLeaf(p.link + 1) { LeafAcceptKeepsInv(s, p); } else { CommitKeepsInv(s, p, t); }
    case GiveUp(i) => WeakenNode(s, i, s.nodes[i].(call := None));
  }
}
