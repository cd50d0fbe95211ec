/** On an acyclic network of healthy links a broadcast reaches every other node exactly once. */
module FloodingTrees {
  import opened Wrappers
  import opened Headers
  import opened Ports
  import opened RouterModel
  import opened RouterInvariant
  import opened Broadcasts
  import opened Flooding

  /** `depth` witnesses that the parent pointers have no cycle. */
  ghost predicate Forest(net: Network, depth: seq<nat>) {
    && WellWired(net) && |depth| == |net.routers|
    && forall v :: 0 <= v < |net.parent| && net.parent[v].Some? ==>
                     net.parent[v].value < |depth| && depth[v] == depth[net.parent[v].value] + 1
  }

  /** v lies in the subtree that hangs below u. */
  ghost predicate Under(net: Network, depth: seq<nat>, u: nat, v: nat)
    requires Forest(net, depth) && v < |net.routers|
    decreases depth[v]
  {
    u == v || (net.parent[v].Some? && Under(net, depth, u, net.parent[v].value))
  }

  /** Number of links between u and v, if they are in the same tree. */
  ghost function Distance(net: Network, depth: seq<nat>, u: nat, v: nat): Option<nat>
    requires Forest(net, depth) && u < |net.routers| && v < |net.routers|
    decreases depth[u]
  {
    if Under(net, depth, u, v) then
      UnderIsDeeper(net, depth, u, v);
      Some(depth[v] - depth[u])
    else if net.parent[u].None? then None
    else
      match Distance(net, depth, net.parent[u].value, v)
      case None => None
      case Some(d) => Some(d + 1)
  }

  lemma {:induction false} UnderIsDeeper(net: Network, depth: seq<nat>, u: nat, v: nat)
    requires Forest(net, depth) && u < |net.routers| && v < |net.routers| && Under(net, depth, u, v)
    ensures depth[u] <= depth[v] && (depth[u] == depth[v] ==> u == v)
    decreases depth[v]
  {
    if u != v { UnderIsDeeper(net, depth, u, net.parent[v].value); }
  }

  /** The slot of u whose subtree holds v. */
  ghost function Branch(net: Network, depth: seq<nat>, u: nat, v: nat): (k: nat)
    requires Forest(net, depth) && u < |net.routers| && v < |net.routers|
    requires Under(net, depth, u, v) && u != v
    ensures k < |net.down[u]|
    decreases depth[v]
  {
    if net.parent[v] == Some(u) then
      assert NodeWired(net, v);
      ChildIndex(net, u, v)
    else Branch(net, depth, u, net.parent[v].value)
  }

  /** Exactly one branch of u holds v, when v is strictly below u, else none. */
  lemma {:induction false} OneBranch(net: Network, depth: seq<nat>, u: nat, v: nat, k: nat)
    requires Forest(net, depth) && u < |net.routers| && v < |net.routers| && k < |net.down[u]|
    ensures NodeWired(net, u)
    ensures net.down[u][k] < |net.routers| && depth[net.down[u][k]] == depth[u] + 1
    ensures Under(net, depth, net.down[u][k], v) <==>
            Under(net, depth, u, v) && u != v && k == Branch(net, depth, u, v)
    decreases depth[v]
  {
    assert NodeWired(net, u) && NodeWired(net, v);
    var c := net.down[u][k];
    assert depth[c] == depth[u] + 1;
    if c == v {
      assert Under(net, depth, u, u) && Under(net, depth, u, v);
      assert net.down[u][ChildIndex(net, u, v)] == v;
    } else if net.parent[v].Some? {
      var p := net.parent[v].value;
      if p == u {
        assert net.down[u][ChildIndex(net, u, v)] == v;
        if Under(net, depth, c, u) { UnderIsDeeper(net, depth, c, u); }
      } else {
        OneBranch(net, depth, u, p, k);
        if u == v && Under(net, depth, c, p) { UnderIsDeeper(net, depth, c, p); }
      }
    }
  }

  /** Every node floods, and the two ends of a link agree on its number. */
  ghost predicate Healthy(net: Network) {
    && WellWired(net)
    && (forall u :: 0 <= u < |net.routers| ==> Ready(net.routers[u], net.bodyLen, net.room[u]))
    && (forall u, k :: 0 <= u < |net.routers| && 0 <= k < |net.down[u]| ==> LinkAgrees(net, u, k))
  }

  ghost predicate LinkAgrees(net: Network, u: nat, k: nat) {
    u < |net.routers| && u < |net.down| && k < |net.down[u]| && k < |net.routers[u].slots|
    && net.down[u][k] < |net.routers|
    && net.routers[net.down[u][k]].upstream.Some?
    && net.routers[net.down[u][k]].upstream.value.NetId() == Some(net.routers[u].slots[k].netId)
  }

  /** The frame came in from the parent of its node. */
  ghost predicate FromAbove(net: Network, f: Frame) {
    f.node < |net.routers| && f.source == UPSTREAM_IDENT && IsFlooding(f.hdr)
  }

  /** The frame came in from the child on slot k of its node. */
  ghost predicate FromBelow(net: Network, f: Frame, k: nat)
    requires |net.down| == |net.routers|
  {
    && f.node < |net.routers| && IsFlooding(f.hdr)
    && k < |net.down[f.node]| && k < |net.routers[f.node].slots|
    && f.source == net.routers[f.node].slots[k].ident
    && f.hdr.dst.net == net.routers[f.node].slots[k].netId
  }

  /** The copy that arrives at the node on slot k of u. */
  ghost function Copy(net: Network, u: nat, hdr: Header, k: nat): (g: Frame)
    requires WellWired(net) && u < |net.routers| && k < |net.down[u]|
    ensures g.node == net.down[u][k] < |net.routers| && g.hdr.ttl == hdr.ttl
    ensures IsFlooding(hdr) ==> FromAbove(net, g)
  {
    assert NodeWired(net, u);
    Frame(net.down[u][k], UPSTREAM_IDENT, LegTo(hdr, net.routers[u].slots[k]).header)
  }

  /** Copies sent down the first n slots, except the source's. */
  ghost function DownFrames(net: Network, u: nat, hdr: Header, source: nat, n: nat): (r: seq<Frame>)
    requires WellWired(net) && u < |net.routers| && n <= |net.down[u]|
    ensures InNet(net, r)
  {
    assert NodeWired(net, u);
    if n == 0 then []
    else
      var slot := net.routers[u].slots[n - 1];
      var front := DownFrames(net, u, hdr, source, n - 1);
      if slot.ident == source then front
      else front + [Copy(net, u, hdr, n - 1)]
  }

  lemma {:induction false} ArrivalsOfMore(net: Network, u: nat, legs: seq<Leg>, leg: Leg)
    requires WellWired(net) && u < |net.routers|
    ensures ArrivalsOf(net, u, legs + [leg]) == ArrivalsOf(net, u, legs) + Arrivals(net, u, leg)
  {
    assert (legs + [leg])[..|legs|] == legs;
  }

  lemma {:induction false} LegArrives(net: Network, u: nat, hdr: Header, k: nat)
    requires WellWired(net) && u < |net.routers| && k < |net.down[u]| && NodeWired(net, u)
    ensures Arrivals(net, u, LegTo(hdr, net.routers[u].slots[k])) == [Copy(net, u, hdr, k)]
  {
    assert SlotByIdent(net.routers[u].slots, net.routers[u].slots[k].ident) == k;
  }

  lemma {:induction false} OneMoreLeg(hdr: Header, slots: seq<Slot>, n: nat, source: nat)
    requires 0 < n <= |slots|
    ensures var legs := LegsTo(hdr, Others(slots[..n - 1], source));
            LegsTo(hdr, Others(slots[..n], source))
            == if slots[n - 1].ident == source then legs else legs + [LegTo(hdr, slots[n - 1])]
  {
    assert slots[..n][..n - 1] == slots[..n - 1];
  }

  lemma {:induction false} DownLegsArrive(net: Network, u: nat, hdr: Header, source: nat, n: nat)
    requires WellWired(net) && u < |net.routers| && n <= |net.down[u]| && NodeWired(net, u)
    ensures ArrivalsOf(net, u, LegsTo(hdr, Others(net.routers[u].slots[..n], source)))
         == DownFrames(net, u, hdr, source, n)
  {
    var slots := net.routers[u].slots;
    if n > 0 {
      DownLegsArrive(net, u, hdr, source, n - 1);
      OneMoreLeg(hdr, slots, n, source);
      LegArrives(net, u, hdr, n - 1);
      ArrivalsOfMore(net, u, LegsTo(hdr, Others(slots[..n - 1], source)), LegTo(hdr, slots[n - 1]));
    }
  }

  /** Processing a frame from above: copies to every slot. */
  lemma {:induction false} ForwardsFromAbove(net: Network, f: Frame)
    requires Healthy(net) && FromAbove(net, f) && f.hdr.ttl > 0
    ensures NodeWired(net, f.node)
    ensures Forwards(net, f)
         == DownFrames(net, f.node, f.hdr.(ttl := f.hdr.ttl - 1), UPSTREAM_IDENT, |net.down[f.node]|)
  {
    var s := net.routers[f.node];
    var hdr := f.hdr.(ttl := f.hdr.ttl - 1);
    assert NodeWired(net, f.node);
    ReadyRouterFloods(s, hdr, UPSTREAM_IDENT, net.bodyLen, net.room[f.node]);
    DownLegsArrive(net, f.node, hdr, UPSTREAM_IDENT, |s.slots|);
    assert s.slots[..|s.slots|] == s.slots;
  }

  /** The copy a node sends to its parent. */
  ghost predicate IsUpFrame(net: Network, u: nat, g: Frame, ttl: nat) {
    && WellWired(net) && u < |net.routers| && net.parent[u].Some?
    && net.parent[u].value < |net.routers|
    && u in net.down[net.parent[u].value]
    && g.node == net.parent[u].value && g.hdr.ttl == ttl
    && FromBelow(net, g, ChildIndex(net, net.parent[u].value, u))
  }

  lemma {:induction false} UpLegArrives(net: Network, u: nat, leg: Leg)
    requires Healthy(net) && u < |net.routers| && net.parent[u].Some?
    requires leg.ident == UPSTREAM_IDENT && IsFlooding(leg.header)
    requires NodeWired(net, u) && leg.header.dst.net == net.routers[u].upstream.value.state.netId
    ensures |Arrivals(net, u, leg)| == 1 && IsUpFrame(net, u, Arrivals(net, u, leg)[0], leg.header.ttl)
  {
    var p := net.parent[u].value;
    assert NodeWired(net, p);
    assert LinkAgrees(net, p, ChildIndex(net, p, u));
  }

  /** Legs down the slots and one leg up arrive as copies down and one copy up. */
  lemma {:induction false} SplitLegs(net: Network, u: nat, hdr: Header, source: nat, legs: seq<Leg>)
    requires Healthy(net) && u < |net.routers| && NodeWired(net, u)
    requires var others := Others(net.routers[u].slots, source);
             |legs| == |others| + 1 && legs[..|others|] == LegsTo(hdr, others)
    ensures ArrivalsOf(net, u, legs)
         == DownFrames(net, u, hdr, source, |net.down[u]|) + Arrivals(net, u, legs[|legs| - 1])
  {
    var slots := net.routers[u].slots;
    assert slots[..|slots|] == slots;
    DownLegsArrive(net, u, hdr, source, |slots|);
  }

  /** A frame from a slot never carries the upstream's number, so the upstream copy is made. */
  lemma {:induction false} LegsFromBelow(net: Network, f: Frame, k: nat, hdr: Header)
    requires Healthy(net) && FromBelow(net, f, k) && hdr == f.hdr.(ttl := hdr.ttl)
    ensures NodeWired(net, f.node) && f.source != UPSTREAM_IDENT
    ensures var s := net.routers[f.node];
            s.upstream.Some? ==> s.upstream.value.state.Online? && hdr.dst.net != s.upstream.value.state.netId
  {
    var s := net.routers[f.node];
    assert NodeWired(net, f.node);
    assert s.slots[k].ident < 255;
    NetPresent(s.slots, k);
  }

  lemma {:induction false} NetPresent(slots: seq<Slot>, k: nat)
    requires k < |slots|
    ensures HasNet(slots, slots[k].netId)
  {}

  /** Processing a frame from below at a root: copies to the other slots. */
  lemma {:induction false} ForwardsAtRoot(net: Network, f: Frame, k: nat)
    requires Healthy(net) && FromBelow(net, f, k) && f.hdr.ttl > 0 && net.parent[f.node].None?
    ensures NodeWired(net, f.node)
    ensures Forwards(net, f)
         == DownFrames(net, f.node, f.hdr.(ttl := f.hdr.ttl - 1), f.source, |net.down[f.node]|)
  {
    var s := net.routers[f.node];
    var hdr := f.hdr.(ttl := f.hdr.ttl - 1);
    LegsFromBelow(net, f, k, hdr);
    ReadyRouterFloods(s, hdr, f.source, net.bodyLen, net.room[f.node]);
    DownLegsArrive(net, f.node, hdr, f.source, |s.slots|);
    assert s.slots[..|s.slots|] == s.slots;
  }

  /** Processing a frame from below at a bridge: the other slots and the parent. */
  lemma {:induction false} ForwardsAtBridge(net: Network, f: Frame, k: nat) returns (g: Frame)
    requires Healthy(net) && FromBelow(net, f, k) && f.hdr.ttl > 0 && net.parent[f.node].Some?
    ensures NodeWired(net, f.node)
    ensures Forwards(net, f)
         == DownFrames(net, f.node, f.hdr.(ttl := f.hdr.ttl - 1), f.source, |net.down[f.node]|) + [g]
    ensures IsUpFrame(net, f.node, g, f.hdr.ttl - 1)
  {
    var s := net.routers[f.node];
    var hdr := f.hdr.(ttl := f.hdr.ttl - 1);
    LegsFromBelow(net, f, k, hdr);
    ReadyRouterFloods(s, hdr, f.source, net.bodyLen, net.room[f.node]);
    var legs := RawLegs(s, hdr, f.source, net.bodyLen, net.room[f.node]).legs;
    SplitLegs(net, f.node, hdr, f.source, legs);
    UpLegArrives(net, f.node, legs[|legs| - 1]);
    g := Arrivals(net, f.node, legs[|legs| - 1])[0];
  }

  // ------------------------------------------------------------------------
  // Counting deliveries
  // ------------------------------------------------------------------------

  /** How often v is delivered to by copies sent down the first n slots of u. */
  ghost predicate ReachedBelow(net: Network, depth: seq<nat>, u: nat, v: nat, source: nat, n: nat, hops: nat)
    requires Forest(net, depth) && u < |net.routers| && v < |net.routers|
  {
    && Under(net, depth, u, v) && u != v
    && Branch(net, depth, u, v) < n && Branch(net, depth, u, v) < |net.routers[u].slots|
    && net.routers[u].slots[Branch(net, depth, u, v)].ident != source
    && depth[v] <= depth[u] + hops
  }

  function One(b: bool): nat { if b then 1 else 0 }

  /** Deliveries to v by a frame that reaches u from above with `ttl` left. */
  ghost function Below(net: Network, depth: seq<nat>, u: nat, v: nat, ttl: nat): nat
    requires Forest(net, depth) && u < |net.routers| && v < |net.routers|
  {
    One(Under(net, depth, u, v) && depth[v] <= depth[u] + ttl)
  }

  ghost function BelowSlot(net: Network, depth: seq<nat>, u: nat, k: nat, source: nat, v: nat, ttl: nat): nat
    requires Forest(net, depth) && u < |net.routers| && v < |net.routers| && k < |net.down[u]|
  {
    assert NodeWired(net, u);
    if net.routers[u].slots[k].ident == source then 0 else Below(net, depth, net.down[u][k], v, ttl)
  }

  /** The n-th slot adds exactly what lies below it. */
  lemma {:induction false} ReachedStep(net: Network, depth: seq<nat>, u: nat, v: nat, source: nat, n: nat, ttl: nat)
    requires Forest(net, depth) && u < |net.routers| && v < |net.routers| && 0 < n <= |net.down[u]|
    ensures One(ReachedBelow(net, depth, u, v, source, n, ttl + 1))
            == One(ReachedBelow(net, depth, u, v, source, n - 1, ttl + 1))
             + BelowSlot(net, depth, u, n - 1, source, v, ttl)
  {
    OneBranch(net, depth, u, v, n - 1);
  }

  /** Deliveries to v that the copy on slot k of u leads to. */
  ghost function CopyTotal(net: Network, u: nat, hdr: Header, source: nat, k: nat, v: nat): nat
    requires WellWired(net) && u < |net.routers| && k < |net.down[u]|
  {
    assert NodeWired(net, u);
    if net.routers[u].slots[k].ident == source then 0 else Deliveries(net, Copy(net, u, hdr, k))[v]
  }

  /** The n-th slot adds the deliveries of its copy, unless it is the source. */
  lemma {:induction false} LastCopy(net: Network, u: nat, hdr: Header, source: nat, n: nat, v: nat)
    requires WellWired(net) && u < |net.routers| && 0 < n <= |net.down[u]|
    ensures DeliveriesOf(net, DownFrames(net, u, hdr, source, n))[v]
         == DeliveriesOf(net, DownFrames(net, u, hdr, source, n - 1))[v] + CopyTotal(net, u, hdr, source, n - 1, v)
  {
    assert NodeWired(net, u);
    var front := DownFrames(net, u, hdr, source, n - 1);
    if net.routers[u].slots[n - 1].ident == source {
      assert DownFrames(net, u, hdr, source, n) == front;
    } else {
      assert DownFrames(net, u, hdr, source, n) == front + [Copy(net, u, hdr, n - 1)];
      AppendFrame(net, front, Copy(net, u, hdr, n - 1));
    }
  }

  lemma {:induction false} CountDown(net: Network, depth: seq<nat>, u: nat, hdr: Header, source: nat, n: nat, v: nat)
    requires Healthy(net) && Forest(net, depth) && u < |net.routers| && v < |net.routers|
    requires n <= |net.down[u]| && IsFlooding(hdr)
    ensures DeliveriesOf(net, DownFrames(net, u, hdr, source, n))[v]
         == One(ReachedBelow(net, depth, u, v, source, n, hdr.ttl + 1))
    decreases hdr.ttl, 3, n
  {
    if n > 0 {
      CountDown(net, depth, u, hdr, source, n - 1, v);
      ReachedStep(net, depth, u, v, source, n, hdr.ttl);
      LastCopy(net, u, hdr, source, n, v);
      CountCopy(net, depth, u, hdr, source, n - 1, v);
    }
  }

  lemma {:induction false} CountCopy(net: Network, depth: seq<nat>, u: nat, hdr: Header, source: nat, k: nat, v: nat)
    requires Healthy(net) && Forest(net, depth) && u < |net.routers| && v < |net.routers|
    requires k < |net.down[u]| && IsFlooding(hdr)
    ensures CopyTotal(net, u, hdr, source, k, v) == BelowSlot(net, depth, u, k, source, v, hdr.ttl)
    decreases hdr.ttl, 2, 0
  {
    CountFromAbove(net, depth, Copy(net, u, hdr, k), v);
  }

  lemma {:induction false} AppendFrame(net: Network, fs: seq<Frame>, g: Frame)
    requires WellWired(net) && InNet(net, fs) && g.node < |net.routers|
    ensures InNet(net, fs + [g])
    ensures DeliveriesOf(net, fs + [g]) == DeliveriesOf(net, fs) + Deliveries(net, g)
  {
    assert (fs + [g])[..|fs|] == fs;
  }

  /** A frame from above reaches exactly the subtree of its node, within its TTL, once each. */
  lemma {:induction false} CountFromAbove(net: Network, depth: seq<nat>, f: Frame, v: nat)
    requires Healthy(net) && Forest(net, depth) && v < |net.routers| && FromAbove(net, f)
    ensures Deliveries(net, f)[v] == Below(net, depth, f.node, v, f.hdr.ttl)
    decreases f.hdr.ttl, 1, 0
  {
    var u := f.node;
    ForwardOnce(net, f);
    assert NodeWired(net, u);
    if Under(net, depth, u, v) { UnderIsDeeper(net, depth, u, v); }
    if f.hdr.ttl > 0 {
      ForwardsFromAbove(net, f);
      CountDown(net, depth, u, f.hdr.(ttl := f.hdr.ttl - 1), UPSTREAM_IDENT, |net.down[u]|, v);
      if Under(net, depth, u, v) && u != v {
        assert net.routers[u].slots[Branch(net, depth, u, v)].ident < 255;
      }
    }
  }

  /** v is within `hops` links of u, not counting through the child c. */
  ghost predicate Beyond(net: Network, depth: seq<nat>, c: nat, u: nat, v: nat, hops: nat)
    requires Forest(net, depth) && u < |net.routers| && v < |net.routers|
  {
    && !Under(net, depth, c, v)
    && Distance(net, depth, u, v).Some?
    && Distance(net, depth, u, v).value <= hops
  }

  lemma {:induction false} UnderChildIsUnder(net: Network, depth: seq<nat>, u: nat, k: nat, v: nat)
    requires Forest(net, depth) && u < |net.routers| && k < |net.down[u]| && v < |net.routers|
    ensures NodeWired(net, u)
    ensures Under(net, depth, net.down[u][k], v) ==> Under(net, depth, u, v) && u != v
  {
    OneBranch(net, depth, u, v, k);
  }

  /** Copies to the other slots reach what lies below u but not below the source slot. */
  lemma {:induction false} CountSideways(net: Network, depth: seq<nat>, f: Frame, k: nat, v: nat)
    requires Healthy(net) && Forest(net, depth) && v < |net.routers| && FromBelow(net, f, k) && f.hdr.ttl > 0
    ensures NodeWired(net, f.node)
    ensures DeliveriesOf(net, DownFrames(net, f.node, f.hdr.(ttl := f.hdr.ttl - 1), f.source, |net.down[f.node]|))[v]
         == One(Under(net, depth, f.node, v) && f.node != v && !Under(net, depth, net.down[f.node][k], v)
                && depth[v] <= depth[f.node] + f.hdr.ttl)
  {
    var u := f.node;
    assert NodeWired(net, u);
    CountDown(net, depth, u, f.hdr.(ttl := f.hdr.ttl - 1), f.source, |net.down[u]|, v);
    OneBranch(net, depth, u, v, k);
  }

  /** A frame from below reaches everything outside the subtree it came from, within its TTL, once each. */
  lemma {:induction false} CountFromBelow(net: Network, depth: seq<nat>, f: Frame, k: nat, v: nat)
    requires Healthy(net) && Forest(net, depth) && v < |net.routers| && FromBelow(net, f, k)
    ensures NodeWired(net, f.node)
    ensures Deliveries(net, f)[v] == One(Beyond(net, depth, net.down[f.node][k], f.node, v, f.hdr.ttl))
    decreases f.hdr.ttl, 0
  {
    BeyondStep(net, depth, f.node, k, v, f.hdr.ttl);
    if f.hdr.ttl == 0 {
      ForwardOnce(net, f);
    } else {
      CountForwards(net, depth, f, k, v);
      AfterForwards(net, f, v);
    }
  }

  lemma {:induction false} AfterForwards(net: Network, f: Frame, v: nat)
    requires WellWired(net) && f.node < |net.routers|
    ensures Deliveries(net, f)[v] == One(f.node == v) + DeliveriesOf(net, Forwards(net, f))[v]
  {
    ForwardOnce(net, f);
  }

  lemma {:induction false} CountForwards(net: Network, depth: seq<nat>, f: Frame, k: nat, v: nat)
    requires Healthy(net) && Forest(net, depth) && v < |net.routers| && FromBelow(net, f, k) && f.hdr.ttl > 0
    ensures NodeWired(net, f.node)
    ensures DeliveriesOf(net, Forwards(net, f))[v]
         == One(Under(net, depth, f.node, v) && f.node != v && !Under(net, depth, net.down[f.node][k], v)
                && depth[v] <= depth[f.node] + f.hdr.ttl)
          + One(Above(net, depth, f.node, v, f.hdr.ttl))
    decreases f.hdr.ttl - 1, 2
  {
    CountSideways(net, depth, f, k, v);
    if net.parent[f.node].None? {
      ForwardsAtRoot(net, f, k);
    } else {
      var g := ForwardsAtBridge(net, f, k);
      CountUp(net, depth, f.node, g, f.hdr.ttl - 1, v);
      AppendFrame(net, DownFrames(net, f.node, f.hdr.(ttl := f.hdr.ttl - 1), f.source, |net.down[f.node]|), g);
    }
  }

  ghost predicate Above(net: Network, depth: seq<nat>, u: nat, v: nat, hops: nat)
    requires Forest(net, depth) && u < |net.routers| && v < |net.routers|
  {
    && net.parent[u].Some? && !Under(net, depth, u, v)
    && Distance(net, depth, u, v).Some? && Distance(net, depth, u, v).value <= hops
  }

  /** What is reachable without the source slot: the node, its other slots, its parent's side. */
  lemma {:induction false} BeyondStep(net: Network, depth: seq<nat>, u: nat, k: nat, v: nat, hops: nat)
    requires Forest(net, depth) && u < |net.routers| && v < |net.routers| && k < |net.down[u]|
    ensures NodeWired(net, u)
    ensures var c := net.down[u][k];
            One(Beyond(net, depth, c, u, v, hops))
            == One(u == v)
             + One(Under(net, depth, u, v) && u != v && !Under(net, depth, c, v) && depth[v] <= depth[u] + hops)
             + One(Above(net, depth, u, v, hops))
    ensures hops == 0 && Under(net, depth, u, v) && u != v ==> depth[v] > depth[u]
    ensures hops == 0 ==> !Above(net, depth, u, v, hops)
  {
    UnderChildIsUnder(net, depth, u, k, v);
    if Under(net, depth, u, v) { UnderIsDeeper(net, depth, u, v); }
  }

  /** The copy sent to the parent reaches what is not below u. */
  lemma {:induction false} CountUp(net: Network, depth: seq<nat>, u: nat, g: Frame, ttl: nat, v: nat)
    requires Healthy(net) && Forest(net, depth) && v < |net.routers| && IsUpFrame(net, u, g, ttl)
    ensures Deliveries(net, g)[v]
         == One(Above(net, depth, u, v, ttl + 1))
    decreases ttl, 1
  {
    var p := net.parent[u].value;
    assert NodeWired(net, p);
    CountFromBelow(net, depth, g, ChildIndex(net, p, u), v);
  }

  // ------------------------------------------------------------------------
  // A broadcast from its origin
  // ------------------------------------------------------------------------

  /** The frames node `o` puts on its links for a broadcast of its own. */
  ghost function Origin(net: Network, o: nat, hdr: Header): (r: seq<Frame>)
    requires WellWired(net) && o < |net.routers|
    ensures InNet(net, r)
  {
    if hdr.ttl == 0 then []
    else ArrivalsOf(net, o, SendLegs(net.routers[o], hdr.(ttl := hdr.ttl - 1), net.room[o]).legs)
  }

  lemma {:induction false} OthersIsAll(slots: seq<Slot>, source: nat)
    requires forall i :: 0 <= i < |slots| ==> slots[i].ident != source
    ensures Others(slots, source) == slots
  {
    if slots != [] { OthersIsAll(slots[..|slots| - 1], source); }
  }

  /** With no source slot to skip, copies down reach the whole subtree but its top. */
  lemma {:induction false} CountOwnSubtree(net: Network, depth: seq<nat>, o: nat, hdr: Header, v: nat)
    requires Healthy(net) && Forest(net, depth) && o < |net.routers| && v < |net.routers| && IsFlooding(hdr)
    ensures DeliveriesOf(net, DownFrames(net, o, hdr, UPSTREAM_IDENT, |net.down[o]|))[v]
         == One(Under(net, depth, o, v) && o != v && depth[v] <= depth[o] + hdr.ttl + 1)
  {
    assert NodeWired(net, o);
    CountDown(net, depth, o, hdr, UPSTREAM_IDENT, |net.down[o]|, v);
    if Under(net, depth, o, v) && o != v {
      assert net.routers[o].slots[Branch(net, depth, o, v)].ident < 255;
    }
  }

  lemma {:induction false} OriginAtRoot(net: Network, o: nat, hdr: Header)
    requires Healthy(net) && o < |net.routers| && net.parent[o].None?
    requires IsFlooding(hdr) && hdr.dst.net == 0 && hdr.ttl > 0
    ensures Origin(net, o, hdr) == DownFrames(net, o, hdr.(ttl := hdr.ttl - 1), UPSTREAM_IDENT, |net.down[o]|)
  {
    var s, spent := net.routers[o], hdr.(ttl := hdr.ttl - 1);
    assert NodeWired(net, o);
    ReadyRouterSends(s, spent, net.bodyLen, net.room[o]);
    OthersIsAll(s.slots, UPSTREAM_IDENT);
    DownLegsArrive(net, o, spent, UPSTREAM_IDENT, |s.slots|);
    assert s.slots[..|s.slots|] == s.slots;
  }

  lemma {:induction false} OriginAtBridge(net: Network, o: nat, hdr: Header) returns (g: Frame)
    requires Healthy(net) && o < |net.routers| && net.parent[o].Some?
    requires IsFlooding(hdr) && hdr.dst.net == 0 && hdr.ttl > 0
    ensures Origin(net, o, hdr)
         == DownFrames(net, o, hdr.(ttl := hdr.ttl - 1), UPSTREAM_IDENT, |net.down[o]|) + [g]
    ensures IsUpFrame(net, o, g, hdr.ttl - 1)
  {
    var s, spent := net.routers[o], hdr.(ttl := hdr.ttl - 1);
    assert NodeWired(net, o);
    ReadyRouterSends(s, spent, net.bodyLen, net.room[o]);
    OthersIsAll(s.slots, UPSTREAM_IDENT);
    var legs := SendLegs(s, spent, net.room[o]).legs;
    SplitLegs(net, o, spent, UPSTREAM_IDENT, legs);
    UpLegArrives(net, o, legs[|legs| - 1]);
    g := Arrivals(net, o, legs[|legs| - 1])[0];
  }

  ghost predicate Reaches(net: Network, depth: seq<nat>, o: nat, v: nat, hops: nat)
    requires Forest(net, depth) && o < |net.routers| && v < |net.routers|
  {
    o != v && Distance(net, depth, o, v).Some? && Distance(net, depth, o, v).value <= hops
  }

  /** The nodes reached split into the origin's own subtree and the rest of its tree. */
  lemma {:induction false} ReachSplits(net: Network, depth: seq<nat>, o: nat, v: nat, hops: nat)
    requires Forest(net, depth) && o < |net.routers| && v < |net.routers|
    ensures One(Reaches(net, depth, o, v, hops))
         == One(Under(net, depth, o, v) && o != v && depth[v] <= depth[o] + hops)
          + One(Above(net, depth, o, v, hops))
  {
    if Under(net, depth, o, v) { UnderIsDeeper(net, depth, o, v); }
  }

  lemma {:induction false} OriginDeliveries(net: Network, depth: seq<nat>, o: nat, hdr: Header, v: nat)
    requires Healthy(net) && Forest(net, depth) && o < |net.routers| && v < |net.routers|
    requires IsFlooding(hdr) && hdr.dst.net == 0
    ensures DeliveriesOf(net, Origin(net, o, hdr))[v] == One(Reaches(net, depth, o, v, hdr.ttl))
  {
    ReachSplits(net, depth, o, v, hdr.ttl);
    if hdr.ttl > 0 {
      var spent := hdr.(ttl := hdr.ttl - 1);
      CountOwnSubtree(net, depth, o, spent, v);
      if net.parent[o].None? {
        OriginAtRoot(net, o, hdr);
      } else {
        var g := OriginAtBridge(net, o, hdr);
        CountUp(net, depth, o, g, hdr.ttl - 1, v);
        AppendFrame(net, DownFrames(net, o, spent, UPSTREAM_IDENT, |net.down[o]|), g);
      }
    } else {
      if Under(net, depth, o, v) { UnderIsDeeper(net, depth, o, v); }
    }
  }

  /** On an acyclic healthy network, in whatever order frames are processed, a
      broadcast ends up delivered exactly once to every other node within its
      TTL, and to nobody else. */
  lemma {:induction false} BroadcastReachesEachOnce(net: Network, depth: seq<nat>, o: nat, hdr: Header,
                                                    picks: seq<nat>, end: Traffic)
    requires Healthy(net) && Forest(net, depth) && o < |net.routers|
    requires IsFlooding(hdr) && hdr.dst.net == 0
    requires Schedule(net, Traffic(Origin(net, o, hdr), multiset{}), picks, end) && end.inFlight == []
    ensures forall v :: 0 <= v < |net.routers| ==>
              end.delivered[v] == One(Reaches(net, depth, o, v, hdr.ttl))
  {
    ForwardingTerminates(net, Origin(net, o, hdr), picks, end);
    forall v | 0 <= v < |net.routers|
      ensures end.delivered[v] == One(Reaches(net, depth, o, v, hdr.ttl))
    {
      OriginDeliveries(net, depth, o, hdr, v);
    }
  }
}
