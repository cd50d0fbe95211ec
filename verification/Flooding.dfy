/**
 A broadcast travelling through a network of routers, bridges and edge devices.

 Every node has at most one upstream, so a topology is a parent pointer per
 node; nothing forbids the pointers from forming a ring. A node that receives
 a frame delivers it once and forwards it as `Broadcasts` says.
 */
module Flooding {
  import opened Wrappers
  import opened Headers
  import opened Ports
  import opened RouterModel
  import opened RouterInvariant
  import opened Broadcasts

  /** `down[u][k]` is the node attached to the k-th slot of node u. An edge
      device is a node without slots. `room[u]` are the ports of node u whose
      queues take the frame. */
  datatype Network = Network(
    routers: seq<RouterState>, parent: seq<Option<nat>>, down: seq<seq<nat>>, bodyLen: nat, room: seq<set<nat>>)

  /** A frame about to be processed at `node`, received on port `source`. */
  datatype Frame = Frame(node: nat, source: nat, hdr: Header)

  ghost predicate WellWired(net: Network) {
    && |net.routers| == |net.parent| == |net.down| == |net.room|
    && (forall u :: 0 <= u < |net.routers| ==> NodeWired(net, u))
  }

  ghost predicate NodeWired(net: Network, u: nat)
    requires |net.routers| == |net.parent| == |net.down| && u < |net.routers|
  {
    && SlotsInv(net.routers[u])
    && |net.down[u]| == |net.routers[u].slots|
    && (net.routers[u].upstream.Some? <==> net.parent[u].Some?)
    && (net.parent[u].Some? ==> net.parent[u].value < |net.routers| && u in net.down[net.parent[u].value])
    && (forall k :: 0 <= k < |net.down[u]| ==>
          net.down[u][k] < |net.routers| && net.parent[net.down[u][k]] == Some(u))
    && (forall j, k :: 0 <= j < k < |net.down[u]| ==> net.down[u][j] != net.down[u][k])
  }

  /** Position of child `v` among the slots of `u`. */
  ghost function ChildIndex(net: Network, u: nat, v: nat): (k: nat)
    requires WellWired(net) && u < |net.routers| && v in net.down[u]
    ensures k < |net.down[u]| && net.down[u][k] == v
  {
    var k :| 0 <= k < |net.down[u]| && net.down[u][k] == v;
    k
  }

  /** Where a leg out of `u` arrives; legs always name a port of their router. */
  ghost function Arrivals(net: Network, u: nat, leg: Leg): (r: seq<Frame>)
    requires WellWired(net) && u < |net.routers|
    ensures forall f :: f in r ==> f.node < |net.routers| && f.hdr == leg.header
  {
    assert NodeWired(net, u);
    if leg.ident == UPSTREAM_IDENT then
      if net.parent[u].None? then []
      else
        var p := net.parent[u].value;
        assert NodeWired(net, p);
        [Frame(p, net.routers[p].slots[ChildIndex(net, p, u)].ident, leg.header)]
    else
      var k := SlotByIdent(net.routers[u].slots, leg.ident);
      if k == |net.routers[u].slots| then [] else [Frame(net.down[u][k], UPSTREAM_IDENT, leg.header)]
  }

  ghost function ArrivalsOf(net: Network, u: nat, legs: seq<Leg>): (r: seq<Frame>)
    requires WellWired(net) && u < |net.routers|
    ensures forall f :: f in r ==>
              f.node < |net.routers| && exists leg :: leg in legs && f.hdr == leg.header
  {
    if legs == [] then [] else ArrivalsOf(net, u, legs[..|legs| - 1]) + Arrivals(net, u, legs[|legs| - 1])
  }

  /** Every copy of a forwarded header keeps the TTL it was given. */
  lemma {:induction false} LegsKeepTtl(hdr: Header, slots: seq<Slot>, source: nat, bodyLen: nat, room: set<nat>)
    ensures var acc := RawSlotLegs(hdr, slots, source, bodyLen, room);
            acc.header.ttl == hdr.ttl && forall leg :: leg in acc.legs ==> leg.header.ttl == hdr.ttl
  {
    if slots != [] {
      LegsKeepTtl(hdr, slots[..|slots| - 1], source, bodyLen, room);
    }
  }

  lemma {:induction false} RawLegsKeepTtl(s: RouterState, hdr: Header, source: nat, bodyLen: nat, room: set<nat>)
    ensures forall leg :: leg in RawLegs(s, hdr, source, bodyLen, room).legs ==> leg.header.ttl == hdr.ttl
  {
    LegsKeepTtl(hdr, s.slots, source, bodyLen, room);
  }

  /** The frames that processing `f` puts on the links, when the queues of the
      ports in `room` take them. */
  ghost function ForwardsInto(net: Network, f: Frame, room: set<nat>): (r: seq<Frame>)
    requires WellWired(net) && f.node < |net.routers|
    ensures forall g :: g in r ==> g.node < |net.routers| && g.hdr.ttl < f.hdr.ttl
  {
    if f.hdr.ttl == 0 then []
    else
      var s := net.routers[f.node];
      var hdr := f.hdr.(ttl := f.hdr.ttl - 1);
      RawLegsKeepTtl(s, hdr, f.source, net.bodyLen, room);
      ArrivalsOf(net, f.node, RawLegs(s, hdr, f.source, net.bodyLen, room).legs)
  }

  ghost function Forwards(net: Network, f: Frame): (r: seq<Frame>)
    requires WellWired(net) && f.node < |net.routers|
    ensures forall g :: g in r ==> g.node < |net.routers| && g.hdr.ttl < f.hdr.ttl
  {
    ForwardsInto(net, f, net.room[f.node])
  }

  /** All deliveries `f` leads to, by node; the TTL is the measure, whatever the topology. */
  ghost function Deliveries(net: Network, f: Frame): multiset<nat>
    requires WellWired(net) && f.node < |net.routers|
    decreases f.hdr.ttl, 1, 0
  {
    multiset{f.node} + DeliveriesBelow(net, Forwards(net, f), f.hdr.ttl)
  }

  ghost function DeliveriesBelow(net: Network, fs: seq<Frame>, bound: nat): multiset<nat>
    requires WellWired(net) && forall f :: f in fs ==> f.node < |net.routers| && f.hdr.ttl < bound
    decreases bound, 0, |fs|
  {
    if fs == [] then multiset{}
    else DeliveriesBelow(net, fs[..|fs| - 1], bound) + Deliveries(net, fs[|fs| - 1])
  }

  ghost predicate InNet(net: Network, fs: seq<Frame>) {
    forall f :: f in fs ==> f.node < |net.routers|
  }

  ghost function DeliveriesOf(net: Network, fs: seq<Frame>): multiset<nat>
    requires WellWired(net) && InNet(net, fs)
  {
    if fs == [] then multiset{}
    else DeliveriesOf(net, fs[..|fs| - 1]) + Deliveries(net, fs[|fs| - 1])
  }

  lemma {:induction false} BelowIsOf(net: Network, fs: seq<Frame>, bound: nat)
    requires WellWired(net) && forall f :: f in fs ==> f.node < |net.routers| && f.hdr.ttl < bound
    ensures DeliveriesBelow(net, fs, bound) == DeliveriesOf(net, fs)
  {
    if fs != [] { BelowIsOf(net, fs[..|fs| - 1], bound); }
  }

  lemma {:induction false} DeliveriesConcat(net: Network, a: seq<Frame>, b: seq<Frame>)
    requires WellWired(net) && InNet(net, a) && InNet(net, b)
    ensures DeliveriesOf(net, a + b) == DeliveriesOf(net, a) + DeliveriesOf(net, b)
  {
    if b == [] {
      assert a + b == a;
    } else {
      assert (a + b)[..|a + b| - 1] == a + b[..|b| - 1] && (a + b)[|a + b| - 1] == b[|b| - 1];
      DeliveriesConcat(net, a, b[..|b| - 1]);
    }
  }

  lemma {:induction false} ForwardOnce(net: Network, f: Frame)
    requires WellWired(net) && f.node < |net.routers|
    ensures Deliveries(net, f) == multiset{f.node} + DeliveriesOf(net, Forwards(net, f))
  {
    BelowIsOf(net, Forwards(net, f), f.hdr.ttl);
  }

  // ------------------------------------------------------------------------
  // Any order of processing
  // ------------------------------------------------------------------------

  /** Frames in flight, and how often each node has delivered. */
  datatype Traffic = Traffic(inFlight: seq<Frame>, delivered: multiset<nat>)

  ghost function Process(net: Network, t: Traffic, i: nat): (t': Traffic)
    requires WellWired(net) && InNet(net, t.inFlight) && i < |t.inFlight|
    ensures InNet(net, t'.inFlight)
  {
    var f := t.inFlight[i];
    Traffic(t.inFlight[..i] + t.inFlight[i + 1..] + Forwards(net, f), t.delivered + multiset{f.node})
  }

  lemma {:induction false} TakeOneOut(net: Network, a: seq<Frame>, f: Frame, b: seq<Frame>)
    requires WellWired(net) && InNet(net, a) && InNet(net, [f]) && InNet(net, b)
    ensures InNet(net, a + [f] + b) && InNet(net, a + b)
    ensures DeliveriesOf(net, a + [f] + b) == DeliveriesOf(net, a + b) + Deliveries(net, f)
  {
    DeliveriesConcat(net, a + [f], b);
    DeliveriesConcat(net, a, b);
    assert (a + [f])[..|a|] == a;
  }

  lemma {:induction false} ProcessConserves(net: Network, t: Traffic, i: nat)
    requires WellWired(net) && InNet(net, t.inFlight) && i < |t.inFlight|
    ensures var t' := Process(net, t, i);
            t'.delivered + DeliveriesOf(net, t'.inFlight) == t.delivered + DeliveriesOf(net, t.inFlight)
  {
    var a, f, b := t.inFlight[..i], t.inFlight[i], t.inFlight[i + 1..];
    SplitAt(t.inFlight, i);
    TakeOneOut(net, a, f, b);
    DeliveriesConcat(net, a + b, Forwards(net, f));
    ForwardOnce(net, f);
    Shift(t.delivered, multiset{f.node}, DeliveriesOf(net, a + b), DeliveriesOf(net, Forwards(net, f)));
  }

  lemma {:induction false} Shift(done: multiset<nat>, one: multiset<nat>, rest: multiset<nat>, more: multiset<nat>)
    ensures (done + one) + (rest + more) == done + (rest + (one + more))
  {}

  lemma {:induction false} SplitAt<T>(s: seq<T>, i: nat)
    requires i < |s|
    ensures s == s[..i] + [s[i]] + s[i + 1..]
  {}

  ghost predicate Schedule(net: Network, t: Traffic, picks: seq<nat>, end: Traffic)
    requires WellWired(net) && InNet(net, t.inFlight)
    decreases |picks|
  {
    if picks == [] then t == end
    else picks[0] < |t.inFlight| && Schedule(net, Process(net, t, picks[0]), picks[1..], end)
  }

  lemma {:induction false} ScheduleConserves(net: Network, t: Traffic, picks: seq<nat>, end: Traffic)
    requires WellWired(net) && InNet(net, t.inFlight) && Schedule(net, t, picks, end)
    ensures InNet(net, end.inFlight)
    ensures end.delivered + DeliveriesOf(net, end.inFlight) == t.delivered + DeliveriesOf(net, t.inFlight)
    ensures |end.delivered| == |t.delivered| + |picks|
    decreases |picks|
  {
    if picks != [] {
      ProcessConserves(net, t, picks[0]);
      ScheduleConserves(net, Process(net, t, picks[0]), picks[1..], end);
    }
  }

  /** On any topology, rings included, and in any order of processing, forwarding
      stops after exactly as many steps as there are deliveries, and what has
      been delivered by then does not depend on the order. */
  lemma {:induction false} ForwardingTerminates(net: Network, start: seq<Frame>, picks: seq<nat>, end: Traffic)
    requires WellWired(net) && InNet(net, start) && Schedule(net, Traffic(start, multiset{}), picks, end)
    ensures |picks| <= |DeliveriesOf(net, start)|
    ensures end.inFlight == [] <==> |picks| == |DeliveriesOf(net, start)|
    ensures end.inFlight == [] ==> end.delivered == DeliveriesOf(net, start)
  {
    ScheduleConserves(net, Traffic(start, multiset{}), picks, end);
    Sizes(end.delivered, DeliveriesOf(net, end.inFlight), DeliveriesOf(net, start));
    if end.inFlight != [] { EveryFrameDelivers(net, end.inFlight); }
  }

  lemma {:induction false} Sizes(a: multiset<nat>, b: multiset<nat>, total: multiset<nat>)
    requires a + b == total
    ensures |a| + |b| == |total|
  {}

  lemma {:induction false} EveryFrameDelivers(net: Network, fs: seq<Frame>)
    requires WellWired(net) && InNet(net, fs) && fs != []
    ensures |DeliveriesOf(net, fs)| > 0
  {
    assert |Deliveries(net, fs[|fs| - 1])| > 0;
  }

  // ------------------------------------------------------------------------
  // Queues that fill and empty
  // ------------------------------------------------------------------------

  /** No router has more ports than this. */
  const FAN: nat := 256

  /** How many frames one of this TTL can lead to at most, itself included. */
  function Weight(ttl: nat): nat {
    if ttl == 0 then 1 else 1 + FAN * Weight(ttl - 1)
  }

  ghost function TotalWeight(fs: seq<Frame>): nat {
    if fs == [] then 0 else TotalWeight(fs[..|fs| - 1]) + Weight(fs[|fs| - 1].hdr.ttl)
  }

  lemma {:induction false} WeightConcat(a: seq<Frame>, b: seq<Frame>)
    ensures TotalWeight(a + b) == TotalWeight(a) + TotalWeight(b)
    decreases |b|
  {
    if b == [] {
      assert a + b == a;
    } else {
      assert (a + b)[..|a + b| - 1] == a + b[..|b| - 1] && (a + b)[|a + b| - 1] == b[|b| - 1];
      WeightConcat(a, b[..|b| - 1]);
    }
  }

  lemma {:induction false} WeightGrows(a: nat, b: nat)
    requires a <= b
    ensures Weight(a) <= Weight(b)
  {
    if a < b { WeightGrows(a, b - 1); }
  }

  /** Frames with fewer hops left weigh at most as much, each, as the next TTL. */
  lemma {:induction false} WeightOfMany(fs: seq<Frame>, ttl: nat)
    requires forall f :: f in fs ==> f.hdr.ttl <= ttl
    ensures TotalWeight(fs) <= |fs| * Weight(ttl)
  {
    if fs != [] {
      WeightOfMany(fs[..|fs| - 1], ttl);
      WeightGrows(fs[|fs| - 1].hdr.ttl, ttl);
      OneTimeMore(|fs| - 1, Weight(ttl));
    }
  }

  lemma {:induction false} OneTimeMore(n: nat, w: nat)
    ensures n * w + w == (n + 1) * w
  {}

  lemma {:induction false} SlotLegsAreFew(hdr: Header, slots: seq<Slot>, source: nat, bodyLen: nat, room: set<nat>)
    ensures |RawSlotLegs(hdr, slots, source, bodyLen, room).legs| <= |slots|
  {
    if slots != [] { SlotLegsAreFew(hdr, slots[..|slots| - 1], source, bodyLen, room); }
  }

  lemma {:induction false} ArrivalsAreFew(net: Network, u: nat, legs: seq<Leg>)
    requires WellWired(net) && u < |net.routers|
    ensures |ArrivalsOf(net, u, legs)| <= |legs|
  {
    if legs != [] { ArrivalsAreFew(net, u, legs[..|legs| - 1]); }
  }

  /** What a frame leads to at once weighs less than the frame. */
  lemma {:induction false} ForwardingLoses(net: Network, f: Frame, room: set<nat>)
    requires WellWired(net) && f.node < |net.routers|
    ensures TotalWeight(ForwardsInto(net, f, room)) < Weight(f.hdr.ttl)
  {
    if f.hdr.ttl > 0 {
      var fs := ForwardsInto(net, f, room);
      ForwardsAreFew(net, f, room);
      WeightOfMany(fs, f.hdr.ttl - 1);
      FewTimes(|fs|, Weight(f.hdr.ttl - 1));
    }
  }

  lemma {:induction false} ForwardsAreFew(net: Network, f: Frame, room: set<nat>)
    requires WellWired(net) && f.node < |net.routers| && f.hdr.ttl > 0
    ensures |ForwardsInto(net, f, room)| <= FAN
  {
    var s := net.routers[f.node];
    var hdr := f.hdr.(ttl := f.hdr.ttl - 1);
    assert NodeWired(net, f.node);
    SlotLegsAreFew(hdr, s.slots, f.source, net.bodyLen, room);
    ArrivalsAreFew(net, f.node, RawLegs(s, hdr, f.source, net.bodyLen, room).legs);
  }

  lemma {:induction false} FewTimes(n: nat, w: nat)
    requires n <= FAN
    ensures n * w <= FAN * w
  {}

  /** One frame is processed, with whatever room the queues have at the time. */
  datatype Turn = Turn(pick: nat, room: set<nat>)

  ghost predicate Turns(net: Network, inFlight: seq<Frame>, turns: seq<Turn>, end: seq<Frame>)
    requires WellWired(net) && InNet(net, inFlight)
    decreases |turns|
  {
    if turns == [] then inFlight == end
    else
      var i := turns[0].pick;
      i < |inFlight|
      && Turns(net, inFlight[..i] + inFlight[i + 1..] + ForwardsInto(net, inFlight[i], turns[0].room), turns[1..], end)
  }

  /** On any wiring, rings included, in any order, with queues that fill and
      empty at any time: forwarding stops after a number of turns that is known
      from the TTLs at the start. */
  lemma {:induction false} ForwardingAlwaysStops(net: Network, inFlight: seq<Frame>, turns: seq<Turn>, end: seq<Frame>)
    requires WellWired(net) && InNet(net, inFlight) && Turns(net, inFlight, turns, end)
    ensures |turns| + TotalWeight(end) <= TotalWeight(inFlight)
    ensures |turns| == TotalWeight(inFlight) ==> end == []
    decreases |turns|
  {
    if turns != [] {
      var i, room := turns[0].pick, turns[0].room;
      var a, f, b := inFlight[..i], inFlight[i], inFlight[i + 1..];
      var next := a + b + ForwardsInto(net, f, room);
      ForwardingLoses(net, f, room);
      WeightWithout(inFlight, i);
      WeightConcat(a + b, ForwardsInto(net, f, room));
      ForwardingAlwaysStops(net, next, turns[1..], end);
    }
    if end != [] { WeightGrows(0, end[|end| - 1].hdr.ttl); }
  }

  lemma {:induction false} WeightWithout(fs: seq<Frame>, i: nat)
    requires i < |fs|
    ensures TotalWeight(fs) == TotalWeight(fs[..i] + fs[i + 1..]) + Weight(fs[i].hdr.ttl)
  {
    SplitAt(fs, i);
    WeightConcat(fs[..i] + [fs[i]], fs[i + 1..]);
    WeightConcat(fs[..i], [fs[i]]);
    WeightConcat(fs[..i], fs[i + 1..]);
    assert [fs[i]][..0] == [];
  }
}
