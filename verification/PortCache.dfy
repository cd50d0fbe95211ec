/**
 Socket ports and the cache they are allocated from: a window of 32 ports
 whose taken members are remembered as the one bits of a 32-bit word.
 */
module PortCache {
  import opened Wrappers

  const WINDOW: nat := 32
  const WINDOWS: nat := 8
  const BROADCAST: nat := 255

  /** Ports 0 and 255 are never handed out. */
  predicate Taken(used: set<nat>, port: nat) {
    port == 0 || port == BROADCAST || port in used
  }

  /** The lowest port in `from..end` that is not taken. */
  function LowestFree(used: set<nat>, from: nat, end: nat): (r: Option<nat>)
    requires from <= end
    ensures r.Some? ==> from <= r.value < end && !Taken(used, r.value)
    ensures r.Some? ==> forall p :: from <= p < r.value ==> Taken(used, p)
    ensures r.None? ==> forall p :: from <= p < end ==> Taken(used, p)
    decreases end - from, used
  {
    if from == end then None else if !Taken(used, from) then Some(from) else LowestFree(used, from + 1, end)
  }

  /** What allocation should answer: stay in the cached window while it has
      room, else start over from the bottom. */
  function Allocated(used: set<nat>, start: nat): Option<nat> {
    var here := LowestFree(used, start, start + WINDOW);
    if here.Some? then here else LowestFree(used, 0, 256)
  }

  /** Allocation fails exactly when all 254 ports are attached, and never hands
      out a reserved or attached one. */
  lemma {:induction false} AllocationIsComplete(used: set<nat>, start: nat)
    requires start + WINDOW <= 256
    ensures Allocated(used, start).None? <==> forall p :: 1 <= p <= 254 ==> p in used
    ensures Allocated(used, start).Some? ==>
              var p := Allocated(used, start).value; 1 <= p <= 254 && p !in used
  {
    if Allocated(used, start).None? {
      forall p | 1 <= p <= 254 ensures p in used { assert Taken(used, p); }
    }
  }

  /** `p` is the lowest of the ports between `low` and `high` that could be handed out. */
  ghost predicate LowestOpen(used: set<nat>, low: nat, high: nat, p: nat) {
    && low <= p <= high && 1 <= p <= 254 && p !in used
    && forall q: nat :: low <= q < p && q !in used ==> q == 0
  }

  /** A cached window with an open port serves its lowest, even if lower ports
      are open outside it; a full one sends the search back to the bottom. */
  lemma {:induction false} AllocationPrefersTheWindow(used: set<nat>, start: nat, p: nat)
    requires start + WINDOW <= 256
    ensures LowestOpen(used, start, start + WINDOW - 1, p) ==> Allocated(used, start) == Some(p)
    ensures LowestOpen(used, 0, 255, p) && (forall q: nat :: start <= q < start + WINDOW ==> Taken(used, q)) ==>
              Allocated(used, start) == Some(p)
  {
    if LowestOpen(used, start, start + WINDOW - 1, p) {
      FirstFreeIsLowest(used, start, start + WINDOW, p);
    }
    if LowestOpen(used, 0, 255, p) {
      FirstFreeIsLowest(used, 0, 256, p);
    }
  }

  /** The cached bits are those of the window's taken ports. Before the first
      allocation bit 0 of window 0 may still be clear. */
  ghost predicate Caches(bits: set<nat>, start: nat, used: set<nat>, started: bool) {
    && start % WINDOW == 0 && start / WINDOW < WINDOWS
    && (forall k :: k in bits ==> k < WINDOW)
    && (forall k :: 0 <= k < WINDOW && start + k != 0 ==> (k in bits <==> Taken(used, start + k)))
    && (started && start == 0 ==> 0 in bits)
  }

  /** Bits after a port became taken: the window remembers it, or does not cover it. */
  function Marked(bits: set<nat>, start: nat, port: nat): set<nat> {
    if port - port % WINDOW == start then bits + {port % WINDOW} else bits
  }

  function Cleared(bits: set<nat>, start: nat, port: nat): set<nat> {
    if port - port % WINDOW == start then bits - {port % WINDOW} else bits
  }

  lemma {:induction false} CacheMarks(bits: set<nat>, start: nat, used: set<nat>, started: bool, port: nat)
    requires Caches(bits, start, used, started)
    ensures Caches(Marked(bits, start, port), start, used + {port}, started)
  {
    InWindow(start, port);
  }

  lemma {:induction false} CacheClears(bits: set<nat>, start: nat, used: set<nat>, started: bool, port: nat)
    requires Caches(bits, start, used, started) && 1 <= port <= BROADCAST
    ensures port < BROADCAST ==> Caches(Cleared(bits, start, port), start, used - {port}, started)
  {
    InWindow(start, port);
  }

  lemma {:induction false} InWindow(start: nat, port: nat)
    requires start % WINDOW == 0
    ensures port - port % WINDOW == start <==> start <= port < start + WINDOW
    ensures start <= port < start + WINDOW ==> port % WINDOW == port - start
  {}

  lemma {:induction false} CacheStarts(bits: set<nat>, start: nat, used: set<nat>, started: bool)
    requires Caches(bits, start, used, started)
    ensures Caches(if start == 0 then bits + {0} else bits, start, used, true)
  {}

  /** The cached window's first bits, before any socket is looked at. */
  lemma {:induction false} EmptyCache(base: nat)
    requires base < WINDOWS
    ensures var start := WINDOW * base;
            Caches((if start == 0 then {0} else {}) + (if start == 224 then {31} else {}), start, {}, true)
  {}

  class SocketHeader {
    var port: nat

    constructor ()
      ensures port == 0
    {
      port := 0;
    }
  }

  /** The unicast ports in a list of ports. */
  function UsedIn(ports: seq<nat>): (used: set<nat>)
    ensures forall p :: p in used <==> p in ports && p != BROADCAST
  {
    set p | p in ports && p != BROADCAST
  }

  ghost predicate DistinctUnicast(ports: seq<nat>) {
    && (forall i :: 0 <= i < |ports| ==> 1 <= ports[i] <= BROADCAST)
    && (forall i, j :: 0 <= i < j < |ports| && ports[i] == ports[j] ==> ports[i] == BROADCAST)
  }

  /** The window an allocation leaves cached: that of the port handed out, or,
      with none left, the last one that was searched. */
  predicate Follows(was: nat, port: Option<nat>, start: nat) {
    if port.Some? then start <= port.value < start + WINDOW
    else start == if was == 224 then 192 else 224
  }

  class NetStack {
    var sockets: seq<SocketHeader>
    var bits: set<nat>
    var start: nat
    ghost var started: bool

    static ghost function PortsOf(list: seq<SocketHeader>): (ports: seq<nat>)
      reads list
      ensures |ports| == |list| && forall i :: 0 <= i < |list| ==> ports[i] == list[i].port
    {
      if list == [] then [] else PortsOf(list[..|list| - 1]) + [list[|list| - 1].port]
    }

    /** The ports of the attached sockets, in list order. */
    ghost function Ports(): seq<nat>
      reads this`sockets, sockets
    {
      PortsOf(sockets)
    }

    ghost function Used(): set<nat>
      reads this`sockets, sockets
    {
      UsedIn(Ports())
    }

    ghost predicate Valid()
      reads this, sockets
    {
      && (forall i, j :: 0 <= i < j < |sockets| ==> sockets[i] != sockets[j])
      && DistinctUnicast(Ports())
      && Caches(bits, start, Used(), started)
    }

    constructor ()
      ensures Valid() && sockets == [] && Used() == {} && !started
    {
      sockets := [];
      bits, start, started := {}, 0, false;
    }

    /** Index of the lowest zero bit, or 32. */
    method TrailingOnes() returns (n: nat)
      ensures n <= WINDOW && (n == WINDOW || n !in bits)
      ensures forall k :: 0 <= k < n ==> k in bits
    {
      n := 0;
      while n < WINDOW && n in bits
        invariant n <= WINDOW && forall k :: 0 <= k < n ==> k in bits
      {
        n := n + 1;
      }
    }

    /** Take the lowest free port of the cached window, if it has one. */
    method TakeFromWindow(ghost used: set<nat>) returns (port: Option<nat>)
      requires Caches(bits, start, used, true)
      modifies this`bits
      ensures port == LowestFree(used, start, start + WINDOW)
      ensures Caches(bits, start, if port.None? then used else used + {port.value}, true)
    {
      var n := TrailingOnes();
      forall k | start <= k < start + n ensures Taken(used, k) {
        assert k - start in bits;
      }
      if n == WINDOW {
        return None;
      }
      assert !Taken(used, start + n);
      bits := bits + {n};
      port := Some(start + n);
      FirstFreeIsLowest(used, start, start + WINDOW, start + n);
    }

    /** Point the cache at window `base`, reading the taken ports off the sockets. */
    method Reload(base: nat)
      requires base < WINDOWS
      modifies this`bits, this`start
      ensures start == WINDOW * base && Caches(bits, start, Used(), true)
    {
      start := WINDOW * base;
      bits := (if start == 0 then {0} else {}) + (if start == 224 then {31} else {});
      EmptyCache(base);
      ghost var ports := Ports();
      assert UsedIn(ports[..0]) == {};
      for i := 0 to |sockets|
        invariant start == WINDOW * base && Ports() == ports
        invariant Caches(bits, start, UsedIn(ports[..i]), true)
      {
        var port := sockets[i].port;
        MorePorts(ports, i);
        if port != BROADCAST {
          CacheMarks(bits, start, UsedIn(ports[..i]), true, port);
          var upper, lower := port - port % WINDOW, port % WINDOW;
          if upper == start {
            bits := bits + {lower};
          }
        }
      }
      assert ports[..|sockets|] == ports;
    }

    method AllocPort(ghost used: set<nat>) returns (port: Option<nat>)
      requires used == Used() && Caches(bits, start, used, started)
      modifies this`bits, this`start, this`started
      ensures port == Allocated(used, old(start)) && Follows(old(start), port, start)
      ensures started && Caches(bits, start, if port.None? then used else used + {port.value}, true)
    {
      CacheStarts(bits, start, used, started);
      if start == 0 {
        bits := bits + {0};
      }
      started := true;
      port := TakeFromWindow(used);
      if port.None? {
        port := Search(used);
      }
    }

    /** The window is full: look from the bottom for one that is not. */
    method Search(ghost used: set<nat>) returns (port: Option<nat>)
      requires used == Used() && Caches(bits, start, used, true)
      requires forall p :: start <= p < start + WINDOW ==> Taken(used, p)
      modifies this`bits, this`start
      ensures port == LowestFree(used, 0, 256) && Follows(old(start), port, start)
      ensures Caches(bits, start, if port.None? then used else used + {port.value}, true)
    {
      var oldStart := start;
      for base := 0 to WINDOWS
        invariant used == Used() && Caches(bits, start, used, true)
        invariant forall p :: 0 <= p < WINDOW * base ==> Taken(used, p)
        invariant base > 0 && WINDOW * (base - 1) != oldStart ==> start == WINDOW * (base - 1)
        invariant base > 1 && WINDOW * (base - 1) == oldStart ==> start == WINDOW * (base - 2)
      {
        if WINDOW * base != oldStart {
          Reload(base);
          port := TakeFromWindow(used);
          if port.Some? {
            FirstFreeIsLowest(used, 0, 256, port.value);
            return;
          }
        }
      }
      port := None;
    }

    method FreePort(port: nat)
      modifies this`bits
      ensures bits == Cleared(old(bits), start, port)
    {
      var upper, lower := port - port % WINDOW, port % WINDOW;
      if upper == start {
        bits := bits - {lower};
      }
    }

    /** Attach a socket that is not attached, under a port of its own. */
    method TryAttach(node: SocketHeader) returns (port: Option<nat>)
      requires Valid() && node !in sockets
      modifies this, node
      ensures Valid() && started
      ensures port == Allocated(old(Used()), old(start)) && Follows(old(start), port, start)
      ensures port.None? ==> sockets == old(sockets) && Ports() == old(Ports())
      ensures port.Some? ==> sockets == [node] + old(sockets) && Ports() == [port.value] + old(Ports())
    {
      ghost var ports := Ports();
      AllocationIsComplete(UsedIn(ports), start);
      port := AllocPort(UsedIn(ports));
      if port.Some? {
        OnePortMore(ports, port.value);
        PushFront(node, port.value);
      }
    }

    /** Link a socket under a port that the cache already counts as taken. */
    method PushFront(node: SocketHeader, port: nat)
      requires node !in sockets && forall i, j :: 0 <= i < j < |sockets| ==> sockets[i] != sockets[j]
      requires DistinctUnicast([port] + Ports()) && Caches(bits, start, UsedIn([port] + Ports()), started)
      modifies this`sockets, node
      ensures Valid()
      ensures node.port == port && sockets == [node] + old(sockets) && Ports() == [port] + old(Ports())
    {
      ghost var ports := Ports();
      node.port := port;
      sockets := [node] + sockets;
      assert Ports() == [port] + ports;
    }

    method AttachBroadcast(node: SocketHeader)
      requires Valid() && node !in sockets
      modifies this, node
      ensures Valid() && started == old(started) && start == old(start)
      ensures sockets == old(sockets) + [node] && Ports() == old(Ports()) + [BROADCAST]
    {
      node.port := BROADCAST;
      sockets := sockets + [node];
      assert Ports() == old(Ports()) + [BROADCAST];
      assert Used() == old(Used());
    }

    /** Detach a socket and free its port; detaching it again does nothing. */
    method Detach(node: SocketHeader)
      requires Valid()
      modifies this
      ensures Valid() && started == old(started) && start == old(start)
      ensures node !in old(sockets) ==> sockets == old(sockets) && bits == old(bits)
      ensures node in old(sockets) ==>
                exists pos :: 0 <= pos < |old(sockets)| && old(sockets)[pos] == node
                  && sockets == Without(old(sockets), pos) && Ports() == Without(old(Ports()), pos)
    {
      var pos := 0;
      while pos < |sockets| && sockets[pos] != node
        invariant pos <= |sockets| && forall i :: 0 <= i < pos ==> sockets[i] != node
      {
        pos := pos + 1;
      }
      if pos < |sockets| {
        Unlink(node, pos);
      }
    }

    method Unlink(node: SocketHeader, pos: nat)
      requires Valid() && pos < |sockets| && sockets[pos] == node
      modifies this
      ensures Valid() && started == old(started) && start == old(start)
      ensures sockets == Without(old(sockets), pos) && Ports() == Without(old(Ports()), pos)
    {
      ghost var ports := Ports();
      ghost var used := UsedIn(ports);
      UsedWithout(ports, pos);
      CacheClears(bits, start, used, started, ports[pos]);
      Remove(pos);
      assert Used() == UsedIn(Without(ports, pos));
      if node.port != BROADCAST {
        FreePort(node.port);
      }
    }

    method Remove(pos: nat)
      requires pos < |sockets|
      modifies this`sockets
      ensures sockets == Without(old(sockets), pos) && Ports() == Without(old(Ports()), pos)
    {
      sockets := Without(sockets, pos);
    }
  }

  lemma {:induction false} MorePorts(ports: seq<nat>, i: nat)
    requires i < |ports|
    ensures UsedIn(ports[..i + 1]) == if ports[i] == BROADCAST then UsedIn(ports[..i])
                                     else UsedIn(ports[..i]) + {ports[i]}
  {
    assert ports[..i + 1] == ports[..i] + [ports[i]];
  }

  lemma {:induction false} OnePortMore(ports: seq<nat>, port: nat)
    requires DistinctUnicast(ports) && port !in UsedIn(ports) && 1 <= port < BROADCAST
    ensures DistinctUnicast([port] + ports) && UsedIn([port] + ports) == UsedIn(ports) + {port}
  {
    assert port !in ports;
  }

  function Without<T>(s: seq<T>, pos: nat): (r: seq<T>)
    requires pos < |s|
    ensures |r| == |s| - 1
    ensures forall i :: 0 <= i < |r| ==> r[i] == s[if i < pos then i else i + 1]
  {
    s[..pos] + s[pos + 1..]
  }

  /** Distinct ports: removing one frees that port and no other. */
  lemma {:induction false} UsedWithout(ports: seq<nat>, pos: nat)
    requires DistinctUnicast(ports) && pos < |ports|
    ensures UsedIn(Without(ports, pos))
         == if ports[pos] == BROADCAST then UsedIn(ports) else UsedIn(ports) - {ports[pos]}
    ensures DistinctUnicast(Without(ports, pos))
  {
    var r := Without(ports, pos);
    forall p | p in ports && p != ports[pos] ensures p in r {
      var i :| 0 <= i < |ports| && ports[i] == p;
      assert r[if i < pos then i else i - 1] == p;
    }
  }

  lemma {:induction false} FirstFreeIsLowest(used: set<nat>, from: nat, end: nat, p: nat)
    requires from <= p < end && !Taken(used, p) && forall k :: from <= k < p ==> Taken(used, k)
    ensures LowestFree(used, from, end) == Some(p)
  {
    var r := LowestFree(used, from, end);
    assert r.None? ==> Taken(used, p);
  }
}
