/**
 The lease life cycle shared by seed routes and node claims: an Active lease
 with a rotating refresh token, a Tombstone that keeps the key reserved for a
 grace period, and lazy or full garbage collection of both.
 */
module Leases {
  import opened Wrappers

  /** A clock reading, in nanoseconds: finer than the second the leases count in. */
  type Instant = nat

  /** A 64-bit refresh token. Only equality of tokens matters. */
  type Token = nat

  const SECOND: nat := 1_000_000_000
  const INITIAL_LEASE_SECS: nat := 30
  const MAX_LEASE_SECS: nat := 120
  const MIN_REFRESH_SECS: nat := 62
  const TOMBSTONE_SECS: nat := 30

  datatype Lease = Lease(expiration: Instant, token: Token, previous: Option<Token>)

  datatype RefreshDenied = Expired | BadToken | TooSoon

  datatype TokenMatch = Current | Replay

  datatype LeaseKind =
    | Active(lease: Lease)
    | Tombstone(clearTime: Instant)
  {
    predicate IsActive(now: Instant) {
      Active? && now < lease.expiration
    }

    /** The instant until which the leased key stays reserved. */
    function ReservedUntil(): Instant {
      match this
      case Active(l) => l.expiration + TOMBSTONE_SECS * SECOND
      case Tombstone(c) => c
    }

    /** What collection at `now` leaves of this lease; `None` when it is dropped. */
    function GcRetain(now: Instant): Option<LeaseKind> {
      match this
      case Active(l) =>
        if now >= l.expiration then
          if now >= ReservedUntil() then None else Some(Tombstone(ReservedUntil()))
        else Some(this)
      case Tombstone(c) =>
        if c > now then Some(this) else None
    }

    /** Validation may itself tombstone an expired lease, so the new state is returned too. */
    function ValidateToken(req: Token, now: Instant, allowReplay: bool)
      : (r: (LeaseKind, Result<TokenMatch, RefreshDenied>))
    {
      match this
      case Tombstone(_) => (this, Err(Expired))
      case Active(l) =>
        if l.token != req && !(allowReplay && l.previous == Some(req)) then (this, Err(BadToken))
        else if now >= l.expiration then (Tombstone(ReservedUntil()), Err(Expired))
        else (this, Ok(if l.token == req then Current else Replay))
    }

    /** The renewed lease and whether the answer only replays an earlier extension. */
    function Refresh(req: Token, now: Instant, newToken: Token, allowReplay: bool)
      : (r: (LeaseKind, Result<(Lease, bool), RefreshDenied>))
    {
      var (kind, checked) := ValidateToken(req, now, allowReplay);
      match checked
      case Err(e) => (kind, Err(e))
      case Ok(Replay) => (kind, Ok((lease, true)))
      case Ok(Current) =>
        if lease.expiration - now > MIN_REFRESH_SECS * SECOND then (kind, Err(TooSoon))
        else
          var renewed := Lease(now + MAX_LEASE_SECS * SECOND, newToken,
                               if allowReplay then Some(lease.token) else None);
          (Active(renewed), Ok((renewed, false)))
    }
  }

  function NewLease(now: Instant, secs: nat, token: Token): LeaseKind {
    Active(Lease(now + secs * SECOND, token, None))
  }

  /** Whole seconds left, rounded up and capped at the 16-bit maximum. */
  function RemainingLeaseSeconds(expiration: Instant, now: Instant): (secs: nat)
    requires now <= expiration
    ensures secs <= 0xFFFF
    ensures expiration - now <= 0xFFFF * SECOND ==>
              expiration <= now + secs * SECOND < expiration + SECOND
  {
    var up := (expiration - now + SECOND - 1) / SECOND;
    if up > 0xFFFF then 0xFFFF else up
  }

  // ------------------------------------------------------------------------
  // Refresh histories of one lease
  // ------------------------------------------------------------------------

  /** A refresh request as the grantor sees it: when, with which token, and the
      token the generator hands out if the lease is extended. */
  datatype RefreshRequest = RefreshRequest(at: Instant, token: Token, newToken: Token)

  ghost predicate Chronological(reqs: seq<RefreshRequest>) {
    forall i, j :: 0 <= i < j < |reqs| ==> reqs[i].at <= reqs[j].at
  }

  function Served(kind: LeaseKind, reqs: seq<RefreshRequest>): LeaseKind
    decreases |reqs|
  {
    if reqs == [] then kind
    else Served(kind.Refresh(reqs[0].token, reqs[0].at, reqs[0].newToken, true).0, reqs[1..])
  }

  predicate Extends(kind: LeaseKind, r: RefreshRequest) {
    var (_, answer) := kind.Refresh(r.token, r.at, r.newToken, true);
    answer.Ok? && !answer.value.1
  }

  /** Number of requests answered by a genuine extension rather than a replay. */
  function Extensions(kind: LeaseKind, reqs: seq<RefreshRequest>): nat
    decreases |reqs|
  {
    if reqs == [] then 0
    else
      (if Extends(kind, reqs[0]) then 1 else 0)
      + Extensions(kind.Refresh(reqs[0].token, reqs[0].at, reqs[0].newToken, true).0, reqs[1..])
  }

  /** Over any request history the expiration never moves back and stays within
      120 s of the last request (or where it started); every answer but a
      genuine extension leaves it alone. */
  lemma {:induction false} HistoryKeepsExpirationBounds(kind: LeaseKind, reqs: seq<RefreshRequest>)
    requires kind.Active? && Chronological(reqs)
    requires Served(kind, reqs).Active?
    ensures kind.lease.expiration <= Served(kind, reqs).lease.expiration
    ensures reqs != [] && kind.lease.expiration <= reqs[0].at + MAX_LEASE_SECS * SECOND ==>
              Served(kind, reqs).lease.expiration <= reqs[|reqs| - 1].at + MAX_LEASE_SECS * SECOND
    ensures Extensions(kind, reqs) == 0 ==> Served(kind, reqs) == kind
    decreases |reqs|
  {
    if reqs != [] {
      var next := kind.Refresh(reqs[0].token, reqs[0].at, reqs[0].newToken, true).0;
      if next.Tombstone? {
        TombstoneIsNeverRevived(next.clearTime, reqs[1..]);
      } else {
        HistoryKeepsExpirationBounds(next, reqs[1..]);
      }
    }
  }

  lemma {:induction false} TombstoneIsNeverRevived(clearTime: Instant, reqs: seq<RefreshRequest>)
    ensures Served(Tombstone(clearTime), reqs) == Tombstone(clearTime)
    ensures Extensions(Tombstone(clearTime), reqs) == 0
  {
    if reqs != [] {
      TombstoneIsNeverRevived(clearTime, reqs[1..]);
    }
  }

  /** n extensions need the last request to come 58 s * (n - 1) after the window opens. */
  lemma {:induction false} ExtensionsFollowTheWindow(kind: LeaseKind, reqs: seq<RefreshRequest>)
    requires kind.Active? && Chronological(reqs) && Extensions(kind, reqs) > 0
    ensures kind.lease.expiration
            + (MAX_LEASE_SECS - MIN_REFRESH_SECS) * SECOND * (Extensions(kind, reqs) - 1)
            <= reqs[|reqs| - 1].at + MIN_REFRESH_SECS * SECOND
    decreases |reqs|
  {
    var next := kind.Refresh(reqs[0].token, reqs[0].at, reqs[0].newToken, true).0;
    if next.Tombstone? {
      TombstoneIsNeverRevived(next.clearTime, reqs[1..]);
    } else if Extensions(next, reqs[1..]) > 0 {
      ExtensionsFollowTheWindow(next, reqs[1..]);
    }
  }

  /** However requests arrive, n genuine extensions of one lease span at least
      58 s * (n - 1), so no interval holds more than one per 58 s plus one. */
  lemma {:induction false} ExtensionsArePaced(kind: LeaseKind, reqs: seq<RefreshRequest>)
    requires kind.Active? && Chronological(reqs) && Extensions(kind, reqs) > 0
    ensures (MAX_LEASE_SECS - MIN_REFRESH_SECS) * SECOND * (Extensions(kind, reqs) - 1)
            <= reqs[|reqs| - 1].at - reqs[0].at
    decreases |reqs|
  {
    var next := kind.Refresh(reqs[0].token, reqs[0].at, reqs[0].newToken, true).0;
    if next.Tombstone? {
      TombstoneIsNeverRevived(next.clearTime, reqs[1..]);
    } else if Extensions(next, reqs[1..]) > 0 {
      if Extends(kind, reqs[0]) {
        ExtensionsFollowTheWindow(next, reqs[1..]);
      } else {
        ExtensionsArePaced(next, reqs[1..]);
      }
    }
  }

  // ------------------------------------------------------------------------
  // Lease tables
  // ------------------------------------------------------------------------

  datatype LeaseEntry<+K, +X> = LeaseEntry(key: K, scope: nat, extra: X, kind: LeaseKind)

  /** The four ways a table is swept: collection, and removal by scope, key or both. */
  datatype Sweep<K> =
    | Collect(now: Instant)
    | DropScope(scope: nat)
    | DropKey(key: K)
    | DropExact(exactKey: K, exactScope: nat)

  function Retained<K(==), X>(e: LeaseEntry<K, X>, sweep: Sweep<K>): Option<LeaseEntry<K, X>> {
    match sweep
    case Collect(now) =>
      (match e.kind.GcRetain(now)
       case None => None
       case Some(k) => Some(e.(kind := k)))
    case DropScope(scope) => if e.scope != scope then Some(e) else None
    case DropKey(key) => if e.key != key then Some(e) else None
    case DropExact(key, scope) => if e.key != key || e.scope != scope then Some(e) else None
  }

  function Swept<K(==), X>(es: seq<LeaseEntry<K, X>>, sweep: Sweep<K>): (r: seq<LeaseEntry<K, X>>)
    ensures |r| <= |es|
    ensures forall e :: e in r ==>
              exists e0 :: e0 in es && Retained(e0, sweep) == Some(e)
    ensures forall e0 :: e0 in es && Retained(e0, sweep).Some? ==> Retained(e0, sweep).value in r
  {
    if es == [] then []
    else
      var rest := Swept(es[..|es| - 1], sweep);
      assert es == es[..|es| - 1] + [es[|es| - 1]];
      match Retained(es[|es| - 1], sweep)
      case None => rest
      case Some(e) => rest + [e]
  }

  ghost predicate UniqueKeys<K, X>(es: seq<LeaseEntry<K, X>>) {
    forall i, j :: 0 <= i < j < |es| ==> es[i].key != es[j].key
  }

  /** A key may recur, but not within one scope. */
  ghost predicate UniqueScoped<K, X>(es: seq<LeaseEntry<K, X>>) {
    forall i, j :: 0 <= i < j < |es| ==> es[i].key != es[j].key || es[i].scope != es[j].scope
  }

  lemma {:induction false} SweepKeepsUniqueKeys<K, X>(es: seq<LeaseEntry<K, X>>, sweep: Sweep<K>)
    requires UniqueKeys(es)
    ensures UniqueKeys(Swept(es, sweep))
  {
    if es != [] {
      var front, last := es[..|es| - 1], es[|es| - 1];
      SweepKeepsUniqueKeys(front, sweep);
      forall e | e in Swept(front, sweep)
        ensures exists i :: 0 <= i < |front| && e.key == es[i].key && e.scope == es[i].scope
      {
        var e0 :| e0 in front && Retained(e0, sweep) == Some(e);
        var i :| 0 <= i < |front| && front[i] == e0;
        assert e.key == es[i].key;
      }
    }
  }

  lemma {:induction false} SweepKeepsUniqueScoped<K, X>(es: seq<LeaseEntry<K, X>>, sweep: Sweep<K>)
    requires UniqueScoped(es)
    ensures UniqueScoped(Swept(es, sweep))
  {
    if es != [] {
      var front, last := es[..|es| - 1], es[|es| - 1];
      SweepKeepsUniqueScoped(front, sweep);
      forall e | e in Swept(front, sweep)
        ensures exists i :: 0 <= i < |front| && e.key == es[i].key && e.scope == es[i].scope
      {
        var e0 :| e0 in front && Retained(e0, sweep) == Some(e);
        var i :| 0 <= i < |front| && front[i] == e0;
        assert e.key == es[i].key;
      }
    }
  }

  /** Collecting a lease early and then late is collecting it late. */
  lemma {:induction false} CollectTwiceKind(kind: LeaseKind, t1: Instant, t2: Instant)
    requires t1 <= t2
    ensures kind.GcRetain(t2) ==
            (match kind.GcRetain(t1) case None => None case Some(k) => k.GcRetain(t2))
  {}

  /** Collection composes over a whole table, whatever the interleaving of times. */
  lemma {:induction false} CollectTwice<K, X>(es: seq<LeaseEntry<K, X>>, t1: Instant, t2: Instant)
    requires t1 <= t2
    ensures Swept(Swept(es, Collect(t1)), Collect(t2)) == Swept(es, Collect(t2))
  {
    if es != [] {
      var front, last := es[..|es| - 1], es[|es| - 1];
      CollectTwice(front, t1, t2);
      CollectTwiceKind(last.kind, t1, t2);
      var once := Swept(front, Collect(t1));
      match Retained(last, Collect(t1)) {
        case None =>
        case Some(e) =>
          assert (once + [e])[..|once|] == once;
      }
    }
  }

  /** Index of the first entry with `key`, or the length when there is none. */
  function KeyIndex<K(==), X>(es: seq<LeaseEntry<K, X>>, key: K, from: nat := 0): (pos: nat)
    requires from <= |es|
    ensures from <= pos <= |es|
    ensures pos < |es| ==> es[pos].key == key
    ensures forall i :: from <= i < pos ==> es[i].key != key
    decreases |es| - from
  {
    if from == |es| || es[from].key == key then from else KeyIndex(es, key, from + 1)
  }

  /** As `KeyIndex`, for keys that are unique only within a scope. */
  function ScopedIndex<K(==), X>(es: seq<LeaseEntry<K, X>>, key: K, scope: nat, from: nat := 0): (pos: nat)
    requires from <= |es|
    ensures from <= pos <= |es|
    ensures pos < |es| ==> es[pos].key == key && es[pos].scope == scope
    ensures forall i :: from <= i < pos ==> es[i].key != key || es[i].scope != scope
    decreases |es| - from
  {
    if from == |es| || (es[from].key == key && es[from].scope == scope) then from
    else ScopedIndex(es, key, scope, from + 1)
  }

  predicate HasKey<K(==), X>(es: seq<LeaseEntry<K, X>>, key: K) {
    KeyIndex(es, key) < |es|
  }

  /** Removal that fills the hole with the last entry. */
  function SwapRemoved<T>(s: seq<T>, pos: nat): (r: seq<T>)
    requires pos < |s|
    ensures |r| == |s| - 1
  {
    if pos == |s| - 1 then s[..pos] else s[..|s| - 1][pos := s[|s| - 1]]
  }

  /** Membership test that collects only the entry it looks at. */
  function LazilyChecked<K(==), X>(es: seq<LeaseEntry<K, X>>, key: K, now: Instant)
    : (seq<LeaseEntry<K, X>>, bool)
  {
    var pos := KeyIndex(es, key);
    if pos == |es| then (es, false)
    else
      match Retained(es[pos], Collect(now))
      case Some(e) => (es[pos := e], true)
      case None => (SwapRemoved(es, pos), false)
  }

  lemma {:induction false} SweptConcat<K, X>(a: seq<LeaseEntry<K, X>>, b: seq<LeaseEntry<K, X>>, sweep: Sweep<K>)
    ensures Swept(a + b, sweep) == Swept(a, sweep) + Swept(b, sweep)
    decreases |b|
  {
    if b == [] {
      assert a + b == a;
    } else {
      var front := b[..|b| - 1];
      assert (a + b)[..|a + b| - 1] == a + front;
      SweptConcat(a, front, sweep);
    }
  }

  lemma {:induction false} SweptSplit<K, X>(a: seq<LeaseEntry<K, X>>, x: LeaseEntry<K, X>, b: seq<LeaseEntry<K, X>>,
                                            sweep: Sweep<K>)
    ensures Swept(a + [x] + b, sweep) ==
            Swept(a, sweep) + Swept([x], sweep) + Swept(b, sweep)
  {
    SweptConcat(a + [x], b, sweep);
    SweptConcat(a, [x], sweep);
  }

  lemma {:induction false} SweptOne<K, X>(x: LeaseEntry<K, X>, sweep: Sweep<K>)
    ensures Swept([x], sweep) ==
            (match Retained(x, sweep) case None => [] case Some(e) => [e])
  {
    assert [x][..0] == [];
  }

  /** With unique keys the lazy test answers as a full collection would. */
  lemma {:induction false} LazyAnswerIsFullAnswer<K, X>(es: seq<LeaseEntry<K, X>>, key: K, now: Instant)
    requires UniqueKeys(es)
    ensures LazilyChecked(es, key, now).1 <==> HasKey(Swept(es, Collect(now)), key)
  {
    var full := Swept(es, Collect(now));
    var pos := KeyIndex(es, key);
    if HasKey(full, key) {
      var e := full[KeyIndex(full, key)];
      assert e in full;
      var e0 :| e0 in es && Retained(e0, Collect(now)) == Some(e);
      var i :| 0 <= i < |es| && es[i] == e0;
      assert i == pos;
    }
  }

  lemma {:induction false} MovedLast<K, X>(a: seq<LeaseEntry<K, X>>, x: LeaseEntry<K, X>, mid: seq<LeaseEntry<K, X>>,
                        last: LeaseEntry<K, X>, sweep: Sweep<K>)
    requires Retained(x, sweep).None?
    ensures multiset(Swept(a + [last] + mid, sweep)) == multiset(Swept(a + [x] + (mid + [last]), sweep))
  {
    SweptSplit(a, last, mid, sweep);
    SweptSplit(a, x, mid + [last], sweep);
    SweptConcat(mid, [last], sweep);
    SweptOne(x, sweep);
  }

  lemma {:induction false} SwapShape<T>(s: seq<T>, pos: nat)
    requires pos < |s| - 1
    ensures s == s[..pos] + [s[pos]] + (s[pos + 1..|s| - 1] + [s[|s| - 1]])
    ensures SwapRemoved(s, pos) == s[..pos] + [s[|s| - 1]] + s[pos + 1..|s| - 1]
  {}

  /** Filling a hole with the last entry only permutes what a sweep would keep. */
  lemma {:induction false} SwapRemovedSweep<K, X>(es: seq<LeaseEntry<K, X>>, pos: nat, sweep: Sweep<K>)
    requires pos < |es| && Retained(es[pos], sweep).None?
    ensures multiset(Swept(SwapRemoved(es, pos), sweep)) == multiset(Swept(es, sweep))
  {
    if pos == |es| - 1 {
      SweptConcat(es[..pos], [es[pos]], sweep);
      SweptOne(es[pos], sweep);
      assert es == es[..pos] + [es[pos]];
    } else {
      var mid, last := es[pos + 1..|es| - 1], es[|es| - 1];
      SwapShape(es, pos);
      MovedLast(es[..pos], es[pos], mid, last, sweep);
    }
  }

  /** Advancing one entry early does not change what a later collection keeps. */
  lemma {:induction false} AdvancedSweep<K, X>(es: seq<LeaseEntry<K, X>>, pos: nat, now: Instant, later: Instant)
    requires pos < |es| && Retained(es[pos], Collect(now)).Some? && now <= later
    ensures Swept(es[pos := Retained(es[pos], Collect(now)).value], Collect(later)) == Swept(es, Collect(later))
  {
    var a, x, b := es[..pos], es[pos], es[pos + 1..];
    var e := Retained(x, Collect(now)).value;
    assert es == a + [x] + b;
    assert es[pos := e] == a + [e] + b;
    SweptSplit(a, x, b, Collect(later));
    SweptSplit(a, e, b, Collect(later));
    SweptOne(x, Collect(later));
    SweptOne(e, Collect(later));
    CollectTwiceKind(x.kind, now, later);
  }

  /** The table the lazy test leaves behind is, after any later full collection,
      the one a table never touched would be, up to order. */
  lemma {:induction false} LazyTableConverges<K, X>(es: seq<LeaseEntry<K, X>>, key: K, now: Instant, later: Instant)
    requires now <= later
    ensures multiset(Swept(LazilyChecked(es, key, now).0, Collect(later)))
         == multiset(Swept(es, Collect(later)))
  {
    var pos := KeyIndex(es, key);
    if pos < |es| {
      if Retained(es[pos], Collect(now)).Some? {
        AdvancedSweep(es, pos, now, later);
      } else {
        CollectTwiceKind(es[pos].kind, now, later);
        SwapRemovedSweep(es, pos, Collect(later));
      }
    }
  }

  lemma {:induction false} DroppedKeyIsGone<K, X>(es: seq<LeaseEntry<K, X>>, key: K)
    ensures !HasKey(Swept(es, DropKey(key)), key)
  {
    var r := Swept(es, DropKey(key));
    forall i | 0 <= i < |r| ensures r[i].key != key {
      assert r[i] in r;
      var e0 :| e0 in es && Retained(e0, DropKey(key)) == Some(r[i]);
    }
  }
}
