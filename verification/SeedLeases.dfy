/**
 Granting, refreshing and delegating a seed lease, for one record: what the
 root answers, and the prepare / commit pair a bridge runs around its own
 upstream refresh.
 */
module SeedLeases {
  import opened Wrappers
  import opened Leases

  /** Each hop hands down a refresh window this much smaller than its own. */
  const DELEGATION_MARGIN: nat := 5

  datatype SeedNetAssignment = SeedNetAssignment(
    netId: nat, expiresSeconds: nat, maxRefresh: nat, minRefresh: nat, token: Token)

  /** The lease as its holder stores it; the addresses of the grantor are not modelled. */
  datatype SeedLease = SeedLease(
    netId: nat, token: Token, expiresSeconds: nat, maxRefresh: nat, minRefresh: nat)

  datatype SeedRefreshError =
    | UnknownNetId | NotAssigned | AlreadyExpired | BadRequest | TooEarly | DelegationDepthExceeded

  datatype Preparation = Forward(parent: SeedLease) | ReplayAnswer(assignment: SeedNetAssignment)

  function Held(a: SeedNetAssignment): SeedLease {
    SeedLease(a.netId, a.token, a.expiresSeconds, a.maxRefresh, a.minRefresh)
  }

  function RefreshError(denied: RefreshDenied): SeedRefreshError {
    match denied
    case Expired => AlreadyExpired
    case BadToken => BadRequest
    case TooSoon => TooEarly
  }

  /** In the delegated paths pacing is the root's business, so TooSoon never leaves as such. */
  function DelegatedError(denied: RefreshDenied): SeedRefreshError {
    if denied == Expired then AlreadyExpired else BadRequest
  }

  predicate CanDelegate(parent: SeedLease) {
    parent.minRefresh > DELEGATION_MARGIN
  }

  function DelegatedAssignment(parent: SeedLease, token: Token, expiresSeconds: nat): SeedNetAssignment
    requires CanDelegate(parent)
  {
    SeedNetAssignment(parent.netId, expiresSeconds, parent.maxRefresh,
                      parent.minRefresh - DELEGATION_MARGIN, token)
  }

  function RootAssignment(netId: nat, token: Token, expiresSeconds: nat): SeedNetAssignment {
    SeedNetAssignment(netId, expiresSeconds, MAX_LEASE_SECS, MIN_REFRESH_SECS, token)
  }

  function RootRefresh(netId: nat, kind: LeaseKind, req: Token, now: Instant, newToken: Token)
    : (r: (LeaseKind, Result<SeedNetAssignment, SeedRefreshError>))
  {
    var (renewed, answer) := kind.Refresh(req, now, newToken, true);
    match answer
    case Err(e) => (renewed, Err(RefreshError(e)))
    case Ok((lease, replayed)) =>
      var secs := if replayed then RemainingLeaseSeconds(lease.expiration, now) else MAX_LEASE_SECS;
      (renewed, Ok(RootAssignment(netId, lease.token, secs)))
  }

  /** First half of a delegated refresh: check the child's token and say what to do. */
  function PrepareRefresh(kind: LeaseKind, parent: Option<SeedLease>, req: Token, now: Instant)
    : (r: (LeaseKind, Result<Preparation, SeedRefreshError>))
    requires parent.Some? ==> CanDelegate(parent.value)
  {
    var (checkedKind, checked) := kind.ValidateToken(req, now, true);
    match checked
    case Err(e) => (checkedKind, Err(DelegatedError(e)))
    case Ok(Replay) =>
      if parent.None? then (checkedKind, Err(NotAssigned))
      else
        (checkedKind,
         Ok(ReplayAnswer(DelegatedAssignment(parent.value, kind.lease.token,
                                             RemainingLeaseSeconds(kind.lease.expiration, now)))))
    case Ok(Current) =>
      (checkedKind, if parent.None? then Err(NotAssigned) else Ok(Forward(parent.value)))
  }

  /** Second half: the upstream refresh succeeded, so extend and rotate locally. */
  function CommitRefresh(kind: LeaseKind, parent: Option<SeedLease>, req: Token, now: Instant,
                         newToken: Token, refreshed: SeedLease)
    : (r: (LeaseKind, Option<SeedLease>, Result<SeedNetAssignment, SeedRefreshError>))
    requires CanDelegate(refreshed)
  {
    var (checkedKind, checked) := kind.ValidateToken(req, now, false);
    match checked
    case Err(e) => (checkedKind, parent, Err(DelegatedError(e)))
    case Ok(_) =>
      if parent.None? then (checkedKind, parent, Err(NotAssigned))
      else
        var renewed := Lease(now + refreshed.expiresSeconds * SECOND, newToken, Some(kind.lease.token));
        (Active(renewed), Some(refreshed),
         Ok(DelegatedAssignment(refreshed, newToken, refreshed.expiresSeconds)))
  }
}
