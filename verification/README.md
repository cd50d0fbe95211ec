# ergot: leases, routing, framing and ports

A model in Dafny of the parts of ergot where state, time and bytes interact,
and proofs about it.

- **Leases and routing.** A router keeps interface slots, seed routes (leased
  net_ids) and bus node claims. `Leases` is the life cycle of one lease and of
  tables of them; `Routers.Router` is the router, updating its fields in place,
  each method proved against a function of `RouterModel`; `RouterInvariant`,
  `RouterRuns` and `RouterTombstones` prove what every operation and every run
  keeps, and `UpstreamNumbers` joins a bridge with the processor of its
  upstream port. What each operation leaves in the tables, and what the next
  one then answers, is said entry by entry in `RouterLaws` (interfaces and
  routing), `LeaseLaws` (grants), `RefreshLaws` (refresh and release) and
  `ClaimLaws` (node claims).
- **Delegation.** `LeaseChain` is one leased id handed down a chain of
  bridges: a step system over a clock in nanoseconds with calls, timeouts, and
  requests and answers that may be lost, late or repeated. An answer carries
  nothing but the port it goes to. `LeaseNetworks` and `LeaseAnswers` prove
  what holds of every run, and what under a promise of the network;
  `LeaseWitnesses` and `LeaseDrift` are runs that show the promises are needed
  and the bounds are not better. `RouterChain` shows that a router moves its
  record as a node of the chain moves: the nodes are routers.
- **Flooding.** `Broadcasts` is what one router does with a broadcast, and
  `SendingLaws` says the same, and where one frame leaves, port by port;
  `Flooding` networks of routers with frames processed in any order, and
  `FloodingTrees` the count of deliveries on acyclic networks.
- **Streams.** `Cobs`, `CobsAccumulators`, `CobsStream`, `CobsSinks` and
  `WireFrames` follow a header from the sink through COBS framing, any cutting
  of the byte stream, the accumulator and the receive loop back to a header.
  COBS is that of section 3 of Cheshire and Baker, "Consistent Overhead Byte
  Stuffing"; varints are those of the Postcard wire format.
- **Ports, packets, sockets.** `PortCache` is the sliding window of the port
  allocator over the socket list, `UsbFraming` the bulk packet framing (section
  5.8.3 of the USB 2.0 specification) with a sender that can be cancelled,
  `EdgeDiscovery` how an edge learns its net_id, `OwnedSockets` the queue and
  waker of a socket that stores whole messages.

Where something is outside the model it is a parameter: the clock reading and
the token of each operation, whether a queue has room, whether a net is in
transit, after how many writes a timer fires and whether the write it
interrupts still goes out. Tokens come from a random generator in the source;
here the tokens of one record are assumed to differ.

Two promises of the network appear by name. *Prompt*: an answer a bridge
accepts was sent at most 1 s before. *Answering*: an answer accepted was sent
while the accepting call was open. The code checks neither: an answer is matched
by port alone, a port is free again as soon as a call times out, and the next
call normally gets the same one.

## What turned out otherwise

- A bridge that accepts a late answer to an earlier call keeps its route past
  the grace of the root (`LeaseWitnesses.LateAnswerOutlivesGrace`). The exact
  condition is on the sum of delays and roundings down the chain
  (`LeaseNetworks.GraceKeptIff`); prompt answers keep it small enough.
- A holder that accepts an answer from before its call can lose its token, even
  if every answer is prompt (`LeaseWitnesses.StaleAnswerLosesToken`). The exact
  condition is `LeaseNetworks.TokensAgreeIff`.
- The 2 s by which a route may outlast that of its parent are counted from the
  generation of the parent it rests on. A parent that is answered twice about
  the same renewal of the root may itself move back by most of a second, so the bound
  against the latest record is 2 s a hop (`LeaseAnswers.RouteExpiresWithItsParent`,
  and `LeaseDrift.ParentMovesBack` for a run that exceeds 2 s).
- A forwarded frame within the MTU need not fit the queue space requested for
  it: a run of 254 bytes without a zero at the very end of the data opens one
  more block than was planned for. `CobsSinks.RawFrameFitsGrantIff` is the exact
  condition, `CobsSinks.SentFrameOverrunsItsGrant` a family of frames that ports
  do send. The sink then reports an error and commits nothing.
- The broadcast loop of `send_raw` rewrites one header, so the upstream port
  judges the destination of the last slot. `Broadcasts.UpstreamReachedIff` says
  exactly when the copy to it is swallowed. It takes a slot with the number of
  the upstream; a reset processor that resumes its net_id does not look whether
  one has it by now (`UpstreamNumbers.FrameKeepsApartIff`).
- A message header round-trips exactly when its appendix is there for wildcard
  and broadcast ports and only there (`WireFrames.MessageRoundTripIff`).
- One cancelled USB send can leave two pieces at the receiver that are no frame
  of a completed send, not one: its own frame, if the interrupted write went out
  after all, and the empty one its repair ends (`UsbFraming.TwoPiecesBesideFrames`).
- Only a reset reopens the discovery window. An interface that goes down and
  comes back link-local without one keeps link-local addressing
  (`EdgeDiscovery.ReturnIsDiscoveredIff`).
- A release, or removal of an interface at the root, anchors the reservation of
  an id to an earlier time than its bridges know. The timing results of the
  chain are for runs without them.
- The conformance text returns every error of the profile but "destination
  local" to the sender of a unicast
  (crates/ergot/src/conformance/net_stack.rs:61-71); the code also falls back to
  the local sockets on a routing loop
  (crates/ergot/src/net_stack/inner.rs:229-235). The fallback is not modelled.

## Model

| member | source | states |
|---|---|---|
| Leases.RemainingLeaseSeconds | crates/ergot/src/interface_manager/profiles/router.rs:65-73 | the seconds told to a holder on a replay never make its lease end before the record does, nor a second or more after it |
| Leases.HistoryKeepsExpirationBounds | crates/ergot/src/interface_manager/profiles/router.rs:166-219 | over any chronological history of refresh requests the expiration never moves back, never passes 120 s after the last request, and moves only on a genuine extension |
| Leases.TombstoneIsNeverRevived | crates/ergot/src/interface_manager/profiles/router.rs:174-175 | no history of requests brings a tombstone back or extends it |
| Leases.ExtensionsFollowTheWindow | crates/ergot/src/interface_manager/profiles/router.rs:211-217 | n extensions need the last request to come 58 s times n - 1 after the refresh window first opened |
| Leases.ExtensionsArePaced | crates/ergot/src/interface_manager/profiles/router.rs:211-217 | n genuine extensions of one lease span at least 58 s times n - 1, whatever requests arrive in between |
| Leases.SweepKeepsUniqueKeys | crates/ergot/src/interface_manager/profiles/router.rs:249-253 | a table with unique keys keeps them through every kind of sweep |
| Leases.SweepKeepsUniqueScoped | crates/ergot/src/interface_manager/profiles/router.rs:305-310 | the same for tables unique by key and scope |
| Leases.CollectTwiceKind | crates/ergot/src/interface_manager/profiles/router.rs:144-161 | collecting one lease at t1 and then at t2 leaves what collecting at t2 alone leaves |
| Leases.CollectTwice | crates/ergot/src/interface_manager/profiles/router.rs:249-253 | the same for whole tables |
| Leases.LazyAnswerIsFullAnswer | crates/ergot/src/interface_manager/profiles/router.rs:259-271 | with unique keys the lazy membership check answers as a full collection followed by a lookup would |
| Leases.LazyTableConverges | crates/ergot/src/interface_manager/profiles/router.rs:259-271 | a full collection at any later time makes the lazily checked table hold the same entries as the untouched one |
| Leases.DroppedKeyIsGone | crates/ergot/src/interface_manager/profiles/router.rs:312-314 | removing a key leaves no entry with it |
| LeaseTables.LeaseTable.RetainMut | crates/ergot/src/interface_manager/profiles/router.rs:249-253 | the in-place sweep leaves exactly the retained entries, in order, whichever sweep it is |
| LeaseTables.LeaseTable.Find | crates/ergot/src/interface_manager/profiles/router.rs:275-277 | the first entry with the key, or that there is none |
| LeaseTables.LeaseTable.FindScoped | crates/ergot/src/interface_manager/profiles/router.rs:285-289 | the first entry with key and scope, or that there is none |
| LeaseTables.LeaseTable.ContainsKeyAt | crates/ergot/src/interface_manager/profiles/router.rs:261-271 | advances or removes only the entry asked about, moving the last entry into the gap |
| LeaseTables.LeaseTable.Push | crates/ergot/src/interface_manager/profiles/router.rs:324-333 | appends unless the table is full, and says which |
| LeaseChain.StepKeepsInv | crates/ergot/src/net_stack/services.rs:499-624 | every step of the delegation protocol keeps the chain invariant, however late or often any message arrives: joining, calling, serving at the root or at a bridge, accepting, committing, giving up, collecting, unplugging, letting time pass |
| LeaseChain.OpenCallKeepsInv | crates/ergot/src/net_stack/services.rs:603-607 | forwarding a refresh upstream is safe whenever the current token was presented |
| LeaseChain.RootExtensionKeepsInv | crates/ergot/src/interface_manager/profiles/router.rs:1234-1268 | the root extending and rotating its record keeps every stored token one that was issued |
| LeaseChain.BridgeReplayKeepsInv | crates/ergot/src/interface_manager/profiles/router.rs:1090-1103 | a bridge that answers a replay tells its child less than a second more than is left of the record |
| LeaseChain.CommitKeepsInv | crates/ergot/src/interface_manager/profiles/router.rs:1113-1160 | a bridge that commits, whichever call the answer was meant for, moves to a new generation that outlasts the one shown by the delay and the rounding |
| LeaseNetworks.RunKeepsInv | crates/ergot/src/net_stack/services.rs:584-624 | the invariant holds over whole runs with lost, delayed and repeated requests and answers, an answer going to whatever call has its port open |
| LeaseNetworks.RootNeverRefusesTooEarly | crates/ergot/src/interface_manager/profiles/router.rs:46-49 | on any network, when the last holder keeps to its own refresh window no request that reaches the root, at any depth of origin, current or stale, is refused as too early |
| LeaseNetworks.CommitOfLiveRecordSucceeds | crates/ergot/src/net_stack/services.rs:609-615 | on any network the commit of a record that is still live goes through |
| LeaseNetworks.AtMostTwelveBridges | crates/ergot/src/interface_manager/profiles/router.rs:46-63 | the 5 s margin lets at most twelve bridges route for one leased id |
| LeaseWitnesses.TwelveBridgesAreReached | crates/ergot/src/interface_manager/profiles/router.rs:46-63 | and twelve are reached |
| LeaseNetworks.RefusedIff | crates/ergot/src/interface_manager/profiles/router.rs:166-192 | on any network a live lease refuses a request as a bad one exactly when its grantor has renewed twice since the token carried was handed out; otherwise it grants, replays or forwards, or an unpaced holder is too early |
| LeaseNetworks.TokensAgreeIff | crates/ergot/src/interface_manager/profiles/router.rs:166-192 | on any network the stored token is the current or previous one of the live record exactly when the grantor has renewed at most once since it sent the answer accepted last |
| LeaseNetworks.ExpirationIsRootsPlusLag | crates/ergot/src/interface_manager/profiles/router.rs:1131-1157 | on any network a record outlasts the generation of the root it rests on by exactly the delays and roundings of the answers in between |
| LeaseNetworks.DropsAt | crates/ergot/src/interface_manager/profiles/router.rs:144-161 | the root drops the id at a collection exactly from 30 s after the last expiration it gave |
| LeaseNetworks.GraceKeptIff | crates/ergot/src/interface_manager/profiles/router.rs:73-75 | on any network a bridge still routes for the id when the root first may hand it out again exactly when those delays and roundings exceed the grace and what the root has added since |
| LeaseNetworks.ExpirationsTrackRoot | crates/ergot/src/interface_manager/profiles/router.rs:1131-1157 | with prompt answers, generation by generation, the bridge at depth i expires at or after the root, and by at most 2 s times i |
| LeaseNetworks.RouteExpiresWithItsGrant | crates/ergot/src/interface_manager/profiles/router.rs:1038-1050 | with prompt answers a bridge route ends less than 2 s after the generation of its grantor it rests on, and not before it |
| LeaseNetworks.RouteEndsInsideGrace | crates/ergot/src/interface_manager/profiles/router.rs:73-75 | with prompt answers every live bridge route ends within 24 s of the last expiration of the root |
| LeaseNetworks.NoActiveRouteAfterGrace | crates/ergot/src/interface_manager/profiles/router.rs:73-75 | with prompt answers, once the root has dropped the id, or would at its next collection, no bridge has an active route for it |
| LeaseWitnesses.LateAnswerOutlivesGrace | crates/ergot/src/net_stack/services.rs:603-615 | without that promise a paced chain of three is reached in which the root may hand the id out again while its bridge routes for it |
| LeaseAnswers.StepKeepsFresh | crates/ergot/src/net_stack/services.rs:584-624 | while every answer accepted was sent during its call, no step puts a holder more than one generation behind its grantor |
| LeaseAnswers.TokensAgree | crates/ergot/src/interface_manager/profiles/router.rs:166-192 | then on every link of every reachable state the stored token is the current or the previous token of the live record, under any loss, repetition or delay of requests |
| LeaseAnswers.HonestRetryIsServed | crates/ergot/src/interface_manager/profiles/router.rs:1067-1111 | then a retry with the stored token on a live lease, at the root or at any bridge, is never answered as a bad request |
| LeaseAnswers.RouteExpiresWithItsParent | crates/ergot/src/interface_manager/profiles/router.rs:1038-1050 | with answers that are prompt too, a bridge route ends less than 2 s after the record of its grantor; up to 2 s a hop later only if the grantor was answered again about one and the same renewal of the root |
| LeaseDrift.ParentMovesBack | crates/ergot/src/interface_manager/profiles/router.rs:1038-1050 | such a run, with prompt answers each sent during its call: the route of the child outlasts the record of its grantor by 2.7 s |
| LeaseWitnesses.StaleAnswerLosesToken | crates/ergot/src/net_stack/services.rs:734-762 | prompt answers alone do not keep the tokens in agreement: a reachable root and holder that have lost it |
| RouterModel.LowestFreeNet | crates/ergot/src/interface_manager/profiles/router.rs:469-471 | the lowest id in 1..65534 that no slot, route or tombstone and not the upstream holds; none exactly when all are held |
| RouterModel.LowestFreeIdent | crates/ergot/src/interface_manager/profiles/router.rs:497-499 | the lowest ident no slot has |
| RouterModel.TombstoneVia | crates/ergot/src/interface_manager/profiles/router.rs:578-583 | exactly the routes through the removed slot become tombstones with a grace that starts now |
| RouterInvariant.FreeIdentExists | crates/ergot/src/interface_manager/profiles/router.rs:497-499 | the pigeonhole expectation on idents never fails |
| RouterInvariant.FreeNetExists | crates/ergot/src/interface_manager/profiles/router.rs:452-471 | a net_id is free as long as slots, routes and upstream are together fewer than 65534 |
| RouterInvariant.RegisterKeepsInv | crates/ergot/src/interface_manager/profiles/router.rs:487-523 | registration keeps the registry invariant |
| RouterInvariant.DeregisterKeepsInv | crates/ergot/src/interface_manager/profiles/router.rs:560-592 | removal keeps it: no active route leads through the slot that is gone and no claim is left on its segment |
| RouterInvariant.SetInterfaceStateKeepsInv | crates/ergot/src/interface_manager/profiles/router.rs:863-882 | the invariant speaks of slot numbers, so a port state change cannot break it |
| RouterInvariant.ReassignKeepsInv | crates/ergot/src/interface_manager/profiles/router.rs:884-927 | renumbering a slot keeps all numbers distinct and drops the claims of the old number |
| RouterInvariant.RequestSeedKeepsInv | crates/ergot/src/interface_manager/profiles/router.rs:929-978 | granting an id keeps keys distinct and apart from slot numbers |
| RouterInvariant.RegisterDelegatedKeepsInv | crates/ergot/src/interface_manager/profiles/router.rs:999-1065 | so does registering a delegated id, fresh or already known |
| RouterInvariant.PrepareDelegatedKeepsInv | crates/ergot/src/interface_manager/profiles/router.rs:1067-1111 | so does the first half of a delegated refresh |
| RouterInvariant.CommitDelegatedKeepsInv | crates/ergot/src/interface_manager/profiles/router.rs:1113-1160 | so does the second half |
| RouterInvariant.RequestClaimKeepsInv | crates/ergot/src/interface_manager/profiles/router.rs:1270-1332 | every claim granted is for a node id that is not reserved, on the nonzero number of a live slot |
| RouterInvariant.IsTransitKeepsInv | crates/ergot/src/interface_manager/profiles/router.rs:1390-1402 | the lazy membership check keeps the invariant |
| RouterInvariant.RouteIsSound | crates/ergot/src/interface_manager/profiles/router.rs:634-709 | a routed frame leaves through a live slot or the upstream and never through the port it came in on, so the stale-ident branch is unreachable |
| RouterRuns.OpKeepsInv | crates/ergot/src/interface_manager/profiles/router.rs:449-592 | every operation of the router keeps the registry invariant |
| RouterRuns.ReachableRegistry | crates/ergot/src/interface_manager/profiles/router.rs:449-592 | in every state a run reaches, idents are distinct and below N, nonzero slot numbers are distinct, leased ids are distinct and apart from slot numbers, tombstones included, and allocations fail only when all ids are in use |
| RouterTombstones.OpAges | crates/ergot/src/interface_manager/profiles/router.rs:560-592 | no operation drops a tombstone before its clear time, revives it or shortens its grace, except taking the same id over from the upstream |
| RouterTombstones.TombstonedIdStaysReserved | crates/ergot/src/interface_manager/profiles/router.rs:144-161 | in any history of a router, from when a tombstone is seen until its clear time no operations give the id to a route or a slot, unless the upstream delegates it afresh |
| RouterRuns.OpKeepsOwner | crates/ergot/src/interface_manager/profiles/router.rs:1270-1388 | no operation on a kept segment changes the owner of a node id before its reservation has run out, or shortens the reservation |
| RouterRuns.OwnershipIsExclusive | crates/ergot/src/interface_manager/profiles/router.rs:1270-1388 | over whole runs an owner holds its node id until an operation comes at least 30 s after the expiration it then has |
| RouterRuns.ClaimWhileReserved | crates/ergot/src/interface_manager/profiles/router.rs:1296-1318 | while a node id is reserved a claim succeeds exactly for the same nonce on an unexpired lease, returns the token already granted and uses no entry |
| Routers.Router.constructor | crates/ergot/src/interface_manager/profiles/router.rs:410-442 | a root has no upstream, a bridge one in the target role; both start with the invariant |
| Routers.Router.AllocNetId | crates/ergot/src/interface_manager/profiles/router.rs:469-471 | the loop finds the lowest free id |
| Routers.Router.AllocIdent | crates/ergot/src/interface_manager/profiles/router.rs:497-499 | the loop finds the lowest free ident, and there is one |
| Routers.Router.RegisterPending | crates/ergot/src/interface_manager/profiles/router.rs:532-553 | new slot without a number, in place |
| Routers.Router.Register | crates/ergot/src/interface_manager/profiles/router.rs:487-523 | collects, takes the lowest ident and id, appends the slot, in place |
| Routers.Router.Deregister | crates/ergot/src/interface_manager/profiles/router.rs:560-592 | swap-removes the slot, tombstones its routes, drops its claims, in place |
| Routers.Router.SetInterfaceState | crates/ergot/src/interface_manager/profiles/router.rs:863-882 | changes the state of one port and nothing else |
| Routers.Router.Reassign | crates/ergot/src/interface_manager/profiles/router.rs:884-927 | refuses a number in use, else renumbers slot and port together |
| Routers.Router.RequestSeed | crates/ergot/src/interface_manager/profiles/router.rs:929-978 | grants the lowest free id to the slot that asks, with all refusals |
| Routers.Router.CanDelegateSeed | crates/ergot/src/interface_manager/profiles/router.rs:988-997 | refuses before anything is leased upstream |
| Routers.Router.RegisterDelegated | crates/ergot/src/interface_manager/profiles/router.rs:999-1065 | registers a delegated id, replacing a route it already has for it |
| Routers.Router.RefreshSeed | crates/ergot/src/interface_manager/profiles/router.rs:1234-1268 | extends and rotates, or replays, one root-granted lease |
| Routers.Router.PrepareDelegated | crates/ergot/src/interface_manager/profiles/router.rs:1067-1111 | validates and either replays or hands out the parent lease to forward |
| Routers.Router.CommitDelegated | crates/ergot/src/interface_manager/profiles/router.rs:1113-1160 | the record ends with the refreshed lease from above, has the new token, the old one for a replay and the new parent lease (`RefreshLaws.CommitIsRecorded` says so of the record), in place |
| Routers.Router.PrepareRelease | crates/ergot/src/interface_manager/profiles/router.rs:1162-1186 | validates a release without replay |
| Routers.Router.CommitRelease | crates/ergot/src/interface_manager/profiles/router.rs:1188-1208 | removes the route if the token is still current |
| Routers.Router.ReleaseSeed | crates/ergot/src/interface_manager/profiles/router.rs:1210-1232 | collects, validates and removes at the root |
| Routers.Router.RequestClaim | crates/ergot/src/interface_manager/profiles/router.rs:1270-1332 | grants, returns again or refuses a node id, in place; `ClaimLaws.ClaimantOwns` says what the claim table holds afterwards |
| Routers.Router.RefreshClaim | crates/ergot/src/interface_manager/profiles/router.rs:1334-1375 | extends and rotates, or replays, one claim |
| Routers.Router.IsNodeClaimed | crates/ergot/src/interface_manager/profiles/router.rs:1377-1388 | point-to-point roles and live claims of that segment only |
| Routers.Router.IsTransit | crates/ergot/src/interface_manager/profiles/router.rs:1390-1402 | slot numbers and leased ids, tombstones included, never zero |
| Routers.Router.Find | crates/ergot/src/interface_manager/profiles/router.rs:634-709 | collects and then routes: never back to the port of origin, never to a slot that is gone; which port it is the four routing laws of `RouterLaws` say by what the tables hold |
| Routers.Router.SendRaw | crates/ergot/src/interface_manager/profiles/router.rs:800-851 | spends one TTL, then floods or forwards one frame |
| Routers.Router.BroadcastRaw | crates/ergot/src/interface_manager/profiles/router.rs:806-844 | the loop over slots and upstream with its one rewritten header sends exactly the legs, and answers the error, of the specification |
| Routers.Router.UnicastRaw | crates/ergot/src/interface_manager/profiles/router.rs:845-850 | collects, looks up and sends through one port, as `SendingLaws.UnicastLeavesByItsRoute` spells out |
| Routers.Router.BroadcastOwn | crates/ergot/src/interface_manager/profiles/router.rs:746-782 | the loop for frames of this node, a fresh header copy per slot |
| RouterLaws.PendingSlotIsNew | crates/ergot/src/interface_manager/profiles/router.rs:532-553 | a pending slot gets the lowest ident no slot has, number zero and a port in the controller role; refused exactly when all slots are taken |
| RouterLaws.RegisteredSlotIsNew | crates/ergot/src/interface_manager/profiles/router.rs:487-523 | slot and port get the lowest ident no slot has and the lowest number in no slot, route or upstream; everything else only loses what collection takes |
| RouterLaws.DeregisteredSlotIsGone | crates/ergot/src/interface_manager/profiles/router.rs:560-592 | exactly that slot is gone, its routes are tombstones that end 30 s from now, the claims of its segment are gone, and nothing else has changed |
| RouterLaws.UnknownIdentIsLeft | crates/ergot/src/interface_manager/profiles/router.rs:560-592 | an ident no slot has: nothing happens |
| RouterLaws.StateIsSet | crates/ergot/src/interface_manager/profiles/router.rs:863-882 | exactly one port, of that ident or the upstream, has the new state; refusals change nothing |
| RouterLaws.SlotIsRenumbered | crates/ergot/src/interface_manager/profiles/router.rs:884-927 | the three refusals, and else slot and port agree on the number and the claims made under the old one are gone |
| RouterLaws.DirectNetIsRouted | crates/ergot/src/interface_manager/profiles/router.rs:649-666 | a number some slot has: node 1 is this node, any other leaves through that slot, a loop exactly when it came from there |
| RouterLaws.LeasedNetIsRouted | crates/ergot/src/interface_manager/profiles/router.rs:668-695 | a leased number: through the slot of its record while that is live, a loop exactly when it came from there, else nowhere, whether there is an upstream or not |
| RouterLaws.OtherNetGoesUp | crates/ergot/src/interface_manager/profiles/router.rs:668-709 | any other number: to the upstream, a loop exactly when it came from there, and nowhere without one |
| RouterLaws.FindRoutesAfterCollecting | crates/ergot/src/interface_manager/profiles/router.rs:634-643 | port 0 needs an appendix before anything else happens; then collection, then those rules |
| RouterLaws.TransitNets | crates/ergot/src/interface_manager/profiles/router.rs:1390-1402 | the nets known are the numbers of slots and those of records whose reservation is not over |
| LeaseLaws.RefreshOutcome | crates/ergot/src/interface_manager/profiles/router.rs:166-219 | which token at which time extends, replays or is refused, and with what error, for a live lease |
| LeaseLaws.CollectedRecord | crates/ergot/src/interface_manager/profiles/router.rs:144-161 | what a collection makes of one record in a table: kept, turned into a tombstone, or gone, by the clock |
| LeaseLaws.SeedIsGranted | crates/ergot/src/interface_manager/profiles/router.rs:929-978 | the lowest unused number for 30 s, recorded for the segment and through the slot the request came from, beside what collection leaves |
| LeaseLaws.GrantedNetIsRouted | crates/ergot/src/interface_manager/profiles/router.rs:929-978 | end to end: until the lease ends a frame for the granted net leaves through that slot |
| LeaseLaws.DelegationAnswers | crates/ergot/src/interface_manager/profiles/router.rs:999-1038 | when a delegation is refused, with which error, and when it goes through |
| LeaseLaws.DelegationIsRegistered | crates/ergot/src/interface_manager/profiles/router.rs:1038-1065 | recorded through the slot that asks, with the lease held from above and its time, in the place of any record with that number; 5 s of window less are handed on |
| LeaseLaws.DelegatedNetIsRouted | crates/ergot/src/interface_manager/profiles/router.rs:999-1065 | end to end: until that lease ends a frame for the delegated net leaves through the slot that asked |
| LeaseLaws.CheckedBeforeLeasing | crates/ergot/src/interface_manager/profiles/router.rs:988-997 | what the check before leasing upstream admits is refused afterwards only for a collision or for depth |
| RefreshLaws.RootRefreshIsRecorded | crates/ergot/src/interface_manager/profiles/router.rs:1234-1268 | the record after a root refresh, by token and time, with every other entry as it was |
| RefreshLaws.UnknownLeaseIsRefused | crates/ergot/src/interface_manager/profiles/router.rs:1188-1268 | without a record of that number and segment nothing happens |
| RefreshLaws.PreparedFromRecord | crates/ergot/src/interface_manager/profiles/router.rs:1067-1111 | the first half at a bridge: the current token gets the lease held from above, the previous one the same answer again, any other an error |
| RefreshLaws.PreparedFromNothing | crates/ergot/src/interface_manager/profiles/router.rs:1075-1089 | a record that ran out is refused as expired until it is dropped, then as unknown |
| RefreshLaws.CommitIsRecorded | crates/ergot/src/interface_manager/profiles/router.rs:1113-1160 | after an Ok the one record of that number and segment ends at now plus the seconds answered, with the token answered, the one presented for a replay and the refreshed lease as parent; every other entry is as it was |
| RefreshLaws.CommitSucceeds | crates/ergot/src/interface_manager/profiles/router.rs:1131-1157 | a live record and its current token are enough |
| RefreshLaws.RequestsAfterCommit | crates/ergot/src/interface_manager/profiles/router.rs:1067-1160 | until that end a request with the new token is forwarded with the refreshed lease, and one with the old token hears the new one again |
| RefreshLaws.ReleaseRemovesTheRecord | crates/ergot/src/interface_manager/profiles/router.rs:1188-1208 | an Ok takes exactly the one record, any error nothing, and when which |
| RefreshLaws.RootReleaseRemovesTheRecord | crates/ergot/src/interface_manager/profiles/router.rs:1210-1232 | the same at the root after a collection |
| RefreshLaws.PreparedRelease | crates/ergot/src/interface_manager/profiles/router.rs:1162-1186 | the current token of a live record gets the parent lease to give back, and the record stays |
| ClaimLaws.FreeNodeIsClaimed | crates/ergot/src/interface_manager/profiles/router.rs:1298-1332 | a node id nobody has on the segment: granted for 30 s to the nonce that asks, or refused, and the entry stored |
| ClaimLaws.ReservedNodesAreRefused | crates/ergot/src/interface_manager/profiles/router.rs:1270-1281 | 0, 1, 2 and 255 are never granted |
| ClaimLaws.ClaimantOwns | crates/ergot/src/interface_manager/profiles/router.rs:1308-1332 | whoever is granted a free node id owns it until the reservation ends 30 s after the lease, and its frames pass until the lease ends |
| ClaimLaws.TakenNodeIsAnswered | crates/ergot/src/interface_manager/profiles/router.rs:1294-1313 | one with a live claim: the same nonce is answered with its token and the seconds left rounded down, another refused |
| ClaimLaws.AfterAClaim | crates/ergot/src/interface_manager/profiles/router.rs:1270-1375 | while it lasts the same nonce hears the same token, another a conflict, and the token extends the claim |
| ClaimLaws.ClaimRefreshIsRecorded | crates/ergot/src/interface_manager/profiles/router.rs:1334-1375 | the record after a claim refresh, by token and time, with every other entry as it was |
| ClaimLaws.ClaimedNodesPass | crates/ergot/src/interface_manager/profiles/router.rs:1377-1388 | a sender passes exactly with a point-to-point role or a live claim on that very segment |
| RouterChain.GrantBegins | crates/ergot/src/interface_manager/profiles/router.rs:929-978 | a grant at the root makes the record and the answer of a chain that begins |
| RouterChain.DelegationJoins | crates/ergot/src/interface_manager/profiles/router.rs:999-1065 | a registration at a bridge makes the record of the next node and the next offer |
| RouterChain.CollectionMirrors | crates/ergot/src/interface_manager/profiles/router.rs:249-253 | a collection moves the record as the node |
| RouterChain.RootServesAsRouter | crates/ergot/src/interface_manager/profiles/router.rs:1234-1268 | a root refresh moves the record as the first node of a chain, and its answer is the reply added |
| RouterChain.BridgePreparesAsRouter | crates/ergot/src/interface_manager/profiles/router.rs:1067-1111 | preparing moves the record as the node: a replay is the reply added, a forward the call opened with the token of the lease held |
| RouterChain.BridgeCommitsAsRouter | crates/ergot/src/interface_manager/profiles/router.rs:1113-1160 | committing moves record and held lease as the node, and its answer is the reply added |
| RouterChain.UnplugMirrors | crates/ergot/src/interface_manager/profiles/router.rs:560-592 | removing the slot of the child makes the tombstone of the node |
| Broadcasts.ReadyRouterFloods | crates/ergot/src/interface_manager/profiles/router.rs:823-837 | on healthy links a forwarded broadcast goes to every slot but its source and to the upstream unless it came from there, and to nothing else |
| Broadcasts.ReadyRouterSends | crates/ergot/src/interface_manager/profiles/router.rs:757-772 | an own broadcast goes to every slot and to the upstream |
| Broadcasts.HeaderAfterSlots | crates/ergot/src/interface_manager/profiles/router.rs:823-833 | the header the slot loop leaves behind names the last slot tried |
| Broadcasts.UpstreamReachedIff | crates/ergot/src/interface_manager/profiles/router.rs:828-837 | the copy to an active upstream is swallowed exactly when the number of the last slot tried (or, with none, the destination received) names the upstream port itself |
| SendingLaws.PortSends | crates/ergot/src/interface_manager/edge_port.rs:128-213 | sending through a port: the reasons against it in their order, and else what happens to source and destination |
| SendingLaws.PortChangesState | crates/ergot/src/interface_manager/edge_port.rs:97-119 | reserved node ids are refused; a state with a node id makes it the own one of the port |
| SendingLaws.UnicastLeavesByItsRoute | crates/ergot/src/interface_manager/profiles/router.rs:845-850 | a frame for one node leaves once, through the port its route names, with the header that port makes of it, or not at all with the error of lookup or port |
| SendingLaws.EachSlotByItself | crates/ergot/src/interface_manager/profiles/router.rs:823-833 | on any links: one leg, in table order, for each slot but the source whose port sends the frame readdressed to its link, and the last genuine error is the one remembered |
| SendingLaws.EachSlotHearsOwn | crates/ergot/src/interface_manager/profiles/router.rs:757-772 | the same for a frame of the node itself and every slot with a number; the header is not touched |
| SendingLaws.UpstreamComesLast | crates/ergot/src/interface_manager/profiles/router.rs:773-776 | then the upstream: a forwarded frame still names the last slot tried, an own one is as its sender addressed it |
| SendingLaws.BroadcastSucceedsIff | crates/ergot/src/interface_manager/profiles/router.rs:838-840 | a forwarded broadcast succeeds exactly when it left somewhere |
| SendingLaws.NobodyHears | crates/ergot/src/interface_manager/profiles/router.rs:838-844 | with every other link idle the answer tells a lone link (a loop) from links without an audience (no route) |
| SendingLaws.FullQueuesAreReported | crates/ergot/src/interface_manager/profiles/router.rs:838-844 | with every queue full a root reports that |
| UpstreamNumbers.OpKeepsApart | crates/ergot/src/interface_manager/profiles/router.rs:452-458 | registration, renumbering, leases, releases, claims and lookups keep the numbers below apart from that of the upstream |
| UpstreamNumbers.FrameKeepsApartIff | crates/ergot/src/interface_manager/profiles/direct_edge.rs:275-303 | a frame from upstream keeps them apart exactly when it does not resume a known net_id that something below has taken since |
| UpstreamNumbers.SharedNumberSilencesUpstream | crates/ergot/src/interface_manager/profiles/router.rs:828-837 | a run of a new bridge in which that happens, and a broadcast from below then does not reach the upstream |
| Flooding.ScheduleConserves | crates/ergot/src/net_stack/inner.rs:59-140 | in any order of processing, on any wiring, with any room at each node, deliveries made and deliveries still owed add up to the same multiset |
| Flooding.ForwardingTerminates | crates/ergot/src/lib.rs:200-209 | on any wiring, cycles included, with room that differs from node to node, no schedule processes more frames than that multiset holds, and one that empties the network has delivered exactly it |
| Flooding.ForwardingAlwaysStops | crates/ergot/src/lib.rs:200-209 | on any wiring, cycles included, in any order and with queues that fill and empty at any time, forwarding stops within a number of turns known from the TTLs at the start |
| FloodingTrees.OneBranch | crates/ergot/src/interface_manager/profiles/router.rs:823-837 | in an acyclic network exactly one branch of a node leads to each node below it |
| FloodingTrees.CountFromAbove | crates/ergot/src/interface_manager/profiles/router.rs:823-833 | a frame from above is delivered once to every node of the subtree within its TTL |
| FloodingTrees.CountFromBelow | crates/ergot/src/interface_manager/profiles/router.rs:823-837 | a frame from a child is delivered once to every node outside that child's subtree within its TTL |
| FloodingTrees.BroadcastReachesEachOnce | crates/ergot/src/interface_manager/profiles/router.rs:746-851 | on an acyclic network of healthy, distinctly numbered links a broadcast ends up delivered exactly once to every other node of its tree within the TTL, and to nobody else, in whatever order frames are processed |
| Cobs.DecodeEncode | crates/ergot/src/interface_manager/utils/cobs_stream.rs:66-69 | decoding what the sink encodes gives the frame back, for every frame |
| Cobs.EncodeHasNoZero | crates/ergot/src/interface_manager/utils/cobs_stream.rs:61-64 | an encoded frame holds no zero, so the delimiter is unambiguous |
| Cobs.EncodedLength | crates/ergot/src/interface_manager/utils/cobs_stream.rs:61-64 | the overhead of encoding, exact when the data hold no zero |
| Cobs.ClosesBlock | crates/ergot/src/interface_manager/utils/cobs_stream.rs:61-64 | a zero, or the end, makes a block of the bytes in front of it, led by one more than their number |
| Cobs.FullBlock | crates/ergot/src/interface_manager/utils/cobs_stream.rs:61-64 | 254 bytes without a zero are a block of their own that stands for no zero |
| Cobs.EncodingFitsPlanIff | crates/ergot/src/interface_manager/utils/cobs_stream.rs:83-84 | the planned size holds an encoding exactly when the data are not a whole number of 254-byte runs without a zero |
| CobsAccumulators.DecodeInPlace | crates/cobs-acc/src/lib.rs:149-149 | the block-moving loop over one buffer leaves in front exactly the decoded frame, touches nothing outside, and fails exactly on malformed input |
| CobsAccumulators.CobsAccumulator.Push | crates/cobs-acc/src/lib.rs:162-174 | appends what fits, else forgets everything |
| CobsAccumulators.CobsAccumulator.PushReset | crates/cobs-acc/src/lib.rs:177-189 | joins the end of a piece to what was kept, and is empty afterwards either way |
| CobsAccumulators.CobsAccumulator.FeedRaw | crates/cobs-acc/src/lib.rs:78-159 | one call, with its four outcomes, new state and remaining input, as a function of buffer size, old state and input |
| CobsAccumulators.CobsAccumulator.DecodeDirect | crates/cobs-acc/src/lib.rs:126-137 | the fast path decodes in the input and leaves the rest of it intact |
| CobsAccumulators.CobsAccumulator.DecodeStored | crates/cobs-acc/src/lib.rs:139-158 | the slow path decodes kept bytes and new ones together, if they fit with the delimiter |
| CobsAccumulators.FeedAnswers | crates/cobs-acc/src/lib.rs:78-159 | outgrown bytes, with or without an end, are answered as such and nothing else is; the state afterwards is empty after a zero, overflowing after an outgrown piece without one, and else keeps the input |
| CobsAccumulators.OverflowIsReported | crates/cobs-acc/src/lib.rs:89-111 | of a piece that arrives without its end the first chunk that outgrows the buffer and every later one hear of it, and none before |
| CobsStream.DrainChunk | crates/ergot/src/interface_manager/transports/eio.rs:226-271 | feeding the remainder again until it is consumed terminates and gives the outcomes of the chunk in order |
| CobsStream.RunInner | crates/ergot/src/interface_manager/transports/eio.rs:221-272 | the receive loop as a function of the chunks read up to the first empty one |
| CobsStream.AccumulatorRefinesReassembly | crates/cobs-acc/src/lib.rs:78-189 | buffer, overflow flag and in-place fast path together do, for every chunking, what plain reassembly of pieces does |
| CobsStream.ReassemblyIsExplained | crates/cobs-acc/src/lib.rs:78-189 | for every chunking, each piece that fits gives exactly the result of decoding it alone, a longer one that or nothing, and only the bytes after the last zero are left: no piece affects the next |
| CobsStream.FittingPiecesAllComeOut | crates/cobs-acc/src/lib.rs:78-189 | when all pieces fit there is exactly one outcome for each, its own |
| CobsStream.PiecesOfWire | crates/ergot/src/interface_manager/utils/cobs_stream.rs:53-95 | the pieces of the committed stream are the encodings of the frames |
| CobsStream.FramesSurviveAnyChunking | crates/ergot/src/interface_manager/transports/eio.rs:221-272 | any frames whose encodings fit the buffer come out of the receive loop exactly as they went in, in order, however the stream is cut |
| CobsSinks.RawFrameFitsGrantIff | crates/ergot/src/interface_manager/utils/cobs_stream.rs:81-91 | a forwarded frame fits its grant exactly when it is not a 24-byte header and body without any zero that together fill whole 254-byte runs |
| CobsSinks.SentFrameOverrunsItsGrant | crates/ergot/src/interface_manager/utils/cobs_stream.rs:81-91 | a port does hand such frames to its sink: a broadcast on net 0x1000 with a wide name hash and 230 bytes of body, within the MTU |
| CobsSinks.CobsSink.SendRaw | crates/ergot/src/interface_manager/utils/cobs_stream.rs:74-95 | commits exactly the framed message, or nothing, and succeeds exactly when there is room and the frame is not of that family |
| CobsSinks.CobsSink.SendTyped | crates/ergot/src/interface_manager/utils/cobs_stream.rs:53-72 | commits exactly the framed message, or nothing; a frame within the MTU goes out, given room, exactly when it is not a zero-free one of exactly the MTU that fills whole 254-byte runs |
| CobsSinks.PlanFitsIff | crates/ergot/src/interface_manager/utils/cobs_stream.rs:61-64 | an encoding fits the space planned for a size at least its own exactly when it is not of that family |
| CobsSinks.CobsSink.SendError | crates/ergot/src/interface_manager/utils/cobs_stream.rs:97-116 | the same for error reports |
| CobsSinks.HeadersSurviveTheLink | crates/ergot/src/wire_frames.rs:113-284 | headers and bodies committed on one side are what the other side reads, through encoding, framing and any chunking |
| WireFrames.U32RoundTrip | crates/ergot/src/address.rs:138-158 | 32-bit varints read back exactly, leaving what follows |
| WireFrames.DecodedFits | crates/ergot/src/wire_frames.rs:113-168 | a decoded number always fits its width |
| WireFrames.AddressRoundTrip | crates/ergot/src/address.rs:124-136 | packing an address into a word loses nothing |
| WireFrames.MetaRoundTrip | crates/ergot/src/wire_frames.rs:43-57 | kind, class and TTL come back, the TTL clamped to 15 |
| WireFrames.EveryMetaByteDecodes | crates/ergot/src/wire_frames.rs:51-57 | every byte is the packing of exactly what it unpacks to |
| WireFrames.CommonRoundTrip | crates/ergot/src/wire_frames.rs:113-125 | the fixed part of the header reads back, leaving what follows |
| WireFrames.AppendixRoundTrip | crates/ergot/src/wire_frames.rs:126-150 | key and optional name hash read back, leaving the body |
| WireFrames.MessageRoundTripIff | crates/ergot/src/wire_frames.rs:199-284 | a message comes back with the same header, TTL clamped, and body exactly when it carries an appendix for a wildcard or broadcast port and none for any other |
| WireFrames.ErrorRoundTrip | crates/ergot/src/wire_frames.rs:230-284 | an error report comes back with nothing left over |
| WireFrames.HeaderFits | crates/ergot/src/wire_frames.rs:190-216 | no header takes more than 24 bytes |
| WireFrames.VarintLayout | crates/ergot/src/wire_frames.rs:199-216 | seven bits a byte, lowest first, each marked as followed except the last, without padding |
| WireFrames.AddressLayout | crates/ergot/src/address.rs:124-127 | net_id above node id above port |
| WireFrames.MetaLayout | crates/ergot/src/wire_frames.rs:43-49 | kind in bits 7 and 6, class in bits 5 and 4 by its number, clamped TTL below |
| WireFrames.HeaderLayout | crates/ergot/src/wire_frames.rs:199-216 | source word, destination word, meta byte, then key and name hash if there are any |
| PortCache.AllocationIsComplete | crates/ergot/src/net_stack/inner.rs:797-857 | allocation fails exactly when all of 1..=254 are taken, and otherwise returns a free port of that range |
| PortCache.AllocationPrefersTheWindow | crates/ergot/src/net_stack/inner.rs:797-857 | the lowest open port of the cached window even if lower ones are open elsewhere, and the lowest of all once the window is full |
| PortCache.FirstFreeIsLowest | crates/ergot/src/net_stack/inner.rs:801-806 | the lowest clear bit is the lowest free port |
| PortCache.NetStack.AllocPort | crates/ergot/src/net_stack/inner.rs:797-857 | the port of the specification; afterwards the cache is that of the window of the port handed out (the last one searched if there is none) and agrees with the sockets and the new port |
| PortCache.NetStack.Reload | crates/ergot/src/net_stack/inner.rs:818-845 | reading the sockets makes the cache exact for the new window |
| PortCache.NetStack.FreePort | crates/ergot/src/net_stack/inner.rs:859-871 | clears the bit of the port if the window covers it |
| PortCache.NetStack.TryAttach | crates/ergot/src/net_stack/mod.rs:284-294 | a new unicast socket gets a port no other has; the cache stays exact |
| PortCache.NetStack.AttachBroadcast | crates/ergot/src/net_stack/mod.rs:296-303 | a broadcast socket goes to the back and takes no port |
| PortCache.NetStack.Detach | crates/ergot/src/net_stack/mod.rs:322-334 | unlinks the socket and frees its port once; detaching again changes nothing |
| PortCache.UsedWithout | crates/ergot/src/net_stack/mod.rs:322-334 | removing one socket frees its unicast port and no other |
| UsbFraming.Sender.SendAll | crates/ergot/src/interface_manager/interface_impls/embassy_usb.rs:213-262 | all writes of one send, repair first, up to where the timer fires; a nonempty send leaves the flag set exactly when it was cancelled |
| UsbFraming.Sender.TxWorker | crates/ergot/src/interface_manager/interface_impls/embassy_usb.rs:161-203 | the wire after any list of sends, each with its own timer |
| UsbFraming.Sender.WritePackets | crates/ergot/src/interface_manager/interface_impls/embassy_usb.rs:240-252 | chunks, then an empty packet exactly when the last chunk was full |
| UsbFraming.Receiver.OneFrame | crates/ergot/src/interface_manager/transports/eusb_0_5.rs:258-315 | one frame from a buffer of any size: result and packets left, as the specification says |
| UsbFraming.Receiver.Overfull | crates/ergot/src/interface_manager/transports/eusb_0_5.rs:283-314 | a full buffer is a frame exactly when an empty packet follows; otherwise the rest is drained |
| UsbFraming.Receiver.OneConn | crates/ergot/src/interface_manager/transports/eusb_0_5.rs:157-206 | every result of a connection, in order, for a buffer of any size |
| UsbFraming.ReceivedIsNext | crates/ergot/src/interface_manager/transports/eusb_0_5.rs:258-315 | for a buffer of any size a frame is returned exactly when the next one fits, and is that one |
| UsbFraming.WholeBufferStaysAligned | crates/ergot/src/interface_manager/transports/eusb_0_5.rs:258-315 | a buffer of whole packets leaves the wire at the start of the next frame, also after a frame that was too large |
| UsbFraming.AlignedIff | crates/ergot/src/interface_manager/transports/eusb_0_5.rs:258-315 | exactly the buffers of whole packets do, for all that may be on the wire |
| UsbFraming.WholeBufferJudgesAll | crates/ergot/src/interface_manager/transports/eusb_0_5.rs:157-206 | with such a buffer a connection yields one result for each piece of the wire, in order |
| UsbFraming.FrontOfFrame | crates/ergot/src/interface_manager/interface_impls/embassy_usb.rs:240-252 | the first packets of a frame end nothing, unless they are all of it |
| UsbFraming.SendIsReceived | crates/ergot/src/interface_manager/interface_impls/embassy_usb.rs:232-257 | what one send adds to the pieces received, and that bytes without an end always leave the flag set |
| UsbFraming.RunIsReceived | crates/ergot/src/interface_manager/interface_impls/embassy_usb.rs:213-262 | the pieces a receiver cuts from any run of sends, cancelled at any write |
| UsbFraming.RunIsExplained | crates/ergot/src/interface_manager/interface_impls/embassy_usb.rs:213-262 | among them every frame sent in full, once and in order, and besides only empty pieces and fronts of cancelled frames |
| UsbFraming.FewPiecesBesideFrames | crates/ergot/src/interface_manager/interface_impls/embassy_usb.rs:213-262 | at most two pieces for each cancelled send come besides the frames sent in full, over any run |
| UsbFraming.TwoPiecesBesideFrames | crates/ergot/src/interface_manager/interface_impls/embassy_usb.rs:213-262 | and two it can be: a one-packet frame whose interrupted write went out, and its repair |
| UsbFraming.FrameAfterFrame | crates/ergot/src/interface_manager/interface_impls/embassy_usb.rs:240-257 | after any run a frame sent right after one sent in full adds itself and nothing else |
| UsbFraming.FramesSurviveCancellation | crates/ergot/src/interface_manager/transports/eusb_0_5.rs:258-315 | from sender to receiver: each fully sent frame gives exactly one result, the frame or notice that it is too large, in order, even when earlier sends were cancelled |
| UsbFraming.UndisturbedFramesComeOut | crates/ergot/src/interface_manager/transports/eusb_0_5.rs:258-315 | without cancellation exactly the frames come out |
| EdgeDiscovery.EdgeFrameProcessor.ProcessFrame | crates/ergot/src/interface_manager/profiles/direct_edge.rs:231-342 | one frame: the new fields and interface state, whether the interface changed, and the header handed on or dropped |
| EdgeDiscovery.EdgeFrameProcessor.Reset | crates/ergot/src/interface_manager/profiles/direct_edge.rs:217-224 | reopens the window and keeps the net_id |
| EdgeDiscovery.SourceChecked | crates/ergot/src/interface_manager/profiles/direct_edge.rs:317-342 | a frame is dropped exactly when it comes without a net from no node or from our own; else only a missing source net is filled in, and only with the one known |
| EdgeDiscovery.DonatesIff | crates/ergot/src/interface_manager/profiles/direct_edge.rs:257-281 | a frame donates a net exactly when it is addressed to this node on it, and the net is neither zero nor known to lie elsewhere |
| EdgeDiscovery.OpenWindowAdopts | crates/ergot/src/interface_manager/profiles/direct_edge.rs:262-303 | with the window open a donating frame is taken at its word and closes it; any other only brings back a net_id that is known |
| EdgeDiscovery.ActiveInterfaceIsKept | crates/ergot/src/interface_manager/profiles/direct_edge.rs:255-313 | an interface somebody else brought up closes the window as it is; without one, or with a reserved node id, nothing is learnt |
| EdgeDiscovery.DiscoveryIsAFold | crates/ergot/src/interface_manager/profiles/direct_edge.rs:176-316 | over any history of frames, resets and moves of the interface to down, inactive or link-local the net_id is the first donation of the latest epoch that has one, the window is closed exactly when that is the current epoch, and zero is never adopted |
| EdgeDiscovery.DiscoveredFromAFrame | crates/ergot/src/interface_manager/profiles/direct_edge.rs:262-303 | the net_id came from a frame addressed to this node on a net that was not in transit, while the window was open |
| EdgeDiscovery.ClosedWindowChangesNothing | crates/ergot/src/interface_manager/profiles/direct_edge.rs:259-262 | while the window is closed no frame changes net_id or interface, whatever became of the interface |
| EdgeDiscovery.ClosedMeansOnline | crates/ergot/src/interface_manager/profiles/direct_edge.rs:281-303 | as long as the interface is moved only with resets, a closed window means it is online with the net_id discovered |
| EdgeDiscovery.ReturnIsDiscoveredIff | crates/ergot/src/interface_manager/transports/eio.rs:196-219 | an interface that came back link-local is given a net_id by the next frame that could donate one exactly when a reset came since the window closed |
| EdgeDiscovery.ReturnWithoutReset | crates/ergot/src/interface_manager/transports/eio.rs:196-219 | one that dropped and was started again without a reset stays link-local for all frames |
| EdgeDiscovery.ResetReactivates | crates/ergot/src/interface_manager/profiles/direct_edge.rs:288-303 | after a reset the first frame that decodes, transit or not, brings the interface back, on the known net unless it donates another |
| OwnedSockets.StoreBox.RecvErr | crates/ergot/src/socket/raw_owned.rs:254-265 | with room the error is at the back of the queue, the waiter is woken and no longer registered; without room nothing changes |
| OwnedSockets.StoreBox.RecvOwned | crates/ergot/src/socket/raw_owned.rs:267-299 | answers Ok exactly when type and room allow, and then the message is at the back of the queue and the waiter woken; else nothing changes, and the answer names what did not allow it |
| OwnedSockets.StoreBox.RecvRaw | crates/ergot/src/socket/raw_owned.rs:301-321 | the same for a body off a link, with room checked before the body is decoded |
| OwnedSockets.StoreBox.TryRecv | crates/ergot/src/socket/raw_owned.rs:339-348 | takes the oldest message |
| OwnedSockets.StoreBox.Poll | crates/ergot/src/socket/raw_owned.rs:440-467 | takes the oldest message, or registers the task and wakes another one it replaces |
| OwnedSockets.NeverParkedOnMail | crates/ergot/src/socket/raw_owned.rs:440-467 | over any interleaving, at every lock boundary, a registered waker means an empty queue |
| OwnedSockets.WaiterIsWoken | crates/ergot/src/socket/raw_owned.rs:285-294 | a task that went to wait has been woken as soon as any message was acknowledged, or still waits on an empty queue |
| OwnedSockets.DeliveredInOrder | crates/ergot/src/socket/raw_owned.rs:254-321 | over any interleaving the messages acknowledged (room, and a matching type or a body that decodes) come out exactly once, in that order |

## Left out

- LeaseNetworks.NoActiveRouteAfterGrace: for runs in which bridges accept prompt answers only, which the code does not enforce (`LeaseNetworks.GraceKeptIff` is the exact condition), and without explicit release and without removal of interfaces at the root, because both shorten the reservation in the source.
- LeaseAnswers.TokensAgree: for runs in which every answer accepted was sent during its call, which the code does not enforce; `LeaseNetworks.TokensAgreeIff` is the exact condition on any network.
- LeaseAnswers.RouteExpiresWithItsParent: the 2 s hold against the generation of the parent the route rests on; against a parent that was answered again it is 2 s a hop.
- LeaseAnswers.HonestRetryIsServed: likewise; and a holder that ignores its own refresh window can be told it is too early, as the source intends.
- RouterTombstones.TombstonedIdStaysReserved: a bridge takes over an id its upstream delegates again even while its own tombstone stands, as the source does.
- FloodingTrees.BroadcastReachesEachOnce: assumes room in every queue and links numbered alike at both ends and differently from one another; deliveries are counted per node, not per socket.
- LeaseChain: one id and one chain at a time, so no call takes an answer about another id or from another endpoint; refresh and release addresses inside a lease, and the transport of requests by routing, are not modelled.
- SeedLeases: the two refusals of an assignment that the source reports as one error (table full, no id left) are kept apart.
- Routers.Router.Find: the two clock readings of the source are two parameters.
- Router: `send_err` forwarding, closers, interface listings, and the frame processor of a downstream interface.
- Local half of a broadcast and of a unicast: matching sockets by key, kind and name hash.
- PortCache: the 32-bit cache word is the set of its one-bits, and the socket list a sequence without links.
- UsbFraming: the test of the low bits of a length is its remainder by the packet size, which the source asserts to be a power of two; loss of the connection and cancellation of the receiver drop partial state by design and are not modelled.
- EdgeDiscovery: histories in which somebody else gives the interface a net_id or a bus node id; the body of a frame and its delivery.
- OwnedSockets: the storage is a bounded queue; whether a type matches or a body decodes is a parameter; attaching, pinning and dropping.
- Cobs and varints: taken from their definitions; the crates that implement them are not part of this model.
- Liveness timers and suspend handling of the receive workers; the newer USB driver version, which repeats the same algorithm; borrowed sockets and the defmt sink, whose behaviour is that of their ring buffer.
- Error code conversions, name hashing, logging, macros, demos.
