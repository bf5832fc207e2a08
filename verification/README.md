# Gateway verification

A Dafny model of the in-memory state of the MeshVPN signalling gateway, with proofs of what that state
guarantees over whole runs. `dafny verify dfyconfig.toml` checks everything.

The gateway keeps five things in memory, each of which is one group of modules here, and a sixth group covers
the buffers and version strings that cross the wire.

- **Login throttle** (`LoginSecurity`, `LoginThrottle`, `LoginBound`). The guard and its records are objects with the
  fields of the source; each method equals a step on maps of record values. The theorems are about call sequences: what
  the guard answers is determined by a *view* of each key (its lock, its counting window), so sweeping the table
  and resetting counters in a query never show. If at most c attempts of a key overlap, a window holds at most c+8
  failures, nine for logins one after the other, and both bounds are reached.
- **Virtual networks** (`Ipv4`, `VirtualIp`, `Networks`, `NetworkStore`, `WebManagement`, `Protocol`,
  `NetworkEffects`, `Coherence`, `CoherentRuns`, `Membership`, `Tenants`). The address allocator is the source's loop over a byte counter that
  is incremented in place, proved equal to an exact first fit on numbers. Networks and members are objects; each
  management request is proved to have its specified effect on all networks, on all outgoing queues and in its
  reply. On these effects: which answers of which nodes a request can change, that the newest answer built for a
  node at rest is always possible, and that users do not affect each other.
- **Relay choice** (`Relay`, `RelayFairness`, `RelayRuns`, `RelayOverlap`). One pass over the sessions in any order,
  what its contract means over many requests and every run of the registry, and what remains when requests overlap.
- **Push permissions** (`PushPermission`, `PushHandlers`, `PushInterleaving`, `PushTurns`). The handlers as whole
  steps on the shared objects, and once more as micro-steps of any number of workers, interleaved arbitrarily.
- **Sessions and notifications** (`Sessions`, `SessionRegistry`, `Notify`). The registry against its history of
  logins and clean-ups, and the bounded channel against its concurrent producers.
- **Encryption and versions** (`Encryption`, `Versions`, with `Bytes` and `Decimals` below them). Padding and
  CBC in place over buffers; the dotted version comparison on all strings.

Where a wanted property does not hold of the code, the model keeps the code and states when it does hold:

- A create whose id collides with an existing network overwrites it and tells nobody. Some node is then left
  behind exactly if the overwritten network is enabled and has members (`Coherence.CollidingCreate`).
- A configuration answer is built before it is queued. In every run, with any number of handlers, the newest answer
  built for a node at rest is possible now (`CoherentRuns.NewestAnswerIsPossible`). But the node holds the answer
  queued last (`CoherentRuns.RestingNodesAreCurrent`), so it is stale only if an older answer of its own overtook its
  newest one since it logged in (`CoherentRuns.StaleWasOvertaken`). Bounding the handlers per client rules this out
  exactly if the bound is at most one (`CoherentRuns.CurrentIffOneHandler`).
- Push permissions under concurrency depart from the serial rule (`PushHandlers.GateIsHistory`) exactly if a live
  grant precedes the load and the last write to the key is the delete of an expiry check or a store of a clock
  reading that has run out, and then by refusing (`PushInterleaving.SerialRuleFailsExactly`). Both occur: a delete
  of an entry loaded before the new grant (`PushInterleaving.FreshGrantIsLost`), and an older reading stored over
  a newer one (`PushInterleaving.OlderGrantWins`). Both need two handlers of one node to overlap: while those of a node
  take turns, its checks follow the serial rule whatever other handlers do (`PushTurns.TurnsAreSerial`).
- Relay picks are balanced to within one only for requests that do not overlap. With c requests between choice and
  mark, a session can be used c(n+1) times while another is used n times, and never more often
  (`RelayOverlap.OverlapBound`, `RelayOverlap.BoundIsReached`).
- An address named in a request is not compared with those of other members. Addresses are distinct throughout a
  sequence of requests exactly if no accepted one names an address that another member holds at that moment
  (`Membership.IpsDistinctExactly`, and `Membership.ClashingRequest` for a request that does).
- Users are isolated while ids are fresh (`Tenants.TenantsAreIsolated`); another user loses a network exactly if a
  create collides with it (`Tenants.IsolationFailsExactly`).
- A refused client that waits as told is let through, and it is told at most a second more than is left. It is told
  more than is left exactly if the second clock reading of the query comes less than a second after the end of the
  lock (`LoginThrottle.WaitIsTight`); otherwise it can be told to wait nothing (`LoginThrottle.ToldToWaitNothing`).
- The version comparison is not antisymmetric on all strings: exactly the different strings with equal numbers
  are each less than the other (`Versions.ComparisonFlips`), among them "1.0" and "1.00", and a part too large for
  64 bits with and without further text behind it (`Versions.OverflowHidesRest`).
- The margin of the notification channel covers exactly up to 101 producers; the gateway has 16
  (`Notify.MarginIsExact`).

Where code and comments differ the model follows the code: the allocator can hand out the last address of a
subnet, which the comment at store.go:312 suggests it skips; `loginRecordsMaxKeep` (loginsecurity.go:15) is
called a cap on memory but only triggers a sweep; the relay mode is always "private", since a relay has the
requester's user (relayhandler.go:77,105); a push permission is looked up by the sender a
message claims, its other node is stored and never compared (pushhandler.go:78-87).

## Conventions

A clock reading is a natural number of nanoseconds (`GoTime.Time`), and every reading of a handler is a
parameter. The map of sessions or networks is searched in an unspecified order. A class has a `Valid()` predicate
and a function to values (`Contents()`, `Value()`, `Outboxes()`); a method's contract gives the new value as a
function of the old, and besides says what that value is in plain terms, with the source's numbers. The CRC-64 of a node name is a parameter (`nodeNameToID`, `idOf`) about which nothing is
assumed, collisions included. Strings are byte strings.

## Model

| member | source | states |
|---|---|---|
| `LoginSecurity.LoginRecord.Count` | loginsecurity.go:119-126 | one failure opens a new window if the old one has passed, and the fifth locks the key and re-anchors the window |
| `LoginSecurity.LoginGuard.Allowed` | loginsecurity.go:86-102 | the answer and the lazy reset, other records untouched |
| `LoginSecurity.LoginGuard.EnsureRecord` | loginsecurity.go:109-116 | a missing record is made, after a sweep if more than 10000 are kept |
| `LoginSecurity.LoginGuard.OnFailure` | loginsecurity.go:105-127 | exactly the record of the key counts one failure, and no record object is ever shared |
| `LoginSecurity.LoginGuard.OnSuccess` | loginsecurity.go:130-134 | the record of the key, and no other, is gone |
| `LoginSecurity.LoginGuard.GcLocked` | loginsecurity.go:137-143 | whatever the order of the map, exactly the records with no lock and no open window go |
| `LoginSecurity.LoginGuard.WebLogin` | web.go:162-185 | refused exactly while the key (client address and user) is locked; otherwise logged in exactly with the right password of a known user, the record gone; otherwise one more failure on the record |
| `LoginThrottle.CallChangesView` | loginsecurity.go:86-143 | every call, sweeping included, moves the view of each key by the key's own calls alone |
| `LoginThrottle.SweepsAreInvisible` | loginsecurity.go:97-143 | with a clock that never goes back, a guard that never sweeps and whose queries never write gives the same answers to every call sequence |
| `LoginBound.OverlapBound` | loginsecurity.go:86-134 | every call being one step under the mutex: with at most c attempts of a key under way at once, an interval of w windows holds at most w(c+8) failures of the key since its last success |
| `LoginBound.BoundIsReached` | loginsecurity.go:117-126 | for every c a run with c+8 failures in one window: the bound is sharp |
| `LoginBound.ThrottleBound` | loginsecurity.go:86-127 | over serial logins by any keys, an interval of w windows holds at most 9w failures of a key since its last success |
| `LoginBound.NineIsReached` | loginsecurity.go:117-126 | serial logins with nine failures in one window |
| `LoginThrottle.RunIsReplay` | loginsecurity.go:105-143 | after any run, a key is where its own calls alone put it |
| `LoginThrottle.FifthFailureLocks` | loginsecurity.go:94-126 | once five failures have filled a counting window, anchored at a failure or at an earlier lock, a query is let through if and only if ten minutes have passed since the fifth |
| `LoginThrottle.WaitIsTight` | loginsecurity.go:93-96 | against the time left at the second clock reading, a refused client is told at most a second more, and more than is left exactly if that reading is less than a second past the lock |
| `LoginThrottle.ToldToWaitNothing` | loginsecurity.go:93-96 | a record and two readings with which a refused client is told to wait 0 seconds |
| `LoginThrottle.WaitingSuffices` | loginsecurity.go:94-96 | a client that waits as told is let through |
| `LoginThrottle.CountersStayBelowLimit` | loginsecurity.go:117-126 | in no reachable state is a counter at five |
| `Ipv4.IncIP` | store.go:321-328 | the in-place carry loop adds one modulo 256^n, for every length n |
| `Ipv4.SuccessorCounts` | store.go:321-328 | the next byte string is one larger, only all ones wrapping to zero |
| `Ipv4.ContainsIsInterval` | store.go:303-311 | byte-wise masked membership in a prefix (section 3.1 of RFC 4632) is membership of an interval of numbers, for every width and prefix |
| `Ipv4.QuadInjective` | store.go:312-315 | different addresses print differently, so comparing texts compares addresses |
| `Ipv4.DottedMeans` | store.go:313 | an address prints as its four bytes in decimal with dots between |
| `Ipv4.MaskedIsWrapped` | store.go:303-306 | a masked IPv6 network has a 4-byte form exactly if the address wraps an IPv4 address and the prefix keeps all of the wrapping |
| `Ipv4.WrappedNetwork` | store.go:303-309 | its mask and its network are then those of the wrapped IPv4 network |
| `VirtualIp.MaskAndNet` | store.go:303-306 | mask and network in 4-byte form, for IPv4 and for IPv6 that wraps IPv4; nothing for other IPv6 |
| `VirtualIp.CounterStep` | store.go:308-311 | the counter in its i-th turn stands on base+i+1 exactly until it leaves the subnet, also at 255.255.255.255 |
| `VirtualIp.AllocVirtualIP` | store.go:294-319 | the loop over the counter computes the first free index of the subnet, with the errors of malformed and other than IPv4 gateways |
| `VirtualIp.AllocationIsFirstFit` | store.go:299-318 | the address is the lowest above the network address that is neither the gateway nor held by a member; none is found exactly if the first min(2^(32-p)-1, 2^24) are all taken |
| `VirtualIp.AllocationIsCompact` | store.go:299-318 | with k members it succeeds whenever k+1 is below that number, and the address is at most k+2 above the base, whatever texts the members hold |
| `VirtualIp.AllocationIsFresh` | store.go:308-316 | an allocated address is new, inside the subnet, and neither gateway nor network address |
| `NetworkStore.MemberRecord.Apply` | webmgmt.go:232-236 | an address is replaced only by a given one; resource and switch always |
| `NetworkStore.NetworkRecord.Edit` | webmgmt.go:158-169 | all settings replaced, an empty mode read as a full mesh |
| `NetworkStore.NetworkRecord.Find` | webmgmt.go:214-220 | the first member of that name |
| `NetworkStore.NetworkRecord.Info` | sdwanhandler.go:45-66 | the settings, and exactly the enabled members in order |
| `NetworkStore.NetworkRecord.ChooseIp` | webmgmt.go:222-230 | the given address, or else the allocated one or its error |
| `NetworkStore.NetworkRecord.PutMember` | webmgmt.go:213-239 | the member is updated or appended, or nothing changes if no address is free; no member object is shared |
| `NetworkStore.NetworkRecord.DropMember` | webmgmt.go:258-267 | exactly the members of other names stay, in order and as the same objects |
| `NetworkStore.Store.GetNetwork` | store.go:255-259 | the record under the id, or none |
| `NetworkStore.Store.SaveNetwork` | store.go:278-283 | the record is under its own id, all others as before |
| `NetworkStore.Store.DeleteNetwork` | store.go:285-290 | exactly this id is gone |
| `NetworkStore.Store.PutMember` | webmgmt.go:213-238 | one network gets the member, all other networks keep theirs |
| `NetworkStore.Store.DropMember` | webmgmt.go:257-268 | one network loses the member, all other networks keep theirs |
| `NetworkStore.Store.EditNetwork` | webmgmt.go:158-170 | one network gets the settings, all others stay |
| `NetworkStore.Store.CreateNetwork` | webmgmt.go:151-170 | a new empty network under its id, any former one overwritten |
| `NetworkStore.Store.FindNetworkByNode` | store.go:262-276 | in whatever order the map is searched: an enabled network of the user that lists the node, or none if there is none |
| `NetworkStore.Store.ListNetworksByUser` | store.go:243-253 | exactly the user's networks, each once |
| `NetworkStore.Store.BuildSDWANInfo` | sdwanhandler.go:36-67 | one of the possible answers for the node: an enabled network of the user that lists it, rendered, or the empty one if there is none |
| `WebManagement.ControlPlane.NotifyNetworkMembers` | webmgmt.go:276-280 | one refresh for every member that is online, in order; nothing else changes |
| `WebManagement.ControlPlane.PushSDWanRefresh` | webmgmt.go:282-297 | one refresh for the node if it is online |
| `WebManagement.ControlPlane.SaveNetwork` | webmgmt.go:132-173 | rejected exactly for a missing name or gateway or a network that is not the user's, nothing changing; otherwise exactly the settings change, or an empty network is new, and the members are told |
| `WebManagement.ControlPlane.DeleteNetwork` | webmgmt.go:175-186 | done exactly for the owner; then exactly this network is gone, its former members are told, and no answer to any node renders it |
| `WebManagement.ControlPlane.AddNetworkMember` | webmgmt.go:195-242 | each rejection exactly in its case, nothing changing; otherwise the first member of the name, or a new last one, has the requested address, resource and switch, an address not requested being kept or allocated; all others stay, and all members are told |
| `WebManagement.ControlPlane.DelNetworkMember` | webmgmt.go:244-272 | done exactly for the owner; then no member has the name and all others stay in order; those who stay are told, then the removed node |
| `WebManagement.ControlPlane.HandleSDWANInfoReq` | sdwanhandler.go:23-27 | a running session gets the settings and enabled members of an enabled network of its user that lists it, or the empty answer if there is none; an ended one nothing |
| `NetworkEffects.SaveMeans` | webmgmt.go:143-172 | what a create or edit leaves, case by case |
| `NetworkEffects.DeleteMeans` | webmgmt.go:178-185 | what a delete leaves |
| `NetworkEffects.GoneIsUnservedByAll` | store.go:262-276 | a network that is not in the store is in no answer to any node |
| `NetworkEffects.AddMeans` | webmgmt.go:204-241 | what adding or updating a member leaves, and each of its rejections |
| `NetworkEffects.DelMeans` | webmgmt.go:253-271 | what removing a name leaves: exactly the members of other names, in order |
| `NetworkEffects.RenderMeans` | sdwanhandler.go:45-66 | an answer holds id and settings of its network, and exactly its enabled members in order |
| `NetworkEffects.AnswerMeans` | sdwanhandler.go:36-67 | every possible answer renders an enabled network of the user that lists the node, or is empty and there is none |
| `Coherence.EffectKeepsKeys` | webmgmt.go:151-170 | every network stays under its own id |
| `Coherence.OnlyRefreshedAnswersChange` | webmgmt.go:170-171 | every edit, delete, member change and create with a fresh id changes the possible answers only of nodes it tells to refresh |
| `Coherence.CollidingCreate` | webmgmt.go:151-171 | with an id in use, some node's answers change untold exactly if the overwritten network is enabled and has members |
| `Protocol.RefreshReaches` | webmgmt.go:276-297 | queues only grow, by refreshes, and every named node that is online gets one |
| `Protocol.RefreshCounts` | webmgmt.go:276-297 | a queue gains one refresh per name that hashes to its id, and nothing else |
| `CoherentRuns.ClientStaysCoherent` | sdwanhandler.go:23-27 | no message, request or answer breaks the coherence of a client, in whatever order its answers are queued |
| `CoherentRuns.RunKeepsInvariant` | webmgmt.go:267-271 | in every reachable state of every run, an online node has a refresh or request under way, or the newest answer built for it is still possible |
| `CoherentRuns.NewestAnswerIsPossible` | sdwanhandler.go:36-67 | so the newest answer built for a node with nothing under way is one it could be given now, hash collisions and any number of handlers included |
| `CoherentRuns.RunEndsWith` | sdwanhandler.go:25-26 | in every run the last configuration a client will receive is the one queued last for it |
| `CoherentRuns.RestingNodesAreCurrent` | sdwanhandler.go:36-67 | in every run a node at rest holds the answer queued last for it, and if that is its newest one it could be given it now |
| `CoherentRuns.StaleWasOvertaken` | sdwanhandler.go:25-26 | a node is stale only if, since it logged in, an answer of its own was queued before an older one |
| `CoherentRuns.OneHandlerKeepsOrder` | openp2p.go:49-51 | one handler per client queues its answers in build order |
| `CoherentRuns.OverlapLeavesStaleAnswer` | sdwanhandler.go:25-26 | a run in which two handlers of one client leave it with an impossible answer |
| `CoherentRuns.CurrentIffOneHandler` | openp2p.go:49-51 | with up to b handlers per client at once, all runs leave nodes current if and only if b is at most one |
| `Membership.NamesStayDistinct` | webmgmt.go:213-239 | after any sequence of requests no network lists a name twice |
| `Membership.WithoutKeepsDistinct` | webmgmt.go:258-267 | removing a name keeps names and addresses distinct and adds no address |
| `Membership.IpsStayDistinct` | webmgmt.go:222-237 | while no request names an address, no two members of a network share one |
| `Membership.IpsStayAssignable` | webmgmt.go:222-237 | if also no gateway is edited, every member address is in the subnet and neither gateway nor network address |
| `Membership.ExplicitIp` | webmgmt.go:232-234 | a named address keeps addresses distinct if and only if no other member holds it |
| `Membership.RequestKeepsIpsExactly` | webmgmt.go:213-239 | a request keeps addresses distinct if and only if it is not accepted with the address of another member |
| `Membership.IpsDistinctExactly` | webmgmt.go:213-239 | over any sequence of requests addresses are distinct throughout if and only if no request does that |
| `Membership.ClashingRequest` | webmgmt.go:222-234 | a request after which two members share an address |
| `Tenants.OthersKeepTheirs` | webmgmt.go:144-154 | a request leaves all networks of another user alone unless it creates over one |
| `Tenants.IsolationFailsExactly` | webmgmt.go:151-154 | some other user loses a network if and only if a create collides with it |
| `Tenants.OwnRequestIsLocal` | webmgmt.go:146-150 | a request has the same effect on its user's networks, reply and refreshes as without other users |
| `Tenants.TenantsAreIsolated` | store.go:262-276 | after any sequence of requests with fresh ids, a user's networks and the answers its nodes may get are those of its own requests alone |
| `Sessions.Session.Write` | wssession.go:214-220 | a message is queued exactly if the session runs |
| `Sessions.SessionManager.HandleLogin` | wssession.go:100-165 | the two refusals, the owner, and the new session under the id of its name, its relay time a day back |
| `Sessions.SessionManager.CleanUp` | wssession.go:190-198 | the session ends, leaves the registry unless replaced, and its permission goes |
| `SessionRegistry.RegistryIsHistory` | wssession.go:141-143 | for every order of logins and clean-ups an id maps to a session exactly if that is its latest login and not cleaned up |
| `SessionRegistry.CleanedUpStaysOut` | wssession.go:188-199 | a session once cleaned up is in the registry under no id, ever after |
| `PushPermission.CheckIsHistory` | pushhandler.go:78-87 | in serial histories a claimed sender passes exactly with a grant younger than a minute and later than its last disconnect, so deleting expired entries never matters |
| `PushHandlers.CheckPermission` | pushhandler.go:78-87 | the decision, and an expired entry is dropped |
| `PushHandlers.Admit` | pushhandler.go:39-94 | the outcome and the table for every kind of message: a connect request is let through, and grants both directions for a minute, exactly if its one-time token verifies or its own token is the peer's; a gated message exactly with an entry not run out; the two bypass types always |
| `PushHandlers.HandlePush` | pushhandler.go:22-99 | the same decision; the peer gets the message exactly if it is forwarded, the session that sent it its reply, no other queue changes |
| `PushHandlers.HandleQuery` | queryhandler.go:16-63 | a verified query grants both directions and learns the peer's fields, IPv6 only with the peer's own token; an offline peer is reported, a denied query not answered |
| `PushHandlers.TableIsHistory` | pushhandler.go:70-87 | the table the handlers leave is the table of their grants, checks and clean-ups |
| `PushHandlers.GateIsHistory` | pushhandler.go:53-98 | after any serial run a gated message to an online peer is forwarded if and only if such a grant exists |
| `PushHandlers.GrantsAreVerified` | pushhandler.go:63-71 | in any serial run every grant comes from a connect request or query whose own token passed its test, at that request's clock reading |
| `PushHandlers.GatedWasVerified` | pushhandler.go:53-98 | so a forwarded gated message follows such a request that names its claimed sender, less than a minute before |
| `PushInterleaving.RunKeepsInvariant` | pushhandler.go:62-94 | in every interleaving the table is that of the writes so far, every store comes from a verified request, and every decision follows from what it loaded |
| `PushInterleaving.DecisionIsLastStore` | pushhandler.go:78-87 | in every interleaving a check passes if and only if the last write to the key before its load is a grant not yet run out |
| `PushInterleaving.ForwardedIsGranted` | pushhandler.go:62-94 | whatever is forwarded was granted by a verified request naming the claimed sender, stored less than a minute before and not deleted before the load |
| `PushInterleaving.SerialRuleFailsExactly` | pushhandler.go:70-87 | in every interleaving a check departs from the serial rule if and only if a live grant precedes its load and the last write to the key is an expiry delete or an expired reading; it then refuses |
| `PushInterleaving.FreshGrantIsLost` | pushhandler.go:84-86 | an interleaving without disconnects in which a grant made at that very instant does not help its sender |
| `PushInterleaving.OlderGrantWins` | pushhandler.go:70-71 | an interleaving without any delete in which an older clock reading is stored over a newer one and the sender is refused |
| `PushTurns.RunKeepsTurns` | pushhandler.go:70-87 | while the handlers of a node take turns its grants are stored in the order of their readings, and an expiry delete removes only what has run out |
| `PushTurns.TurnsAreSerial` | pushhandler.go:70-87 | then each of its checks passes if and only if a grant that has not run out precedes it with no disconnect since, whatever handlers of other nodes do |
| `Relay.SelectRelay` | relayhandler.go:68-98 | for every order of the map: a relay is returned unless every online session fails a filter; it passes them all (same major version, same user, not symmetric NAT, neither requester nor peer, a loopback address or one that is neither of theirs), and it is least recently used of those who do, or idle for over half an hour |
| `Relay.HandleRelayNodeReq` | relayhandler.go:40-116 | a relay that passes the filters and is a good choice, marked used at the instant returned and no other; the reply names it with its one-time token, or none exactly if no session passes; its mode is always private |
| `RelayFairness.EveryoneInBetween` | relayhandler.go:68-104 | between two picks of a session less than half an hour apart, everyone eligible for the second is picked |
| `RelayFairness.PicksAreBalanced` | relayhandler.go:68-104 | in any shorter window with fixed eligible sessions their pick counts differ by at most one |
| `RelayRuns.RunIsGood` | relayhandler.go:68-104 | over any run of logins, replacements, clean-ups and picks on the map of node ids, the picks are a run of the kind fairness is about |
| `RelayRuns.RegistryPicksAreBalanced` | wssession.go:141-143 | so the balance of picks holds for every such run of the registry |
| `RelayOverlap.OverlapBound` | relayhandler.go:41-104 | with at most c handlers between choice and mark, in a short window with fixed eligible sessions a session is used at most c(n+1) times when another is used n times |
| `RelayOverlap.BoundIsReached` | relayhandler.go:41-104 | for all c and n that half an hour has room for, a run in which it is |
| `Notify.RunIsBounded` | notify.go:10-14 | with any number of producers, queue and pending sends stay bounded, and what is sent is received in order, once |
| `Notify.SendsNeverBlock` | openp2p.go:49-51 | with the 16 handlers the bound is chanSize-101+16, so a send always finds room |
| `Notify.MarginIsExact` | notify.go:10-14 | no send ever blocks if and only if there are at most 101 producers |
| `Encryption.Pkcs7Padding` | common.go:68-74 | 1 to 16 bytes, each the number of them, fill up to a multiple of 16 behind the data (section 6.3 of RFC 5652), and nothing else changes |
| `Encryption.Pkcs7UnPadding` | common.go:76-83 | the length is taken from the last byte, which must be 1 to 16 |
| `Encryption.EncryptBlocks` | common.go:97-100 | block by block, also with one buffer for both, the output is the CBC encryption of the input |
| `Encryption.DecryptBlocks` | common.go:111-112 | the same for decryption |
| `Encryption.EncryptBytes` | common.go:85-101 | the packet, in which buffer it lies, and what each buffer keeps, for no key, a bad key and a key |
| `Encryption.DecryptBytes` | common.go:103-114 | the plaintext or the error, in the buffer it is returned in |
| `Encryption.UnpadPadded` | common.go:68-83 | removing the padding undoes adding it, for every length |
| `Encryption.CbcRoundTrip` | common.go:97-112 | CBC decryption undoes CBC encryption (section 6.2 of NIST SP 800-38A) for every invertible block function |
| `Encryption.PacketBlocks` | common.go:97-100 | every block of a packet is the encryption of the padded plaintext block combined bit by bit with the block before it, the first with the initialization vector |
| `Encryption.IvIsText` | common.go:46 | the initialization vector |
| `Encryption.PacketRoundTrip` | common.go:85-114 | encryption succeeds exactly for no key or a key of 16, 24 or 32 bytes, and decryption then restores the plaintext |
| `Encryption.PacketLength` | common.go:98-101 | the packet length is the least multiple of 16 above the plaintext length |
| `Encryption.SendAndReceive` | common_test.go:8-41 | through buffers with 16 bytes to spare, what is received is what was sent |
| `Versions.CompareVersion` | common.go:171-191 | 0 exactly for equal strings, 1 exactly if the first difference of the part numbers is in favour of the first, by a greater number or by going on, and -1 otherwise |
| `Versions.GreaterMeans` | common.go:178-190 | the recursive order agrees with this first-difference rule on all strings |
| `Versions.LessMeans` | common.go:178-190 | on canonical versions less is decided by the first difference, too |
| `Versions.AtoiMeans` | common.go:181-182 | the number of a part: signed digits within 64 bits, the nearest such number beyond, the extreme for digits that overflow before other text, 0 otherwise |
| `Versions.ScannedNumber` | common.go:181-182 | the digit scan of a part yields a number exactly for digits within 64 bits, and then their value |
| `Versions.ScannedOutOfRange` | common.go:181-182 | it is out of range exactly if some digits at the front already are, whatever follows |
| `Versions.ComparisonFlips` | common.go:171-191 | swapping the arguments flips the result if and only if the strings are equal or their numbers differ |
| `Versions.BothLess` | common.go:171-191 | "1.0" and "1.00" are each less than the other |
| `Versions.OverflowHidesRest` | common.go:181-190 | too many digits with and without further text behind them are each less than the other |
| `Versions.TwentyNines` | common.go:181-190 | twenty nines, and twenty nines with an x, are such a pair |
| `Versions.NumbersIdentify` | common.go:181-182 | canonical versions with equal numbers are equal strings |
| `Versions.CanonicalIsLex` | common.go:171-191 | on canonical versions the comparison is lexicographic on numbers, antisymmetric, and equal only for identical strings |
| `Versions.CanonicalTransitive` | common.go:171-191 | on canonical versions it is transitive, also strictly |

## Left out

- HTTP, websocket, UDP and TCP sockets, TLS, JSON and JWT: plumbing; a handler is a method with its parsed input as parameters, and a malformed request is a parameter where the source reacts to it.
- File persistence (`load`, `save`): the store is its content in memory.
- Device and user records (`upsertDevice`, `renameDevice`, `addUser`), listing and editing of devices and apps, device logs: easy members on one map.
- Password strength, logging, network information, NAT detection, `parseMajorVer`: easy, or input and output only.
- AES: `Encryption` takes any block function with an inverse for each key of 16, 24 or 32 bytes. With a valid key, a packet that is empty or no multiple of 16 bytes stops the program in the source, so `DecryptBytes` requires that it is not.
- One-time tokens: the verification in `PushHandlers` and the generation in `Relay` are function parameters.
- Parsing of gateway texts: a gateway is its text together with what parsing yields, malformed, IPv4 or IPv6 with address and prefix.
- Overlapping management requests: the source edits shared network records without a lock; here each request is one step. Steps that overlap are modelled for logins, push permissions, relay requests, configuration answers and notifications.
- The count of failed attempts of a relay request (relayhandler.go:51-65) only affects a log line.
- Closing of a session's channel while another handler writes to it, and the channel's capacity of 10: a queue is a sequence that a running session can always extend.
- The consumer side of a notification (notify.go:30-36): `Notify` covers the channel, not what is then sent to every session.
- Heartbeats, reports and the pushing of edits to nodes: in `CoherentRuns` any other message may be queued at any time.
- A day back in the calendar (wssession.go:113) is a parameter, assumed to be at least half an hour for fairness.
- Platforms with 32-bit int: `Versions` reads the parts of a version as 64-bit numbers.
- The float conversion of a wait to seconds: below ten minutes it truncates exactly as the model does.
