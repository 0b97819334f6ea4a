# A verified model of zeroconf-p2p-vpn

A Dafny model of the logic that keeps this peer-to-peer VPN daemon consistent: the relay that maps
addresses to peers in step with the kernel routing table, the sessions that share it, the handshake
between two nodes, the addresses nodes derive from signatures, and the packet path.
`dafny verify dfyconfig.toml` checks all of it.

## How it is laid out

| files | part of the system |
|---|---|
| `RelayTable`, `Relay`, `GuardSafety` | one relay: per-address futures, an adversarial OS, route guards |
| `Session`, `PeerNames` | one peer's session loop and the DNS name registry, as imperative code |
| `Daemon`, `DaemonLock`, `DaemonOwnership`, `DaemonRefinement`, `DaemonNames`, `DaemonLifetime`, `DaemonLiveness` | N sessions sharing one relay, one lock and one registry; all interleavings |
| `Handshake`, `HandshakeAgreement`, `HandshakeProgress` | two nodes over one connection, with loss and deadlines |
| `Bits`, `Net`, `Addr`, `ValidateAddr`, `EndToEnd` | signed addresses, validation, and the way from configuration to a connected pair |
| `Proto`, `Checksum`, `Ecn`, `EcnParsing`, `Aqm`, `SendPacket`, `BufferPool` | control streams and the packet path |

Every suspension point is a step. A route future is fresh, waiting for the OS (before or after the OS
applied the change) or done; an OS call may fail after it was applied, and a future cancelled by a
sibling's failure may already have been applied. The `Relay` methods run their futures under an
arbitrary scheduler, against an OS given by what it is sure to grant and to refuse, and are specified
by what an atomic operation would have done; the `Daemon` machine interleaves N sessions and is proved
to refine an atomic specification. All sessions are joined into one future (src/main.rs:216-232,
src/main.rs:292), so a panic in one of them ends the process, and code between two suspension points
is one step.

## Properties that turn out to be conditional

- A batch that repeats a new address can destroy an armed route guard, which panics. Inserting is
  safe under every schedule exactly when repetitions are limited to addresses already in the map or
  unspecified (`GuardSafety.GuardSafeIffFreshlyDistinct`); validation does not remove repetitions
  (`EndToEnd.RepeatedHostCanPanic`).
- A derived address lies in its network, and verifies, exactly if that network is not an IPv4 /32 with
  an odd address (`Addr.DerivedStaysInside`, `Addr.RoundTripIff`).
- An accepted advertise is answered with a message that encodes to no bytes, and a stream that is
  dropped unwritten ends with no bytes as well. While the other side has not given up, success of one
  side proves acceptance by the other exactly when its request is below the size limit, or when it
  cannot succeed at all (`HandshakeAgreement.AgreementIffReadable`). Since the program always has a
  deadline, which can strike the other side while it reads, nothing more holds in every run
  (`HandshakeAgreement.AgreementIffTrustworthy`).
- Marking an IPv4 packet also clears the reserved flag bit; nothing but the ECN bits and the checksum
  changes exactly when that bit was clear (`Ecn.OnlyEcnAndChecksumChangeIff`).
- Names keep their own registrations in every run exactly when no two peer names fold to the same
  lower case (`DaemonNames.NamesHoldIffDistinct`).
- A name is changed only after the routes are. A resolved address is routed exactly until its session
  begins to take it out of the relay (`DaemonNames.ResolvedIsRoutedIff`, with
  `DaemonNames.NameOutlivesRoute` as a run in which it is not).
- How a stream is cut into chunks is irrelevant exactly for a positive limit
  (`Proto.ChunkingIrrelevantIff`): with a limit of zero an empty chunk is an error and no chunk is not.

## Assumptions

- The lemmas about ownership (`DaemonOwnership`, `DaemonRefinement.RunRefinesAtomicLookup`,
  `DaemonNames.ResolvedIsRoutedIff`) assume that no two peers negotiate the same address. Nothing
  assumes that a batch is free of repetitions, except where a lemma says so.
- Nothing outside the daemon edits the modelled routes, and a cancelled OS call has no effect later
  than its cancellation.
- Ed25519 is an ideal scheme: signing is a function and only its result verifies. `Addr.RoundTripIff`
  also assumes that a key signs different networks differently.
- Printing and parsing of networks, the parser for extension headers and the DNS suffix test are
  parameters. Parsing is assumed to undo printing where an honest advertise is concerned.
- Random draws are `k / 2^24`, and floating point is replaced by the reals; the one division by zero is
  written out.

Where code and prose disagree, the model follows the code. DESIGN.rst says that routes are removed
when a peer disconnects; the code parks them until the session ends. The comment in src/addr.rs
speaks of 32 bytes for an IPv6 network; the code serialises 16.

## Model

| member | source | states |
|---|---|---|
| `RelayTable.OsMayFail` | src/route.rs:120-125 | an OS call may fail whether or not it was applied, and succeeds only if it was |
| `RelayTable.JoiningStep` | src/relay.rs:64-86 | any poll of any insert future keeps what the join promises about every address, however often the batch repeats it |
| `RelayTable.GuardStep` | src/relay.rs:69-82 | no poll destroys an armed guard, or prepares for one to be destroyed, if addresses new to the map do not repeat |
| `RelayTable.RemovingStep` | src/relay.rs:143-152 | any poll of any removal future keeps what the removal promises about every address |
| `RelayService.Stale` | src/relay.rs:115-116 | exactly the previous addresses that are not current |
| `RelayService.StaleKeepsOrder` | src/relay.rs:115-116 | the stale addresses keep their order |
| `RelayService.Relay.constructor` | src/relay.rs:41-43 | a new relay is empty |
| `RelayService.Relay.Get` | src/relay.rs:52-57 | nothing for an unknown address, the live value of a connected one, parked otherwise |
| `RelayService.InsertedWasGranted` | src/relay.rs:73-84 | a completed join was refused nothing |
| `RelayService.Relay.JoinInserts` | src/relay.rs:64-86 | under every schedule and for every batch, stops at the first failure with each address either untouched, half-way or armed; does not fail if the OS is sure to grant every new route, nor succeed if it is sure to refuse one; issues OS calls only to add routes that have no entry; no panic unless a new address repeats |
| `RelayService.Relay.RemoveLocked` | src/relay.rs:143-164 | under every schedule, the map loses exactly the batch; every address is asked of the OS; a route left in the kernel is one whose removal failed, and none is left that the OS was sure to remove; nothing else changes |
| `RelayService.Relay.Remove` | src/relay.rs:138-141 | the same, from outside the lock |
| `RelayService.Relay.Insert` | src/relay.rs:59-100 | for every batch and schedule one atomic step: all of the batch connected to the new value, or the old map without the batch; the first if the OS is sure to grant every new route, the second if it is sure to refuse one; other addresses untouched even by a panic, which needs a new address to repeat |
| `RelayService.Relay.Reconcile` | src/relay.rs:109-121 | success connects exactly the current set and drops the stale one, without any OS call for a kept address; failure leaves nothing of either set but failed removals; which of the two follows from what the OS grants and refuses of the new routes; other addresses are untouched; a panic needs a new address to repeat |
| `RelayService.Relay.Park` | src/relay.rs:129-136 | takes the live value off each known address and changes nothing else, in the map or the kernel |
| `RelayService.UnfinishedHasFuture` | src/relay.rs:64-86 | a batch with work left always has a future that can advance |
| `RelayService.JoinKeepsTheRest` | src/relay.rs:64-86 | a completed join is the atomic insert, and an aborted one differs from the old map only within the batch |
| `RelayService.RemovalIsComplete` | src/relay.rs:143-164 | completed removals are the atomic removal |
| `GuardSafety.DistinctRunsKeepGuards` | src/route.rs:144-155 | no sequence of polls destroys an armed guard when new addresses do not repeat |
| `GuardSafety.RepeatedAddressPanics` | src/relay.rs:69-82 | a schedule that destroys an armed guard, for every batch repeating a new address |
| `GuardSafety.GuardSafeIffFreshlyDistinct` | src/route.rs:120-155 | an insert is safe under every schedule exactly when its new addresses are distinct |
| `DaemonLock.LockInvStep` | src/relay.rs:59-164 | every step of every session keeps mutual exclusion, entries with routes, and every route accounted for |
| `DaemonLock.RunKeepsLockInv` | src/session.rs:63-179 | the same in every state of every interleaving of N sessions |
| `DaemonLock.EntriesAreRouted` | src/relay.rs:61-84 | at every step of every run each address in the map has its kernel route |
| `DaemonLock.NoForgottenRoutes` | src/relay.rs:88-100 | whenever the lock is free, a kernel route is in the map or its removal failed |
| `DaemonLock.EndedSessionsLeaveNothing` | src/session.rs:73-86 | once every session has ended the map is empty and only failed removals are left in the kernel |
| `DaemonLock.GuardsAreReleased` | src/route.rs:135-155 | no run of N sessions destroys an armed guard unless some registration starts with an address repeated and new to the map |
| `DaemonLock.DistinctBatchesAreFresh` | src/session.rs:131 | handshakes that negotiate distinct addresses make every registration of the run safe in that sense |
| `DaemonLock.PollShrinksWork` | src/relay.rs:88-91 | every poll under the lock, and the change to rollback, leaves the holder less to do |
| `DaemonLock.LockHolderProgresses` | src/relay.rs:61-100 | in every state of every run the lock holder can move and cannot hold the lock for ever |
| `DaemonOwnership.ForeignCellsUntouched` | src/session.rs:63-179 | a step changes only addresses its own session owns |
| `DaemonOwnership.OwnerInvStep` | src/session.rs:103-179 | every step keeps each address in the state its owner's program counter prescribes |
| `DaemonOwnership.RunKeepsOwnerInv` | src/session.rs:63-179 | the same in every state of every run |
| `DaemonOwnership.RelayIsUnionOfRoutes` | src/session.rs:63-159 | with no session replacing its routes, the map's domain is the disjoint union of the sessions' routes |
| `DaemonOwnership.DispatchFollowsConnection` | src/relay.rs:52-57 | an address is dispatched to a connection only while its owner registers, receives or parks on that connection, and always while it receives |
| `DaemonOwnership.FailedReconcileLeavesNothing` | src/session.rs:131-141 | the step that reports a failed registration leaves nothing of the old or the new set in the map |
| `DaemonOwnership.KeptAddressIsUndisturbed` | src/relay.rs:69-72 | through all of a reconcile, a kept address has its entry and its route, and no OS call is out for it |
| `DaemonRefinement.StepRefines` | src/session.rs:63-159 | each event of a session does to its peer exactly one action of the specification: a link that goes down does nothing, only its end makes the peer leave, only a refused route undoes a registration |
| `DaemonRefinement.PollRefines` | src/relay.rs:64-91 | a poll is nothing to see, but for a refused addition |
| `DaemonRefinement.StepChangesOneSession` | src/session.rs:63-98 | a step leaves every other session as it was |
| `DaemonRefinement.RunRefinesAtomicSteps` | src/session.rs:63-179 | every run of N sessions, seen through the abstraction, is a run of the atomic specification, action by action |
| `DaemonRefinement.CellRefines` | src/relay.rs:52-57 | an address in the state its owner prescribes looks as the atomic specification says, before or after the operation in progress |
| `DaemonRefinement.RunRefinesAtomicLookup` | src/relay.rs:52-57 | in every state of every run a lookup answers as the atomic specification does, up to the operation in progress |
| `DaemonLifetime.SessionOutlivesDisconnects` | src/session.rs:66-86 | in every run only the end of its link task makes a session withdraw or end |
| `DaemonLifetime.NameOutlivesDisconnects` | src/session.rs:163-170 | a name, once registered, stays until the link task of its session ends |
| `DaemonLifetime.FailedHandshakeLeavesNoTrace` | src/session.rs:116-127 | a connection whose handshake fails leaves the daemon as it was |
| `DaemonLifetime.LinkDownLeavesNoTrace` | src/session.rs:68-72 | a link that goes down with the routes parked leaves the daemon as it was |
| `DaemonLifetime.RoutesChangeOnlyByJobs` | src/session.rs:131-142 | in every run the routes of a session change only when a registration, a rollback or a withdrawal finishes, and to what that says |
| `DaemonLifetime.RollbackNeedsRefusal` | src/relay.rs:88-91 | in every run a registration is rolled back only if the OS has refused the session a route |
| `DaemonLifetime.OrphansWereRefused` | src/relay.rs:149-153 | what counts as a failed removal was refused by the OS |
| `DaemonLifetime.LeftoverWasRefused` | src/relay.rs:143-164 | whenever the lock is free, a kernel route is in the map or the OS refused to remove it |
| `DaemonLiveness.BatchCanFinish` | src/relay.rs:64-86 | the lock holder, left to itself, can run its batch to the end, touching only its own addresses |
| `DaemonLiveness.RegistrationIsPossible` | src/session.rs:103-145 | from every state of every run with the lock free, an idle session can connect and register any set that repeats no new address, and its name |
| `DaemonLiveness.EndIsPossible` | src/session.rs:73-86 | and can end, leaving none of its routes in the map and no name |
| `PeerSessions.PeerSession.constructor` | src/session.rs:63-64 | a session starts without routes |
| `PeerSessions.PeerSession.ParkRoutes` | src/session.rs:175-179 | takes the session's routes offline and keeps them |
| `PeerSessions.PeerSession.WithdrawRoutes` | src/session.rs:163-171 | removes the session's routes and its name; a route left in the kernel is one whose removal failed, and none the OS was sure to remove; nothing else changes |
| `PeerSessions.PeerSession.RunConnection` | src/session.rs:103-159 | whatever was negotiated, ends with that set parked and named, or with no routes and the name as it was, or unchanged if the handshake failed; what the OS grants and refuses decides between the first two; a panic needs a new address to repeat; addresses outside the old and the new set keep entry and route |
| `PeerSessions.TurnLeavesRest` | src/session.rs:66-96 | a turn of the loop touches the map only at its old and its newly negotiated addresses |
| `PeerSessions.PeerSession.HandleEvent` | src/session.rs:66-96 | a link that goes down changes nothing at all, its end withdraws routes and name, a connection ends as above; only the old and the newly negotiated addresses are touched, in the map and in the kernel, and no kernel route of theirs is forgotten |
| `PeerSessions.PeerSession.Run` | src/session.rs:63-98 | a whole session is a sequence of such turns, ended only by the end of the link task or a panic; it leaves addresses it never negotiated alone, forgets no kernel route of the others, and at its end leaves nothing it ever negotiated in the map |
| `PeerNames.LowerFolds` | src/dns.rs:26 | the key of a name has no capitals, is the same for the name in capitals, and is the name itself if it has none |
| `PeerNames.Resolve` | src/dns.rs:37-51 | exactly the queries outside the suffix are left to others, and an answer is the entry of a non-empty label in front of the query |
| `PeerNames.QueryFindsName` | src/dns.rs:43 | the query for a name is cut back to the stored key exactly for names that are not empty and do not end in a dot |
| `PeerNames.Registry.constructor` | src/dns.rs:20-22 | no names at first |
| `PeerNames.Registry.Set` | src/dns.rs:25-27 | replaces that name's addresses, which its query then answers |
| `PeerNames.Registry.Remove` | src/dns.rs:30-32 | removes that name only, whose query then fails |
| `DaemonNames.RunKeepsNames` | src/session.rs:142-145 | in every run each name holds its session's last successful registration, and the routes are those or none |
| `DaemonNames.NameResolves` | src/dns.rs:37-51 | in every state of every run a name resolves to its last successful registration until its session ends |
| `DaemonNames.ResolvedIsRoutedIff` | src/session.rs:131-171 | in every state of every run, unless a later registration failed, a resolved address is in the map with its kernel route exactly as long as its session has not begun to remove it or started to register a set without it |
| `DaemonNames.NameOutlivesRoute` | src/session.rs:131-145 | a run in which a name still resolves to an address that has left the map: the peer reconnected with another one |
| `DaemonNames.SharedNameIsOverwritten` | src/dns.rs:25-27 | a run after which a name holds the other session's registration, for any two names that fold together |
| `DaemonNames.NamesHoldIffDistinct` | src/dns.rs:25-32 | every name keeps its own registrations in every run exactly when no two names fold together |
| `HandshakeAgreement.InvStep` | src/peer.rs:152-239 | every step of either node, including loss and deadline, keeps both streams consistent with both verdicts |
| `HandshakeAgreement.SuccessReturnsPeerRoutes` | src/peer.rs:172-179 | whatever fails, success returns exactly the non-empty set validated from the other side's advertise |
| `HandshakeAgreement.RejectionFailsBoth` | src/peer.rs:231-237 | whatever fails, once one side has rejected neither succeeds |
| `HandshakeAgreement.SuccessMeansAcceptance` | src/peer.rs:162-179 | in every run with deadlines and losses, a success whose request is below the size limit means that the other side accepted, unless the other side gave up |
| `HandshakeAgreement.AnswerUnjudged` | src/proto.rs:56-67 | a run in which a side is answered without its advertise having been judged |
| `HandshakeAgreement.AgreementIffReadable` | src/proto.rs:52-95 | while the other side has not given up, success means acceptance in every run exactly if the request is below the size limit, or no success is possible |
| `HandshakeAgreement.AgreementIffTrustworthy` | src/proto.rs:52-95 | without that proviso it does so exactly if in addition no deadline can expire |
| `HandshakeAgreement.AbandonedRequest` | src/peer.rs:218-220 | a side that gives up while sending may leave an empty request, which is served without routes, or a cut-off one, which is not served; neither makes a success |
| `HandshakeProgress.AliveStep` | src/proto.rs:52-108 | without faults, no half waits for something its peer will not do |
| `HandshakeProgress.UnfinishedNodeProceeds` | src/peer.rs:162-166 | while a node has not returned, one of the two can move |
| `HandshakeProgress.FaultlessRunsFinish` | src/peer.rs:162-171 | without faults every run has at most 14 steps and stops only when both sides have returned |
| `HandshakeProgress.AcceptableAdvertisesSucceed` | src/peer.rs:152-180 | two acceptable advertises end in success on both sides, each with the other's addresses |
| `HandshakeProgress.SendThenServeBlocks` | src/peer.rs:163 | if the halves ran one after the other, both sides would wait for ever |
| `Bits.AndNetmask` | src/addr.rs:98 | masking with a netmask subtracts the low bits |
| `Bits.AndHostmask` | src/addr.rs:99 | masking with the inverted netmask leaves the low bits |
| `Bits.NetmaskIsLeadingBits` | src/addr.rs:97 | the netmask has exactly the leading bits set |
| `Bits.AndIsBitwise` | src/addr.rs:98-99 | the recursive and is the bit by bit one |
| `Bits.OrIsBitwise` | src/addr.rs:101 | the recursive or is the bit by bit one |
| `Bits.NotIsBitwise` | src/addr.rs:99 | the recursive complement is the bit by bit one |
| `Net.BroadcastBits` | src/addr.rs:102 | the broadcast address is the base plus the size of the network less one |
| `Net.SameBaseIffHasAddr` | src/addr.rs:61 | two networks of one length truncate to the same exactly when one has the other's address |
| `Net.ContainsIffCovers` | src/peer/validate_addr.rs:48-50 | a network contains another exactly when it has all its addresses |
| `ValidateAddr.InAnyIff` | src/peer/validate_addr.rs:48-50 | a network passes exactly if some allowed one, wherever in the list, has all its addresses |
| `Addr.DerivedIsSum` | src/addr.rs:96-113 | the mask-based derivation is base plus host part, and clearing the last bit subtracts one |
| `Addr.ClearingAvoidsBroadcast` | src/addr.rs:102-104 | clearing the last bit of the broadcast address subtracts one, unless a host network is even |
| `Addr.DerivationIsArithmetic` | src/addr.rs:96-113 | the derived address is the base plus the entropy modulo the size of the network, less one for an odd IPv4 host |
| `Addr.DerivedStaysInside` | src/addr.rs:87-113 | the derived address lies in its network exactly if that is not an odd IPv4 host, and is no broadcast address below /32 |
| `Addr.DeriveIgnoresHostPart` | src/addr.rs:87-94 | a network and its truncation derive the same address |
| `Addr.GeneratedIsSigned` | src/addr.rs:49-53 | what is generated keeps the prefix length and carries the key's signature over the truncated network, which is its own unless the network is an odd IPv4 host |
| `Addr.AcceptedIffGenerated` | src/addr.rs:56-72 | a network and signature verify exactly when the key's owner generates them for the truncated network |
| `Addr.RoundTrip` | src/addr.rs:49-72 | with collisions allowed, an odd IPv4 host verifies exactly if its signature is also that of the network it left for |
| `Addr.RoundTripIff` | src/addr.rs:49-72 | without colliding signatures, a generated address verifies exactly when its network is no odd IPv4 host |
| `Addr.IdealSchemeExists` | src/addr.rs:49-63 | the two idealisations of signatures can be met together |
| `Addr.EvenHostDerivesItself` | src/addr.rs:101-104 | what an odd IPv4 host derives is an even host that derives itself |
| `Addr.SerializedBytes` | src/addr.rs:76-84 | the signed message is the prefix length followed by the address, most significant byte first |
| `Addr.EntropyIsInitialBytes` | src/addr.rs:87-93 | the entropy of an address is as many initial bytes of the signature as the address has, lowest first |
| `Addr.SerializationIsInjective` | src/addr.rs:76-84 | the signed message determines the network, across both families |
| `ValidateAddr.ValidateAddresses` | src/peer/validate_addr.rs:14-37 | returns the accepted networks and the failures, each in the order advertised |
| `ValidateAddr.GenuineIffValid` | src/peer/validate_addr.rs:40-46 | a host passes exactly when it carries what its key's owner generates |
| `ValidateAddr.FailureIsExplained` | src/peer/validate_addr.rs:40-46 | a host fails as unreadable, without a signature, for a signature that is not what the key's owner generates, or else for an address that is not, in this order |
| `ValidateAddr.OneHost` | src/peer/validate_addr.rs:22-34 | a single host yields its network, its failure or nothing |
| `ValidateAddr.AcceptedAppend` | src/peer/validate_addr.rs:21-24 | hosts are judged one by one, and accepted networks keep their order |
| `ValidateAddr.FailuresAppend` | src/peer/validate_addr.rs:25-33 | failures keep their order |
| `ValidateAddr.AcceptedIffGenuine` | src/peer/validate_addr.rs:14-50 | a network is accepted exactly when it is within bounds and some host carries it genuinely |
| `ValidateAddr.RoutedIffGenuine` | src/peer.rs:221-230 | an address becomes a route exactly when some host carries it genuinely in a network within bounds |
| `ValidateAddr.AcceptedLiesWithin` | src/peer/validate_addr.rs:14-50 | whoever signed it and whatever is allowed, every route taken from an advertise lies in an allowed network |
| `ValidateAddr.SubnetBitsAreSum` | src/addr.rs:27-31 | or-ing the subnet number into the prefix adds it, and leaves the host part clear |
| `EndToEnd.OwnNetAllowedIffAdmitted` | src/config.rs:113-119 | a node's own network lies in the default range exactly when the configuration check admits its subnet |
| `EndToEnd.HonestAdvertisePassesIffAdmitted` | src/peer/validate_addr.rs:14-50 | an honest advertise validates without errors to exactly its own network if its subnet is admitted, and to nothing otherwise |
| `EndToEnd.SubnetsAreDisjoint` | src/addr.rs:27-31 | nodes in different subnets have disjoint networks |
| `EndToEnd.AcceptedIsNeverReleased` | src/route.rs:139-148 | no route accepted by default, genuine or not, is mistaken for a released guard, and all lie in the default range |
| `EndToEnd.AllowedIsUniqueLocal` | src/addr.rs:12-18 | every address of the default range is a unique local one with the program's global ID, as section 3.1 of RFC 4193 lays them out |
| `EndToEnd.HonestNodesConnect` | src/peer.rs:152-239 | two admitted honest nodes always come out of a faultless handshake with each other's address |
| `EndToEnd.RepeatedHostCanPanic` | src/peer/validate_addr.rs:21-25 | an advertise that names one valid host twice has a schedule that panics its receiver's relay |
| `Proto.ReadChunks` | src/proto.rs:115 | the transport fills any number of slots with the next chunks, and none only at the end |
| `Proto.Collect` | src/proto.rs:117-127 | moves slots to the list until the limit is reached |
| `Proto.ReadToEnd` | src/proto.rs:111-133 | however chunks fall into the scratchpad, returns all bytes, the range error or the transport error as the whole stream decides |
| `Proto.ConcatKeepsOrder` | src/proto.rs:117-118 | chunks are put together in the order they came |
| `Proto.ByteOfChunk` | src/proto.rs:117-118 | each byte of each chunk stands behind all the earlier chunks |
| `Proto.CompleteIffBelowLimit` | src/proto.rs:119-129 | with a positive limit the bytes are returned exactly when the stream ends well below it, and the range error exactly otherwise in length |
| `Proto.ChunkingIrrelevantIff` | src/proto.rs:111-133 | the bytes alone decide the outcome, whatever the chunks, exactly for a positive limit |
| `Checksum.DeferredCarries` | src/route/ecn.rs:25 | summing first and folding the carries later is the one's-complement sum of RFC 1071 |
| `Checksum.WrittenChecksumVerifies` | src/route/ecn.rs:25 | a header with its checksum written sums to all ones |
| `EcnParsing.WrittenV4Parses` | src/route/ecn.rs:14 | a header reads back from the bytes it is written as, whatever follows |
| `EcnParsing.PacketV4Parses` | src/route/ecn.rs:14-36 | every IPv4 packet as long as its header says parses, with anything behind it, and is forwarded exactly if ECN-capable |
| `EcnParsing.ParsesV4Iff` | src/route/ecn.rs:14-18 | exactly those packets parse as IPv4, whatever the reserved flag |
| `EcnParsing.PacketV6Parses` | src/route/ecn.rs:14-47 | every IPv6 packet as long as its header says, or with a zero length, parses, and is forwarded exactly if ECN-capable |
| `EcnParsing.ParsesV6Iff` | src/route/ecn.rs:14-18 | exactly those packets parse as IPv6 |
| `EcnParsing.RewriteV6` | src/route/ecn.rs:42 | writing a parsed IPv6 header back restores every bit |
| `Ecn.ProcessPacketCongestion` | src/route/ecn.rs:13-50 | the in-place rewrite leaves the buffer with the bytes of the field-wise transformation |
| `Ecn.RewriteV4` | src/route/ecn.rs:27-28 | writing a parsed IPv4 header back restores every bit but the reserved flag, options included |
| `Ecn.MarkingV4` | src/route/ecn.rs:21-30 | an ECN-capable IPv4 packet is forwarded marked, and its header verifies whatever its checksum was |
| `Ecn.OnlyEcnAndChecksumChangeIff` | src/route/ecn.rs:24-28 | nothing but the ECN bits and the checksum changes exactly if the reserved flag was clear |
| `Ecn.MarkingV6` | src/route/ecn.rs:37-44 | an ECN-capable IPv6 packet is forwarded with exactly its two ECN bits set |
| `Ecn.OnlyMarkingChanges` | src/route/ecn.rs:13-50 | exactly the unparseable and the incapable are dropped, unchanged, and only the ECN-capable are changed |
| `Ecn.MarkingIsIdempotent` | src/route/ecn.rs:31-32 | a forwarded packet is forwarded again unchanged |
| `Aqm.QueuesAboveCutoff` | src/route/ecn.rs:61-67 | a draw queues the packet exactly when it is not among the lowest so many |
| `Aqm.QueuedShare` | src/route/ecn.rs:61-67 | the exact number of draws that queue a packet; all at the threshold, none at a full queue |
| `Aqm.FullerQueuesLess` | src/route/ecn.rs:52-55 | a fuller queue takes no packet an emptier one refuses |
| `SendPacket.QueuesIffLeftAlone` | src/peer.rs:131-133 | the queue decision by buffer space as a comparison of whole numbers: the draw against the excess over half full |
| `SendPacket.SpaceHelps` | src/peer.rs:130-133 | more free space leaves at least the same draws alone |
| `SendPacket.SendPacket` | src/peer.rs:95-149 | too big exactly above the MTU; sent as it is for the exact share of draws; otherwise marked or dropped; always sent at most half full, never unmarked when full; a connection that never had buffer space included |
| `BufferPool.PooledBuffer.constructor` | src/buffer_pool.rs:28-36 | a handle starts empty whatever its array holds |
| `BufferPool.PooledBuffer.AdvanceMut` | src/buffer_pool.rs:98-108 | shows so many more bytes and keeps those already visible; panics, changing nothing, exactly if there are not as many |
| `BufferPool.PooledBuffer.PutSlice` | src/buffer_pool.rs:93-113 | appends exactly the given bytes to the visible ones; panics, changing nothing, exactly if they do not fit |
| `BufferPool.UpdatingReadBuf.constructor` | src/buffer_pool.rs:60-66 | a window on the unused part |
| `BufferPool.UpdatingReadBuf.Receive` | src/buffer_pool.rs:69-73 | a read shows nothing yet, and a failed one is not recorded |
| `BufferPool.UpdatingReadBuf.Commit` | src/buffer_pool.rs:146-150 | closing the window appends exactly what was received |
| `BufferPool.ReadFrame` | src/buffer_pool.rs:69-76 | appends the frame, or nothing if the read failed, never scribbled bytes |
| `BufferPool.Pool.constructor` | src/buffer_pool.rs:15-23 | so many separate buffers, all free |
| `BufferPool.Pool.TryPop` | src/buffer_pool.rs:27-41 | hands out the buffer free for longest, showing nothing; waits exactly when none is free |
| `BufferPool.Pool.Reclaim` | src/buffer_pool.rs:79-91 | the buffer goes back to the end of the queue, or nowhere once the pool is gone; the full-pool panic cannot happen |
| `BufferPool.Pool.Close` | src/buffer_pool.rs:8-12 | dropping the pool drops the free buffers and leaves the others with their handles |
| `BufferPool.RunPool` | src/buffer_pool.rs:15-150 | over any run, free and checked-out buffers add up to the initial count until the pool is dropped, and each holder sees exactly what was written and committed since its pop, before and after |

## Left out

- PeerSessions.PeerSession.Run: one session without interference from others, with the handshake's outcome given; all interleavings are the `Daemon` machine's, on values.
- Ecn.ProcessPacketCongestion: the acceptance of extension headers is a parameter, and the checksum is summed in network order rather than in the accumulator of the packet library.
- Aqm.QueuedShare: over the reals; rounding of 32-bit floats is not modelled.
- The wait for a direct path before the handshake, and within it stream errors other than loss of the connection.
- Effects of a cancelled OS call that arrive after the rollback has removed the route.
- Mutable access to the visible part of a buffer, and the capacity gauges.
- Protobuf encoding and the conversion between status and response messages.
- The receive loops, including the loop for later control messages, which no session uses.
- The QUIC endpoint, the TUN device, the routing-table and D-Bus backends, and their retry schedule.
- Construction of ICMP replies.
- Configuration files, key generation and display, connection routing, metrics and tracing.
- Ed25519 itself, and the parsing and printing of networks.
