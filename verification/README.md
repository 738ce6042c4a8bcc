# Velum: verified model of the protocol cores

Velum tunnels flows over carriers that may fail and be replaced. The parts of it
that are hard to get right are small state machines with no I/O inside. This
project models them in Dafny and proves what they are for.

| Part | Modules | Main results |
|---|---|---|
| Reliable session over changing carriers | `SessionModel`, `SessionInvariants`, `SessionTracing`, `FaultyCarrier`, `SessionDispatch`, `SessionHistory`, `SessionAnswers`, `EndToEnd`, `EndToEndRecovery` | what is delivered is a prefix of what was sent, in every run over carriers that lose, duplicate, delay, reorder and go dark; recovery is complete exactly when the receiver may still accept the sender's epoch and has recorded no earlier end; every honest run can be carried on, through the carriers, until everything sent is delivered and acknowledged; attachments, replay, dispatch and closing are safe over whole histories; every call and frame is answered exactly as stated |
| Generation-owned runtimes | `NodePool`, `NodePoolSteps`, `NodePoolProgress`, `NodePoolNames` | under every interleaving each started runtime has exactly one owner; a quiet pool runs only its visible profile; a stream is returned only if no replacement happened between its two reads; without new calls every run is bounded and ends with every operation finished; every runtime and stream handed out is of the node that was named |
| Privileged traffic host | `HostProtocol`, `TrafficHosting`, `TrafficHostRuns`, `TrafficHostAnswers` | with calls failing and crashes between any two calls, applied settings are always covered by a journal record; a record blocks mutation until it is recovered; the response cache is exactly the last 256 responses of a client whose ids grow |
| Frame and datagram codecs | `ByteOrder`, `Bits`, `Negotiation`, `FrameCodec`, `FrameWire`, `FrameLayout`, `DatagramCodec`, `DatagramWire`, `DatagramLayout` | decoding gives a value exactly when the bytes are its one encoding and it is canonical; every field at its offset, every error |
| Incremental decoders | `FrameDecoding`, `RequestStream`, `RequestAnswers` | refine a parser of the whole stream; chunking does not matter; what happens after an error |
| Fake DNS, flows, UDP associations, CIDR | `DomainNames`, `FakeDns`, `FakeDnsRuns`, `FakeDnsAnswers`, `FakeDnsObject`, `CyclicSearch`, `UdpAssociations`, `TunFlows`, `IpCidrs` | two-index consistency; the IPv4 pool cannot run out within capacity 131070; how long a mapping lives and how its flows are routed; session ids across the 64-bit wrap-around; networks nest or are disjoint |
| Client runtime and admission | `ClientRuntimes`, `RuntimeAnswers`, `Admission`, `AdmissionSteps`, `AdmissionAnswers` | a client is stored exactly while online and none is lost; quotas hold and closing everything empties the table, under every interleaving |
| Dependency check | `DependencyCycles` | a module is reported exactly when it depends on itself |

Code that changes objects is modelled as classes whose methods are proved to take
exactly the transition a specification function gives; the properties are then
proved about those functions, over runs. Concurrent code is a machine whose steps
are the stretches between two lock acquisitions or awaits; any interleaving is a
run. Failing calls, crashes, network loss and clocks are inputs of a run.

## What the code does that its documentation does not say

- `FrameDecoder` is documented to retain no more than one declared frame
  (`crates/velum-protocol/src/frame.rs:314`). Over any pushes that holds exactly until one
  brings bytes after another has rejected a complete frame
  (`FrameDecoding.BoundHoldsExactlyUntilRejection`): the rejected frame stays and every such
  push adds a byte. `FrameDecoding.RejectionHappens` is an input.
- A push that fails also drops what it had already decoded, in both decoders. The caller
  receives everything exactly when no failing push had completed a frame or request
  (`FrameDecoding.ReturnedIsAllExactlyWhen`, `RequestStream.ReturnedIsAllExactlyWhen`), so the
  same stream cut in two ways can return different lists
  (`FrameDecoding.ChunkingChangesWhatIsReturned`, `RequestStream.ChunkingChangesWhatIsReturned`).
- A running host answers `Started` to a Start of its own generation without
  comparing configurations (`TrafficHostRuns.StartedMeansApplied` gives the exact
  condition, `TrafficHostRuns.StartedMayIgnoreTheConfiguration` an input).
- Request ids make retries idempotent only with exceptions. The first response is remembered
  exactly when there was room or a smaller id was cached
  (`TrafficHostRuns.RetryIsRememberedExactlyWhen`). A retry that was not remembered is computed
  again; it still makes no call and answers the same, exactly unless the first answer was a
  platform failure or the request is a Recover the host carried out
  (`TrafficHostRuns.RetryIsIdempotentExactlyWhen`). In those cases it acts again and may answer
  differently (`TrafficHostRuns.AForgottenStartRunsTwice`).
- Leases of a dead generation keep counting against the limit of their protocol until they
  are admitted again, released or cleared, so a registry full of them refuses new flows
  (`TunFlows.StaleLeasesFillTheRegistry`, `TunFlows.ADeadLeaseRefusesANewFlow`).
- A name such as `foo .` keeps a trailing space in the fake-address table, and
  routing the remembered name then differs from routing the name itself
  (`DomainNames.RoutingSeesTheSameName`, `DomainNames.TrailingSpaceChangesTheRoute`).
- A `ProtocolErrorCode::Unknown` that holds a known number does not survive the
  wire (`FrameCodec.ErrorRoundTrips`).

## Assumptions

- A journal write or clear that reports success has happened; one that reports
  failure has happened or not, and nothing in between (the file journal renames a
  synced temporary file). Loading that succeeds tells the truth.
- A backend call that reports success did what it was asked; one that fails leaves
  any settings, except that stop and recover do not install settings on a clean network.
- Attachment proofs are an arbitrary predicate on the proof's inputs; JSON bodies are an
  arbitrary pair of functions; routing rules are an arbitrary function of the
  normalised name, the real address and the port.
- A connection releases only leases it was given and has not yet released; its one caller releases what
  it reserved.
- Acknowledgements come from the environment. Prefix safety needs nothing of them;
  recovery assumes they cover delivered sequences only.

## Model

| member | source | states |
|---|---|---|
| SessionTracing.TransitionState.Advance | crates/velum-session/src/transition.rs:31-39 | a new epoch opens only when none is retiring, and the old one becomes the retiring one |
| SessionTracing.TransitionState.RetirePrevious | crates/velum-session/src/transition.rs:41-43 | the retiring epoch ends and the current one stays |
| SessionTracing.ReplayWindow.Accept | crates/velum-crypto/src/lib.rs:115-121 | an epoch is accepted exactly when it is above every accepted one |
| SessionTracing.SessionTracer.OpenReliableFlow | crates/velum-session/src/lib.rs:220-226 | opens the next flow id, or fails at the flow limit, and keeps the running totals equal to the sums over flows |
| SessionTracing.SessionTracer.OpenReliableFlowWithId | crates/velum-session/src/lib.rs:228-250 | opens exactly ids at or above every earlier one and below 2^64 - 1, within the flow limit |
| SessionTracing.SessionTracer.CloseReliableFlow | crates/velum-session/src/lib.rs:252-259 | removes exactly a flow whose queue is empty |
| SessionTracing.SessionTracer.Send | crates/velum-session/src/lib.rs:261-314 | queues one segment under the next sequence with its expiry, unless a flow or session limit would break |
| SessionTracing.SessionTracer.Acknowledge | crates/velum-session/src/lib.rs:317-356 | the release loop drops exactly the acknowledged prefix and keeps both byte and segment counters right |
| SessionTracing.SessionTracer.Receive | crates/velum-session/src/lib.rs:358-387 | delivers exactly the next sequence inside the epoch window and before any end of stream |
| SessionTracing.SessionTracer.FinishReceiving | crates/velum-session/src/lib.rs:389-413 | records one end of stream, never below the receive cursor |
| SessionTracing.SessionTracer.ResetReliableFlow | crates/velum-session/src/lib.rs:415-426 | drops the flow and takes what it held off both totals, which never underflow |
| SessionTracing.SessionTracer.Pending | crates/velum-session/src/lib.rs:428-441 | lists this flow's queued payloads under consecutive sequences that end just below the next one |
| SessionTracing.SessionTracer.ResumeUnacknowledged | crates/velum-session/src/lib.rs:443-458 | reissues every queued segment on the current epoch, payloads and sequences unchanged |
| SessionTracing.SessionTracer.AdvanceTime | crates/velum-session/src/lib.rs:460-490 | removes exactly the flows holding some expired segment, in id order, though it looks only at each front |
| SessionTracing.SessionTracer.BeginTransition | crates/velum-session/src/lib.rs:498-507 | starts the next epoch and hands the accepted attachment to the retiring one |
| SessionTracing.SessionTracer.BeginExplainedTransition | crates/velum-session/src/lib.rs:509-522 | the same, recorded with its reason |
| SessionTracing.SessionTracer.NegotiateTransitionVersion | crates/velum-session/src/lib.rs:524-539 | the newest shared version, or a recorded rejection |
| SessionTracing.SessionTracer.AuthenticateCarrierAttachment | crates/velum-session/src/lib.rs:541-587 | every rejection, the accepted case and the idempotent repeat |
| SessionTracing.SessionTracer.CompleteTransition | crates/velum-session/src/lib.rs:589-593 | ends the retiring epoch together with its attachment |
| SessionTracing.SessionTracer.BindNegotiatedParameters | crates/velum-session/src/lib.rs:206-218 | parameters are bound once, and never after an attachment was accepted |
| SessionTracing.SessionTracer.RecordEvent | crates/velum-session/src/lib.rs:610-616 | the event log keeps its newest entries within the bound |
| SessionInvariants.TotalUpdate | crates/velum-session/src/lib.rs:261-314 | the session totals change by one flow's change |
| SessionInvariants.TotalRemove | crates/velum-session/src/lib.rs:415-426 | removing flows removes their share of the totals |
| SessionInvariants.UncoveredIsSuffix | crates/velum-session/src/lib.rs:317-356 | what a cumulative acknowledgement leaves is a suffix of the queue |
| SessionInvariants.FrontDecidesExpiry | crates/velum-session/src/lib.rs:460-490 | in an ordered queue the front alone tells whether any segment has expired |
| SessionInvariants.SendValid | crates/velum-session/src/lib.rs:261-314 | sending keeps contiguity, epoch and expiry order, and all four limits |
| SessionInvariants.AcknowledgeValid | crates/velum-session/src/lib.rs:317-356 | acknowledging keeps the session invariant |
| SessionInvariants.ReceiveValid | crates/velum-session/src/lib.rs:358-387 | receiving keeps the cursor at or below a recorded end of stream |
| SessionInvariants.AdvanceTimeValid | crates/velum-session/src/lib.rs:460-490 | time keeps the session invariant |
| SessionInvariants.AuthenticateValid | crates/velum-session/src/lib.rs:541-587 | attaching keeps an attachment held exactly while the replay window is at the current epoch |
| FaultyCarrier.InMemoryCarrier.Transmit | crates/velum-session/src/simulator.rs:47-62 | drop, deliver, delay or duplicate, and nothing while dark |
| FaultyCarrier.InMemoryCarrier.Advance | crates/velum-session/src/simulator.rs:64-80 | hands over what is due in scheduling order and keeps the rest |
| FaultyCarrier.TransmittedIsCarried | crates/velum-session/src/simulator.rs:47-62 | how many copies a transmission schedules, and for when |
| FaultyCarrier.ReadyExactlyWhenDue | crates/velum-session/src/simulator.rs:64-80 | a segment is handed over exactly when its delay has ended |
| FaultyCarrier.AdvanceConserves | crates/velum-session/src/simulator.rs:64-80 | every scheduled segment is handed over or still waiting, exactly once |
| SessionDispatch.SessionFrameDispatcher.DispatchFrame | crates/velum-session/src/dispatcher.rs:92-182 | each frame's guard, session call and reply, and when the dispatcher closes |
| SessionDispatch.SessionFrameDispatcher.AttachCarrier | crates/velum-session/src/dispatcher.rs:184-220 | an attach frame authenticates this carrier and is echoed |
| SessionDispatch.DispatchValid | crates/velum-session/src/dispatcher.rs:92-182 | every frame keeps the session invariant |
| SessionDispatch.ErrorsChangeNothing | crates/velum-session/src/dispatcher.rs:92-237 | an error leaves all session state but the event log as it was |
| SessionDispatch.UnattachedCarrierTouchesNoFlow | crates/velum-session/src/dispatcher.rs:222-237 | a carrier with no current or retiring attachment changes no flow |
| SessionDispatch.RetiringCarrierOpensNoFlow | crates/velum-session/src/dispatcher.rs:92-237 | a retiring carrier cannot open a flow |
| SessionHistory.EveryHistoryIsValid | crates/velum-session/src/lib.rs:155-616 | the whole session invariant holds after any sequence of calls and frames |
| SessionHistory.EffectsNeedAnAcceptedCarrier | crates/velum-session/src/dispatcher.rs:92-237 | in any history, a frame that changes a flow came from a carrier accepted for the current or retiring epoch |
| SessionHistory.OneAttachmentPerEpoch | crates/velum-session/src/lib.rs:541-587 | no two calls or frames of any history are answered with a first acceptance for the same epoch |
| SessionHistory.RetransmissionIsIdempotent | crates/velum-session/src/lib.rs:541-587 | repeating an accepted request changes nothing; any other claim to the epoch is refused |
| SessionHistory.GoneForGood | crates/velum-session/src/lib.rs:228-250 | a closed, reset or expired flow id never comes back |
| SessionHistory.CursorsNeverRetreat | crates/velum-session/src/lib.rs:261-413 | over any history cursors only advance and an end of stream is never moved |
| SessionHistory.CloseIsAbsorbing | crates/velum-session/src/dispatcher.rs:88-110 | after a connection close, every frame on that dispatcher is without effect |
| SessionHistory.CloseSilencesTheCarrier | crates/velum-session/src/dispatcher.rs:97-173 | after a connection close answered with success, until the slot has a new dispatcher, every frame on it is answered Closed and changes nothing |
| SessionHistory.ClosedOnlyByClose | crates/velum-session/src/dispatcher.rs:169-173 | in any history a slot is closed only by such an answer |
| SessionAnswers.OpeningAnswers | crates/velum-session/src/lib.rs:228-250 | accepted exactly within the flow limit and for a new id, with a fresh flow; both errors |
| SessionAnswers.ClosingAnswers | crates/velum-session/src/lib.rs:252-259 | accepted exactly for a known flow with nothing queued |
| SessionAnswers.ResettingAnswers | crates/velum-session/src/lib.rs:415-426 | removes exactly that flow |
| SessionAnswers.SendingAnswers | crates/velum-session/src/lib.rs:261-314 | accepted exactly when all four limits have room; the segment's epoch, sequence and deadline |
| SessionAnswers.SendingErrors | crates/velum-session/src/lib.rs:268-295 | which limit a refused payload is told of |
| SessionAnswers.AcknowledgingAnswers | crates/velum-session/src/lib.rs:317-340 | accepted exactly on an open epoch, for a known flow, below the next sequence, covering nothing sent on a newer epoch |
| SessionAnswers.AcknowledgingReleases | crates/velum-session/src/lib.rs:330-356 | releases exactly the front up to the named sequence, none of it newer than the acknowledgement's epoch |
| SessionAnswers.ReceivingAnswers | crates/velum-session/src/lib.rs:358-385 | exactly when a segment is delivered, a duplicate, out of order, or past the end |
| SessionAnswers.ReceivingRefusals | crates/velum-session/src/lib.rs:358-366 | closed epochs and unknown flows |
| SessionAnswers.FinishingAnswers | crates/velum-session/src/lib.rs:389-413 | an end is taken once, at or above the cursor, and may be repeated |
| SessionAnswers.ResumingAnswers | crates/velum-session/src/lib.rs:443-458 | the queue again, with consecutive sequences and the current epoch |
| SessionAnswers.AdvancingAnswers | crates/velum-session/src/lib.rs:460-490 | a flow is dropped exactly when one of its segments has outlived its deadline |
| SessionAnswers.TransitionAnswers | crates/velum-session/src/lib.rs:498-507 | a transition starts exactly when none is open, and what completing it clears |
| SessionAnswers.AttachingAnswers | crates/velum-session/src/lib.rs:541-587 | the first authentic request of an epoch is accepted, its exact repeat acknowledged, any other a replay |
| SessionAnswers.AttachingErrors | crates/velum-session/src/lib.rs:541-575 | which of the other errors a request gets |
| SessionAnswers.BindingAnswers | crates/velum-session/src/lib.rs:206-218 | bound exactly once, and before any attachment |
| SessionAnswers.EventsOfFlows | crates/velum-session/src/lib.rs:610-616 | which events opening and sending log, newest kept |
| SessionAnswers.EventsOfReceiving | crates/velum-session/src/lib.rs:370-380 | which events receiving logs |
| SessionAnswers.EventsOfTransitions | crates/velum-session/src/lib.rs:509-522 | which events transitions log |
| SessionAnswers.EventsOfAttaching | crates/velum-session/src/lib.rs:603-608 | which events attaching logs |
| SessionAnswers.FramesRefused | crates/velum-session/src/dispatcher.rs:92-237 | exactly when a frame is refused as closed, unexpected, mismatched or unattached |
| SessionAnswers.ClosingFrames | crates/velum-session/src/dispatcher.rs:169-173 | a connection close from an attached carrier closes, and nothing else does |
| SessionAnswers.StreamFrames | crates/velum-session/src/dispatcher.rs:112-181 | each stream frame is one session call with the frame's own fields |
| SessionAnswers.AttachFrames | crates/velum-session/src/dispatcher.rs:184-220 | an attach frame asks for this carrier and is echoed |
| SessionAnswers.AcceptedCarriersAreHeard | crates/velum-session/src/lib.rs:191-204 | an accepted carrier is heard at once, and still while its epoch retires |
| EndToEnd.DeliveredIsAPrefixOfSent | crates/velum-session/src/lib.rs:358-385 | in every run of sender, carriers and receiver, the payloads delivered on a flow are a prefix of those sent on it |
| EndToEnd.CursorsStayNested | crates/velum-session/src/lib.rs:317-387 | with honest acknowledgements: sender base <= receiver cursor <= sender next |
| EndToEnd.RecoveryIsComplete | crates/velum-session/src/lib.rs:443-456 | receiving the reissued queue completes the stream exactly when it was complete, or the epoch is in the window and no earlier end is recorded; then delivered equals sent |
| EndToEnd.EveryHonestRunCanRecover | crates/velum-session/src/campaign.rs:101-128 | the same for every state an honest run reaches |
| EndToEnd.BatchRecovers | crates/velum-session/src/lib.rs:358-387 | what one gap-free batch delivers, in all cases |
| EndToEnd.FinalAcknowledgementReleasesAll | crates/velum-session/src/lib.rs:317-356 | a current-epoch acknowledgement of the last sequence empties that queue and no other |
| EndToEndRecovery.RecoveryDelivers | crates/velum-session/src/campaign.rs:101-128 | reissuing the queue over a new carrier leaves delivered equal to sent |
| EndToEndRecovery.EveryHonestRunCanBeCompleted | crates/velum-session/src/campaign.rs:101-128 | from every state an honest run reaches in which the receiver may take the epoch and has recorded no earlier end, an honest continuation through the carriers delivers everything sent and empties the queue |
| NodePool.Prepare | crates/velum-client-engine/src/lib.rs:231-270 | succeeds exactly for non-empty, distinct ids and aliases with a known default, and then indexes every node and alias |
| NodePoolSteps.RunValid | crates/velum-client-engine/src/lib.rs:123-318 | the ownership invariant holds after any interleaving of activations, stops and lazy starts |
| NodePoolSteps.EveryRuntimeHasOneOwner | crates/velum-client-engine/src/lib.rs:123-318 | each started runtime is stopped, stored in the visible profile, stored in an entry an unfinished operation answers for, or held by one operation, and never two of these |
| NodePoolSteps.QuietPoolOwnsOnlyItsNodes | crates/velum-client-engine/src/lib.rs:312-318 | with no operation in flight, exactly the runtimes of the visible profile's nodes are running, each under one node |
| NodePoolSteps.StreamsSawNoReplacement | crates/velum-client-engine/src/lib.rs:198-213 | a returned stream saw no replacement between its two generation reads |
| NodePoolSteps.GenerationIdentifiesProfile | crates/velum-client-engine/src/lib.rs:123-152 | a generation seen again means the profile was never replaced in between, though generations are drawn before the lock |
| NodePoolSteps.RetiredForGood | crates/velum-client-engine/src/lib.rs:123-229 | a replaced generation stays replaced |
| NodePoolSteps.NoDeadlock | crates/velum-client-engine/src/lib.rs:272-318 | while some operation is unfinished, some operation can move |
| NodePoolProgress.RunsAreFinite | crates/velum-client-engine/src/lib.rs:123-318 | every step but a new call uses up a measure that bounds the run |
| NodePoolProgress.RestIsQuiet | crates/velum-client-engine/src/lib.rs:123-318 | only new calls can move the pool exactly when every operation has finished |
| NodePoolProgress.EveryRunComesToRest | crates/velum-client-engine/src/lib.rs:123-318 | after any calls, every run without new calls is bounded, ends quiet when it can go no further, and can always be carried on to that point |
| NodePoolNames.ResolvingSelects | crates/velum-client-engine/src/lib.rs:284-303 | a reference finds the entry of the one node whose id it is, else whose alias it is, "PROXY" the default's, else nothing |
| NodePoolNames.VisibleStateIsAsActivated | crates/velum-client-engine/src/lib.rs:123-152 | the visible state indexes exactly the profile of the activation that installed it |
| NodePoolNames.AnswersAreTrue | crates/velum-client-engine/src/lib.rs:123-310 | in every interleaving, what was handed out was started for the node named in the profile the caller saw; a name is refused only if that profile lacks it, and a call superseded only if it was replaced |
| NodePoolNames.BackendAnswersAreHonoured | crates/velum-client-engine/src/lib.rs:130-140 | starts and opens succeed or fail as the backend says |
| TrafficHosting.TrafficHost.HandleRequest | crates/velum-desktop-traffic-host/src/lib.rs:88-110 | answers, calls, final state and cache for every request and every way its calls can end |
| TrafficHosting.TrafficHost.Execute | crates/velum-desktop-traffic-host/src/lib.rs:112-167 | each command's branch, the order of its journal and backend calls, and the state after each failure |
| TrafficHosting.TrafficHost.RecoverNow | crates/velum-desktop-traffic-host/src/lib.rs:169-188 | recovery loads, undoes and clears, and requires recovery again on any failure after loading |
| TrafficHosting.TrafficHost.Cache | crates/velum-desktop-traffic-host/src/lib.rs:190-198 | inserting drops the smallest id once the cache is over 256 |
| TrafficHostRuns.RunKeeps | crates/velum-desktop-traffic-host/src/lib.rs:63-188 | the host's report stays true of the platform, and every call leaves the network journaled, from any state where that holds |
| TrafficHostRuns.MutationIsAlwaysJournaled | crates/velum-desktop-traffic-host/src/lib.rs:112-188 | after every single call of every run with failures and crashes, settings not undone are covered by a journal record |
| TrafficHostRuns.HostReportsTheTruth | crates/velum-desktop-traffic-host/src/lib.rs:63-188 | Stopped means clean and no record; Running means the record of this generation is what is applied; recovery required implies Recovering |
| TrafficHostRuns.NeverBusy | crates/velum-desktop-traffic-host/src/lib.rs:125-127 | the busy answer is unreachable |
| TrafficHostRuns.RecordBlocksMutation | crates/velum-desktop-traffic-host/src/lib.rs:63-82 | while a record found at start stays, no later incarnation writes the journal, starts or stops |
| TrafficHostRuns.NothingRunsBeforeRecovery | crates/velum-desktop-traffic-host/src/lib.rs:118-188 | a host that needs recovery makes none of those calls until one of its Recover commands succeeds |
| TrafficHostRuns.GenerationNeverFalls | crates/velum-desktop-traffic-host/src/lib.rs:96-188 | within one incarnation the generation never decreases |
| TrafficHostRuns.StartedMeansApplied | crates/velum-desktop-traffic-host/src/lib.rs:117-150 | exactly when a Started answer means the requested configuration is in force |
| TrafficHostRuns.StartedMayIgnoreTheConfiguration | crates/velum-desktop-traffic-host/src/lib.rs:128-131 | a run on which it does not |
| TrafficHostRuns.RetainedExactlyWhen | crates/velum-desktop-traffic-host/src/lib.rs:190-198 | a fresh response is kept exactly when there is room or a smaller id is cached |
| TrafficHostRuns.CacheIsTheLastResponses | crates/velum-desktop-traffic-host/src/lib.rs:88-198 | for growing ids the cache is exactly the last min(n, 256) computed responses, whatever retries come between |
| TrafficHostRuns.RetryIsRememberedExactlyWhen | crates/velum-desktop-traffic-host/src/lib.rs:88-198 | the first answer is remembered exactly when there was room or a smaller id was cached; a remembered retry repeats it without a call, any other is computed afresh |
| TrafficHostRuns.RetryIsIdempotentExactlyWhen | crates/velum-desktop-traffic-host/src/lib.rs:88-198 | a retry makes no call and repeats the first answer exactly when that was remembered, or was no platform failure and the request no Recover carried out |
| TrafficHostRuns.AForgottenStartRunsTwice | crates/velum-desktop-traffic-host/src/lib.rs:190-198 | a run on which the same Start acts again and is answered differently |
| TrafficHostAnswers.RefusalAnswers | crates/velum-desktop-traffic-host/src/lib.rs:88-110 | the answer's envelope, and exactly when a request is refused by version, capability or generation, without effect |
| TrafficHostAnswers.HelloAnswers | crates/velum-desktop-traffic-host/src/lib.rs:113-114 | Hello makes no call |
| TrafficHostAnswers.StatusIsTrue | crates/velum-desktop-traffic-host/src/lib.rs:115 | in every run Status makes no call, and what it says of the platform is true |
| TrafficHostAnswers.UsableIsValid | crates/velum-desktop-traffic-host/src/lib.rs:201-216 | which configurations are tried at all |
| TrafficHostAnswers.StartAnswers | crates/velum-desktop-traffic-host/src/lib.rs:117-150 | every refusal of a Start, the order of its calls, and each outcome |
| TrafficHostAnswers.StopAnswers | crates/velum-desktop-traffic-host/src/lib.rs:151-166 | the same for a Stop |
| TrafficHostAnswers.RecoverAnswers | crates/velum-desktop-traffic-host/src/lib.rs:169-188 | the same for a Recover |
| TrafficHostAnswers.OlderGenerationsAreRefused | crates/velum-desktop-traffic-host/src/lib.rs:96-97 | once a Start or Stop of a generation was carried out, later requests of an older one are turned away |
| Negotiation.OffersAreConsistent | crates/velum-protocol/src/types.rs:107-219 | an offer exists exactly when no bit is on both lists, bit 0 is required and the range is valid |
| Negotiation.NewestCommonVersion | crates/velum-protocol/src/types.rs:43-62 | the negotiated version is the greatest both ranges include |
| Negotiation.EnabledIsCommon | crates/velum-protocol/src/types.rs:222-249 | exactly the capabilities both sides named are enabled |
| Negotiation.ValidationIsExact | crates/velum-protocol/src/types.rs:264-276 | the client accepts a selection exactly when some server could have negotiated it from the offer |
| Negotiation.NegotiatingAnswers | crates/velum-protocol/src/types.rs:222-249 | exactly when a server can agree, and the error otherwise |
| Bits.AndMeansSharedBit | crates/velum-protocol/src/types.rs:78-80 | two sets intersect exactly when they share a bit |
| Bits.ContainsMeansAllBits | crates/velum-protocol/src/types.rs:74-76 | containment is having every bit |
| FrameCodec.ErrorRoundTrips | crates/velum-protocol/src/lib.rs:38-68 | a code survives the wire unless it is Unknown holding a known number |
| FrameCodec.DecodeIsInverseOfEncode | crates/velum-protocol/src/frame.rs:95-312 | bytes decode to a frame exactly when the frame is canonical, they are its encoding and its payload is within the limit |
| FrameCodec.ReadFrameExact | crates/velum-protocol/src/frame.rs:237-312 | each payload reader accepts exactly what its writer writes |
| FrameLayout.HeaderLayout | crates/velum-protocol/src/frame.rs:95-114 | type, zero, two length bytes |
| FrameLayout.OfferLayout | crates/velum-protocol/src/frame.rs:139-145 | each field of an offer at its offset |
| FrameLayout.AcceptLayout | crates/velum-protocol/src/types.rs:280-304 | each field of the accepted parameters at its offset |
| FrameLayout.AttachLayout | crates/velum-protocol/src/frame.rs:150-163 | each field of an attach frame at its offset |
| FrameLayout.AttachAcceptedLayout | crates/velum-protocol/src/frame.rs:164-173 | each field of its answer at its offset |
| FrameLayout.StreamOpenLayout | crates/velum-protocol/src/frame.rs:174-177 | the flow id at its offset |
| FrameLayout.StreamDataLayout | crates/velum-protocol/src/frame.rs:178-192 | flow, epoch, sequence and data at their offsets |
| FrameLayout.AcknowledgementLayout | crates/velum-protocol/src/frame.rs:193-202 | type 0x12, with flow, epoch and sequence at their offsets |
| FrameLayout.FinishLayout | crates/velum-protocol/src/frame.rs:203-212 | type 0x13, with flow, epoch and final sequence at their offsets |
| FrameLayout.ResetLayout | crates/velum-protocol/src/frame.rs:213-217 | flow and error number at their offsets |
| FrameLayout.CloseLayout | crates/velum-protocol/src/frame.rs:218-221 | the error number at its offset |
| FrameLayout.OptionalLayout | crates/velum-protocol/src/frame.rs:222-231 | an optional frame's type and payload |
| FrameLayout.ErrorNumbers | crates/velum-protocol/src/lib.rs:38-52 | the number of each error code |
| FrameLayout.EncodingErrors | crates/velum-protocol/src/frame.rs:76-81 | exactly when a frame cannot be encoded |
| FrameLayout.HeaderErrors | crates/velum-protocol/src/frame.rs:116-135 | why bytes are no whole frame, in the order it is checked |
| FrameLayout.PayloadErrors | crates/velum-protocol/src/frame.rs:237-312 | exactly which types are unknown, and when data is empty |
| FrameWire.EncodeFrame | crates/velum-protocol/src/frame.rs:95-114 | the encoder's bytes and errors |
| FrameWire.EncodePayload | crates/velum-protocol/src/frame.rs:137-235 | each frame's type and payload, appended field by field |
| FrameWire.WriteCanonicalBytes | crates/velum-protocol/src/types.rs:280-304 | the index loop writes version, capabilities and both nonces in order |
| FrameWire.NewNonZero | crates/velum-protocol/src/types.rs:132-141 | refuses exactly the all-zero array |
| FrameWire.DecodeFrame | crates/velum-protocol/src/frame.rs:116-135 | header checks in order, then the payload |
| FrameWire.DecodeFramePayload | crates/velum-protocol/src/frame.rs:237-312 | the payload's frame, with no byte left over |
| FrameWire.Reader.AnyFrame | crates/velum-protocol/src/frame.rs:239-305 | each type byte reads its own fields and leaves the rest |
| FrameDecoding.FrameDecoder.Push | crates/velum-protocol/src/frame.rs:335-362 | the nested loops parse byte by byte up to the first error |
| FrameDecoding.NewFrameDecoder | crates/velum-protocol/src/frame.rs:322-333 | refuses limits above the 16-bit length |
| FrameDecoding.PushIsParse | crates/velum-protocol/src/frame.rs:335-362 | pushing is parsing buffer and bytes at once; the residue after a rejection is that one frame |
| FrameDecoding.ChunkingDoesNotMatter | crates/velum-protocol/src/frame.rs:335-362 | frames, residue and error do not depend on how the stream is cut |
| FrameDecoding.ReturnedThenLost | crates/velum-protocol/src/frame.rs:335-362 | the stream's frames are those returned, then those the failing push had completed |
| FrameDecoding.ReturnedIsAllExactlyWhen | crates/velum-protocol/src/frame.rs:335-362 | the caller receives a prefix of the stream's frames, and all of them exactly when no failing push had completed one |
| FrameDecoding.ChunkingChangesWhatIsReturned | crates/velum-protocol/src/frame.rs:335-362 | one stream that returns a frame cut in two and none in one push |
| FrameDecoding.StreamIsItsFrames | crates/velum-protocol/src/frame.rs:335-362 | a stream parses to some frames exactly when it is their encodings and a pending tail |
| FrameDecoding.FramesSurviveAnyChunking | crates/velum-protocol/src/frame.rs:335-362 | a peer's frames arrive as sent with an empty buffer |
| FrameDecoding.BufferIsBounded | crates/velum-protocol/src/frame.rs:314-319 | one push from a pending buffer leaves less than one largest frame, or at most one when it fails |
| FrameDecoding.BoundHoldsExactlyUntilRejection | crates/velum-protocol/src/frame.rs:314-362 | after any pushes at most one declared frame is retained, exactly when no push brought bytes after one that rejected a complete frame |
| FrameDecoding.RejectionHappens | crates/velum-protocol/src/frame.rs:335-362 | four bytes that poison a new decoder, and a fifth that breaks the bound |
| FrameDecoding.PoisonIsForever | crates/velum-protocol/src/frame.rs:356-357 | after a rejected frame every later push that brings a byte returns that error |
| FrameDecoding.PoisonedBufferGrows | crates/velum-protocol/src/frame.rs:338-357 | the rejected frame stays in front, and each push that brings bytes leaves one byte more |
| DatagramCodec.DecodeIsInverseOfEncode | crates/velum-protocol/src/datagram.rs:88-184 | bytes decode to a datagram exactly when they are its encoding |
| DatagramCodec.EnvelopeIsTight | crates/velum-protocol/src/datagram.rs:7-13 | no encoding exceeds the maximum, and exactly the largest one reaches it |
| DatagramLayout.EnvelopeLayout | crates/velum-protocol/src/datagram.rs:122-135 | each part of an envelope at its offset |
| DatagramLayout.EncodingErrors | crates/velum-protocol/src/datagram.rs:106-121 | exactly when a datagram cannot be encoded |
| DatagramLayout.DecodingErrors | crates/velum-protocol/src/datagram.rs:137-155 | sizes, and the credential length |
| DatagramLayout.BodyErrors | crates/velum-protocol/src/datagram.rs:156-184 | every other refusal, in the order it is checked |
| DatagramWire.EncodeDatagram | crates/velum-protocol/src/datagram.rs:88-135 | the envelope appended part by part, and both errors |
| DatagramWire.DecodeDatagram | crates/velum-protocol/src/datagram.rs:137-184 | the envelope read back, with every error in the order it is checked |
| RequestStream.RequestDecoder.Push | crates/velum-helper-protocol/src/lib.rs:218-270 | one push is the whole-stream parser resumed; subtractions stay non-negative and an error returns to the initial state |
| RequestStream.ParsePending | crates/velum-helper-protocol/src/lib.rs:221-262 | what is buffered is less than a header, or less than the declared body of at most 64 KiB; any error leaves nothing |
| RequestStream.ChunkingDoesNotMatter | crates/velum-helper-protocol/src/lib.rs:218-270 | what successive pushes decode, leave and report is one parse of the concatenated stream |
| RequestStream.ReturnedIsAllExactlyWhen | crates/velum-helper-protocol/src/lib.rs:218-270 | the stream's requests are those returned, then those the failing push had decoded; the caller receives all exactly when there are none of the latter |
| RequestStream.ChunkingChangesWhatIsReturned | crates/velum-helper-protocol/src/lib.rs:218-270 | any request followed by an empty frame: returned when cut in two, lost in one push |
| RequestStream.ParseAppend | crates/velum-helper-protocol/src/lib.rs:218-270 | parsing resumes where an error-free prefix stopped, holding less than a header or less than one body |
| RequestStream.RequestsSurviveAnyChunking | crates/velum-helper-protocol/src/lib.rs:160-270 | encoded requests are read back through any chunking |
| RequestAnswers.FramedRequest | crates/velum-helper-protocol/src/lib.rs:160-172 | four length bytes and the body, or exactly one of two errors |
| RequestAnswers.BodyAnswers | crates/velum-helper-protocol/src/lib.rs:191-203 | exactly when a body is a request of this version |
| RequestAnswers.StreamAnswers | crates/velum-helper-protocol/src/lib.rs:218-262 | what the front of a stream is answered, by the length it announces |
| DomainNames.FoldingKeepsTheCore | crates/velum-adapter-tun/src/fake_dns.rs:152-153 | both normalisers lower the name without its outer space and trailing dots |
| DomainNames.TableNames | crates/velum-adapter-tun/src/fake_dns.rs:152-158 | which names the table takes |
| DomainNames.RoutingNames | crates/velum-client-routing/src/lib.rs:351-368 | routing takes exactly the folded names whose every label is a hostname label |
| DomainNames.RoutingSeesTheSameName | crates/velum-client-routing/src/lib.rs:351-368 | routing the remembered name agrees with routing the asked one, except for names that end in white space and are otherwise valid |
| DomainNames.TrailingSpaceChangesTheRoute | crates/velum-adapter-tun/src/fake_dns.rs:152-158 | an input on which they differ |
| FakeDns.Ipv4FailsExactlyWhenPoolMapped | crates/velum-adapter-tun/src/fake_dns.rs:121-149 | the search gives up exactly when every address of the range is mapped |
| FakeDns.NextIpv6IsNew | crates/velum-adapter-tun/src/fake_dns.rs:134-143 | IPv6 addresses are never reused; the search fails only at the last number |
| FakeDns.MakeRoomEvictsTheOldest | crates/velum-adapter-tun/src/fake_dns.rs:74-79 | at most the oldest mapping leaves |
| FakeDnsRuns.EveryTableIsValid | crates/velum-adapter-tun/src/fake_dns.rs:54-150 | in every run the queue lists the keys once, size is within capacity, keys equal fake addresses of the right family, one mapping per name and address |
| FakeDnsRuns.Ipv4IsNeverExhausted | crates/velum-adapter-tun/src/fake_dns.rs:54-150 | up to capacity 131070 an IPv4 allocation succeeds exactly for the current generation and a usable name |
| FakeDnsRuns.AllocateNewFailsWhen | crates/velum-adapter-tun/src/fake_dns.rs:80-94 | when a new allocation fails, for both families |
| FakeDnsRuns.AllocatedResolves | crates/velum-adapter-tun/src/fake_dns.rs:54-94 | a returned address maps to the name and address asked for; a refresh keeps its place in the queue |
| FakeDnsRuns.MappingSurvives | crates/velum-adapter-tun/src/fake_dns.rs:54-119 | a mapping lives through every run before its expiry with the same generation and fewer new insertions than places behind it |
| FakeDnsRuns.MappingLivesExactlyUntil | crates/velum-adapter-tun/src/fake_dns.rs:54-119 | while nothing expires, a mapping is kept through a run exactly when fewer mappings are inserted than places are left behind it |
| FakeDnsRuns.OldestGivesWay | crates/velum-adapter-tun/src/fake_dns.rs:74-94 | a full queue gives up its oldest mapping to a new one |
| FakeDnsRuns.FlowsAreRoutedByTheirName | crates/velum-adapter-tun/src/lib.rs:88-114 | a flow to a living fake address is routed as the original name and address would be |
| FakeDnsAnswers.ResolvingAnswers | crates/velum-adapter-tun/src/fake_dns.rs:96-119 | a lookup answers with a mapping exactly until its time is up, and drops exactly the mappings whose time is |
| FakeDnsAnswers.ExpiredIsRoutedAsUnmapped | crates/velum-adapter-tun/src/lib.rs:88-114 | after its expiry a fake address is routed as an unmapped one |
| FakeDnsAnswers.LiveIsRoutedByItsName | crates/velum-adapter-tun/src/lib.rs:88-114 | before it, by the remembered name and real address |
| FakeDnsAnswers.AllocatingErrors | crates/velum-adapter-tun/src/fake_dns.rs:62-65 | exactly when an allocation is refused for its generation or name, untouched |
| FakeDnsAnswers.AllocatingDropsExpired | crates/velum-adapter-tun/src/fake_dns.rs:66-94 | an allocation leaves no expired mapping but its own |
| FakeDnsAnswers.KnownIsRefreshed | crates/velum-adapter-tun/src/fake_dns.rs:67-74 | a name still mapped keeps address and place; only its time restarts |
| FakeDnsAnswers.ReplacingForgets | crates/velum-adapter-tun/src/fake_dns.rs:109-113 | a new generation resolves no old address and keeps the cursors |
| FakeDnsObject.NewFakeDnsTable | crates/velum-adapter-tun/src/fake_dns.rs:36-48 | refuses capacity zero |
| FakeDnsObject.FakeDnsTable.AllocateAddress | crates/velum-adapter-tun/src/fake_dns.rs:54-94 | the object takes exactly the modelled allocation |
| FakeDnsObject.FakeDnsTable.ResolveAddress | crates/velum-adapter-tun/src/fake_dns.rs:96-107 | the object takes exactly the modelled lookup |
| FakeDnsObject.FakeDnsTable.StartGeneration | crates/velum-adapter-tun/src/fake_dns.rs:109-113 | a new generation empties the table and keeps the cursors |
| FakeDnsObject.FakeDnsTable.DropExpired | crates/velum-adapter-tun/src/fake_dns.rs:115-119 | map and queue lose the same entries |
| FakeDnsObject.FakeDnsTable.FindAddress | crates/velum-adapter-tun/src/fake_dns.rs:121-149 | the bounded loop is the modelled search |
| UdpAssociations.UdpAssociationTable.SessionFor | crates/velum-adapter-tun/src/lib.rs:733-747 | a known flow keeps its session, a new one gets an unused id, indexes stay mutually inverse and within the limit |
| UdpAssociations.UdpAssociationTable.FlowForResponse | crates/velum-adapter-tun/src/lib.rs:750-763 | a response reaches exactly the flow on that session whose destination is its source |
| UdpAssociations.UdpAssociationTable.AllocateSession | crates/velum-adapter-tun/src/lib.rs:770-782 | terminates across the 64-bit wrap-around with the first unused non-zero id |
| UdpAssociations.UdpAssociationTable.Clear | crates/velum-adapter-tun/src/lib.rs:765-768 | empties both indexes and keeps the cursor |
| TunFlows.NewTunFlowRegistry | crates/velum-adapter-tun/src/lib.rs:786-795 | refuses a zero limit of either protocol |
| TunFlows.TunFlowRegistry.Admit | crates/velum-adapter-tun/src/lib.rs:798-931 | a flow that holds a lease is always admitted again while online; a new flow is, exactly when the leases of its protocol leave room; a refusal changes nothing |
| TunFlows.AdmittingAnswers | crates/velum-adapter-tun/src/lib.rs:798-931 | exactly who is admitted, and what the others are told |
| TunFlows.StaleLeasesFillTheRegistry | crates/velum-adapter-tun/src/lib.rs:908-931 | a limit filled by leases of dead generations refuses a new flow |
| TunFlows.ADeadLeaseRefusesANewFlow | crates/velum-adapter-tun/src/lib.rs:908-931 | a run of connect, loss and reconnect in which it happens |
| TunFlows.TunFlowRegistry.Release | crates/velum-adapter-tun/src/lib.rs:821-823 | frees exactly this flow's slot |
| TunFlows.LeasesDieWithTheirGeneration | crates/velum-adapter-tun/src/lib.rs:812-818 | after the runtime has moved to another generation, a lease of the old one is never active again |
| IpCidrs.MaskIsRoundingDown | crates/velum-client-routing/src/lib.rs:290-303 | the bit mask, including the shift by the whole width, rounds down to a power of two |
| IpCidrs.NetworksAccepted | crates/velum-client-routing/src/lib.rs:257-273 | exactly which networks are accepted, and both errors |
| IpCidrs.ContainsIsAnInterval | crates/velum-client-routing/src/lib.rs:283-288 | a network contains exactly a power-of-two interval of its family |
| IpCidrs.NestedOrDisjoint | crates/velum-client-routing/src/lib.rs:256-304 | two networks of one family that share an address are nested |
| ClientRuntimes.Lifecycle.BeginConnect | crates/velum-client-runtime/src/state.rs:78-92 | connecting starts only from Stopped or Failed, with a new generation |
| ClientRuntimes.Lifecycle.CompleteConnect | crates/velum-client-runtime/src/state.rs:94-108 | applies exactly to the connecting generation |
| ClientRuntimes.Lifecycle.BeginStop | crates/velum-client-runtime/src/state.rs:110-121 | stopping takes a new generation unless already stopped |
| ClientRuntimes.Lifecycle.CompleteStop | crates/velum-client-runtime/src/state.rs:123-129 | applies exactly to the stopping generation |
| ClientRuntimes.Lifecycle.FailOnline | crates/velum-client-runtime/src/state.rs:131-137 | applies exactly to the online generation |
| ClientRuntimes.RuntimeInner.StartWith | crates/velum-client-runtime/src/lib.rs:135-159 | publishes Connecting and remembers the task |
| ClientRuntimes.RuntimeInner.FinishConnect | crates/velum-client-runtime/src/lib.rs:161-197 | stores the client, records the failure, or closes a late client |
| ClientRuntimes.RuntimeInner.ConnectionClosed | crates/velum-client-runtime/src/lib.rs:199-207 | only the online generation loses its client and fails |
| ClientRuntimes.RuntimeInner.StopNow | crates/velum-client-runtime/src/lib.rs:210-227 | closes the client and publishes Stopping and Stopped under one lock |
| RuntimeAnswers.StartAnswers | crates/velum-client-runtime/src/lib.rs:135-159 | accepted exactly from Stopped or Failed, published as Connecting |
| RuntimeAnswers.ConnectAnswers | crates/velum-client-runtime/src/lib.rs:161-197 | exactly when a result is taken, and what becomes of a late one |
| RuntimeAnswers.DisconnectAnswers | crates/velum-client-runtime/src/lib.rs:199-207 | exactly when a lost connection fails the runtime |
| RuntimeAnswers.StopAnswers | crates/velum-client-runtime/src/lib.rs:210-227 | both snapshots a stop publishes, and the client it closes |
| ClientRuntimes.ClientFollowsPhase | crates/velum-client-runtime/src/lib.rs:135-233 | in every run a client is stored exactly while Online, a task exactly while Connecting or Online, and published revisions strictly increase |
| ClientRuntimes.NoClientLeaks | crates/velum-client-runtime/src/lib.rs:135-233 | once offline with no task left, every client ever connected is closed |
| ClientRuntimes.StaleReportsAreHarmless | crates/velum-client-runtime/src/lib.rs:166-176 | a late completion changes nothing visible and closes its client |
| ClientRuntimes.RevisionIdentifiesSnapshot | crates/velum-client-runtime/src/state.rs:139-147 | the same revision read twice means the same snapshot |
| Admission.AdmissionControl.NewSession | crates/velum-server/src/lib.rs:145-163 | a lease per session within the principal's quota |
| Admission.AdmissionControl.NewFlow | crates/velum-server/src/lib.rs:165-179 | a flow within the session's quota |
| Admission.AdmissionControl.EndFlow | crates/velum-server/src/lib.rs:181-195 | returns one flow, or fails without any |
| Admission.AdmissionControl.EndSession | crates/velum-server/src/lib.rs:197-206 | removes the session and all its flows |
| AdmissionAnswers.SessionAnswers | crates/velum-server/src/lib.rs:145-163 | a session is granted exactly below the principal's quota |
| AdmissionAnswers.FlowAnswers | crates/velum-server/src/lib.rs:165-206 | flows and sessions are granted and returned exactly as counted |
| AdmissionAnswers.ReservingAnswers | apps/velum-node/src/lib.rs:191-224 | a reservation is granted exactly to the connection's principal while quotas have room; a refusal leaves no session behind |
| AdmissionAnswers.DatagramAnswers | apps/velum-node/src/lib.rs:163-189 | a datagram binds a free connection and uses no flow |
| AdmissionAnswers.ReleasingAnswers | apps/velum-node/src/lib.rs:226-237 | a release returns one flow of its own session |
| AdmissionAnswers.ClosingAnswers | apps/velum-node/src/lib.rs:239-248 | closing returns the session with its flows |
| AdmissionSteps.SessionsAreOwned | apps/velum-node/src/lib.rs:163-248 | each live lease belongs to exactly one connection and counts its outstanding reservations |
| AdmissionSteps.QuotasHold | crates/velum-server/src/lib.rs:145-179 | per-principal and per-session quotas hold in every interleaving |
| AdmissionSteps.IgnoredResultsAreOk | apps/velum-node/src/lib.rs:212-248 | the results the connection throws away are never errors; a rollback means the flow quota is zero |
| AdmissionSteps.ClosingEverythingEmptiesTheTable | apps/velum-node/src/lib.rs:239-248 | when every connection has closed, no session is left |
| DependencyCycles.Reaches | xtask/src/architecture.rs:340-357 | finds a path only if there is one, and a failed search has explored everything it visited; terminates |
| DependencyCycles.ValidateCycles | xtask/src/architecture.rs:330-338 | reports a module exactly when a non-empty dependency path leads back to it, once each |
| DependencyCycles.CycleMembersReachThemselves | xtask/src/architecture.rs:330-338 | every module of a cycle is reported |

## Left out

- NodePoolSteps: the pool's operations are steps on values, not objects holding locks; how a lock is queued for, and fairness, are not modelled.
- AdmissionSteps: the connection's operations are steps on values for the same reason; the quota table they share is a class.
- NodePoolProgress.EveryRunComesToRest: counts a backend's answer to a start or an open as a step that can always be taken; a backend that never answers is not modelled.
- EndToEnd.EveryHonestRunCanRecover: assumes the environment acknowledges only what was delivered, because the session does not generate acknowledgements.
- ClientRuntimes.NoClientLeaks: models runs without cancellation; the abort of a connection task in `stop`, and dropping the runtime, are not modelled.
- DependencyCycles.ValidateCycles: modules are reported in an arbitrary order and without the message text; the source iterates in name order.
- FakeDnsRuns.FlowsAreRoutedByTheirName: the routing rules are an arbitrary function, so rule parsing and first-match search are not modelled.
- FakeDnsObject.FakeDnsTable.AllocateAddress: time is an unbounded number, so the panic of adding a very long TTL to a clock is not modelled.
- RequestStream.RequestsSurviveAnyChunking: requires that the JSON codec reads back what it wrote, because JSON is not modelled.
- Counter exhaustion: sequence, epoch, tick, lease and generation overflows panic in the source; class methods require room instead.
- Attachment proofs: HMAC and constant-time comparison are an arbitrary predicate; nothing cryptographic is claimed.
- Accessors and snapshots (`epoch`, `events`, `snapshot`, `buffered_len`, `generation`): plain reads.
- `DispatchError::error_code`, `TransitionPolicy::decide`, configuration validators and telemetry: single-branch facts.
- `TunFrameQueue` and packet classification: a capped queue and header parsing.
- `FileRecoveryJournal`: file system calls; its contract is the journal assumption above.
- `Authenticator` and `DestinationPolicy`: look-ups in a table of secrets and an allow list.
- Carriers, TLS, QUIC, sockets, timeouts, user interfaces and platform glue.
