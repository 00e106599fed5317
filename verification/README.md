# A verified model of KiloCenter

KiloCenter is a service center for MIOTY networks. Base stations connect to it
over BSSCI, attach endpoints over the air, and deliver messages that blueprints
decode; tenants manage their endpoints over gRPC. This project models the parts
of the service center that carry state and arithmetic, and proves what they
promise for every input and over every run.

`dafny verify dfyconfig.toml` checks the whole project (Dafny 4.11).

## Modules

- `Handshake`, `HandshakeServer`, `ConnectLog`: one base station connection. The
  step functions say what con, conCmp, error, errorAck and any other command
  leave, with every collaborator free to fail; `HandshakeServer.Session` is the
  session whose fields the handlers update, and its read loop is proved to be a
  run of the steps. `HandshakeLaws` says what each message leads to in its own
  fields, admission included.
- `Reissue`, `CommandRegistry`: the pending operations a resumed session sends
  again, for every command table that is accepted at startup.
- `Codec`: the in-place normalisation of strictly decoded JSON.
- `AttachCounter`, `AttachHandler`, `AttachLaws`, `AttachRuns`, `PendingAttaches`,
  `AttachDecisions`, `StoredAttachCounters`, `AttachServer`: the 24-bit attach counter
  under concurrent attaches, the att handler with its refusals, its transaction and
  its completion, whole connections in which any other message may use the same
  operation ID, and which attaches they decide.
- `EndpointRows`, `Pinning`, `BulkAssign`, `PinningRuns`, `PinningLaws`: device model,
  blueprint snapshot and type EUI of an endpoint through creates, masked updates and
  bulk assigns under the tenants' snapshot-only switches.
- `Buckets`, `Availability`: the time buckets of base station metrics.
- `Blueprint`, `Slug`, `UntrustedText`: component references and format IDs of a
  specification, slugs and model codes, and the cut of untrusted log text.
- `RowOwnership`, `RoleCache`, `Pagination`: which session owns a base station's
  row, the role cache, and page tokens.
- `Wrappers`, `Bytes`: shared types.

A handler that changes an object is a method of a class, tied by its `ensures` to
a function of the old state; what the program promises is proved about that
function, in the fields of the request, the state and the collaborators' answers. Where several requests interleave, each step is one event of a run and
any other steps may come between.

## Findings

- `Slug` can cut a slug right behind a hyphen. Such a slug is not its own slug,
  and `CanonicalModelCode` refuses it (`Slug.SlugNotIdempotent`;
  `Slug.SlugIdempotentExactlyWhen` gives the exact condition).
- `DisconnectIfCurrent` reads the row and then updates it by ID. Its comment
  promises that late cleanup never takes a newer session offline; a session that
  registers between the two steps is taken offline
  (`RowOwnership.ReconnectTakenOffline`, `RowOwnership.SplitIsAtomicExactlyWhen`).
- An accepted attach can lose its pending record before attCmp: the station sends an
  error for it, reuses its open ID for a det or a dlDataResCmp, or repeats the att and
  has it refused. The attCmp that follows decides nothing and closes the connection.
  `PendingAttaches.PendingMeansAwaitingExactlyWhen` gives the exact condition, and one
  lemma a run for each case; `PendingAttaches.InitiatedOnceIsNeverLost` gives a
  condition on the messages alone under which no record is lost.
- A metrics interval beyond 9223372036 seconds overflows the 64-bit bucket width,
  and availability reports less than the station was online
  (`Availability.TimeIsConservedExactlyWhen`).
- With the switch off, an update that only moves an endpoint to another model can
  leave its snapshot pinned to a blueprint of the old one
  (`Pinning.MovedEndpointLosesFit`, `Pinning.UpdateLosesFitExactlyWhen`).

## Model

| member | source | states |
|---|---|---|
| Handshake.RunKeepsInv | KC-Core/pkg/bssci/connect_handlers.go:45-203 | after every run of con, conCmp, error, errorAck, other commands and step failures the recorded steps are those of one admitted con, in order, as far as the connection got |
| Handshake.AwaitedCompletionMatchesTheOffer | KC-Core/pkg/bssci/connect_handlers.go:45-203 | while conCmp is awaited, the session's EUI, negotiated version and registration are those of one con, admitted for its EUI, certificate and tenant, conRsp carried that version, and nothing else was done |
| Handshake.PublishedOnlyAfterPersistAndRegister | KC-Core/pkg/bssci/connect_complete.go:91-116 | a session is published at most once, as the fifth step, after conRsp, persist, reclaim and register all succeeded with the offered terms |
| Handshake.FailureIsTheLastStep | KC-Core/pkg/bssci/connect_complete.go:91-116 | a failed persist or register is the last step of a connection that never became active, so it publishes nothing |
| Handshake.PollingStartsExactlyAfterTheReissue | KC-Core/pkg/bssci/connect_complete.go:20-85 | on an active connection the frames reissued are a prefix of the eligible operations of the offered session; status polling starts exactly when that is all of them, as the last step |
| Handshake.CompleteUntilClosed | KC-Core/pkg/bssci/dispatch.go:60-92 | an active connection stays complete with the same terms, whatever arrives, until it closes |
| Handshake.PreparingIsNoStep | KC-Core/pkg/bssci/connect_handlers.go:64-80 | preparing a session, refused or not, takes no step of the connection |
| Handshake.PreparedTerms | KC-Core/pkg/bssci/connect_handlers.go:64-80 | a con that is not refused prepares the terms of its own registration, version and resume answer |
| Handshake.ConnectedOffersOrRefuses | KC-Core/pkg/bssci/connect_handlers.go:45-93 | a con on a fresh connection is refused without a step, or answered with an offer made for it |
| Handshake.CompletionKeepsInv | KC-Core/pkg/bssci/connect_complete.go:46-57 | an accepted conCmp takes the steps of the offer up to the first that fails |
| HandshakeServer.Session.RejectConnect | KC-Core/pkg/bssci/dispatch.go:230-239 | an error frame that was written leaves the connection awaiting errorAck; one that was not makes it terminal and closes it |
| HandshakeServer.Session.SendError | KC-Core/pkg/bssci/dispatch.go:242-274 | only a written error registers its errorAck, and none is registered for the connect operation before the handshake completes |
| HandshakeServer.Session.ReadConnectRequest | KC-Core/pkg/bssci/connect_handlers.go:97-125 | the con fields are judged in order; the first fault refuses, and what was read before it is on the session |
| HandshakeServer.Session.AdmitStation | KC-Core/pkg/bssci/station_admission.go:16-61 | only a registered station bound to the certificate, of an allowed tenant, is admitted; the session settles on its tenant |
| HandshakeServer.Session.NegotiateSession | KC-Core/pkg/bssci/session_resume.go:17-145 | a declined or unloadable resume refuses; otherwise the session is new or resumed with its operations |
| HandshakeServer.Session.PrepareSession | KC-Core/pkg/bssci/connect_handlers.go:62-80 | reading, admission and negotiation run in order up to the first refusal |
| HandshakeServer.Session.SendConnectResponse | KC-Core/pkg/bssci/connect_handlers.go:177-203 | conRsp carries the negotiated version; completion is awaited exactly when it was written |
| HandshakeServer.Session.HandleConnect | KC-Core/pkg/bssci/connect_handlers.go:45-93 | a con leaves exactly the state and outcome of the step function, with every collaborator free to fail |
| HandshakeServer.Session.ActivateSession | KC-Core/pkg/bssci/connect_complete.go:91-116 | persist, reclaim, register, publish, index: the steps taken are those up to the first failure |
| HandshakeServer.Session.FinishHandshake | KC-Core/pkg/bssci/connect_complete.go:120-160 | capabilities, the completion mark and the reopened operations follow in that order |
| HandshakeServer.Session.ReissueResumedOperation | KC-Core/pkg/bssci/connect_complete.go:190-216 | one operation is restored first and sent only when it may resume |
| HandshakeServer.Session.ReissueResumedOperations | KC-Core/pkg/bssci/connect_complete.go:166-185 | the loop leaves the log, cache and outcome of the reissue of all operations |
| HandshakeServer.Session.ResumeStation | KC-Core/pkg/bssci/connect_complete.go:54-65 | status polling starts exactly when no frame of the reissue failed |
| HandshakeServer.Session.CompleteConnect | KC-Core/pkg/bssci/connect_complete.go:46-66 | activation, completion and reissue leave the state of the step function |
| HandshakeServer.Session.HandleConnectComplete | KC-Core/pkg/bssci/connect_complete.go:20-66 | conCmp is refused outside its state or operation ID, and otherwise activates the offered session |
| HandshakeServer.Session.HandleError | KC-Core/pkg/bssci/error_handlers.go:12-81 | an error for the offered connect closes it and retires a refused resume; any other is acknowledged and finalizes the operation |
| HandshakeServer.Session.FinalizeErroredOperation | KC-Core/pkg/bssci/error_handlers.go:62-81 | an errored operation that is tracked is compensated if its command undoes anything, and removed |
| HandshakeServer.Session.HandleErrorAck | KC-Core/pkg/bssci/error_handlers.go:85-135 | an errorAck closes a failed connect, is refused before completion, and is otherwise consumed only when awaited; it removes a service center operation its error replaced |
| HandshakeServer.Session.HandleMessage | KC-Core/pkg/bssci/dispatch.go:60-92 | before completion only handshake and error messages are dispatched, afterwards no handshake message is |
| HandshakeServer.Session.Serve | KC-Core/pkg/bssci/server.go:780-925 | the read loop leaves the state of the run of its messages |
| HandshakeLaws.ConRspMeansAdmitted | KC-Core/pkg/bssci/station_admission.go:16-61 | over every run, conRsp is the first step and sent once, for a con whose version and EUI were read, whose certificate bound the EUI, whose EUI was registered as the station the session keeps, and, under the organization policy, whose tenant was that station's |
| HandshakeLaws.ConIsAnsweredExactlyWhen | KC-Core/pkg/bssci/connect_handlers.go:45-93 | a con on a fresh connection is answered with conRsp exactly when its operation ID is 0, its fields are readable, its station is admissible in the fields of the registration, and its session is new or resumed |
| HandshakeLaws.AnsweredConLeaves | KC-Core/pkg/bssci/connect_handlers.go:64-203 | the session an answered con leaves carries the con's EUI, version, bidi flag and position, the negotiated version, the registered station and the resume answer; its tenant is settled, and conRsp is the one step |
| HandshakeLaws.RefusedConLeaves | KC-Core/pkg/bssci/connect_handlers.go:45-93 | any other con takes no step, makes no offer and leaves the connection open for the errorAck |
| HandshakeLaws.RefusedConNamesItsFault | KC-Core/pkg/bssci/connect_handlers.go:45-125 | the one error frame of a refused con names its operation ID, else its first bad field, else admission, else the resume answer |
| HandshakeLaws.RefusedConKeepsWhatItSettled | KC-Core/pkg/bssci/connect_handlers.go:97-175 | a refused con leaves on the session exactly what was read and settled before its fault |
| HandshakeLaws.UnwrittenConCloses | KC-Core/pkg/bssci/dispatch.go:230-239 | a con whose answer cannot be written takes no step and ends the connection |
| HandshakeLaws.MisplacedMessages | KC-Core/pkg/bssci/dispatch.go:60-92 | a con or conCmp that is not awaited, or an early command, is answered with an error and changes neither the session nor its steps |
| HandshakeLaws.UnansweredMisplacedMessages | KC-Core/pkg/bssci/dispatch.go:60-92 | one that cannot be answered ends the connection, but changes nothing on an active one |
| HandshakeLaws.CommandOnActiveConnection | KC-Core/pkg/bssci/dispatch.go:92-128 | another command on an active connection changes only which errorAcks are awaited, and ends it exactly when its handler fails |
| HandshakeLaws.ErrorsAreAwaited | KC-Core/pkg/bssci/dispatch.go:242-274 | the errors a handler sends are awaited, each operation with what its last error says, beside those awaited before |
| HandshakeLaws.FailedConCmpLeaves | KC-Core/pkg/bssci/connect_complete.go:91-116 | a conCmp that cannot be persisted or registered takes exactly the steps up to the failure and ends the connection |
| HandshakeLaws.AcceptedConCmpLeaves | KC-Core/pkg/bssci/connect_complete.go:20-85 | an accepted conCmp persists, reclaims, registers, publishes and indexes the offered session, records capabilities when they are kept, reopens operations exactly for a resumed session, and stays open exactly when every eligible frame was written |
| HandshakeLaws.ErrorEndsTheOffer | KC-Core/pkg/bssci/error_handlers.go:12-48 | an error for the offered connect is acknowledged if possible, retires a resume it had offered, and closes |
| HandshakeLaws.ErrorFinalizes | KC-Core/pkg/bssci/error_handlers.go:12-81 | any other error is acknowledged; a tracked operation is then compensated exactly when its command's row says so, and its record removed; without an acknowledgement nothing is undone and the connection ends |
| HandshakeLaws.ErrorAckConsumes | KC-Core/pkg/bssci/error_handlers.go:85-135 | an errorAck ends a failed connect, is refused for an unfinished one, changes nothing unawaited, and otherwise consumes its entry and removes only a service center operation whose error replaced it |
| HandshakeLaws.HandshakeCompletes | KC-Core/pkg/bssci/connect_complete.go:20-66 | an answerable con followed by a conCmp that is persisted and registered makes the connection active, with the con's EUI and registered station, and publishes its session |
| HandshakeLaws.ReissuedFramesOfARun | KC-Core/pkg/bssci/connect_complete.go:166-216 | over every run, each frame sent again is the repaired message of a resumable operation of negative ID that the connection's con had offered |
| Reissue.ReissueSendsAPrefix | KC-Core/pkg/bssci/connect_complete.go:166-216 | the frames sent are a prefix, in order, of the repaired resumable operations; the whole list exactly when no write failed |
| Reissue.ReissueRestoresAPrefix | KC-Core/pkg/bssci/connect_complete.go:190-198 | the operations restored are a prefix of the pending ones, all of them when the end was reached |
| Reissue.OnlyServiceCenterOperationsAreSent | KC-Core/pkg/bssci/connect_complete.go:199-205 | every frame sent answers to a restored operation with a negative ID whose row is resumable; no base station operation is transmitted |
| Reissue.EligibleAreTheResumable | KC-Core/pkg/bssci/connect_complete.go:166-216 | a complete reissue sends exactly the operations of negative ID whose row is resumable, in order, each with its repaired message |
| Reissue.ReissuedFramesAreRepaired | KC-Core/pkg/bssci/command_spec.go:251-269 | every frame sent is its row's normalizer applied to the message, or, without one, the message with an opId that stands for an int64 made that int64 and every other field unchanged |
| Reissue.OpIdSurvivesReissue | KC-Core/pkg/bssci/command_spec.go:251-269 | every int64 opId of a persisted operation reaches the frame sent again as the same int64 |
| Reissue.RestoredAreCached | KC-Core/pkg/bssci/connect_complete.go:194-198 | the cache holds for every restored ID the operation restored last, and for any other ID what it held |
| Handshake.RestoredOperationsAreCached | KC-Core/pkg/bssci/connect_complete.go:166-216 | right after the conCmp that activates a connection the cache holds every operation it restored, each ID its last one |
| Handshake.OnlyConCmpCompletes | KC-Core/pkg/bssci/connect_complete.go:20-66 | only an awaited conCmp that was persisted and registered completes the handshake |
| Reissue.ReissueStep | KC-Core/pkg/bssci/connect_complete.go:179-216 | the first operation is restored; a failed write ends the reissue there, otherwise the rest follows |
| CommandRegistry.NewCommandRegistry | KC-Core/pkg/bssci/command_spec.go:173-193 | a table is accepted exactly when its commands are distinct, known and of a fitting role; the fault is that of the first row that is not |
| CommandRegistry.AcceptedExactlyWhen | KC-Core/pkg/bssci/command_spec.go:173-193 | a table is accepted exactly when its commands are distinct, have a direction and a role, and the role is the service center's exactly for the commands it alone sends |
| CommandRegistry.RefusedRowNamesItsFault | KC-Core/pkg/bssci/command_spec.go:173-193 | the fault of a row names its command, as a duplicate, for its missing direction, or for its role, in that order |
| CommandRegistry.ResumableMeansTheRowSaysSo | KC-Core/pkg/bssci/command_spec.go:233-239 | for every accepted table an operation is resumable exactly when its ID is negative and its command's row says so |
| CommandRegistry.RegistryIsUnique | KC-Core/pkg/bssci/command_spec.go:173-198 | registries of the same rows are equal in whatever order the rows were listed |
| Codec.NormalizeMap | KC-Core/pkg/bssci/codec.go:221-226 | the pass over a decoded object yields its normal form |
| Codec.NormalizeValue | KC-Core/pkg/bssci/codec.go:228-254 | the recursive pass yields the normal form of any decoded value |
| Codec.NormalizedKeepsShape | KC-Core/pkg/bssci/codec.go:228-254 | the normal form has a value at exactly the paths of the tree, the normal form of the value there |
| Codec.IntegersStayExact | KC-Core/pkg/bssci/codec.go:230-240 | every integer leaf in [-2^63, 2^64), at any path, keeps its exact value; it is a double up to 2^53 and a 64-bit integer beyond |
| Codec.OtherLeavesKeepTheirValue | KC-Core/pkg/bssci/codec.go:228-254 | any other token at any path becomes its nearest double or stays exact, and every leaf that is no token stays as it is |
| Codec.NormalizedIsIdempotent | KC-Core/pkg/bssci/codec.go:214-226 | a second pass changes nothing |
| Codec.NormalizeOpIdOnly | KC-Core/pkg/bssci/command_spec.go:260-269 | the copy differs from the message only in an opId that had become a double |
| Codec.DoubleOpIdIsTruncated | KC-Core/pkg/bssci/command_spec.go:260-269 | a double opId becomes the integer next to it towards zero while an int64 holds that, and beyond what the platform converts it to |
| Codec.OpIdSurvivesResume | KC-Core/pkg/bssci/command_spec.go:258-269 | every int64 opId survives persisting, decoding and reissue as the same int64, and no other field changes |
| AttachCounter.AcceptedCountersIncrease | KC-Core/pkg/bssci/attach_handlers.go:592-599 | under any interleaving of read checks and persists the accepted counters strictly increase in (epoch, counter) order, an epoch turns only across the window, and none holds more than max + 1 attaches |
| AttachCounter.ChainOrders | KC-Core/pkg/bssci/attach_handlers.go:592-599 | counters that each advance their predecessor are ordered by epoch and counter |
| AttachCounter.ChainIncreases | KC-Core/pkg/bssci/attach_handlers.go:592-599 | within an epoch counters grow by at least their distance |
| AttachCounter.RunKeepsInv | KC-Core/pkg/bssci/attach_handlers.go:307-314 | every interleaving keeps the stored counter the last accepted one |
| AttachCounter.RepeatNeedsRollover | KC-Core/pkg/bssci/attach_handlers.go:592-599 | a counter is stored again, or undercut, only across a rollover between the two |
| AttachCounter.CountingDeviceAdvances | KC-Core/pkg/bssci/attach_handlers.go:592-599 | a device that counts modulo the field width is never locked out |
| AttachCounter.AdvancesExactlyWhen | KC-Core/pkg/bssci/attach_handlers.go:592-599 | a counter is refused exactly when accepting it would start an epoch elsewhere than across the window; no jump ahead is refused |
| AttachCounter.SerialAttach | KC-Core/pkg/bssci/attach_handlers.go:592-599 | an attach no other comes between is accepted exactly when it commits and its counter fits 24 bits and is the first, higher, or both sides of the window; it then is the stored one |
| AttachHandler.AfterAtt | KC-Core/pkg/bssci/attach_handlers.go:66-471 | every att is answered by exactly one frame, for its own operation, when the frame can be written |
| AttachHandler.AttRspMeansVerified | KC-Core/pkg/bssci/attach_handlers.go:297-336 | attRsp is sent only after the counter advanced what was read and what the row lock read, and the signature validated |
| AttachHandler.AttRspMeansPersisted | KC-Core/pkg/bssci/attach_handlers.go:386-471 | attRsp is sent only for a persisted session with the att's counter, signature and derived key, and nothing else of any endpoint changed; its key is 16 bytes, the session key's and zeros behind them, and it carries the assigned short address exactly when none was reported |
| AttachHandler.RefusalLeavesStored | KC-Core/pkg/bssci/attach_handlers.go:397-420 | a refused att changes no stored counter or session |
| AttachHandler.RefusalLeavesNothingPending | KC-Core/pkg/bssci/attach_handlers.go:602-608 | a refused att leaves the records as they were, or its own taken back |
| AttachRuns.RunDecidesOnce | KC-Core/pkg/bssci/attach_handlers.go:474-528 | over every run, whatever arrives under any operation ID and whatever fails, operations complete at most once and no operation is decided twice |
| AttachRuns.AfterStaysSequenced | KC-Core/pkg/bssci/dispatch.go:309-353 | no message reopens a completed operation |
| AttachLaws.AcceptedUnlessRefused | KC-Core/pkg/bssci/attach_handlers.go:233-420 | an att is answered with attRsp exactly when it is recorded and roaming, key, counter, signature and transaction all pass |
| AttachLaws.CounterIsJudged | KC-Core/pkg/bssci/attach_handlers.go:584-599 | the counter rule refuses exactly a counter that neither exceeds nor rolls over the one a signed attach stored |
| AttachLaws.MalformedAttNamesItsFault | KC-Core/pkg/bssci/attach_handlers.go:66-230 | an att out of sequence, or with a missing or invalid field, is answered with the error of its operation ID or of the first such field |
| AttachLaws.RefusedAttNamesItsFault | KC-Core/pkg/bssci/attach_handlers.go:233-420 | a well-formed att that is refused is answered with the error of the first exit that refuses it: owner, endpoint, record, roaming, key length, counter, signature, or the transaction |
| AttachLaws.RecordsAfterAtt | KC-Core/pkg/bssci/attach_handlers.go:250-420 | what an att leaves recorded: nothing new unless it is recorded; a refused one is taken back, and its record stays only if that fails; any other has the record of its EUI, counter and endpoint |
| AttachLaws.RecordsAfter | KC-Core/pkg/bssci/detach_handlers.go:281-320 | the records after every other message, whatever fails: a det may record its own, a completion removes the one it completes, a dlDataResCmp and an acknowledged error whatever is under their ID |
| AttachLaws.OpenOperationsAfter | KC-Core/pkg/bssci/session.go:84-111 | the open operations and the newest ID after any message: opened in sequence, closed by their completion or an error exchange, and otherwise unchanged |
| AttachLaws.ConnectionEndsExactlyWhen | KC-Core/pkg/bssci/dispatch.go:309-353 | a connection ends exactly on a broken ID sequence, a completion without its record, an answer that cannot be written, or when it is lost |
| PendingAttaches.PendingAfter | KC-Core/pkg/bssci/attach_handlers.go:250-528 | an attach is pending after a message exactly when the message is its accepted att, or it was pending and the message neither completes it nor takes its record |
| PendingAttaches.DetachPendingAfter | KC-Core/pkg/bssci/detach_handlers.go:281-294 | a detach is pending after a message exactly when the message records it, or it was pending and the message neither completed, replaced nor took it |
| PendingAttaches.RunKeepsPendingAnswered | KC-Core/pkg/bssci/attach_handlers.go:250-528 | over every run whose sends and removals succeed, resumed attaches included, an attach is pending exactly when it was answered and no message since completed it or took its record |
| PendingAttaches.PendingMeansAwaitingExactlyWhen | KC-Core/pkg/bssci/attach_handlers.go:250-528 | pending means attRsp sent and attCmp outstanding, except exactly when after its last answer an error, a recorded det or a dlDataResCmp under the open ID, or an att recorded there and refused took the record |
| PendingAttaches.InitiatedOnceIsNeverLost | KC-Core/pkg/bssci/session.go:84-111 | an operation under whose ID one att and no error, det or dlDataResCmp arrives is pending exactly when attRsp was sent and attCmp has not arrived |
| PendingAttaches.CompletionWithoutRecordFails | KC-Core/pkg/bssci/attach_handlers.go:474-488 | the attCmp of an attach that is not pending decides nothing and ends the connection |
| AttachDecisions.AnsweredAttIsRecorded | KC-Core/pkg/bssci/attach_handlers.go:250-300 | an answered att leaves under its open ID the record of its EUI, its counter, and the ID and owner of the endpoint stored when it arrived, and no other record changes |
| AttachDecisions.RecordStays | KC-Core/pkg/bssci/attach_handlers.go:250-528 | a record stays as it is through every message but those that answer its attach anew, complete it or take it |
| AttachDecisions.AnsweredAttachIsDecided | KC-Core/pkg/bssci/attach_handlers.go:474-528 | over every run, the attCmp of an attach last answered at event k, and neither completed nor taken since, appends exactly one decision, with that att's EUI and the ID and owner of the endpoint stored when event k arrived, or none when that ID is not positive or the EUI is zero |
| AttachDecisions.ResumedAttachIsDecided | KC-Core/pkg/bssci/attach_handlers.go:474-528 | a resumed attach that nothing answered, completed or took since is decided from the record its session resumed |
| AttachDecisions.DecidedByItsCompletion | KC-Core/pkg/bssci/attach_handlers.go:474-528 | whatever fails, a message decides nothing unless it is the attCmp of an open operation with an attach record, which it decides from that record |
| AttachDecisions.OnlyAnsweredAttachesAreDecided | KC-Core/pkg/bssci/attach_handlers.go:474-528 | over every run, every decision is that of an attach answered before and completed later, with nothing between that answered it anew, completed it or took its record |
| AttachDecisions.CompletedAttachIsDecided | KC-Core/pkg/bssci/attach_handlers.go:517-524 | an accepted att and its attCmp leave one decision, and nothing open or pending |
| PendingAttaches.ErrorLosesPending | KC-Core/pkg/bssci/error_handlers.go:62-81 | a run in which the station's error takes the record of an accepted attach |
| PendingAttaches.DetLosesPending | KC-Core/pkg/bssci/detach_handlers.go:281-294 | a run in which a det under the open ID replaces the record |
| PendingAttaches.ResultCompletionLosesPending | KC-Core/pkg/bssci/downlink_result_handlers.go:102-114 | a run in which a dlDataResCmp under the open ID removes the record |
| PendingAttaches.RepeatedAttLosesPending | KC-Core/pkg/bssci/attach_handlers.go:307-314 | a run in which a repeated att, refused as stale, takes back the record of the accepted one |
| StoredAttachCounters.StoredCountersIncrease | KC-Core/pkg/bssci/attach_handlers.go:307-420 | over every run, attaches other stations bring included, the counters stored for an endpoint increase in (epoch, counter) order, turn only across the window, and the last of them binds the next attach |
| StoredAttachCounters.AnsweredCountersAreStored | KC-Core/pkg/bssci/attach_handlers.go:397-420 | a counter answered with attRsp is the last one its event stored |
| AttachServer.Connection.HandleAttach | KC-Core/pkg/bssci/attach_handlers.go:66-471 | the handler, with its refusal exits in order, leaves the state of the step function |
| AttachServer.Connection.JudgeRecorded | KC-Core/pkg/bssci/attach_handlers.go:264-336 | the checks of a recorded att, in order, give the verdict of the specification |
| AttachServer.Connection.PersistAndAnswer | KC-Core/pkg/bssci/attach_handlers.go:397-471 | the transaction's outcome decides between attRsp and taking the record back |
| AttachServer.Connection.RefuseRecorded | KC-Core/pkg/bssci/attach_handlers.go:602-608 | a refusal after recording takes the pending operation back, if that succeeds, and sends one error |
| AttachServer.Connection.StartOperation | KC-Core/pkg/bssci/session.go:84-99 | an open operation may be initiated again, a new one needs a higher positive ID, and anything else ends the connection |
| AttachServer.Connection.CompleteOperation | KC-Core/pkg/bssci/session.go:101-111 | a completion closes its open operation, and without one it ends the connection |
| AttachServer.Connection.ReceiveAtt | KC-Core/pkg/bssci/dispatch.go:333-341 | an att in sequence reaches its handler, any other ends the connection |
| AttachServer.Connection.ReceiveAttCmp | KC-Core/pkg/bssci/attach_handlers.go:474-528 | attCmp completes an open operation, removes its record and decides its endpoint; without an attach record it fails and ends the connection |
| AttachServer.Connection.ReceiveDet | KC-Core/pkg/bssci/detach_handlers.go:281-294 | what det records goes under its operation's ID |
| AttachServer.Connection.ReceiveDetCmp | KC-Core/pkg/bssci/detach_handlers.go:383-420 | detCmp removes a detach record and fails on any other |
| AttachServer.Connection.ReceiveResultCmp | KC-Core/pkg/bssci/downlink_result_handlers.go:102-122 | dlDataResCmp removes whatever is recorded under its ID |
| AttachServer.Connection.ReceiveError | KC-Core/pkg/bssci/error_handlers.go:12-81 | an error ends the operation and, once acknowledged, removes its record |
| AttachServer.Connection.Serve | KC-Core/pkg/bssci/server.go:780-935 | the connection's messages in turn leave the state of their run |
| Pinning.Updated | KC-Core/internal/grpc/handlers_endpoint.go:584-619 | a masked update keeps the owner, removes no snapshot, and leaves the snapshot's type EUI whatever the mask named |
| Pinning.Created | KC-Core/internal/grpc/handlers_endpoint.go:299-410 | a create leaves a snapshot unless the switch is off, with the snapshot's type EUI |
| Pinning.PinnedFits | KC-Core/internal/grpc/mappers.go:108-126 | pinning a blueprint leaves a snapshot that names it, its model and its type EUI, whatever the row was |
| Pinning.CreateFits | KC-Core/internal/grpc/handlers_endpoint_snapshot_only.go:17-95 | in either mode a create leaves a snapshot that fits the model, if it leaves one |
| Pinning.RetriggerLosesFitExactlyWhen | KC-Core/internal/grpc/handlers_endpoint_snapshot_only.go:35-57 | the trigger loses the fit of a snapshot exactly when the switch is off and the row only moved to a model without a matching default |
| Pinning.UpdateLosesFitExactlyWhen | KC-Core/internal/grpc/handlers_endpoint.go:584-619 | a successful update leaves a fitting snapshot unfitting exactly when the owner's switch is off and the request only moves the endpoint off its model |
| Pinning.MovedEndpointLosesFit | KC-Core/internal/grpc/handlers_endpoint_snapshot_only.go:35-57 | with the switch off, an update that only moves a pinned endpoint to a model without a default, or off every model, succeeds and leaves it pinned to a blueprint of the old one |
| PinningLaws.UpdatePinsSelection | KC-Core/internal/grpc/handlers_endpoint_snapshot_only.go:35-70 | an update that selects a blueprint other than the pinned source succeeds exactly when its fields apply, the blueprint loads and serializes and, under the switch, request and endpoint name its model; the endpoint is then exactly the row pinned to that blueprint |
| PinningLaws.UpdateKeepsPin | KC-Core/internal/grpc/handlers_endpoint_snapshot_only.go:35-39 | an update that neither selects nor moves succeeds exactly when its fields apply, and changes nothing but the type EUI, which is the snapshot's, else the model's, else the masked one |
| PinningLaws.UpdateMovesModel | KC-Core/internal/grpc/handlers_endpoint_snapshot_only.go:47-95 | an update that only moves the model succeeds exactly when the new model's default is pinnable or not needed, and off every model only without the switch; a needed default is pinned, else model and type EUI change and the snapshot stays |
| PinningLaws.UpdatePinsInput | KC-Core/internal/grpc/handlers_endpoint.go:584-604 | an update with a specification succeeds exactly when that stands alone, is valid, names a type EUI and serializes and the masked fields are valid; the endpoint then leaves its model and carries that snapshot |
| PinningLaws.CreatePinsSelection | KC-Core/internal/grpc/handlers_endpoint_snapshot_only.go:17-24 | in either mode a create that selects a blueprint is pinned to it, exactly when it is pinnable and, under the switch, of the requested model |
| PinningLaws.CreatePinsDefault | KC-Core/internal/grpc/handlers_endpoint_snapshot_only.go:25-32 | any other create without a specification needs a model with a pinnable default under the switch and is pinned to it; without the switch it bears no snapshot |
| PinningLaws.CreatePinsInput | KC-Core/internal/grpc/handlers_endpoint.go:299-410 | a create with a specification succeeds exactly when that is pinnable and the fields are valid, and is off every model with that snapshot |
| PinningLaws.RefusedUpdateNamesItsFault | KC-Core/internal/grpc/handlers_endpoint.go:584-619 | a refused update names the first of its specification, its fields, its model, the switch and its pin that is wrong |
| PinningLaws.RefusedCreateNamesItsFault | KC-Core/internal/grpc/handlers_endpoint.go:299-410 | a refused create names the first of its fields, its specification, its model, the switch and its pin that is wrong |
| PinningLaws.CreateIsStoredExactlyWhen | KC-Core/internal/grpc/handlers_endpoint.go:404-410 | a create is stored exactly when it succeeds, its EUI is new and the store writes it; no other row changes |
| PinningLaws.UpdateIsSavedExactlyWhen | KC-Core/internal/grpc/handlers_endpoint.go:532-564 | an update is saved exactly when its endpoint is found, its mask is not empty, supported and free of repeats, it succeeds and the store writes it; no other row changes |
| PinningLaws.SelectionLasts | KC-Core/internal/grpc/handlers_endpoint_snapshot_only.go:35-70 | over every run, an endpoint stays pinned to the blueprint its saved update selected until a request names its blueprint, model or specification again or bulk-assigns it |
| Pinning.EndPoint.PinInputSnapshot | KC-Core/internal/grpc/handlers_endpoint_blueprint_input.go:45-49 | an input snapshot clears the model and brings its own type EUI |
| Pinning.EndPoint.PinBlueprint | KC-Core/internal/grpc/mappers.go:108-126 | model, snapshot and type EUI are overwritten together |
| Pinning.EndPoint.ApplyBlueprintSnapshot | KC-Core/internal/grpc/mappers.go:80-105 | a blueprint is pinned by its ID, or the fault says why it could not be loaded |
| Pinning.EndPoint.PinSelectedBlueprint | KC-Core/internal/grpc/handlers_endpoint_snapshot_only.go:60-70 | a selected blueprint is pinned; under the switch it must be of the requested model |
| Pinning.EndPoint.PinModelDefault | KC-Core/internal/grpc/handlers_endpoint_snapshot_only.go:73-95 | the model's default is pinned; without one only the switch refuses |
| Pinning.EndPoint.PinOnCreate | KC-Core/internal/grpc/handlers_endpoint_snapshot_only.go:17-32 | a create pins the selected blueprint, the model's default, or nothing while the switch is off |
| Pinning.EndPoint.ApplySnapshotTrigger | KC-Core/internal/grpc/handlers_endpoint_snapshot_only.go:35-57 | a snapshot-bearing row follows a selection or a change of model |
| Pinning.EndPoint.ApplyMaskedFields | KC-Core/internal/grpc/handlers_endpoint.go:749-806 | only masked fields change, and a malformed type EUI refuses |
| Pinning.EndPoint.ResolveDeviceModel | KC-Core/internal/grpc/handlers_endpoint.go:808-831 | a masked model is resolved in the tenant or cleared |
| Pinning.EndPoint.NormalizeTypeEuiFromModel | KC-Core/internal/grpc/handlers_endpoint.go:834-849 | a model that resolves a type EUI overrides the row's |
| Pinning.EndPoint.ApplyUpdate | KC-Core/internal/grpc/handlers_endpoint.go:584-619 | the helpers run in the order whose result the update function describes |
| Pinning.CreateEndPoint | KC-Core/internal/grpc/handlers_endpoint.go:272-432 | a created endpoint is the row of the create function, or its fault |
| Pinning.ValidateUpdateMask | KC-Core/internal/grpc/handlers_endpoint.go:675-689 | a mask is accepted exactly when its paths are supported and distinct; the fault is that of the first path that is not |
| BulkAssign.LoadedIsWhatTheStoreHolds | KC-Core/internal/grpc/handlers_blueprint.go:613-628 | loading fails exactly when the store fails for one target, and otherwise yields exactly the targets it holds |
| BulkAssign.RefusedExactlyWhen | KC-Core/internal/grpc/handlers_blueprint.go:631-658 | the check refuses exactly when a target's switch cannot be read, or is on and the target is not of the blueprint's model; the memo of owners agrees with reading each switch |
| BulkAssign.WrittenPins | KC-Core/internal/grpc/handlers_blueprint.go:595-610 | the writes change no row but loaded snapshot-bearing ones, which are pinned to the blueprint |
| BulkAssign.BulkAssignOutcome | KC-Core/internal/grpc/handlers_blueprint.go:587-610 | a refusal writes nothing; on success every loaded target with a snapshot is pinned to the blueprint and its model, the rest are unchanged, and the count is the number of snapshot-bearing entries |
| PinningLaws.BulkSucceedsExactlyWhen | KC-Core/internal/grpc/handlers_blueprint.go:587-610 | a bulk assign succeeds exactly when no read fails, every target found whose owner's switch is on has the blueprint's model, and, if one bears a snapshot, the blueprint is pinnable and every write succeeds |
| BulkAssign.CheckedTargetsHaveTheModel | KC-Core/internal/grpc/handlers_blueprint.go:631-658 | every checked target under the switch already has the blueprint's model |
| BulkAssign.EndpointStore.LoadTargets | KC-Core/internal/grpc/handlers_blueprint.go:613-628 | the endpoints loaded hold the rows of the targets, in order |
| BulkAssign.EndpointStore.RefuseOtherModelTargets | KC-Core/internal/grpc/handlers_blueprint.go:631-658 | the memoised loop answers as the check without a memo does |
| BulkAssign.EndpointStore.RematerializeSnapshots | KC-Core/internal/grpc/handlers_blueprint.go:587-610 | load, check and write leave the rows and count of the bulk assign function |
| PinningRuns.RunKeepsSnapshots | KC-Core/internal/grpc/handlers_endpoint.go:584-619 | in either mode, over every run of creates, updates and bulk assigns, no snapshot is removed and no endpoint changes owner |
| PinningRuns.RunFollowsSnapshots | KC-Core/internal/grpc/handlers_endpoint.go:605-619 | in either mode, over every run, an endpoint whose snapshot carries a valid type EUI has exactly that type EUI |
| PinningRuns.RunUnderSnapshotOnly | KC-Core/internal/grpc/handlers_endpoint_snapshot_only.go:17-95 | while an owner's switch stays on, every endpoint created for the owner bears a snapshot and every snapshot fits its device model |
| PinningRuns.StepStaysConsistent | KC-Core/internal/grpc/handlers_endpoint_snapshot_only.go:17-95 | one operation under the switch keeps every snapshot of the owner fitting, whatever other tenants do |
| PinningRuns.Serve | KC-Core/internal/grpc/handlers_endpoint.go:532-564 | a served request leaves the store of the step function; a refused create or update leaves it as it was |
| Buckets.AcceptedRequestsAreCovered | KC-Core/internal/grpc/handlers_basestation.go:248-286 | the buckets of an accepted request number 1 to 10000, cover the window, and each meets it |
| Buckets.RefusedCoversAreTooLong | KC-Core/internal/grpc/handlers_basestation.go:259-265 | a well-formed request is refused exactly when 10000 buckets from its first do not reach its end |
| Buckets.AcceptedExactlyWhen | KC-Core/internal/grpc/handlers_basestation.go:251-268 | a request is accepted exactly when its interval is positive and its window, from the epoch on and ending a second after it or later, is not empty and ends within 10000 buckets of its first |
| Buckets.NoBucketsExactlyWhen | KC-Core/internal/grpc/handlers_basestation.go:279-286 | a window needs no bucket exactly when it ends before its first one begins |
| Buckets.QuotientRoundsTowardsZero | KC-Core/internal/grpc/handlers_basestation.go:279-286 | division truncates, so a sign only changes the quotient's sign |
| Buckets.FloorsCompose | KC-Core/internal/grpc/handlers_basestation.go:279-291 | rounding down to seconds and then to buckets finds the aligned bucket of the instant |
| Buckets.DenseSumsToTheTotal | KC-Core/internal/grpc/handlers_basestation.go:295-305 | a dense array that agrees with the sparse counts adds up to exactly what they hold in the range |
| Buckets.DensifyMessageBuckets | KC-Core/internal/grpc/handlers_basestation.go:295-305 | the dense array agrees with the sparse map at every index and adds up to its total over the range |
| Availability.ComputeAvailabilityBuckets | KC-Core/internal/grpc/handlers_basestation.go:310-344 | every bucket reports the clamped fraction of the overlaps of all intervals with it |
| Availability.OnlineSeconds | KC-Core/internal/grpc/handlers_basestation.go:325-332 | the inner loop adds up the overlaps of all intervals with a bucket |
| Availability.OnlineSplits | KC-Core/internal/grpc/handlers_basestation.go:347-360 | splitting a span of time splits the time online in it, for any intervals |
| Availability.OnlineCountsInstants | KC-Core/internal/grpc/handlers_basestation.go:310-360 | the time online is, instant by instant, the number of intervals connected then, an active one until now |
| Availability.BucketsConserveTime | KC-Core/internal/grpc/handlers_basestation.go:310-344 | while the width fits a 64-bit Duration the buckets' overlaps add up to the overlap with the aligned window |
| Availability.TimeIsConservedExactlyWhen | KC-Core/internal/grpc/handlers_basestation.go:318-323 | the buckets conserve time for all intervals exactly when interval times 10^9 fits a 64-bit Duration |
| Availability.WideBucketsLoseTime | KC-Core/internal/grpc/handlers_basestation.go:318-323 | with a wider bucket a station that was online throughout loses time |
| Availability.DisjointNeverExceeds | KC-Core/internal/grpc/handlers_basestation.go:347-360 | disjoint intervals are never online longer than the time that passes |
| Availability.ClampsChangeNothing | KC-Core/internal/grpc/handlers_basestation.go:334-341 | for disjoint intervals no clamp changes a value |
| Availability.FractionIsExactUpToFull | KC-Core/internal/grpc/handlers_basestation.go:334-341 | a bucket reports its time exactly up to its width and is full exactly from there on |
| Availability.FractionsSumToTheTimeOnline | KC-Core/internal/grpc/handlers_basestation.go:310-344 | for disjoint intervals the reported fractions times the width add up to the exact time online in the aligned window |
| Blueprint.ResolveFormat | KC-Core/pkg/blueprint/types.go:222-251 | one format is merged component by component up to the first undefined reference |
| Blueprint.ResolveList | KC-Core/pkg/blueprint/types.go:222-254 | a list is merged exactly when every reference is defined; otherwise it stops at the first that is not, with the rest untouched |
| Blueprint.Spec.ResolveComponents | KC-Core/pkg/blueprint/types.go:217-261 | succeeds exactly when there are no definitions or every reference has one, uplink before downlink; a failure names the first undefined reference and what it left |
| Blueprint.ResolvedComponents | KC-Core/pkg/blueprint/types.go:217-261 | after a successful resolution every position holds a component as before: one that references a definition is complete with it, any other is untouched |
| Blueprint.OnlyReferencedDefinitionsMatter | KC-Core/pkg/blueprint/types.go:217-261 | definitions no component references change neither whether a list resolves nor to what |
| Blueprint.ResolvesExactlyWhen | KC-Core/pkg/blueprint/types.go:217-261 | formats resolve exactly when every key a component references has a definition |
| Blueprint.ResolvingAgainChangesNothing | KC-Core/pkg/blueprint/types.go:213-261 | resolving again changes nothing and keeps every reference defined |
| Blueprint.ResolutionKeepsLookups | KC-Core/pkg/blueprint/types.go:217-261 | resolution changes no format ID: duplicates stay as they were and a lookup finds the resolved format |
| Blueprint.FindDuplicate | KC-Core/pkg/blueprint/types.go:387-396 | the loop finds the first repeated ID, or there is none |
| Blueprint.Spec.Validate | KC-Core/pkg/blueprint/types.go:375-411 | accepts exactly the valid specifications, and names the first check that fails |
| Blueprint.FindFormat | KC-Core/pkg/blueprint/types.go:353-371 | the scan finds what a lookup by ID finds |
| Blueprint.LookupIsTheFirst | KC-Core/pkg/blueprint/types.go:353-371 | a lookup finds the first format with the ID, or no format has it |
| Blueprint.LookupFindsTheOne | KC-Core/pkg/blueprint/types.go:353-371 | where IDs are distinct a lookup finds the one format with the ID |
| Blueprint.Spec.GetUplinkFormat | KC-Core/pkg/blueprint/types.go:353-360 | looks in the uplink formats |
| Blueprint.Spec.GetDownlinkFormat | KC-Core/pkg/blueprint/types.go:364-371 | looks in the downlink formats |
| Blueprint.ParseAndValidate | KC-Core/pkg/blueprint/types.go:266-296 | the specification returned is resolved and valid, so its IDs are distinct in each direction |
| Slug.DeriveSlug | KC-Core/pkg/blueprint/naming.go:36-51 | the replace loop ends and yields the slug of the name |
| Slug.HalvedKeepsRuns | KC-Core/pkg/blueprint/naming.go:40-42 | a replace pass keeps the hyphen runs and shrinks exactly the strings with a double hyphen |
| Slug.SlugJoinsTheWords | KC-Core/pkg/blueprint/naming.go:36-51 | the slug is made of the name between its outer white space, character by character: the words that leaves, joined by single hyphens and cut to 64 characters, or "model" when there are none |
| Slug.KeptInOnePass | KC-Core/pkg/blueprint/naming.go:36-40 | lowering, hyphenating spaces and stripping in turn keep what one pass over the characters keeps |
| Slug.SlugShape | KC-Core/pkg/blueprint/naming.go:36-51 | 1 to 64 characters of [a-z0-9-], none leading, no two hyphens together; only the cut leaves one at the end |
| Slug.SlugIdempotentExactlyWhen | KC-Core/pkg/blueprint/naming.go:44-46 | a slug is its own slug exactly when the cut left no hyphen at its end; a second derivation settles it |
| Slug.SlugIsAModelCodeExactlyWhen | KC-Core/pkg/blueprint/naming.go:54-65 | a slug is a model code unchanged exactly when the cut left no hyphen at its end, and is refused otherwise |
| Slug.SlugNotIdempotent | KC-Core/pkg/blueprint/naming.go:44-46 | a concrete name whose slug is neither its own slug nor a model code |
| Slug.CanonicalModelCode | KC-Core/pkg/blueprint/naming.go:54-65 | a code is accepted exactly when, trimmed and in lower case, it is 1 to 64 slug characters without a hyphen at either end; the check for two dots refuses nothing more |
| Slug.CanonicalCodesStay | KC-Core/pkg/blueprint/naming.go:54-65 | a code is accepted unchanged exactly when it has that shape, and an accepted code is accepted again as it is |
| UntrustedText.WithoutPartialTrailingRune | pkg/logger/untrusted.go:20-30 | drops the beginning of a rune the end of the text splits, and nothing else |
| UntrustedText.FullRuneUnlessSplit | pkg/logger/untrusted.go:22-25 | the rune scan tells exactly the texts that are the beginning of one rune |
| UntrustedText.UntrustedValue | pkg/logger/untrusted.go:11-16 | a value that fits is quoted whole, any other after the cut |
| UntrustedText.CutIsTheLongestWholePrefix | pkg/logger/untrusted.go:11-30 | of a valid text the cut keeps the longest prefix within the limit that ends between two runes, valid and at most three bytes short |
| UntrustedText.CutLosesAtMostThree | pkg/logger/untrusted.go:18-30 | of arbitrary bytes the cut keeps a prefix at most three bytes short |
| RowOwnership.ConnectionManager.StoreStatus | KC-Core/pkg/basestation/repository_adapter.go:155-183 | a status write keeps the owner unless it carries a session ID |
| RowOwnership.ConnectionManager.UpdateConnectionStatus | KC-Core/pkg/basestation/connection_manager.go:132-149 | a status update writes the row and records one event for it |
| RowOwnership.ConnectionManager.UpdateLastSeen | KC-Core/pkg/basestation/connection_manager.go:108-129 | activity brings the row online without changing its owner and records no event |
| RowOwnership.ConnectionManager.DisconnectIfCurrent | KC-Core/pkg/basestation/repository_adapter.go:189-210 | acts exactly when the row is the session's own and the store answers |
| RowOwnership.ConnectionManager.DisconnectBaseStationIfCurrent | KC-Core/pkg/basestation/connection_manager.go:155-169 | records an event only for a disconnect that acted |
| RowOwnership.ConnectionManager.Serve | KC-Core/pkg/basestation/connection_manager.go:108-169 | operations in turn leave the rows and events of their run |
| RowOwnership.OperationLeaves | KC-Core/pkg/basestation/repository_adapter.go:155-210 | every field of the row and every event one operation leaves: an update writes its status, activity only keeps the row online, and a disconnect takes offline only its own session's row |
| RowOwnership.EventsFollowTheOperations | KC-Core/pkg/basestation/connection_manager.go:108-169 | the events of a run are those its operations recorded, in order |
| RowOwnership.RowBelongsToTheLastRegistration | KC-Core/pkg/basestation/repository_adapter.go:174-182 | over every serial run a row's session is the one registered last |
| RowOwnership.ForeignDisconnectDoesNothing | KC-Core/pkg/basestation/connection_manager.go:151-169 | a disconnect by any other session changes no row and records no event |
| RowOwnership.OnlineExactlyAfterAnOnlineWrite | KC-Core/pkg/basestation/connection_manager.go:108-169 | a row is online exactly when the last status write was activity or an online update; it is offline only after an explicit offline update or its owner's disconnect |
| RowOwnership.SplitIsAtomicExactlyWhen | KC-Core/pkg/basestation/repository_adapter.go:185-210 | reading first and updating later is the conditional transition exactly when the last registration in between, if any, is the disconnecting session's own |
| RowOwnership.ReconnectTakenOffline | KC-Core/pkg/basestation/repository_adapter.go:185-210 | a reconnect that registers between the read and the update is taken offline |
| RoleCache.KeyIsInjective | KC-Core/internal/grpc/role_source.go:48-63 | requests share a key only when organization, kind and principal are the same |
| RoleCache.RequestNamesTheCaller | KC-Core/internal/grpc/role_source.go:48-63 | roles are asked for the signed-in user, without one for its service account, and for no one else |
| RoleCache.RequestLeaves | KC-Core/internal/grpc/role_source.go:65-93 | one undisturbed request leaves a hit alone, drops a stale entry on a failure, and otherwise caches its answer for the TTL |
| RoleCache.CacheHoldsTheLastAnswers | KC-Core/internal/grpc/role_source.go:65-93 | under any interleaving the entry of a request is the last answer stored for it, and present exactly when none deleted it since |
| RoleCache.HitsAreRecentAnswers | KC-Core/internal/grpc/role_source.go:70-76 | a load is answered exactly when the last answer stored for that same caller is younger than the TTL, and with that answer |
| RoleCache.FailuresAreNeverCached | KC-Core/internal/grpc/role_source.go:83-91 | a failed lookup leaves every entry as it was, wherever it falls among other steps |
| RoleCache.IdentityRoleSource.Resolve | KC-Core/internal/grpc/role_source.go:65-93 | one request leaves the cache of its own steps and answers from the cache or the service |
| Pagination.WalkServesEveryPage | KC-Core/internal/grpc/pagination.go:62-92 | following the tokens from the first page takes max(1, ceil(total / limit)) requests, none refused, at the multiples of the limit |
| Pagination.EveryRowOnExactlyOnePage | KC-Core/internal/grpc/pagination.go:62-92 | every row is on exactly one of the pages served |
| Pagination.RefusedExactlyWhenTheTotalOverflows | KC-Core/internal/grpc/pagination.go:94-102 | a walk is refused exactly when the total does not fit an int32 |
| Pagination.AcceptedTokens | KC-Core/internal/grpc/pagination.go:62-72 | a token is accepted exactly when it is empty or reads as an offset that leaves room for a page, and asks for that page |
| Pagination.ParsesExactlyWhen | KC-Core/internal/grpc/pagination.go:62-72 | a token reads as an integer exactly when it is decimal digits of it, with a sign or none, and a 64-bit int holds it |
| Pagination.ResponseTells | KC-Core/internal/grpc/pagination.go:82-102 | a response carries the total, which must fit an int32, and the token of the next page exactly while rows remain behind this one |
| Pagination.DecimalTokensReadBack | KC-Core/pkg/grpc/pagination.go:37-54 | every printed offset is a non-empty token that parses back to itself |
| Pagination.ClampPageSize | KC-Core/pkg/grpc/pagination.go:18-24 | a page size is 1 to 100: the requested one exactly when that is allowed, otherwise the default |
| Pagination.ClampDownlinkResultsPageSize | KC-Core/internal/grpc/pagination.go:44-53 | a page size is 1 to 500: the requested one exactly when that is allowed, otherwise the default or the cap |

## Left out

- TLS, sockets, read deadlines, logging, metrics, tracing, audit records and gRPC status mapping: only the order of steps and their success or failure is kept.
- Signature validation, key derivation, the version negotiator, stores and remote services: parameters whose answers are arbitrary.
- HandshakeServer.Session.AdmitStation: the organization a tenant resolves to is not part of the model, only the tenant is.
- The handlers of other commands, settling downlinks of a connected station, and rebuilding or dropping single persisted operations: a resume answers with the operations it offers.
- CommandRegistry.NewCommandRegistry: the concrete command table is not instantiated; the result holds for every table that is accepted.
- Codec.NormalizeMap: works on immutable trees, so aliasing of one decoded map in two places is not captured.
- Codec.IntegersStayExact: a token is the exact number it denotes; tokens too long for the rational parser are not distinguished. The double a non-integral token rounds to, and the conversion of a double beyond the int64 range, are parameters.
- HandshakeServer.Session.NegotiateSession: how a resume is found and its counters are compared is one given answer.
- HandshakeServer.Session.HandleMessage: of another command's handler only the errors it sends and whether it fails are kept.
- AttachServer.Connection.HandleAttach: radio metrics, roaming bookkeeping, events and the optional att flags are not modelled.
- AttachServer.Connection.ReceiveDet: whether a det reaches its record is given with the message; its checks and its answer's content are left out.
- StoredAttachCounters.StoredCountersIncrease: the counter is changed by attaches only, not by an update that masks attach_cnt.
- Pinning.EndPoint.ApplyUpdate: renaming an endpoint, the other masked fields and the status decisions after saving are not modelled; each operation on an endpoint is one step.
- The pinning of all endpoints to their current blueprints when a tenant turns its switch on.
- Availability.ComputeAvailabilityBuckets: fractions and seconds are exact, so floating-point rounding is not captured.
- Buckets.ValidateMetricsRequest: only the numeric part; parsing the station's EUI is left out.
- Blueprint.ParseAndValidate: starts from the unmarshalled JSON, and tells parse faults from validation faults only by their token.
- Slug.DeriveSlug: names are sequences of code points, so invalid UTF-8 is not captured; lower case and white space are Unicode tables of which only their effect on slug characters is required.
- Slug.PathSegment, NormalizeVersion and the other path segments: straight-line checks.
- UntrustedText.UntrustedValue: quoting is a parameter.
- RowOwnership.ConnectionManager.UpdateLastSeen: its two reads answer alike.
- RoleCache.IdentityRoleSource.Resolve: the identity service's answer and its storing are one step of the run, so a role change between them is not told apart.
- Pagination.WalkServesEveryPage: the total stays the same during the walk, and the limit leaves room for one page after the largest total.
- Authorization tables, health aggregation, certificates and proto mappers: each is settled by reading one branch.
