# go-wmp: verified model

A Dafny model of the protocol core of go-wmp, the Go implementation of the Wallet Messaging Protocol,
with proofs about whole runs of it. `dafny verify dfyconfig.toml` checks everything.

State that the Go code changes in place is a class whose methods are proved against step functions on
values; concurrency is one step per lock region, channel operation or transport write, and a theorem
about "every interleaving" quantifies over every sequence of steps (a step that is not possible leaves
the state as it is). Time is an integer clock, JSON an abstract codec, and handlers, hooks, verifiers
and random ids are parameters.

| file | what it models | main results |
|---|---|---|
| `Calls.dfy` | outgoing calls of a peer: `pending`, one-slot channels, carriers of responses | at most one send per channel; `pending` is exact when ids are unique in flight, and only then |
| `TwoPeers.dfy` | two peers over lossy first-in first-out transports | a returned response is the outcome of that very request, handled exactly once |
| `ChannelTransport.dfy`, `ChannelPeers.dfy`, `Endpoint.dfy` | two peers over the bounded channel transport, and a peer on it as an object | every run refines the two-peer system; a failed send is never handled; end to end nothing is reordered or repeated, and nothing missing if and only if the pump gave nothing up |
| `Pipelines.dfy`, `PeerPipelines.dfy` | asynchronous and synchronous request handling, alone and inside the two-peer system | the two agree except exactly on two kinds of message; a call returns exactly what the other side's pipeline makes of its request |
| `EventWindow.dfy`, `SseFraming.dfy`, `SseStandard.dfy`, `SseResume.dfy`, `SseBytes.dfy` | numbered event window, wire framing, reconnection | framing round trip under truncation at any byte; nothing is skipped if and only if every outage misses at most `maxEvents - 1` events |
| `RelayHistory.dfy`, `Relay.dfy` | offline queues with time to live, capacity, in-place compaction | the relay refines its history of operations; purging is unobservable; every accepted message is accounted for |
| `FlowLifecycle.dfy`, `AsyncFlow.dfy` | goroutine-per-flow profiles, as interleavings and as objects | mapped flows are alive in every interleaving; no flow is lost unless an id is restarted early, and then one is |
| `FlowRouting.dfy`, `FlowCancel.dfy` | flow ownership and the openid4x flow-type table; routing and flow contexts together | the handler reached is that of the last successful start; what the type table holds, by history; a cancel message never closes a flow |
| `Registry.dfy`, `Middleware.dfy`, `IdentifierResolution.dfy` | profile registration, middleware chain, resolvers | exact effect of failing registrations; the loop-built chain is the right fold |
| `Invitations.dfy` | single-use nonce store | balance 0 or 1 for every nonce; accepted means issued and untouched since |
| `Base64Url.dfy`, `InvitationUri.dfy`, `Discovery.dfy` | invitation links, did:web identifiers | print/parse round trips with their exact conditions |
| `Text.dfy`, `Folds.dfy`, `Options.dfy` | strings, folds, optional values | |

Where the code falls short of what its comments say, the model follows the code and proves when they agree:

- A client that missed exactly `maxEvents` events gets no replay although the server still buffers all
  of them (`FullWindowMissed`).
- `Push` on a closed `ChannelTransport` can still accept a message (`ClosedPushSurelyFails`).
- A restarted flow id makes the earlier goroutine's cleanup drop the new flow (`EarlyRestartLosesFlow`).
- A start that fails in its callback overwrites the flow type of the flow already running under its id
  (`FailedRestartRedirects`, `ActionTypeExact`).
- A call with an empty id is completed by any null-id error (`NullIdReaches`).
- A rejected notification is answered by `HandleRequestSync` (`SameAnswersExcept`).
- A purge shows in `QueueLength`, and in whether `Drain` returns nil, exactly when something queued has
  expired or everything queued has (`PurgeKeepsQueueLengthIff`, `PurgeKeepsNilIff`).
- A flow cancel message drops the routing and leaves the profile's flow running, open and mapped, and its
  flow type recorded (`CancelNeverCloses`, `CancelLeavesEntry`).

## Model

| member | source | states |
|---|---|---|
| `Calls.SendNeverBlocks` | pkg/wmp/peer.go:207-223 | in every interleaving of calls, responses, cancellations and send failures, even with reused ids, each call's channel gets at most one send and the goroutine about to send finds the slot free |
| `Calls.StepKeepsOneSend` | pkg/wmp/peer.go:213-222 | a channel is reachable through at most one of `pending`, one carrier, or a send already made, before and after every step |
| `Calls.PendingExact` | pkg/wmp/peer.go:545-572 | with ids unique among calls in flight, `pending` holds exactly the calls neither answered nor returned, and is empty when none is in flight |
| `Calls.ReusedIdBreaks` | pkg/wmp/peer.go:547-561 | the converse: from every such state, registering an id in use leads in two steps to a new call that is in flight and unanswered but no longer in `pending` |
| `Calls.NullIdReaches` | pkg/wmp/peer.go:208-218 | a response with a null or missing id reaches a call if and only if a call is pending under the empty id |
| `Calls.CallEnds` | pkg/wmp/peer.go:550-571 | in every run a call can be brought to its end, and ends as what happened to it says: a failed send, an ended context, or the body of the response in its channel |
| `Calls.DecidedForGood` | pkg/wmp/peer.go:550-571 | an outcome once decided is the one returned, whatever happens in between |
| `Calls.ResponseGetsThrough` | pkg/wmp/peer.go:207-223 | a response taken while its call waits returns exactly its body to that call |
| `Calls.Pending.Register` | pkg/wmp/peer.go:546-548 | the registering lock region has exactly the effect of the machine's register step |
| `Calls.Pending.Unregister` | pkg/wmp/peer.go:559-561 | the deleting lock region has exactly the effect of the machine's unregister step |
| `Calls.Pending.Take` | pkg/wmp/peer.go:213-218 | the taking lock region hands over the channel the machine's take step gives to the carrier |
| `TwoPeers.CallGetsItsOwnAnswer` | pkg/wmp/peer.go:557-571 | in every run a call that returned a response returned what the other side's handler produced for its own id and payload, logged there exactly once |
| `TwoPeers.HandledAtMostOnce` | pkg/wmp/peer.go:195-205 | no identified request is handled twice, whatever is lost or fails |
| `TwoPeers.NotOutNeverHandled` | pkg/wmp/peer.go:550-555 | a call whose request did not get out, because it has not been sent or its send failed with nothing written, is never handled |
| `TwoPeers.MessagesConserved` | pkg/wmp/peer.go:154-298 | for every message of every kind, what one side had to write (a call's own id and payload, a notification, a worker's own id and outcome, the null-id errors -32600 and -32700) is what the other side read, what was lost and what is under way |
| `TwoPeers.EveryRequestReadIsKept` | pkg/wmp/peer.go:201-204 | in every run every request read, notifications included, is being processed or is in the log, as often as it was read |
| `TwoPeers.WorkerFinishes` | pkg/wmp/peer.go:274-297 | in every reachable state a request can be finished with any outcome: it is logged with it, and its reply goes out under its own id unless it is a notification |
| `TwoPeers.ReplyGetsThrough` | pkg/wmp/peer.go:207-223 | in every reachable state a reply next to be read gets through to the call that waits for it |
| `TwoPeers.NullIdCompletesNothing` | pkg/wmp/peer.go:183-188 | reading a null-id error response changes no call |
| `TwoPeers.StepKeeps` | pkg/wmp/peer.go:195-298 | every step of either side keeps both directions' invariants: one place per request, every response backed by the log |
| `TwoPeers.PendingExactThroughout` | pkg/wmp/peer.go:539-572 | with fresh ids `pending` is exact on both sides in every reachable state of the system |
| `TwoPeers.ExchangeCompletes` | pkg/wmp/peer.go:527-572 | for every id, payload and answer there is a run in which the call returns that answer |
| `PeerPipelines.ResponseIsPipelines` | pkg/wmp/peer.go:225-298 | what a worker writes is exactly what the asynchronous pipeline writes for its message |
| `PeerPipelines.EveryResponseIsPipelines` | pkg/wmp/peer.go:195-298 | in every run in which requests are processed by the pipelines, with hooks and handlers that may change from step to step, every response is the pipeline's |
| `PeerPipelines.CallReturnsPipelineAnswer` | pkg/wmp/peer.go:539-572 | in every such run a returned response is the one the other side's pipeline, asynchronous or synchronous, makes of the call's own id and payload, processed exactly once |
| `ChannelPeers.ChannelsRefineTwoPeers` | pkg/wmp/channel_transport.go:35-75 | every run of two peers over channel transports, with refusals, closes and pumps that retry or give up, is a run of the two-peer system |
| `ChannelPeers.StepSimulates` | pkg/wmp/channel_transport.go:65-75 | each step: an accepted write is a transmit, a refused one a transmit with nothing out, a refused reply or a message given up a loss, everything else nothing |
| `ChannelPeers.AnsweredOverChannels` | pkg/wmp/peer.go:539-572 | over this transport a returned response is the outcome of that very request, processed exactly once |
| `ChannelPeers.HandledOnceOverChannels` | pkg/wmp/peer.go:195-205 | over this transport no request is processed twice |
| `ChannelPeers.FailedSendNeverHandled` | pkg/wmp/peer.go:550-555 | over this transport a call that returned a send error is never processed |
| `ChannelPeers.EndToEndInOrder` | pkg/wmp/channel_transport.go:46-75 | every accepted message is read once, given up or under way; what is read keeps the order of writing; nothing is missing if and only if nothing was given up |
| `ChannelPeers.RequestsReadAreKept` | pkg/wmp/peer.go:154-204 | over this transport too, the requests `ReadMessage` returned, notifications included, are those being processed and those in the log |
| `ChannelPeers.ChannelsKeepBounds` | pkg/wmp/channel_transport.go:25-31 | in every reachable state both `pending` maps are exact and no buffer exceeds its size |
| `Endpoint.Endpoint.Begin` | pkg/wmp/peer.go:545-548 | registering a call on the real map makes the model's begin step and names the new channel |
| `Endpoint.Endpoint.WriteRequest` | pkg/wmp/peer.go:550-550 | the request goes to the transport; the call then waits, or leaves with nothing written |
| `Endpoint.Endpoint.Forget` | pkg/wmp/peer.go:551-553 | the deletion on the way out makes the model's unregister step |
| `Endpoint.Endpoint.Route` | pkg/wmp/peer.go:207-218 | a response is taken to the channel registered under its id, as the model's take step does |
| `Endpoint.Endpoint.ServeOne` | pkg/wmp/peer.go:154-193 | one turn of the read loop makes the model's read step on the next message pushed, and every request, notification or not, gets a worker; it ends only on a closed transport and blocks only on an empty open one |
| `Endpoint.Endpoint.Dispatch` | pkg/wmp/peer.go:160-205 | a request starts a worker with its own id and payload, a reply is handed to the channel registered under its id, and bad input is answered with a null id and code -32600 or -32700 |
| `Endpoint.Endpoint.Notify` | pkg/wmp/peer.go:514-520 | a notification is written without an id, exactly if the transport accepts it |
| `Endpoint.Endpoint.Answer` | pkg/wmp/peer.go:274-297 | the end of a request makes the model's response step, writing nothing for a notification |
| `Endpoint.Endpoint.Close` | pkg/wmp/peer.go:673-678 | closing the peer is the model's shut step |
| `Pipelines.SameAnswersExcept` | pkg/wmp/peer.go:586-670 | both pipelines answer alike if and only if the message is not a rejected notification and not one with an id but no method, result or error |
| `Pipelines.SameEffectsExcept` | pkg/wmp/peer.go:195-205 | counting handler invocations and routed responses too, the exact set of messages treated differently |
| `Pipelines.OneResponsePerRequest` | pkg/wmp/peer.go:225-298 | one response per request with an id, with that id and exactly one of result and error; none for a notification; one invocation exactly if not rejected |
| `Pipelines.RefusalsExact` | pkg/wmp/peer.go:226-245 | in both pipelines a request refused by the authorizer gets exactly code -31002 without data, and one refused only by the validator exactly code -32602 with the validator's reason |
| `Pipelines.AdmittedExact` | pkg/wmp/peer.go:269-297 | in both pipelines a message is invoked, once, exactly if the hooks admit it, and the answer is what the invocation returned: its value, `{}` for none, its RPC error, or code -32603 |
| `Pipelines.ResponsesAreRouted` | pkg/wmp/peer.go:195-199 | a message with a result or an error, and no other, goes to the calls, whole, and is neither invoked nor answered |
| `Pipelines.ServeExact` | pkg/wmp/peer.go:154-193 | a batch is handled message by message in order; what is too long or cannot be decoded gets one null-id error with code -32600 or -32700 |
| `Pipelines.ResponseMirrorsOutcome` | pkg/wmp/peer.go:279-297 | a result exactly when the handler succeeded with a marshallable value; RPC errors pass unchanged, others become internal errors |
| `Pipelines.InvokedWithItsOwnContext` | pkg/wmp/peer.go:248-272 | what is invoked is the message itself, under the text of its own id, with the sender it claims, and with the session it claims exactly if the store knows it |
| `Pipelines.SameBytesExcept` | pkg/wmp/peer.go:154-193 | over all byte strings the pipelines agree except exactly on those messages and on every batch |
| `EventWindow.ServerSession.constructor` | pkg/wmp/httpsse/httpsse.go:232-241 | an empty window with the default of 200 for a non-positive size |
| `EventWindow.ServerSession.BufferEvent` | pkg/wmp/httpsse/httpsse.go:244-255 | the id is "evt-" and the numeral of the event's number, and the buffer stays the last `maxEvents` payloads of the history under their own ids |
| `EventWindow.ServerSession.ReplayAfter` | pkg/wmp/httpsse/httpsse.go:258-272 | for any text the client sends: the history after the event if the text is "evt-" and the numeral of a retained event, nothing otherwise |
| `EventWindow.ReplayExact` | pkg/wmp/httpsse/httpsse.go:264-271 | replay after event k is exactly the history suffix if k is retained and empty otherwise |
| `EventWindow.ReplayUnknown` | pkg/wmp/httpsse/httpsse.go:259-271 | an id that belongs to no retained event replays nothing |
| `EventWindow.FullWindowMissed` | pkg/wmp/httpsse/httpsse.go:251-271 | a client that missed exactly `maxEvents` events gets nothing although the window is exactly what it missed |
| `EventWindow.EventIdRoundTrip` | pkg/wmp/httpsse/httpsse.go:247-248 | the number is recovered from the id, so ids are distinct |
| `EventWindow.EventIdExact` | pkg/wmp/httpsse/httpsse.go:247-248 | an event's id is "evt-" and digits without a leading zero whose value is its number, and no other text is |
| `EventWindow.ReplayOfText` | pkg/wmp/httpsse/httpsse.go:258-272 | the replay for every client text, as ids and payloads |
| `EventWindow.WindowExact` | pkg/wmp/httpsse/httpsse.go:251-253 | the buffer holds the last `maxEvents` payloads under their own ids, or all of them |
| `Text.DecimalUnique` | pkg/wmp/httpsse/httpsse.go:248-248 | a number has one numeral |
| `Text.DecimalPlaces` | pkg/wmp/httpsse/httpsse.go:248-248 | each digit printed is the number's digit at that decimal place |
| `SseFraming.TruncatedReadBack` | pkg/wmp/httpsse/httpsse.go:115-137 | a stream cut at any position delivers a prefix of the events written, all of them if uncut, and commits the id of the last one delivered |
| `SseBytes.CutAtAnyByte` | pkg/wmp/httpsse/httpsse.go:115-137 | the same for a cut at any byte of the UTF-8 stream, also inside a character |
| `SseBytes.ByteCutIsTextCut` | pkg/wmp/httpsse/httpsse.go:119-123 | a cut of any stream at a byte reads as a cut of its text after some whole character |
| `SseBytes.ByteCutIsConnection` | pkg/wmp/httpsse/httpsse.go:356-404 | a connection cut at any byte is one of the connections the resume theorems quantify over |
| `SseBytes.EncodeInjective` | pkg/wmp/httpsse/httpsse.go:119-123 | the bytes of a complete line determine its text |
| `SseFraming.SurvivesIffTransportable` | pkg/wmp/httpsse/httpsse.go:123-128 | an event is delivered as written if and only if its payload is newline-free, non-empty and does not end in white space |
| `SseFraming.ReadingKeeps` | pkg/wmp/httpsse/httpsse.go:126-134 | on any bytes at all, the committed id is that of the latest delivered event with one, and deliveries are never retracted |
| `SseFraming.CutStream` | pkg/wmp/httpsse/httpsse.go:115-137 | cutting any byte stream, well formed or not, only loses a suffix of what it delivers |
| `SseFraming.ReadBack` | pkg/wmp/httpsse/httpsse.go:386-386 | the reader inverts the frame writer |
| `SseFraming.FrameText` | pkg/wmp/httpsse/httpsse.go:386-386 | a frame letter by letter |
| `SseFraming.IdLineMeaning` | pkg/wmp/httpsse/httpsse.go:123-125 | an id line, with any white space around it, is remembered and not yet committed |
| `SseFraming.DataLineMeaning` | pkg/wmp/httpsse/httpsse.go:126-134 | a data line is delivered under the remembered id, also under none, and commits that id if there is one |
| `SseFraming.OtherLineMeaning` | pkg/wmp/httpsse/httpsse.go:124-135 | every other line is ignored |
| `Text.TrimSpaceExact` | pkg/wmp/httpsse/httpsse.go:123-123 | trimming removes exactly the white space at both ends |
| `SseStandard.StandardClientReads` | pkg/wmp/httpsse/httpsse.go:386-398 | a reader that follows section 9.2 of the WHATWG HTML Living Standard dispatches exactly one `wmp` event per event written, with its id and payload, and a prefix of them from a stream cut anywhere |
| `SseFraming.ClientTransport.ReadSse` | pkg/wmp/httpsse/httpsse.go:115-137 | the line-reading loop queues exactly the payloads and commits exactly the id of the character-level reader |
| `SseFraming.ClientTransport.HandleLine` | pkg/wmp/httpsse/httpsse.go:123-135 | one complete line has the reader's effect on current id, committed id and queue |
| `SseFraming.ClientTransport.ReadString` | pkg/wmp/httpsse/httpsse.go:119-122 | the text up to the next newline, or not found at the end of the bytes |
| `SseResume.DeliveriesIncrease` | pkg/wmp/httpsse/httpsse.go:382-404 | over any number of connections cut at any byte, delivered ids strictly increase and each payload is the one buffered under its id |
| `SseResume.ContiguousIffShortOutages` | pkg/wmp/httpsse/httpsse.go:69-105 | delivered ids are contiguous if and only if every resuming connection that delivers something found at most `maxEvents - 1` missed events |
| `SseResume.SafeToResumeIff` | pkg/wmp/httpsse/httpsse.go:251-271 | as a check before connecting: for a client that has skipped nothing so far, every next connection keeps it so if and only if at most `maxEvents - 1` events were missed |
| `SseResume.WrittenIsStretch` | pkg/wmp/httpsse/httpsse.go:382-403 | what a connection writes is one consecutive stretch of the history, starting after the client's last event exactly if that is still retained |
| `SseResume.ServeConnection` | pkg/wmp/httpsse/httpsse.go:356-404 | the server and client objects together make exactly the model's connection step |
| `SseResume.ServeLive` | pkg/wmp/httpsse/httpsse.go:391-403 | the live loop numbers, buffers and writes each payload in order after the replay |
| `RelayHistory.Defaults` | pkg/wmp/relay/relay.go:53-63 | all limits positive; each positive setting untouched, each other replaced by 1000 messages, 24 hours or 1 hour |
| `RelayHistory.OutcomeExpected` | pkg/wmp/relay/relay.go:137-196 | every outcome is what the operation history alone dictates; `Enqueue` reports full exactly when the capacity is reached by unexpired undrained messages |
| `RelayHistory.RelayRefinesHistory` | pkg/wmp/relay/relay.go:104-240 | all outcomes of every run with a non-decreasing clock equal those of the queue-free history |
| `RelayHistory.PurgeUnobservable` | pkg/wmp/relay/relay.go:213-240 | two runs that differ only in their purges have the same outcomes |
| `RelayHistory.InsertedPurgeUnobservable` | pkg/wmp/relay/relay.go:213-240 | a purge inserted anywhere changes no drain, no verdict and no registration answer |
| `RelayHistory.PurgeKeepsQueueLengthIff` | pkg/wmp/relay/relay.go:199-203 | `QueueLength` is the exception: after any run a purge leaves it unchanged if and only if nothing queued for the participant has expired |
| `RelayHistory.PurgeKeepsNilIff` | pkg/wmp/relay/relay.go:177-183 | whether `Drain` returns nil is the other: a purge leaves it unchanged if and only if the queue is empty or has a live message |
| `RelayHistory.PurgeVisibleToQueueLength` | pkg/wmp/relay/relay.go:199-203 | a concrete run in which a purge empties the queue |
| `RelayHistory.MessagesConserved` | pkg/wmp/relay/relay.go:146-196 | accepted messages are, in order, those each drain found expired or returned, then an expired prefix already dropped, then the queue, which never exceeds its capacity |
| `RelayHistory.AcceptedExact` | pkg/wmp/relay/relay.go:167-172 | the accepted messages are, one for one and in order, the accepted enqueues: their data, their time, and that time plus the time to live |
| `RelayHistory.FirstDrainReturns` | pkg/wmp/relay/relay.go:177-196 | a message whose first drain comes before its time to live ends is returned by it, with the data and the time it was enqueued with |
| `RelayHistory.UnexpiredIsSuffix` | pkg/wmp/relay/relay.go:153-159 | with constant time to live, dropping expired messages removes a prefix only |
| `RelayHistory.QueueIsRecentHistory` | pkg/wmp/relay/relay.go:146-174 | the queue is the undrained history without an expired prefix |
| `RelayHistory.RegistrationLasts` | pkg/wmp/relay/relay.go:117-142 | a registration holds until exactly its time to live later, purges included, unless renewed or removed |
| `RelayHistory.UnregisteredUntilRegistered` | pkg/wmp/relay/relay.go:206-210 | after an unregistration, or without a registration, the participant is not registered |
| `RelayHistory.RegisterStores` | pkg/wmp/relay/relay.go:112-126 | what a registration stores, and that one without a sender stores nothing |
| `RelayHistory.PurgeExact` | pkg/wmp/relay/relay.go:213-240 | a purge keeps exactly the registrations not past their end and exactly the live messages |
| `Relay.Compact` | pkg/wmp/relay/relay.go:154-161 | the in-place loop leaves the order-preserving filter at the front and everything behind the slice alone |
| `Relay.Append` | pkg/wmp/relay/relay.go:172-172 | the slice extended by the message, in place or in a fresh array |
| `Relay.CopyUnexpired` | pkg/wmp/relay/relay.go:187-193 | the copying loop returns the order-preserving filter |
| `Relay.Relay.constructor` | pkg/wmp/relay/relay.go:89-96 | an empty relay with defaulted settings |
| `Relay.Relay.HandleMethod` | pkg/wmp/relay/relay.go:104-134 | an unknown method, undecodable parameters or a missing sender is rejected and changes nothing; otherwise the machine's registration, answered with its time to live in seconds |
| `Relay.Relay.IsRegistered` | pkg/wmp/relay/relay.go:137-142 | true exactly for an unexpired registration |
| `Relay.Relay.Enqueue` | pkg/wmp/relay/relay.go:146-174 | accepted exactly if fewer than the maximum are live; the queue is then the live messages and the new one with its data and times, in arrays that are never shared |
| `Relay.Relay.Drain` | pkg/wmp/relay/relay.go:177-196 | the live messages in order, the queue being empty afterwards, and nil exactly for an empty queue |
| `Relay.Relay.QueueLength` | pkg/wmp/relay/relay.go:199-203 | the length of the queue, expired messages included |
| `Relay.Relay.Unregister` | pkg/wmp/relay/relay.go:206-210 | the registration is gone and nothing else changes |
| `Relay.Relay.PurgeExpired` | pkg/wmp/relay/relay.go:213-240 | the object makes the machine's purge step, whatever order the maps are visited in, and keeps exactly the registrations not past their end |
| `FlowLifecycle.MappedFlowsAreAlive` | pkg/wmp/flowcontext.go:187-285 | in every interleaving a mapped context is open and its goroutine has not cleaned up, so `ActiveFlows` is at most the number of running flows |
| `FlowLifecycle.NoFlowIsLost` | pkg/wmp/flowcontext.go:201-212 | if no id is restarted before the earlier cleanup, every unmapped flow is closed or its close is owed, and a deliverer is blocked only on a full flow that is mapped or about to be closed |
| `FlowLifecycle.EarlyRestartLosesFlow` | pkg/wmp/flowcontext.go:196-207 | the converse: from every safe state an early restart followed by the old cleanup leaves the new flow unmapped, open and owed by nobody |
| `FlowLifecycle.ClosedNeverBlocks` | pkg/wmp/flowcontext.go:124-140 | a closed flow stays closed and never blocks a deliverer again |
| `FlowLifecycle.ActionsInOrder` | pkg/wmp/flowcontext.go:73-79 | in every interleaving the actions delivered to a flow are, in order, those its function took and those in the channel, of which there are never more than ten |
| `FlowLifecycle.DeliveriesConserved` | pkg/wmp/flowcontext.go:135-140 | every action looked up for a flow is delivered to it, abandoned because it is closed, or still held, and nothing else is delivered |
| `FlowLifecycle.FlowsCanEnd` | pkg/wmp/flowcontext.go:201-285 | in every interleaving a running flow can clean up, a mapped flow can be ended and an owed close can happen, with exactly that flow unmapped and closed |
| `AsyncFlow.AsyncFlowProfile.StartFlow` | pkg/wmp/flowcontext.go:187-218 | exactly a known type starts a flow: a new open context, mapped under the id whatever was there before |
| `AsyncFlow.AsyncFlowProfile.CleanUp` | pkg/wmp/flowcontext.go:202-207 | a goroutine's cleanup deletes whatever its id maps to and closes its own context |
| `AsyncFlow.AsyncFlowProfile.EndFlow` | pkg/wmp/flowcontext.go:243-285 | complete, error and cancel leave the flow unmapped and its context closed, once |
| `AsyncFlow.AsyncFlowProfile.HandleAction` | pkg/wmp/flowcontext.go:220-237 | not found exactly if unmapped; otherwise put last into the flow's own channel exactly if that holds fewer than ten, and left waiting if not, since a mapped flow is open |
| `AsyncFlow.AsyncFlowProfile.WaitForAction` | pkg/wmp/flowcontext.go:73-88 | an action taken is the oldest one; an open flow whose time has not run out waits exactly if there is none |
| `AsyncFlow.AsyncFlowProfile.ActiveFlows` | pkg/wmp/flowcontext.go:268-272 | at most the number of flows still running |
| `FlowRouting.RoutedByLastStart` | pkg/wmp/peer.go:405-477 | a message reaches profile h if and only if the flow's last successful profile start, with no complete, error or cancel after it, was h's; otherwise the base handler |
| `FlowRouting.OwnerByHistory` | pkg/wmp/registry.go:96-115 | `flowOwners` holds exactly those flows |
| `FlowRouting.StartAndCancelReach` | pkg/wmp/peer.go:405-418 | in every run a start reaches the profile registered for its type, or the base handler, and a cancel the base handler |
| `FlowRouting.OwnersAfter` | pkg/wmp/peer.go:410-477 | ownership changes exactly on a start that returns a result, to the profile of its type, and on complete, error and cancel |
| `FlowRouting.TypesAfter` | pkg/wmp/openid4x/openid4x.go:323-405 | a type is recorded by a start that passes the checks and forgotten by an ending of its owner, and by nothing else |
| `FlowRouting.OwnedFlowsHaveTypes` | pkg/wmp/openid4x/openid4x.go:323-405 | every flow owned by an openid4x profile has an entry in its `flowTypes`, the type of the last start it accepted for that id |
| `FlowRouting.TypesByHistory` | pkg/wmp/openid4x/openid4x.go:323-405 | an openid4x profile holds a flow if and only if it recorded it in a start that passed its checks, with no complete or error message reaching it since, under the type of that start |
| `FlowRouting.CancelLeavesEntry` | pkg/wmp/peer.go:468-477 | after a cancel, until a new start, the flow has no owner and every profile keeps the entry it had |
| `FlowCancel.CancelNeverCloses` | pkg/wmp/peer.go:468-477 | after a cancel, whatever arrives and runs short of a new start or the flow's own end, the context stays mapped and open and no message for it reaches the profile |
| `FlowCancel.ReachedHasEffect` | pkg/wmp/flowcontext.go:187-253 | what does reach the profile maps a new flow, finds the mapped one, or takes it out to be closed |
| `FlowRouting.ActionTypeExact` | pkg/wmp/openid4x/openid4x.go:369-389 | the running flow's own type selects its action callback if and only if that last accepted start has the same type |
| `FlowRouting.FailedRestartRedirects` | pkg/wmp/openid4x/openid4x.go:348-353 | a concrete run in which it does not |
| `FlowRouting.Router.Dispatch` | pkg/wmp/peer.go:405-477 | each flow case reaches the model's target and updates the tables as the model does |
| `FlowRouting.Router.StartFlow` | pkg/wmp/openid4x/openid4x.go:323-367 | the type is recorded before the callback, so also when the callback fails |
| `FlowRouting.Router.EndFlow` | pkg/wmp/peer.go:447-451 | the owner forgets the type and the registry the owner |
| `Registry.RegistrationExact` | pkg/wmp/registry.go:36-78 | a registration binds exactly the claims before its first conflict and succeeds if and only if there is none |
| `Registry.NeverRebound` | pkg/wmp/registry.go:42-67 | over any sequence of registrations a bound flow type, method or resolve type keeps its handler |
| `Registry.BoundToFirstClaimant` | pkg/wmp/registry.go:42-67 | its handler is the profile whose registration first bound it |
| `Registry.ListsExact` | pkg/wmp/registry.go:40-75 | every profile is listed, failed or not; session hooks and identifier resolvers are exactly those of the successful ones, in order |
| `Registry.ClaimsInOrder` | pkg/wmp/registry.go:42-67 | flow types are claimed first, then methods, then resolve types |
| `Registry.ProfileRegistry.Register` | pkg/wmp/registry.go:36-78 | the three loops over the real maps make the model's step, failing ones included |
| `Registry.ClaimAll` | pkg/wmp/registry.go:43-48 | one loop binds its keys up to the first taken one and leaves the other kinds alone |
| `Middleware.RunMiddleware` | pkg/wmp/registry.go:134-156 | the chain built by the loop is the right fold, for any request and result types, also ones that carry the state handlers read and change |
| `Middleware.OrderOfLayers` | pkg/wmp/registry.go:144-155 | requests pass the layers in registration order, results in reverse |
| `Middleware.ChainConcat` | pkg/wmp/registry.go:144-153 | later middleware nests inside earlier middleware |
| `Middleware.PassThroughChain` | pkg/wmp/registry.go:140-155 | a chain of pass-through layers is the final handler |
| `IdentifierResolution.ResolveIdentifier` | pkg/wmp/registry.go:176-197 | the first registered resolver that handles the scheme and finds an endpoint or fails decides; nothing otherwise |
| `IdentifierResolution.HandlesExact` | pkg/wmp/registry.go:184-184 | a resolver handles exactly the identifiers that start with one of its schemes |
| `Invitations.BalanceIsStored` | pkg/wmp/invitation.go:192-228 | successful puts of a nonce minus consumptions and expiry drops is 1 while it is stored and 0 otherwise |
| `Invitations.AcceptedWasIssued` | pkg/wmp/invitation.go:239-256 | an accepted invitation was put under that nonce, untouched since, not past its expiry at both clock readings and verified; accepting uses it up |
| `Invitations.AcceptedOncePerPut` | pkg/wmp/invitation.go:202-215 | two acceptances of a nonce have a successful put of it in between |
| `Invitations.FailedSignatureBurns` | pkg/wmp/invitation.go:243-254 | after a failed signature check every later validation is refused until the nonce is put again |
| `Invitations.ValidateOutcome` | pkg/wmp/invitation.go:239-256 | every outcome, in times: accepted if and only if stored under a non-empty nonce, not past its expiry at either reading, and verified; each refusal if and only if its own condition; the nonce gone |
| `Invitations.ConsumeOutcome` | pkg/wmp/invitation.go:202-215 | taken if and only if stored and not past its expiry; gone either way |
| `Invitations.CleanupOutcome` | pkg/wmp/invitation.go:217-228 | keeps exactly the invitations not past their expiry and counts the others |
| `Invitations.PutOutcome` | pkg/wmp/invitation.go:192-200 | stored if and only if the nonce is free |
| `Invitations.MemoryInvitationStore.Put` | pkg/wmp/invitation.go:192-200 | stores the invitation unless the nonce exists |
| `Invitations.MemoryInvitationStore.Consume` | pkg/wmp/invitation.go:202-215 | removes the nonce and returns the invitation exactly if it is not past its expiry |
| `Invitations.MemoryInvitationStore.Cleanup` | pkg/wmp/invitation.go:217-228 | removes exactly the nonces past their expiry and counts them |
| `Invitations.ValidateNonce` | pkg/wmp/invitation.go:239-256 | accepts exactly the stored invitation under a non-empty nonce that is not past its expiry at either reading and that the verifier, if any, passes; the nonce is gone |
| `Base64Url.RoundTrip` | pkg/wmp/invitation.go:69-69 | decoding an unpadded base64url encoding gives back the bytes (sections 5 and 3.2 of RFC 4648) |
| `Base64Url.EncodeAlphabet` | pkg/wmp/invitation.go:84-84 | encodings use only the URL-safe alphabet and are empty only for no bytes |
| `Base64Url.AlphabetTable` | pkg/wmp/invitation.go:69-69 | the 64 characters of section 5 of RFC 4648, in order |
| `Base64Url.EncodedBits` | pkg/wmp/invitation.go:69-69 | the symbols carry the bits of the bytes six at a time from the highest, then zero bits (section 4 of RFC 4648) |
| `Base64Url.EncodedLength` | pkg/wmp/invitation.go:69-69 | as many symbols as that takes, without padding |
| `Base64Url.DecodesIff` | pkg/wmp/invitation.go:144-147 | line breaks aside, a text decodes if and only if it is over the alphabet and not one symbol over a whole group |
| `InvitationUri.UriRoundTrip` | pkg/wmp/invitation.go:64-71 | `ParseInvitationURI` recovers the payload from `URI` if and only if it is not empty |
| `InvitationUri.HttpsUriRoundTrip` | pkg/wmp/invitation.go:75-86 | the same for `HTTPSURI` and every provider with a domain, whatever the domain contains |
| `InvitationUri.InvitationRoundTrip` | pkg/wmp/invitation.go:115-154 | with any faithful JSON codec the invitation itself survives both links, the second whenever its own provider has a domain |
| `InvitationUri.LinkTexts` | pkg/wmp/invitation.go:64-86 | both links letter by letter, and when there is no https link |
| `InvitationUri.ParseErrors` | pkg/wmp/invitation.go:115-148 | which texts are an unknown scheme, a bad URL, a missing fragment or a bad encoding |
| `InvitationUri.RefLink` | pkg/wmp/invitation.go:124-130 | a link by reference is reported with its reference |
| `InvitationUri.QueryPair` | pkg/wmp/invitation.go:124-126 | of several query pairs the first for the key decides |
| `Discovery.DidWebRoundTrip` | pkg/wmp/discovery.go:178-198 | parsing a printed did:web gives back host and path if and only if the host does not contain the text %3A |
| `Discovery.DomainOfPrinted` | pkg/wmp/discovery.go:117-119 | the extracted domain of a printed did:web is its host |
| `Discovery.AnyDidWeb` | pkg/wmp/discovery.go:178-198 | every did:web identifier, printed or not: its first part unescaped is the domain and the others the path, exactly if that domain is valid |
| `Discovery.UnescapeInverse` | pkg/wmp/discovery.go:187-187 | unescaping inverts escaping on every text without a colon |
| `Discovery.EscapeExact` | pkg/wmp/discovery.go:187-187 | escaping writes each colon as %3A and leaves everything else alone |
| `Discovery.ValidHostIff` | pkg/wmp/discovery.go:202-207 | exactly which hosts are valid |
| `Discovery.AcceptedDomainsAreClean` | pkg/wmp/discovery.go:202-207 | an accepted did:web domain has no path, query, fragment or userinfo separator and is the authority of its well-known URL |
| `Discovery.HttpsDomain` | pkg/wmp/discovery.go:120-126 | the domain of an https identifier is what stands before path, query or fragment |
| `Discovery.SanUriDomain` | pkg/wmp/discovery.go:129-134 | the same for an https URI in a certificate |
| `Discovery.SanDnsDomain` | pkg/wmp/discovery.go:127-128 | a DNS name in a certificate is its own domain |
| `Discovery.NoDomain` | pkg/wmp/discovery.go:115-137 | an identifier with none of the four prefixes has no domain |
| `Discovery.WellKnownExact` | pkg/wmp/discovery.go:103-111 | the well-known URL letter by letter, for exactly the domains without a separator |
| `ChannelTransport.ClosedPushSurelyFails` | pkg/wmp/channel_transport.go:33-44 | on a closed transport `Push` is sure to fail if and only if the buffer is full |
| `ChannelTransport.ClosedReadSurelyFails` | pkg/wmp/channel_transport.go:53-62 | on a closed transport `ReadMessage` is sure to fail if and only if nothing is buffered |
| `ChannelTransport.Transport.Push` | pkg/wmp/channel_transport.go:35-44 | a message is accepted once or refused without a trace; on an open transport accepted exactly if fewer than `inSize` pushed messages are unread |
| `ChannelTransport.Transport.WriteMessage` | pkg/wmp/channel_transport.go:65-75 | the same towards `Out`: on an open transport accepted exactly if fewer than `outSize` written messages are not yet taken |
| `ChannelTransport.Transport.ReadMessage` | pkg/wmp/channel_transport.go:53-62 | the n-th message read is the n-th pushed; a reader blocks only on an open transport of which it has read everything |
| `ChannelTransport.Transport.TakeOut` | pkg/wmp/channel_transport.go:46-50 | the n-th message taken from `Out` is the n-th written |
| `ChannelTransport.Transport.Close` | pkg/wmp/channel_transport.go:78-83 | afterwards no reader blocks and nothing buffered is lost; closing twice is closing once |

## Left out

- `ws`, `stdio`, the HTTP client and server and `fetchConfig`: sockets and library behaviour.
- `schema`, `mls`, sessions, evidence, metadata types: plain data, external engines or stubs.
- JSON decoding, nesting depth and batch decoding: messages start decoded; a decoder is a parameter.
- `dispatchMethodInternal` outside the flow cases: a parameter of the pipelines, called `dispatch`.
- Session-create and session-close hooks: a loop that stops at the first error.
- Liveness: cancellation, timeouts and context ends are steps that may happen at any time; no theorem says that a step eventually happens.
- Counter and clock widths: event numbers, times and durations are unbounded integers, not 64-bit.
- TwoPeers.CallGetsItsOwnAnswer: leaves out `SendRaw` of a stored request, which can repeat an id, and messages from anyone but the two peers.
- SseResume.ContiguousIffShortOutages: one connection at a time, the old reader and handler ended first; messages that `handlePost` takes from the outgoing channel never become events.
- Relay.Relay.HandleMethod: the time to live is divided exactly, while Go goes through a float64 number of seconds; the version in the result is left out.
- FlowRouting.RoutedByLastStart: messages one at a time; concurrent starts and endings of one flow id are not interleaved.
- FlowLifecycle.MappedFlowsAreAlive: progress, complete and error notifications sent by the flow function are not part of this model.
- InvitationUri.UriRoundTrip: which texts `url.Parse` accepts is a parameter; it is required to accept the link being parsed.
- ChannelTransport.Transport.Push: a channel of size zero accepts nothing here, while Go would hand a message to a waiting reader.
- ChannelTransport.Transport.ReadMessage: context cancellation, which ends a read without taking anything.
- ChannelPeers.ChannelsRefineTwoPeers: one pump per direction; several concurrent HTTP POST handlers pushing into one transport could reorder messages.
- PeerPipelines.CallReturnsPipelineAnswer: hooks and handlers are functions of the message at each step of the run; a payload stands for a method name and parameters.
- ValidateAction and the openid4x parameter validators: lookups in fixed lists; their verdict is a parameter of a start.
