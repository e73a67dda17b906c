# Verified models of Open Screen and Cast components

This project models parts of the Open Screen repository in Dafny and proves what they are
for. `dafny verify dfyconfig.toml` checks all of it.

Most components come in three modules. `...Spec` is a state machine over values: the
component's state, its events, and one function per operation. `...Proofs` states what
every event keeps and what follows for whole runs: a run is a sequence of states and a
sequence of events, of any length and in any order the component allows. `...Impl` is the
same component in its own imperative form: a class whose fields are updated in place and
whose loops are proved to do what the functions say.

- **Pacing** (`Alarm*`, `Router*`): the one-shot timer that posts cancelable functors to a
  task runner, and the packet router that uses it to send bursts. The clock may move
  between any two readings of it. The router's runs go through the alarm's own transitions
  and its class owns an alarm object, so the rate guarantee and the liveness results are
  about both together. Latency bounds are in terms of the longest such movement and the
  longest burst in the run, which every run has. Senders are oracles.
- **App discovery** (`Tracker*`, `Discovery*`, `Client*`, `Timeout*`, `Stack*`,
  `SortedKeys`): the registry of sources with its cache of results, the service that
  notifies observers, and the table of pending requests: alone, with an alarm per request,
  and under the service. The central result is that every observer has last been told
  exactly the current list, although only changes are sent.  The histories tell what the
  service and the client have from the events alone.
- **Encoder hand-off** (`Handoff*`): the video encoder's two threads as interleaved
  critical sections, with spurious wake-ups.
- **Application agent** (`Agent*`): which receiver application runs. Whether a launch
  succeeds is an oracle; a log of launches, stops and broadcasts is judged by an observer
  that does not see the agent's state.
- **Audio framing** (`Opus*`): batches of interleaved samples cut into frames, with skips
  and clamped reference times. Conversions between durations and RTP ticks are arbitrary
  functions, except that one tick takes some time.
- **Utilities** (`Words`, `BitVectors`, `BigEndian*`, `Strings`, `SimpleFractions`,
  `IntegerDivision`).

Where the code does not do what its documentation says, the model follows the code. The
header of the platform client promises that a callback is called exactly once; a canceled
request, or one whose reply has no entry for its app, is erased without its callback
(`ClientProofs.CallbackCanBeLost`, with the exact condition in
`ClientProofs.AnsweredOnceUnlessDropped`). A reply that comes over a socket shared by
several receivers only reaches the first of them (`ClientProofs.ReplyCanMissItsRequest`,
with the exact condition in `ClientProofs.ReplyReachesFirstReceiver`). The video encoder
keeps its bitrate at a kilobit or more, but a frame may still be taken, with bitrate zero,
after the quit signal (`HandoffProofs.FrameTakenAfterQuit`, `HandoffProofs.UsableBitrateIffBeforeQuit`). A task
runner that discards an alarm's functor silently disarms it
(`AlarmProofs.DiscardedFunctorLosesTask`, `AlarmProofs.ArmedUnlessDiscarded`).

Assumptions, as the source makes them: client callbacks do not call back into the tracker,
the service, the client or the agent (they may call the alarm, and the client's callbacks
are the service's answers); equal source ids mean equal app ids; every application has an
id, and its ids do not change while it is registered; SSRCs fit a positive int; time does
not go backwards and stays away from the ends of the clock's range.

## Model

| member | source | states |
|---|---|---|
| `AlarmProofs.StepKeepsLinked` | util/alarm.cc:13-125 | Every event of client, task runner and functor keeps the two back-pointers in agreement, so at most one posted functor is linked, and passes every check on its path |
| `AlarmProofs.AlwaysLinked` | util/alarm.cc:13-125 | The same in every reachable state of every run |
| `AlarmProofs.CancelReachesFunctor` | util/alarm.cc:51-57 | Canceling through the queued pointer reaches a functor that exists and points back; afterwards no posted functor is linked |
| `AlarmProofs.HoldsLatestSchedule` | util/alarm.cc:75-97 | The alarm holds a task only if a Schedule is outstanding, and then exactly that one's task and time |
| `AlarmProofs.RunsExactlyTheLatest` | util/alarm.cc:42-49 | A client task runs if and only if a live functor is called while the outstanding Schedule's time has come; it is that Schedule's task |
| `AlarmProofs.RunsAtMostOnce` | util/alarm.cc:106-125 | A Schedule leads to at most one run of its task, in any run |
| `AlarmProofs.AlwaysArmed` | util/alarm.cc:79-104 | Unless a functor is discarded, a scheduled task always has a live functor posted with next fire time no later than the alarm time |
| `AlarmProofs.ArmedUnlessDiscarded` | util/alarm.cc:21-21 | Exactly when the wake-up of a scheduled task is lost: if and only if the runner discards a live functor after the Schedule |
| `AlarmProofs.DiscardedFunctorLosesTask` | util/alarm.cc:21-21 | A concrete run that loses its wake-up in this way |
| `AlarmProofs.WaitsForExactTime` | util/alarm.cc:106-118 | After an early firing the alarm waits for exactly its time |
| `AlarmProofs.TwoFiringsRunTheTask` | util/alarm.cc:106-125 | With no further client calls two firings of live functors are enough to run the task |
| `AlarmProofs.NothingOverdue` | util/alarm.cc:79-125 | A task runner that has called all that is due leaves no task overdue by more than the longest lag of the run between the alarm's reading of the clock and its own |
| `AlarmProofs.PostsIffNeeded` | util/alarm.cc:75-125 | In every run a Schedule posts a functor for exactly its time if and only if no live one fires by then, a called functor posts one again if and only if the time of the outstanding Schedule has not come, and nothing else posts one or changes when one is due |
| `AlarmProofs.SilentAfterDestroy` | util/alarm.cc:68-73 | After destruction no posted functor is linked and no task runs |
| `AlarmImpl.CancelableFunctor.constructor` | util/alarm.cc:15-19 | Links functor and alarm in both directions |
| `AlarmImpl.CancelableFunctor.MoveFrom` | util/alarm.cc:23-29 | Moving re-points the alarm to the new functor and unlinks the old one |
| `AlarmImpl.CancelableFunctor.Cancel` | util/alarm.cc:51-57 | Clears both pointers if linked, and changes nothing otherwise |
| `AlarmImpl.TaskRunner.PostTaskWithDelay` | platform/impl/task_runner.cc:59-74 | The functor is queued for the runner's own reading of the clock plus the delay |
| `AlarmImpl.TaskRunner.RunTask` | util/alarm.cc:42-49 | Takes a due functor off the queue and calls it: the state machine's firing |
| `AlarmImpl.TaskRunner.DiscardTask` | util/alarm.cc:21-21 | Destroys a queued functor without calling it |
| `AlarmImpl.Alarm.ScheduleWithTask` | util/alarm.cc:79-97 | In place: keeps an early enough functor or replaces it, as in the state machine |
| `AlarmImpl.Alarm.Cancel` | util/alarm.cc:75-77 | Forgets the task and leaves the functor |
| `AlarmImpl.Alarm.Destroy` | util/alarm.cc:68-73 | Unlinks the functor |
| `AlarmImpl.Alarm.InvokeLater` | util/alarm.cc:99-104 | Posts a new functor linked in both directions |
| `AlarmImpl.Alarm.TryInvoke` | util/alarm.cc:106-125 | Runs the task when its time has come, re-posts when early, does nothing without a task |
| `RouterProofs.BurstsAreSpaced` | cast/streaming/sender_packet_router.cc:127-172 | In every run bursts number j and k are at least k - j burst intervals apart |
| `RouterProofs.RateGuarantee` | cast/streaming/sender_packet_router.cc:127-227 | In every run a window of length W carries at most (W / interval + 1) * max_packets_per_burst RTP packets, each counted at the start of its burst |
| `RouterInstants.RateByInstants` | cast/streaming/sender_packet_router.cc:127-227 | By the instants at which the packets go out, wherever these lie between the start of their burst and the next one, a window of length W carries at most (W / interval + 2) * max_packets_per_burst |
| `RouterInstants.BurstsDoNotOverlap` | cast/streaming/sender_packet_router.cc:156-172 | However long sending takes, a burst is over before the next one begins |
| `RouterProofs.WindowHoldsFewBursts` | cast/streaming/sender_packet_router.cc:156-172 | Counting: n bursts in a window need n - 1 intervals of it |
| `RouterRequests.NoRequestLost` | cast/streaming/sender_packet_router.cc:76-88 | In every run, from a request until the next burst, that sender stays due at once in that kind, and the alarm is armed no later than now or the pacing limit, with a live functor posted |
| `RouterRequests.RequestIsServed` | cast/streaming/sender_packet_router.cc:76-88 | In every run a request leads, by the time at which the pacing first allows it and up to the lag, to a burst for which that sender is due in that kind: its RTCP packet is sent if it has one, and some of its RTP packets unless it has none or others have used the whole budget |
| `RouterRequests.DueTimesFollowEvents` | cast/streaming/sender_packet_router.cc:53-88 | In every run each due time of each sender is set by its creation, by a request of that kind for that sender, and by the bursts that serve it; by nothing else |
| `RouterRequests.BurstSetsDue` | cast/streaming/sender_packet_router.cc:174-227 | What a burst makes of the due times: the report interval after a report, the resume time after media, unchanged for those not served |
| `RouterRequests.TurnIffBudgetLeft` | cast/streaming/sender_packet_router.cc:201-227 | A sender gets its RTP turn if and only if it is due and those above it have left some of the budget |
| `RouterRequests.PlansAreExact` | cast/streaming/sender_packet_router.cc:127-154 | In every run a request or a burst plans the next burst for exactly the earliest due time or the pacing limit, and for none only if nobody is ever due |
| `RouterRequests.BurstsAreWanted` | cast/streaming/sender_packet_router.cc:156-172 | In every run a burst finds somebody due, except after a sender was destroyed for whom it may have been planned |
| `RouterProofs.DueIsArmed` | cast/streaming/sender_packet_router.cc:127-154 | In every run, if a sender is due, the alarm is armed no later than the latest of now, the pacing limit and the due time, with a live functor posted |
| `RouterLatency.NobodyWaits` | cast/streaming/sender_packet_router.cc:127-172 | As long as there is no burst at all, and the runner has caught up, a due sender has not waited past the latest of when it was seen due, the pacing limit and its due time by more than the longest lag between two readings of the clock |
| `RouterLatency.DueSenderGetsBurst` | cast/streaming/sender_packet_router.cc:127-172 | Bounded latency over router and alarm: a sender due by d and not destroyed gets a burst for which it is due, whatever bursts others get before; if d lies ahead, such a burst may cost it one more interval or the length of a burst |
| `RouterLatency.DueSenderIsServed` | cast/streaming/sender_packet_router.cc:156-227 | In that burst its RTCP packet is sent if it has one, and some of its RTP packets unless it has none or others have used the whole budget |
| `RouterDelay.OthersCanDelay` | cast/streaming/sender_packet_router.cc:127-154 | A concrete run without any lag in which a burst for another sender just before its time makes a sender wait past its due time and the pacing limit |
| `RouterLatency.KeepsServed` | cast/streaming/sender_packet_router.cc:127-154 | While a due sender waits and there is no burst, no event puts off the firing that will start one |
| `RouterProofs.EveryBurstIsFair` | cast/streaming/sender_packet_router.cc:156-227 | In every run each burst sends RTCP first, one packet per due sender in strict priority order, then RTP in priority order within the remaining budget, and a sender's RTP only if every due sender before it was drained |
| `RouterProofs.BurstIsFair` | cast/streaming/sender_packet_router.cc:156-227 | The same of a single burst, for any sorted list and any answers |
| `RouterProofs.RtcpOncePerSender` | cast/streaming/sender_packet_router.cc:174-199 | A sender sends RTCP exactly if it is due and has a packet, once, strictly by priority |
| `RouterProofs.RtpUsesBudget` | cast/streaming/sender_packet_router.cc:201-227 | The number of RTP packets is the lesser of budget and demand, and none if the budget is not positive |
| `RouterProofs.RtpSentByShare` | cast/streaming/sender_packet_router.cc:201-227 | Each sender sends exactly its share |
| `RouterProofs.ShareAfterDrained` | cast/streaming/sender_packet_router.cc:201-227 | A sender gets a share only if every due sender before it gets all it wants |
| `RouterProofs.ReportsAreSpaced` | cast/streaming/sender_packet_router.cc:174-199 | In every run two RTCP reports of a sender, with no request for one in between, are at least the report interval apart |
| `RouterLatency.LeftOutGetsNextBurst` | cast/streaming/sender_packet_router.cc:201-227 | In every run a due sender whose packets a burst leaves out is still due after it, and unless destroyed gets another burst for which it is due one interval later, up to the lag |
| `RouterProofs.ScheduleRestoresInv` | cast/streaming/sender_packet_router.cc:127-154 | Planning the next burst re-arms the alarm for the earliest due time, whatever happened to the senders |
| `RouterProofs.InsertKeepsSorted` | cast/streaming/sender_packet_router.h:129-140 | A new sender keeps the list strictly sorted by priority |
| `RouterProofs.SortedListIsUnique` | cast/streaming/sender_packet_router.cc:53-63 | A strictly sorted list is determined by its elements, so sorting after appending is inserting |
| `RouterProofs.AlwaysInv` | cast/streaming/sender_packet_router.cc:53-227 | Sorted duplicate-free senders, spaced bursts within budget and an armed alarm in every reachable state |
| `RouterProofs.FireKeepsBase` | cast/streaming/sender_packet_router.cc:156-172 | The alarm starts a burst only a full interval after the last one |
| `RouterImpl.AppendAndSort` | cast/streaming/sender_packet_router.cc:53-63 | Appending and sorting in place yields the list with the entry inserted by priority |
| `RouterImpl.SenderPacketRouter.OnSenderCreated` | cast/streaming/sender_packet_router.cc:53-63 | Enters the sender, due never |
| `RouterImpl.SenderPacketRouter.OnSenderDestroyed` | cast/streaming/sender_packet_router.cc:65-74 | Removes the sender and nothing else |
| `RouterImpl.SenderPacketRouter.RequestRtcpSend` | cast/streaming/sender_packet_router.cc:76-81 | The sender's RTCP is due at once and the next burst is planned |
| `RouterImpl.SenderPacketRouter.RequestRtpSend` | cast/streaming/sender_packet_router.cc:83-88 | The sender's RTP is due at once and the next burst is planned |
| `RouterImpl.SenderPacketRouter.FindNextBurstTime` | cast/streaming/sender_packet_router.cc:127-143 | The loop finds the time of the closed form |
| `RouterImpl.SenderPacketRouter.PlanNextBurst` | cast/streaming/sender_packet_router.cc:127-154 | Schedules or cancels the alarm accordingly |
| `RouterImpl.SenderPacketRouter.SendJustTheRtcpPackets` | cast/streaming/sender_packet_router.cc:174-199 | The loop sends the RTCP packets of the closed form and sets the next report times of just those senders |
| `RouterImpl.SenderPacketRouter.SendJustTheRtpPackets` | cast/streaming/sender_packet_router.cc:201-227 | The nested loops send the RTP packets of the closed form and set the resume times of just the senders served |
| `RouterImpl.SenderPacketRouter.DrainSender` | cast/streaming/sender_packet_router.cc:212-222 | The inner loop sends a sender's packets until it has none or the budget is used |
| `RouterImpl.SenderPacketRouter.SendBurstOfPackets` | cast/streaming/sender_packet_router.cc:156-172 | A whole burst in place refines the closed form |
| `RouterImpl.SenderPacketRouter.OnTask` | cast/streaming/sender_packet_router.cc:156-172 | A task of the runner, through the alarm object, refines the state machine's step |
| `TrackerProofs.RegisterKeepsCounts` | cast/sender/cast_app_availability_tracker.cc:14-30 | Every count stays the total number of occurrences of the id over the registered sources, with no zero entry |
| `TrackerProofs.UnregisterKeepsCounts` | cast/sender/cast_app_availability_tracker.cc:37-53 | The same, and the count looked up is always there |
| `TrackerProofs.UnregisterUndoesRegister` | cast/sender/cast_app_availability_tracker.cc:14-53 | Unregistering restores registry and counts exactly |
| `TrackerProofs.NewAppsAreNew` | cast/sender/cast_app_availability_tracker.cc:23-29 | Registering reports each unknown app id once, and no other |
| `TrackerProofs.SupportIsMutual` | cast/sender/cast_app_availability_tracker.cc:94-163 | A registered source is among those a receiver supports if and only if the receiver is among those available for it |
| `TrackerProofs.UpdateReportsChanges` | cast/sender/cast_app_availability_tracker.cc:55-84 | A source that an update does not report has the same available receivers as before |
| `TrackerProofs.RemovalReportsChanges` | cast/sender/cast_app_availability_tracker.cc:86-92 | The same when a receiver's results are removed |
| `TrackerProofs.UpdateReportsExactly` | cast/sender/cast_app_availability_tracker.cc:55-84 | An update reports a source if and only if it has the app and the receiver begins or ceases to have it available |
| `TrackerProofs.RemovalReportsExactly` | cast/sender/cast_app_availability_tracker.cc:86-92 | A removal reports a source if and only if it loses the receiver |
| `TrackerImpl.CastAppAvailabilityTracker.RegisterSource` | cast/sender/cast_app_availability_tracker.cc:14-30 | Updates registry and counts in place and returns the new app ids |
| `TrackerImpl.CastAppAvailabilityTracker.UnregisterSource` | cast/sender/cast_app_availability_tracker.cc:37-53 | Takes the source out, with its counts |
| `TrackerImpl.CastAppAvailabilityTracker.CountUp` | cast/sender/cast_app_availability_tracker.cc:23-29 | The loop adds the occurrences and finds the ids whose count becomes one |
| `TrackerImpl.CastAppAvailabilityTracker.CountDown` | cast/sender/cast_app_availability_tracker.cc:44-50 | The loop subtracts the occurrences and erases ids at zero; the checked lookup succeeds |
| `TrackerImpl.CastAppAvailabilityTracker.UpdateAppAvailability` | cast/sender/cast_app_availability_tracker.cc:55-84 | Caches the result and returns the affected sources in order |
| `TrackerImpl.CastAppAvailabilityTracker.RemoveResultsForReceiver` | cast/sender/cast_app_availability_tracker.cc:86-92 | Forgets the receiver and returns the sources it supported |
| `TrackerImpl.CastAppAvailabilityTracker.GetSupportedSources` | cast/sender/cast_app_availability_tracker.cc:94-117 | The loops compute exactly the supported sources, in order |
| `TrackerImpl.CastAppAvailabilityTracker.GetAvailableReceivers` | cast/sender/cast_app_availability_tracker.cc:145-163 | The nested loops compute exactly the receivers with an available app, in order |
| `TrackerImpl.CastAppAvailabilityTracker.GetRegisteredApps` | cast/sender/cast_app_availability_tracker.cc:136-143 | The counted app ids, in order |
| `DiscoveryProofs.ObserversAreUpToDate` | cast/sender/cast_app_discovery_service_impl.cc:35-153 | In every run, after every event, what each live observer was last told is exactly the current list for its source |
| `DiscoveryHistory.ObserversKnowNewestInfo` | cast/sender/cast_app_discovery_service_impl.cc:35-153 | In every run what each live observer was last told is, told from the events alone, exactly the receivers added and not removed whose newest answer about some app of its source was "available", each once, in order, with the information last given for it |
| `DiscoveryHistory.ReceiversFollowEvents` | cast/sender/cast_app_discovery_service_impl.cc:76-95 | In every run the receivers known are those added and not removed, each with the information last given |
| `DiscoveryHistory.ResultsFollowEvents` | cast/sender/cast_app_discovery_service_impl.cc:112-125 | In every run the result for a receiver and an app is the newest answer that came while the receiver was present |
| `DiscoveryHistory.ObserversFollowEvents` | cast/sender/cast_app_discovery_service_impl.cc:35-65 | In every run the observers entered, with their sources, are those started and not stopped |
| `DiscoveryHistory.AskedFollowsEvents` | cast/sender/cast_app_discovery_service_impl.cc:67-110 | In every run the pairs asked about and not answered are exactly those that the events say: at each occasion to ask, those with no answer, an unknown one, or an unavailable one more than a minute old |
| `DiscoveryProofs.ListMatchesReceivers` | cast/sender/cast_app_discovery_service_impl.cc:143-153 | The list has one entry for each available receiver, in order |
| `DiscoveryProofs.NotifyIsEnough` | cast/sender/cast_app_discovery_service_impl.cc:127-141 | If every source whose list changed is notified, all observers are up to date again |
| `DiscoveryProofs.NotifyTells` | cast/sender/cast_app_discovery_service_impl.cc:127-141 | Observers of the listed sources are told the current list, all others nothing |
| `DiscoveryProofs.AddKeepsInv` | cast/sender/cast_app_discovery_service_impl.cc:76-88 | Adding or updating a receiver keeps every observer up to date and leaves no pair unasked |
| `DiscoveryProofs.RemoveKeepsInv` | cast/sender/cast_app_discovery_service_impl.cc:90-95 | So does removing one |
| `DiscoveryProofs.AnswerKeepsInv` | cast/sender/cast_app_discovery_service_impl.cc:112-125 | So does an answer, even a late one |
| `DiscoveryProofs.StartKeepsInv` | cast/sender/cast_app_discovery_service_impl.cc:35-65 | So does a new observer, which is told cached results |
| `DiscoveryProofs.StopKeepsInv` | cast/sender/cast_app_discovery_service_impl.cc:178-197 | So does the end of an observer |
| `DiscoveryProofs.RegistryMatchesObservers` | cast/sender/cast_app_discovery_service_impl.cc:48-62 | In every run the tracker's sources are exactly those with an observer, and its counts are exact |
| `DiscoveryProofs.NoPairForgotten` | cast/sender/cast_app_discovery_service_impl.cc:97-110 | In every run of the service, each pair of present receiver and observed app has a result, or was asked about and not answered since |
| `StackProofs.KnownAskedOrDropped` | cast/sender/cast_app_discovery_service_impl.cc:97-125 | In every run of the service on top of the client, each pair of present receiver and observed app has a result, or a request that is pending at the client or was dropped by it |
| `StackProofs.DroppedByAnEvent` | cast/sender/cast_platform_client.cc:104-186 | In such a run a request was dropped by a named event: it was canceled, or replied to without an entry for its app |
| `StackProofs.ObserversAreUpToDate` | cast/sender/cast_app_discovery_service_impl.cc:97-141 | In such a run, with the client's own callbacks as answers, every observer knows the current list |
| `StackProofs.BelowKeepsBacked` | cast/sender/cast_platform_client.cc:149-201 | Whatever happens at the client, an outstanding pair keeps an unanswered request, or the callback discharges it |
| `StackAnswers.ReplyReachesObservers` | cast/sender/cast_app_discovery_service_impl.cc:112-141 | In such a run, when a reply that an app is available reaches the receiver of its request, every observer of a source with that app has the receiver in its list, as it was last described |
| `StackAnswers.ReplyIsCached` | cast/sender/cast_platform_client.cc:149-186 | In such a run a reply that reaches the receiver of its request and names its app makes what it says the result that the service has, with the present time; any other changes nothing for that pair |
| `StackAnswers.GivingUpIsCached` | cast/sender/cast_platform_client.cc:90-102 | In such a run a request that times out, or is given up with its receiver or the client, leaves an unknown result with the present time |
| `StackAnswers.AskingIsCached` | cast/sender/cast_platform_client.cc:48-56 | In such a run asking about a receiver that the client does not know leaves an unknown result at once; asking about others changes no result |
| `StackAnswers.ServiceRuns` | cast/sender/cast_app_discovery_service_impl.cc:97-125 | The service's part of such a run is a run of the service alone, so all that holds of those holds with the client's callbacks as answers |
| `DiscoveryImpl.CastAppDiscoveryService.StartObservingAvailability` | cast/sender/cast_app_discovery_service_impl.cc:35-65 | In place, with the tracker object |
| `DiscoveryImpl.CastAppDiscoveryService.RefreshApps` | cast/sender/cast_app_discovery_service_impl.cc:67-74 | Asks again about every stale pair |
| `DiscoveryImpl.CastAppDiscoveryService.AddOrUpdateReceiver` | cast/sender/cast_app_discovery_service_impl.cc:76-88 | Stores the receiver, notifies and asks |
| `DiscoveryImpl.CastAppDiscoveryService.RemoveReceiver` | cast/sender/cast_app_discovery_service_impl.cc:90-95 | Forgets the receiver and notifies |
| `DiscoveryImpl.CastAppDiscoveryService.RequestAppAvailability` | cast/sender/cast_app_discovery_service_impl.cc:97-110 | Asks only if the cached result is missing or stale |
| `DiscoveryImpl.CastAppDiscoveryService.UpdateAppAvailability` | cast/sender/cast_app_discovery_service_impl.cc:112-125 | Ignores receivers that are gone; otherwise caches and notifies |
| `DiscoveryImpl.CastAppDiscoveryService.UpdateAvailabilityQueries` | cast/sender/cast_app_discovery_service_impl.cc:127-141 | The nested loops call every callback of the listed sources with the current list |
| `DiscoveryImpl.CastAppDiscoveryService.GetReceiversByIds` | cast/sender/cast_app_discovery_service_impl.cc:143-153 | The loop looks up the known receivers, in order |
| `DiscoveryImpl.CastAppDiscoveryService.RemoveAvailabilityCallback` | cast/sender/cast_app_discovery_service_impl.cc:178-197 | Removes one callback and, with the last one, the source |
| `ClientProofs.RequestsAreConserved` | cast/sender/cast_platform_client.cc:36-201 | In every reachable state an issued id is exactly one of pending (once), answered (once) or dropped, and pending requests are at known receivers |
| `ClientProofs.DroppedIffSomeEventDrops` | cast/sender/cast_platform_client.cc:104-186 | A request is dropped if and only if it was canceled or its reply had no entry for its app |
| `ClientProofs.AnsweredOnceUnlessDropped` | cast/sender/cast_platform_client.h:43-47 | The promise of exactly one callback holds if and only if no event dropped the request |
| `ClientProofs.CallbackCanBeLost` | cast/sender/cast_platform_client.cc:162-185 | A concrete run in which a callback is never called |
| `ClientProofs.ReplyReachesFirstReceiver` | cast/sender/cast_platform_client.cc:120-186 | A reply on any socket takes effect on the pending request it names if and only if the request's receiver uses that socket now and no receiver with a smaller id does; then one callback runs, that of the request, with available or unavailable if and only if the reply says so of its app, or the request is dropped if the reply does not name the app |
| `ClientHistory.FatesFollowEvents` | cast/sender/cast_platform_client.cc:36-201 | In every run what the client has of each request is exactly what the events make of it: not made; pending at the receiver asked, about the app asked for, until five seconds after; answered with what the reply said or with unknown; or dropped |
| `ClientHistory.SocketsFollowEvents` | cast/sender/cast_platform_client.cc:85-102 | In every run the receivers known, and their sockets, are those last given and not removed |
| `ClientHistory.RefusalsFollowEvents` | cast/sender/cast_platform_client.cc:48-56 | In every run the callbacks called without a request are, in order, those for receivers not known, with unknown |
| `ClientProofs.ReplyCanMissItsRequest` | cast/sender/cast_platform_client.cc:137-145 | A concrete run in which a reply that names a pending request and its app leaves it pending and unanswered |
| `TimeoutProofs.SettledByDeadline` | cast/sender/cast_platform_client.cc:66-69 | In every run of the client with an alarm per request, once the runner has called every due functor, each request older than five seconds, or the longest time between two readings of the clock if that is more, plus that time is answered once or dropped |
| `TimeoutProofs.TimeoutsArePending` | cast/sender/cast_platform_client.cc:188-201 | A timeout only ever runs for a request that is pending and five seconds old, and calls its callback once; any other firing leaves the table alone |
| `TimeoutProofs.AlwaysInv` | cast/sender/cast_platform_client.cc:64-71 | A request's alarm lives, armed for five seconds after the request or later, exactly as long as the request is pending, however it ends |
| `TimeoutProofs.ClientRuns` | cast/sender/cast_platform_client.cc:48-201 | The client's part of such a run is a run of the client alone, so all that holds of those holds with real alarms |
| `ClientProofs.EraseTakesOne` | cast/sender/cast_platform_client.cc:184-185 | Erasing takes exactly one request off the table |
| `ClientProofs.CollectsAllOnce` | cast/sender/cast_platform_client.cc:40-45 | The destructor's loops reach every pending request once |
| `ClientImpl.CastPlatformClient.RequestAppAvailability` | cast/sender/cast_platform_client.cc:48-83 | Answers at once for an unknown receiver; otherwise enters the request under a new id |
| `ClientImpl.CastPlatformClient.AddOrUpdateReceiver` | cast/sender/cast_platform_client.cc:85-88 | Stores the socket |
| `ClientImpl.CastPlatformClient.RemoveReceiver` | cast/sender/cast_platform_client.cc:90-102 | Answers the receiver's requests with unknown and forgets it |
| `ClientImpl.CastPlatformClient.CancelRequest` | cast/sender/cast_platform_client.cc:104-118 | The loop erases the request without a callback |
| `ClientImpl.CastPlatformClient.OnMessage` | cast/sender/cast_platform_client.cc:120-147 | Hands a reply to the first receiver on the socket |
| `ClientImpl.CastPlatformClient.HandleResponse` | cast/sender/cast_platform_client.cc:149-186 | Runs the callback if the reply has an entry for the app, and erases the request in any case |
| `ClientImpl.CastPlatformClient.CancelAppAvailabilityRequest` | cast/sender/cast_platform_client.cc:188-201 | The loop over all receivers answers the request with unknown and erases it |
| `ClientImpl.CastPlatformClient.Destroy` | cast/sender/cast_platform_client.cc:36-46 | Answers everything pending with unknown |
| `HandoffProofs.FramesStayInOrder` | cast/standalone_sender/streaming_vpx_encoder.cc:131-249 | In every interleaving the frames given, told from the calls alone with their timestamps, are taken once each and in order and sent in that order, and their RTP timestamps strictly increase |
| `HandoffProofs.AcceptsWhatIsGiven` | cast/standalone_sender/streaming_vpx_encoder.cc:131-195 | In every run the frames accepted are those of the calls that fit and come after the last frame, each with its own timestamp, the first call starting the timeline |
| `HandoffProofs.TakesTheNextGiven` | cast/standalone_sender/streaming_vpx_encoder.cc:207-249 | In every run a frame taken is the next one given, and is encoded at the bitrate wanted at that time |
| `HandoffProofs.BitrateIsWanted` | cast/standalone_sender/streaming_vpx_encoder.cc:97-122 | In every run the target bitrate is the one last set, at least a kilobit, and zero from the quit signal on |
| `HandoffProofs.NoWakeUpIsLost` | cast/standalone_sender/streaming_vpx_encoder.cc:207-228 | A thread that waits and was not notified has an empty queue and no quit signal |
| `HandoffProofs.WorkerEndsAfterQuit` | cast/standalone_sender/streaming_vpx_encoder.cc:97-104 | After the quit signal at most one more frame is taken, the thread ends within three steps, and until then it can always make one |
| `HandoffProofs.KeyFrameInTime` | cast/standalone_sender/streaming_vpx_encoder.cc:187-194 | A key-frame request applies to the next frame taken, hence no later than the frame that carried it |
| `HandoffProofs.ForcedIffRequested` | cast/standalone_sender/streaming_vpx_encoder.cc:223-227 | A frame is forced to be a key frame if and only if a request was open when it was taken |
| `HandoffProofs.UsableBitrateIffBeforeQuit` | cast/standalone_sender/streaming_vpx_encoder.cc:207-249 | A frame is encoded at a usable bitrate if and only if it was taken before the quit signal |
| `HandoffProofs.FrameTakenAfterQuit` | cast/standalone_sender/streaming_vpx_encoder.cc:207-249 | A concrete run in which a frame is taken after the quit signal, with bitrate zero |
| `HandoffProofs.BitrateZeroIffQuit` | cast/standalone_sender/streaming_vpx_encoder.cc:111-122 | The target bitrate is zero if and only if the quit signal was given |
| `HandoffImpl.StreamingVpxEncoder.TryEncodeAndSend` | cast/standalone_sender/streaming_vpx_encoder.cc:131-195 | Accepts a frame in place and notifies, or leaves the queue alone |
| `HandoffImpl.StreamingVpxEncoder.SetTargetBitrate` | cast/standalone_sender/streaming_vpx_encoder.cc:111-122 | Clamps the bitrate from below, and does nothing after the quit signal |
| `HandoffImpl.StreamingVpxEncoder.SignalQuit` | cast/standalone_sender/streaming_vpx_encoder.cc:97-104 | Sets the bitrate to zero and notifies |
| `HandoffImpl.StreamingVpxEncoder.WorkerEnter` | cast/standalone_sender/streaming_vpx_encoder.cc:207-249 | The encode thread's critical section from the top of its loop |
| `HandoffImpl.StreamingVpxEncoder.WorkerWake` | cast/standalone_sender/streaming_vpx_encoder.cc:207-249 | The critical section after a wake-up, notified or not |
| `HandoffImpl.StreamingVpxEncoder.WorkerFinish` | cast/standalone_sender/streaming_vpx_encoder.cc:240-245 | Posts the result to the main thread and returns to the top of the loop |
| `HandoffImpl.StreamingVpxEncoder.OnResult` | cast/standalone_sender/streaming_vpx_encoder.cc:399-428 | A result reaches the main thread; a failed enqueue asks for a key frame |
| `AgentProofs.OneAppAtATime` | cast/receiver/application_agent.cc:326-438 | In every run launches and stops alternate, each launch is matched by a stop but for what runs now, the running app is registered under its launch id, and the last broadcast says what runs, under which id, and whether it is the idle screen |
| `AgentCommands.CommandsAreObeyed` | cast/receiver/application_agent.cc:92-312 | In every run a STOP for another session, a stop of an app that does not run and the closing of a socket that is not attached change nothing; a STOP for the running session or any, a stop of what runs and the closing of its socket end with the idle app or nothing, and what ran is stopped unless it is the idle app |
| `AgentCommands.StopObeysItsSession` | cast/receiver/application_agent.cc:293-312 | The same of STOP alone: what runs is stopped if and only if the session is its own or none is named |
| `AgentCommands.RegistryFollowsEvents` | cast/receiver/application_agent.cc:52-90 | In every run the app under each id, and the idle app, are those that the registrations and unregistrations say |
| `AgentCommands.RegistryCommands` | cast/receiver/application_agent.cc:52-90 | In every run registering starts an app only as the idle screen and when nothing runs, and unregistering stops only what is unregistered |
| `AgentCommands.LaunchesWhatIsAskedFor` | cast/receiver/application_agent.cc:268-291 | In every run a LAUNCH starts the app registered under its id by the events so far, leaves it alone if it runs, and in each error case leaves what the code leaves |
| `AgentProofs.IdleScreenShownIfPossible` | cast/receiver/application_agent.cc:326-387 | If an idle app is registered and nothing runs, the latest attempt to launch it failed |
| `AgentProofs.AllStoppedInTheEnd` | cast/receiver/application_agent.cc:43-50 | Destruction stops what still runs, so every launch has its stop |
| `AgentProofs.LaunchesMatchStops` | cast/receiver/application_agent.cc:348-374 | In any log that is in order launches and stops of an app balance |
| `AgentProofs.SwitchEndsWell` | cast/receiver/application_agent.cc:326-379 | Every switch restores the invariant, from any state whose registry is in order |
| `AgentProofs.RegisterKeepsInv` | cast/receiver/application_agent.cc:52-71 | Registering keeps the invariant, whether or not the idle app can be launched |
| `AgentProofs.UnregisterKeepsInv` | cast/receiver/application_agent.cc:73-90 | Unregistering keeps it, including for the running and the idle app |
| `AgentProofs.GoIdleStopsTheRest` | cast/receiver/application_agent.cc:381-387 | Going idle leaves the idle app or nothing, and detaches the socket if anything changed |
| `AgentProofs.LaunchOutcome` | cast/receiver/application_agent.cc:268-291 | LAUNCH succeeds if and only if the app is known and runs already or can be launched, and what runs in each error case |
| `AgentProofs.PortBelongsToLauncher` | cast/receiver/application_agent.cc:355-366 | In every run an attached socket is that of the LAUNCH that started what runs, and it has run since |
| `AgentCommands.AttachedIffLaunchedFor` | cast/receiver/application_agent.cc:348-366 | In every run a socket is attached if and only if what runs was launched for it by a LAUNCH, nothing was launched or stopped since, and it has not expired |
| `AgentProofs.ClosingEndsTheSession` | cast/receiver/application_agent.cc:206-218 | When the attached socket closes, an app other than the idle one is stopped |
| `AgentImpl.ApplicationAgent.RegisterApplication` | cast/receiver/application_agent.cc:52-71 | In place, with the loop over the app ids and its checks |
| `AgentImpl.ApplicationAgent.UnregisterApplication` | cast/receiver/application_agent.cc:73-90 | The loop erases exactly the app's ids |
| `AgentImpl.ApplicationAgent.StopApplicationIfRunning` | cast/receiver/application_agent.cc:92-96 | Goes idle only if that app runs |
| `AgentImpl.ApplicationAgent.OnClose` | cast/receiver/application_agent.cc:206-218 | Goes idle only if the socket is the attached one |
| `AgentImpl.ApplicationAgent.HandleLaunch` | cast/receiver/application_agent.cc:268-291 | State and error of a LAUNCH |
| `AgentImpl.ApplicationAgent.HandleStop` | cast/receiver/application_agent.cc:293-312 | Goes idle if there is no session id or it is the running app's |
| `AgentImpl.ApplicationAgent.SwitchToApplication` | cast/receiver/application_agent.cc:326-379 | State, log of launches and stops, and error of a switch |
| `AgentImpl.ApplicationAgent.GoIdle` | cast/receiver/application_agent.cc:381-387 | Switches to the idle app or to nothing |
| `AgentImpl.ApplicationAgent.BroadcastReceiverStatus` | cast/receiver/application_agent.cc:389-438 | Broadcasts what runs |
| `AgentImpl.ApplicationAgent.Destroy` | cast/receiver/application_agent.cc:43-50 | Stops what runs without falling back to the idle app |
| `OpusProofs.AudioIsConserved` | cast/standalone_sender/streaming_opus_encoder.cc:94-152 | In every run all input is, in its order, in full frames, in what skips discarded and in the queue; a skip discards less than a frame |
| `OpusProofs.TimelinesRise` | cast/standalone_sender/streaming_opus_encoder.cc:149-215 | In every run RTP timestamps of two frames differ by at least a frame, by just that if and only if nothing came between, and reference times strictly increase |
| `OpusProofs.FeedSendsChunks` | cast/standalone_sender/streaming_opus_encoder.cc:104-151 | The loop sends just the full frames of queue and batch together, evenly spaced on both timelines |
| `OpusProofs.BatchesJoin` | cast/standalone_sender/streaming_opus_encoder.cc:104-151 | Feeding two batches equals feeding their concatenation |
| `OpusProofs.CallKeepsUp` | cast/standalone_sender/streaming_opus_encoder.cc:163-215 | In every run each frame that a call sends, the first call included, is less than four frames behind the call's position on the RTP timeline, and its reference time is that of its first sample or, exactly when the last frame is too close, later |
| `OpusCalls.CallIsExact` | cast/standalone_sender/streaming_opus_encoder.cc:94-215 | In every run a call cuts what is queued and its own samples into frames that carry its own capture times; timestamps go on from the log unless more than three frames lie between, in which case the queue is discarded and they resume at the call's position; the reference time is the call's less what is queued, but after that of the last frame |
| `OpusCalls.StartsAtFirstCall` | cast/standalone_sender/streaming_opus_encoder.cc:163-170 | In every run both timelines start at the first call |
| `OpusProofs.FramesOfCall` | cast/standalone_sender/streaming_opus_encoder.cc:133-150 | In every run the frames of a call are evenly spaced on both timelines from where it starts |
| `OpusProofs.ResolveKeepsInv` | cast/standalone_sender/streaming_opus_encoder.cc:163-215 | Resolving keeps both timelines and accounts for what it discards |
| `OpusProofs.FramesOnTimeline` | cast/standalone_sender/streaming_opus_encoder.cc:149-192 | On any log in order: the distance of frames, with its exact condition |
| `OpusProofs.EntriesHaveTheirSize` | cast/standalone_sender/streaming_opus_encoder.cc:110-117 | Frames are full, and skips discard less than a frame |
| `OpusImpl.StreamingOpusEncoder.constructor` | cast/standalone_sender/streaming_opus_encoder.cc:33-57 | An empty buffer of one frame, not started |
| `OpusImpl.StreamingOpusEncoder.EncodeAndSend` | cast/standalone_sender/streaming_opus_encoder.cc:94-152 | Timestamps, then the loop over the batch, with the buffer updated in place |
| `OpusImpl.StreamingOpusEncoder.EncodeBatch` | cast/standalone_sender/streaming_opus_encoder.cc:104-151 | The loop refines the recursive description |
| `OpusImpl.StreamingOpusEncoder.ResolveTimestampsAndMaybeSkip` | cast/standalone_sender/streaming_opus_encoder.cc:163-215 | Skips ahead when too far behind, and clamps the reference time |
| `OpusImpl.StreamingOpusEncoder.FillInputBuffer` | cast/standalone_sender/streaming_opus_encoder.cc:217-226 | Appends as many samples of all channels as fit |
| `BitVectors.BitVector.Resize` | util/bit_vector.cc:15-22 | The contents are the given number of copies of the fill, and the tail bits are zero |
| `BitVectors.BitVector.Set` | util/bit_vector.h:40-43 | The contents change at just that position, to true |
| `BitVectors.BitVector.Clear` | util/bit_vector.h:45-48 | The contents change at just that position, to false |
| `BitVectors.BitVector.IsSet` | util/bit_vector.h:50-53 | The boolean at the position |
| `BitVectors.BitVector.FindFirstSet` | util/bit_vector.cc:24-32 | The least set position, or the size if there is none |
| `BitVectors.PackedIsUnique` | util/bit_vector.cc:15-22 | Equal booleans mean equal words: with a zero tail nothing else is stored |
| `BitVectors.UpdateOneBit` | util/bit_vector.h:40-48 | Changing one bit of one word changes one boolean and keeps the tail zero |
| `BitVectors.FilledIsPacked` | util/bit_vector.cc:15-22 | The words Resize makes stand for the fill, also when the last one is partial |
| `BitVectors.FirstInWord` | util/bit_vector.cc:24-32 | The first set bit of the first non-zero word is the first of all |
| `Words.TrailingZeros` | util/bit_vector.cc:27-28 | The number of trailing zeros is the position of the least set bit |
| `BigEndianProofs.RoundTrip` | util/big_endian.h:215-246 | Any list of integer fields and byte runs, fitting or not: a reader on a machine of either byte order finds every field that was written, fails exactly on those that were not, and ends at the same offset |
| `BigEndianProofs.WritesAll` | util/big_endian.h:236-246 | The offset moves by the sizes of what was written, failed writes move nothing, and no byte outside changes |
| `BigEndianProofs.ReadsNetworkOrder` | util/big_endian.h:132-141 | Reading yields the number in network order, as two's complement if signed, on either machine |
| `BigEndianProofs.WritesNetworkOrder` | util/big_endian.h:143-150 | Writing yields the bytes of the number in network order, on either machine |
| `BigEndianProofs.NetworkIsInjective` | util/big_endian.h:132-150 | Only one sequence of bytes of a given length stands for a number |
| `BigEndianProofs.NumberRoundTrip` | util/big_endian.h:132-150 | Every value of every signed or unsigned width is read back |
| `BigEndianProofs.AllFit` | util/big_endian.h:236-246 | Fields that fit together are all written |
| `BigEndianProofs.SkipIsReading` | util/big_endian.h:177-183 | Skipping succeeds, fails and moves exactly as reading as many bytes does, and as writing them back as they are |
| `BigEndianProofs.CloseRestores` | util/big_endian.h:155-175 | A cursor restores the offset of its last commit, or of its opening, whatever nested cursors do; the cursor and buffer objects refine the steps it is about |
| `BigEndianImpl.BigEndianBuffer.Skip` | util/big_endian.h:177-183 | Advances if there is room |
| `BigEndianImpl.BigEndianBuffer.WriteBytes` | util/big_endian.cc:37-45 | Copies a byte run into place if it fits |
| `BigEndianImpl.BigEndianBuffer.ReadBytes` | util/big_endian.cc:18-26 | Copies the next bytes out if there are enough |
| `BigEndianImpl.BigEndianBuffer.WriteNumber` | util/big_endian.h:237-246 | Swaps if needed and copies an integer into place |
| `BigEndianImpl.BigEndianBuffer.ReadNumber` | util/big_endian.h:215-224 | Copies an integer out and swaps if needed |
| `BigEndianImpl.Cursor.constructor` | util/big_endian.h:157-158 | Remembers the offset: the opening of a cursor on the buffer's stack of cursors |
| `BigEndianImpl.Cursor.Commit` | util/big_endian.h:166-166 | Remembers the present offset: the commit at the cursor's own level of the stack, no other |
| `BigEndianImpl.Cursor.Close` | util/big_endian.h:161-161 | Restores the remembered offset and leaves the buffer valid: the closing of the innermost cursor |
| `SimpleFractions.RoundTrip` | util/simple_fraction.cc:20-50 | Every pair of 32-bit integers is read back as it was printed |
| `SimpleFractions.PrintsDiffer` | util/simple_fraction.cc:45-50 | No two fractions print alike |
| `SimpleFractions.ReadsInts` | util/simple_fraction.cc:20-43 | What is read is a pair of 32-bit integers, and printing and reading it again changes nothing |
| `SimpleFractions.ReadsIffSpelled` | util/simple_fraction.cc:20-43 | Of all texts exactly these are read as a fraction: its numerator, or numerator and denominator with one or more slashes between, with any number of slashes at the end |
| `Strings.SplitFindsTokens` | util/string_util.cc:149-158 | Split returns exactly the maximal non-empty delimiter-free runs, from left to right |
| `Strings.SplitLoop` | util/string_util.cc:149-158 | The loop over the pieces refines Split |
| `Strings.SplitUndoesJoin` | util/string_util.h:118-129 | Split undoes Join for non-empty delimiter-free pieces |
| `Strings.SplitUndoesJoinOnlyOf` | util/string_util.h:110-129 | Split undoes Join if and only if no piece is empty or holds the delimiter |
| `Strings.JoinLoop` | util/string_util.h:118-129 | The loop over the stream refines Join |
| `Strings.ParseUndoesPrint` | util/string_parse.h:22-28 | A printed integer is parsed back exactly if it fits, whatever non-digit follows; otherwise parsing fails |
| `Strings.NumberHasValue` | util/string_parse.h:22-28 | Any sign and digits, leading zeros too, parse as their decimal value if it fits, and fail otherwise |
| `Strings.ReadsNumbersOnly` | util/string_parse.h:22-28 | Nothing else parses |
| `IntegerDivision.RoundsUp` | util/integer_division.h:17-27 | The result is the exact ceiling of the quotient for all signs, and nothing else is |
| `IntegerDivision.RoundsToNearest` | util/integer_division.h:44-54 | The result is the floor of the quotient plus one half for all signs, and nothing else is |
| `IntegerDivision.PositivesAgree` | util/integer_division.h:32-63 | For non-negative values the unsigned forms do not wrap and give the same results |

## Left out

- Identifiers of sources, receivers and apps in the discovery stack are ordered integers instead of strings: only their order and equality matter there.
- AlarmImpl.CancelableFunctor.MoveFrom: moving a queued functor is an event of the alarm's state machine, but the class of the task runner does not move what it holds; it is proved for the functor alone.
- AlarmImpl.TaskRunner.RunTask: one alarm per task runner; functors of other clients are not in its queue.
- AlarmImpl.Alarm.TryInvoke: hands the client's task to its caller instead of calling it; what the task does re-entrantly are the events that follow.
- RouterImpl.SenderPacketRouter.OnSenderDestroyed: does not model the router's destructor, functors that the task runner discards, or packets received.
- DiscoveryImpl.CastAppDiscoveryService.RequestAppAvailability: the class records the request and gets its answer by a call; the service on top of the client is a state machine only, in which the client's alarms are the client's own timeouts.
- ClientImpl.CastPlatformClient.OnMessage: a message is its request id and its string entries; JSON, namespaces and the virtual connection are not modelled.
- ClientImpl.CastPlatformClient.RequestAppAvailability: the class has the request's deadline in place of its alarm object; the alarms are in the state machine of the client with its alarms.
- TimeoutProofs.SettledByDeadline: the task runner does not discard functors of these alarms; what discarding does to an alarm is stated for the alarm alone.
- HandoffImpl.StreamingVpxEncoder.TryEncodeAndSend: the image, the duration and the in-flight computation are opaque values; the first reference time is not the clock's minimum.
- OpusProofs.TimelinesRise: a reference time equal to the clock's minimum, which the code reads as "not started", is excluded from runs.
- AgentImpl.ApplicationAgent.HandleStop: a session id is missing, the running application's or another; session ids themselves are not modelled.
- BitVectors.BitVector.Resize: sizes within a word of the maximum of size_t, for which the word count would wrap, are not modelled.
- IntegerDivision.RoundsUp: overflow of the signed forms is not modelled; the integers are unbounded there.
- Codecs, pixels, encoder speed and quantizer tuning, and the AV1 encoder, whose protocol is that of the VPX encoder.
- Which frame a dependent frame refers to, after a failed enqueue.
- Sockets, TLS, protobuf and JSON, the virtual connection router, the bandwidth estimator and packet inspection.
- Overflow of request, query and functor counters, and of RTP timestamps.
- Logging, tracing, hashing, base64, enum tables and smart pointers: they hold no state that the modelled components depend on.
