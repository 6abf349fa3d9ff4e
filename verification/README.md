# Verified model of the console's stateful parts

The console is a web UI with a Go bridge behind it. This project models its stateful and algorithmic
parts and proves what they promise, for all inputs and over all runs:

- **The WebSocket wrapper** (`WebSocketModel`, `WebSocketTimers`, `WebSocketOnce`, `WebSocketStream`,
  `WebSocketFlow`, `WebSocketBackoff`, class in `WSFactory.dfy`). The wrapper, the browser's timers and the sockets that
  still have callbacks form one state machine. Handlers may call pause, unpause and destroy
  re-entrantly, to any depth: a `Script` is the tree of those calls. A flush hands its messages over
  together to a bulk handler, or one by one to the message handlers, which may call back in between.
  Sockets that `_connect` has replaced but not detached stay in the model.
- **The session store and the OIDC operations over it** (`SessionModel`, `SessionPrune`,
  `SessionInvariant`, classes in `SessionStore.dfy`). The expiry loop is modelled with its skip and reads
  the clock anew in every turn.
- **The impersonation subprotocol** (`Base64`, `Subprotocol`, `SubprotocolRoundTrip`,
  `SubprotocolOrder`, `Proxy`): the client's encoding, the comma-separated header, the proxy's loops, and
  every header that is forwarded.
- **The event stream cache** (`EventStreamModel`, `EventStreamLaws`, `EventPipeline`, class in
  `EventStream.dfy`), over the stable sort of `Sorting`.
- **Smaller algorithms**: report aggregation, the mocked paginator, revision order and grouping, the
  RBAC rule editor, the LDAP form, and configuration pruning.

Imperative code is a class or a method with loops, proved equal to a function on values; the laws are
lemmas about those functions, and say what they compute without naming them. `Picking` says once what it
means to filter a list: every element that passes stays, with its multiplicity and in its place. `dafny verify dfyconfig.toml` checks everything.

Several promises hold only under a condition. Each is proved as an if-and-only-if:

- A destroyed wrapper stays destroyed exactly when no replaced socket can still open, fail or close
  (`DestroyIsFinalExactly`); `DestroyedCanReturn` is a run from construction in which one does.
- Run by run, a destroyed wrapper changes nothing but its pause flag exactly as long as no replaced socket
  calls back (`UnmovedExactly`). Over every run the destroy event is delivered once if the wrapper is
  destroyed and else never, exactly when no replaced socket called back after a destroy and no destroy
  handler reached another destroy (`DestroyedOnceExactly`).
- A flush delivers each message once exactly when its handlers do not unpause before the buffer is
  emptied (`FlushDeliversOnce`), and a destroy delivers its event once exactly when its handlers do not
  destroy again (`DestroyEventOnce`).
- One prune does not clear the expired sessions: it halves every run of them, so n calls clear the
  store exactly when n > floor(log2 k) for every run of k (`CallsToClear`). For the same reason a login
  that is already expired can survive its own prune: exactly when the loop passes over it
  (`LoginSurvives`), which with a still clock means behind an odd run (`ExpiredLoginSurvives`).
- A login cuts a session for capacity exactly when the store was full and the expiry loop took nothing;
  it then cuts one, the oldest (`LoginCutsOne`).
- After a batch of events the shown list and the dictionary agree exactly when the batch left a message
  or nothing was shown (`BatchSyncs`): otherwise `flushMessages` throws on the empty list, and a deleted
  event stays on it (`DeletedEventStays`).
- The proxy answers with a 400 exactly when a listed impersonation token does not decode
  (`ForwardedHeaders`), and `DecodableExactly` says which names decode, character by character.
- The flush interval runs exactly for a buffered wrapper that was never destroyed (`IntervalRuns`), so a tick
  delivers the buffer exactly then, unless it is paused (`TickDelivers`). A wrapper that a replaced socket
  opens again after its destruction buffers messages that only an unpause still delivers.
- Continue on the LDAP form is enabled after an input exactly when the input was the accepted reply to a test
  of the current version (`EnabledExactly`).
- A page token is read exactly when a numeral stands at its front (`ReadsExactly`).
- All orders in which Go may visit the request headers give the same result exactly when the client
  sends no conflicting header of its own (`OrderIrrelevantExactly`).
- The revision comparator contradicts itself exactly when both revisions are missing or zero and at
  least one is zero (`ConsistentExactly`).
- Loading and saving a rule keeps its permissions exactly when all its names are known or one is `*`
  (`VerbsRoundTrip`, `ResourcesRoundTrip`).
- The recorded column maximum of a report is the largest group sum exactly when whatever positive amount
  a group had on the way, some group has at least that much in the end (`PeakIsMaximumExactly`). It is so
  for non-negative data (`PeakIsMaximum`); an amount of 5 followed by -3 is a counterexample
  (`NegativeLeavesPeak`).
- The comparator of label groups contradicts itself exactly when it is asked about "other" twice
  (`GroupsCompareConsistently`), which sorting groups with different names never does.

The event list is cut to 500 after each batch without loss even for equal timestamps, because the sort
is stable (`SortIsStable`): `BatchingIsIrrelevant` needs distinct uids only. `BurstsLoseNothing` runs the wrapper with its
500-message buffer and the component behind it: a burst that overflows the buffer costs the list nothing
if every message kept of a window stands strictly before every message dropped of it, by a later time or, at
the same time, by name. For distinct uids the cut is harmless, whatever came before, exactly then
(`CutIsHarmlessExactly`).

Times, clocks, random tokens and the outcome of `new WebSocket` are parameters. Each session store
method is one atomic step, as under the store's lock; the freshness test in `addSession`, which the
source makes before it takes the lock, is part of that step, and `InsertNeedsFreshToken` says what the
lock alone guarantees. `CallsKeepAgreement` covers every interleaving of such steps. Header keys are in canonical form. Message contents, form values and the row filter
of the event list are opaque.

## Model

| member | source | states |
|---|---|---|
| WebSocketTimers.SingleReconnectTimer | frontend/public/module/ws-factory.js:65-134 | over every run with any handlers, at most one reconnect timer is live, it is the one in `_connectionAttempt`, none is live once destroyed, and a closed wrapper that should reconnect has one |
| WebSocketTimers.TraceKeepsInv | frontend/public/module/ws-factory.js:65-134 | the timer invariant survives every run from any state that has it |
| WebSocketTimers.StepKeepsInv | frontend/public/module/ws-factory.js:65-282 | every single event keeps it, also events of replaced sockets and handlers that destroy |
| WebSocketTimers.ReactCore | frontend/public/module/ws-factory.js:144-156 | whatever handlers call, the connection half is untouched or completely torn down |
| WebSocketTimers.OpenStopsRetrying | frontend/public/module/ws-factory.js:106-114 | after an open event no reconnect timer is left, whatever its handlers do |
| WebSocketTimers.CloseStartsRetrying | frontend/public/module/ws-factory.js:115-120 | after every close a reconnect timer is live unless handlers destroyed the wrapper; a new one waits 1000 |
| WebSocketTimers.LateMessagesKeepClosed | frontend/public/module/ws-factory.js:126-133 | messages that arrive after a close never make the wrapper look open |
| WebSocketTimers.DestroyedIsFinal | frontend/public/module/ws-factory.js:136-176 | nothing ever changes after destruction iff no socket with callbacks can still open, fail or close |
| WebSocketTimers.DestroyIsFinalExactly | frontend/public/module/ws-factory.js:249-282 | asked before the call: destroy is final iff every socket but the current one is down |
| WebSocketTimers.DestroyedCanReturn | frontend/public/module/ws-factory.js:94-114 | a run from construction in which a replaced socket opens a destroyed wrapper |
| WebSocketTimers.DestroyEventOnce | frontend/public/module/ws-factory.js:272-278 | one destroy delivers its event once iff no destroy handler reaches another destroy |
| WebSocketOnce.DestroyedOncePerRun | frontend/public/module/ws-factory.js:249-282 | over every run in which destroy handlers do not destroy and no replaced socket calls back after a destroy, the destroy event is delivered once if destroyed, else never, and a destroyed wrapper stays as it is exactly as long as those sockets stay silent |
| WebSocketOnce.DestroyedOnceExactly | frontend/public/module/ws-factory.js:136-282 | over all runs with any handlers, once if destroyed and else never iff no replaced socket called back after a destroy and no destroy reached another |
| WebSocketOnce.UnmovedExactly | frontend/public/module/ws-factory.js:136-176 | run by run, a destroyed wrapper moves iff a replaced socket calls back |
| WebSocketTimers.ReactBalance | frontend/public/module/ws-factory.js:144-156 | handlers destroy a live wrapper iff they reach destroy, and deliver one event for it iff no destroy they reach reaches another |
| WebSocketOnce.OrderlyIsFinal | frontend/public/module/ws-factory.js:94-134 | if only dead sockets are replaced, no replaced socket calls back, a destroyed wrapper never moves again, and polite handlers see one destroy event |
| WebSocketOnce.OrderlyTrace | frontend/public/module/ws-factory.js:94-134 | if only dead sockets are replaced, no live replaced socket ever exists and none calls back |
| WebSocketStream.BufferedStream | frontend/public/module/ws-factory.js:94-97 | over every run, whatever handlers do, the buffer is the last min(n, bufferMax) messages since it was emptied, deliveries were received, and each message is delivered, lost or buffered; if no handler unpauses in the middle of a flush, deliveries are an order-preserving subsequence without repeats |
| WebSocketStream.StepKeepsAny | frontend/public/module/ws-factory.js:65-282 | every event, with any handlers, keeps the rest of that invariant |
| WebSocketStream.StepKeepsStream | frontend/public/module/ws-factory.js:159-176 | each event whose flush handlers do not unpause keeps deliveries in order and without repeats |
| WebSocketStream.CalmFlush | frontend/public/module/ws-factory.js:209-225 | a flush whose handlers do not unpause hands over exactly the buffer, once and in order, with or without a bulk handler and even if they destroy the wrapper in between |
| WebSocketStream.FlushLosesNothing | frontend/public/module/ws-factory.js:209-225 | whatever its handlers do, a flush hands over every buffered message and loses none |
| WebSocketStream.FlushDeliversOnce | frontend/public/module/ws-factory.js:209-235 | no message is delivered twice by a flush iff its handlers stay calm |
| WebSocketFlow.PauseStops | frontend/public/module/ws-factory.js:227-230 | in buffered mode, from any state, nothing is delivered after a pause over any run without an unpause, and the wrapper is still paused at its end; the pause changes nothing else |
| WebSocketFlow.HandlersPause | frontend/public/module/ws-factory.js:144-156 | so it is after a pause by a handler that no later call unpauses |
| WebSocketFlow.UnpauseDelivers | frontend/public/module/ws-factory.js:232-235 | after every run from construction an unpause hands over everything buffered and loses nothing; the wrapper is then not paused if its handlers do not pause |
| WebSocketFlow.IntervalRuns | frontend/public/module/ws-factory.js:60-62 | over every run from construction the flush interval is live iff there is a buffer and the wrapper was never destroyed |
| WebSocketFlow.TickDelivers | frontend/public/module/ws-factory.js:209-225 | a tick then empties the buffer and delivers every position in it, with any handlers, unless the wrapper is paused; every other tick does nothing |
| WebSocketFlow.MessageExactly | frontend/public/module/ws-factory.js:126-176 | what an arriving message does to the phase, the buffer and the deliveries, in every phase and mode |
| WebSocketFlow.PhaseAfter | frontend/public/module/ws-factory.js:106-125 | an open leaves the phase open, a close closed, an error failed, iff its handlers reach no destroy; else destroyed |
| WebSocketFlow.FirstDial | frontend/public/module/ws-factory.js:94-104 | a new wrapper has one connecting socket, or, if none could be created, a timer at 1000 |
| WebSocketFlow.FiringExactly | frontend/public/module/ws-factory.js:72-89 | in which case a firing timer throws, stops, destroys, or dials and sets the next timer, and what it leaves |
| WebSocketStream.NothingLost | frontend/public/module/ws-factory.js:159-225 | without reconnect and destroy nothing is lost iff every window receives at most bufferMax messages; then, if flush handlers do not unpause, deliveries plus buffer are the received messages |
| WebSocketBackoff.DelayShape | frontend/public/module/ws-factory.js:70-91 | delays start at 1000, never decrease, never exceed 60000 and reach 60000 exactly at the twelfth |
| WebSocketBackoff.TimeoutDestroys | frontend/public/module/ws-factory.js:72-89 | if nothing opens, 0 < T < 60000 destroys at the first delay above T, after at most 11 reconnects and 12 firings; T >= 60000 never does |
| WebSocketWrapper.WSFactory.constructor | frontend/public/module/ws-factory.js:42-63 | the constructed object is the initial state: not paused, empty buffer, the interval running iff buffered, and a connecting socket or a timer at 1000 |
| WebSocketWrapper.WSFactory.Handle | frontend/public/module/ws-factory.js:106-133 | each browser event or user call takes exactly the model's step |
| WebSocketWrapper.WSFactory.OnTimer | frontend/public/module/ws-factory.js:72-89 | the timer callback, with the deleted options it may meet |
| WebSocketWrapper.WSFactory.Connect | frontend/public/module/ws-factory.js:94-104 | connect empties the buffer and replaces the socket, or schedules a reconnect |
| WebSocketWrapper.WSFactory.ScheduleReconnect | frontend/public/module/ws-factory.js:65-92 | a reconnect is scheduled unless one is held or the wrapper is destroyed |
| WebSocketWrapper.WSFactory.InvokeHandlers | frontend/public/module/ws-factory.js:144-156 | handlers run and call back; between messages of a flush the next one is handed over |
| WebSocketWrapper.WSFactory.FlushMessageBuffer | frontend/public/module/ws-factory.js:209-225 | the flush on fields, to the bulk handler or message by message over the old array |
| WebSocketWrapper.WSFactory.DestroyNow | frontend/public/module/ws-factory.js:249-282 | destroy on fields |
| WebSocketWrapper.WSFactory.OnSocketMessage | frontend/public/module/ws-factory.js:126-133 | a text that does not parse changes nothing; else state update, then push and shift or immediate delivery |
| SessionPrune.SweepSplits | auth/session.go:73-80 | a maximal run of expired entries keeps exactly its entries at odd places and the loop starts afresh behind it |
| SessionPrune.SweepHalvesRuns | auth/session.go:73-80 | one call turns every run length k into k/2 |
| SessionPrune.SweepKeepsUnexpired | auth/session.go:73-80 | no unexpired entry is removed and their order is kept |
| SessionPrune.CallsToClear | auth/session.go:69-80 | n calls leave nothing expired iff n > floor(log2 k) for every run of k |
| SessionPrune.SweepNewest | auth/session.go:73-80 | for any clock, when exactly the newest entry is swept |
| SessionPrune.PassedOverIsOdd | auth/session.go:73-80 | while the clock stands still an entry is passed over iff it stands behind an odd run of expired ones |
| SessionPrune.SweepSteadily | auth/session.go:73-80 | while the clock stands still the loop is the sweep of the statements above |
| SessionInvariant.StoreIsSound | auth/session.go:33-94 | over every run of whole logins, logouts and authentications byAge has distinct tokens that are the keys of byToken, expiries agree, states know their token, and at most maxSessions are stored |
| SessionInvariant.CallsKeepAgreement | auth/session.go:33-94 | over every interleaving of adds, deletes and prunes the indexes agree, and hold at most maxSessions sessions and those added since the last prune |
| SessionInvariant.OpIsItsCalls | auth/auth_oidc.go:51-133 | an uninterrupted operation is the run of its store calls |
| SessionInvariant.DoKeepsSound | auth/auth_oidc.go:51-133 | every operation keeps that |
| SessionInvariant.InsertNeedsFreshToken | auth/session.go:35-44 | what addSession does under its lock keeps the indexes in agreement iff the token is still fresh then |
| SessionInvariant.CollisionEndsSession | auth/session.go:35-38 | a token drawn twice ends the session that holds it, in both indexes, and starts none |
| SessionInvariant.OthersUntouched | auth/auth_oidc.go:51-133 | no operation changes another user's state, and only a successful login can end it |
| SessionInvariant.LoginSurvives | auth/auth_oidc.go:69-83 | for any clock, a login is stored after its own prune iff there is room for one and the expiry loop does not take it |
| SessionInvariant.ExpiredLoginSurvives | auth/auth_oidc.go:69-83 | with a still clock, iff there is room and it is unexpired or stands behind an odd run of expired sessions |
| SessionInvariant.LoginAuthenticates | auth/auth_oidc.go:122-133 | a login that survives its own prune, and no other, authenticates as its own user until it expires and not after |
| SessionInvariant.AuthenticateExactly | auth/auth_oidc.go:105-133 | in every reachable store authenticate accepts exactly the stored unexpired tokens |
| SessionInvariant.LoggedOutStaysOut | auth/auth_oidc.go:87-103 | a logged-out token is not accepted again in runs whose logins draw other tokens |
| SessionInvariant.EvictedStaysOut | auth/session.go:82-90 | nor is an evicted one |
| SessionInvariant.ExpiredStaysOut | auth/auth_oidc.go:115-118 | nor is a token once looked at after its expiry, even if the clock runs backwards |
| SessionInvariant.RunKeepsSorted | auth/session.go:42-43 | logins in expiry order keep byAge sorted over every run |
| SessionInvariant.CutEvictsOldest | auth/session.go:82-90 | the capacity cut of a slice sorted by expiry evicts only sessions expiring no later than every survivor |
| SessionInvariant.LoginCutsOne | auth/session.go:82-90 | a login cuts a session iff the store was full and nothing expired was taken; it then cuts exactly the oldest entry |
| SessionInvariant.LoginEvictsOldest | auth/session.go:82-90 | with logins in expiry order the session cut by a login expires no later than every survivor, the new one included |
| SessionInvariant.SortedSweep | auth/session.go:73-80 | in a sorted store one sweep leaves every second expired session and all others |
| Sessions.SessionStore.AddSession | auth/session.go:33-46 | add, or delete the session whose token was drawn again; a state stored already is relabelled under its other tokens |
| Sessions.SessionStore.DeleteSession | auth/session.go:54-67 | removes the token from both indexes and reports whether it was found |
| Sessions.SessionStore.SweepExpired | auth/session.go:72-80 | the expiry loop with its skip and its clock reading per turn |
| Sessions.SessionStore.PruneSessions | auth/session.go:69-94 | the sweep followed by the capacity cut |
| Sessions.SessionStore.GetSession | auth/session.go:48-52 | the stored state, or nil |
| Sessions.OidcAuth.LogIn | auth/auth_oidc.go:51-85 | add, then prune, with every early error return |
| Sessions.OidcAuth.GetLoginState | auth/auth_oidc.go:105-120 | lookup that deletes an expired session |
| Sessions.OidcAuth.LogOut | auth/auth_oidc.go:87-103 | logout deletes the found session |
| Sessions.OidcAuth.Authenticate | auth/auth_oidc.go:122-133 | the user of a stored unexpired session, else an error |
| Base64.NameRoundTrip | frontend/public/ui/ui-actions.js:124-129 | every byte string survives the client's encoding and the proxy's decoding |
| Base64.NameIsBase64 | frontend/public/ui/ui-actions.js:124-129 | four characters of the standard's table for every three bytes, as the digits of one number, with '_' for padding and '-' for '/' |
| Base64.DecodableExactly | pkg/proxy/proxy.go:81-86 | which names are decoded and which refused: line breaks apart, whole groups of four, all digits but for at most two paddings at the end |
| Base64.NameIsToken | frontend/public/ui/ui-actions.js:124-129 | the encoded name has no comma, '=', '/' or space |
| Proxy.ProxyHeaders | pkg/proxy/proxy.go:124-182 | the header loop, for the order in which Go visits the keys: a 400 iff a token does not decode, else exactly the headers that `Forwards` lists key by key |
| SubprotocolOrder.ForwardedHeaders | pkg/proxy/proxy.go:124-182 | for every request and order: the five websocket headers are gone, "http://localhost" follows the client's first Origin, token headers have the token's or the client's value, every other header its first value, and nothing else is forwarded |
| Proxy.ProxyProtocols | pkg/proxy/proxy.go:134-163 | the loop over one comma-separated value, with its 400 returns |
| SubprotocolRoundTrip.SplitUndoesJoin | pkg/proxy/proxy.go:133-135 | splitting at commas and trimming undoes joining, with any white space around each element |
| SubprotocolRoundTrip.TakesLines | pkg/proxy/proxy.go:133-163 | a list written by the client, over any number of header lines, is taken token by token |
| SubprotocolRoundTrip.ApplyAllMeans | pkg/proxy/proxy.go:138-162 | last name wins for the user, last group for the group, last plain protocol is forwarded, last protocol is negotiated |
| SubprotocolOrder.OrderIrrelevantExactly | pkg/proxy/proxy.go:126-131 | all visiting orders agree iff the client sends no conflicting header |
| SubprotocolOrder.HeaderRoundTrip | pkg/proxy/proxy.go:124-182 | without a conflicting header every key the tokens set has the tokens' value, every other key what the client sent, and the last protocol is negotiated |
| SubprotocolOrder.ImpersonationArrives | pkg/proxy/proxy.go:124-165 | the impersonated name arrives byte for byte, the group for groups, the plain protocol is forwarded, and a group header of the client is kept otherwise |
| EventStreamLaws.MessagesAreSorted | frontend/public/components/events.jsx:326 | sorting yields the same events, later times first and at one time smaller names first |
| EventStreamLaws.SortIsStable | frontend/public/components/events.jsx:326 | the events with one time and one name are the same list before and after sorting |
| Sorting.TruncateEarly | frontend/public/components/events.jsx:326-336 | cutting before more events arrive loses nothing |
| EventStreamLaws.BatchingIsIrrelevant | frontend/public/components/events.jsx:200-223 | however events with distinct uids are batched, the kept list is the first 500 of all of them sorted |
| EventPipeline.WindowCutIsHarmless | frontend/public/module/ws-factory.js:165-173 | if the kept messages of a window are newer than the dropped ones, the dropped ones cannot reach the list |
| EventPipeline.CutIsHarmlessExactly | frontend/public/module/ws-factory.js:165-173 | for distinct uids the cut changes no list, whatever was received before, iff the kept messages are newer |
| EventPipeline.BurstsLoseNothing | frontend/public/components/events.jsx:192-223 | over every run of the wrapper and the component, with resets, the shown list is the first 500 of all events received in the windows flushed since the last reset, however large the bursts; without reconnect these are all messages received since |
| EventPipeline.StepDelivers | frontend/public/module/ws-factory.js:165-225 | each step delivers nothing or the last 500 messages of the window it ends |
| EventStreamLaws.CacheIsCurrent | frontend/public/components/events.jsx:289-310 | in every reachable state an event is among the rows iff it is on the shown list and passes the props set last, as often and in the same order; the list is sorted, with distinct uids and at most 500 events |
| EventStreamLaws.FilterPicks | frontend/public/components/events.jsx:286 | filtering keeps exactly the events that pass, with their multiplicity and in their order |
| EventStreamLaws.ResetForgets | frontend/public/components/events.jsx:224-238 | after the socket opens, closes or fails the component stores and shows what a newly mounted one would, whatever came before |
| EventStreamLaws.OldestIsMinimum | frontend/public/components/events.jsx:327-330 | the oldest time shown is the minimum of the mount time and the times of all events ever in the dictionary at a flush |
| EventStreamLaws.BatchSyncs | frontend/public/components/events.jsx:323-337 | after a batch the keys are the shown uids iff the batch left a message or nothing was shown; never more than 500 |
| EventStreamLaws.DeletedEventStays | frontend/public/components/events.jsx:323-337 | an event added and then deleted in the next batch stays on the list |
| EventStreamLaws.CountNeverDecreases | frontend/public/components/events.jsx:204-213 | a stored count never decreases between deletion, eviction and reset |
| EventStreamLaws.BatchStoresHighest | frontend/public/components/events.jsx:201-222 | of all versions of an event in a batch, one with the highest count is stored |
| EventStreamLaws.ApplyStores | frontend/public/components/events.jsx:205-221 | what one change does to every uid |
| EventStreamLaws.PutLaws | frontend/public/components/events.jsx:211 | the dictionary returns what was last stored and nothing else changes |
| EventStreamLaws.PutKeepsPlaces | frontend/public/components/events.jsx:211 | a stored key is overwritten where it stands, a new one goes to the end |
| EventStreamLaws.RemoveKeepsOthers | frontend/public/components/events.jsx:214-216 | a deletion leaves all other events, in their order |
| EventStreamComponent.EventStream.OnBulkMessage | frontend/public/components/events.jsx:200-223 | the bulk handler on fields |
| EventStreamComponent.EventStream.FlushMessages | frontend/public/components/events.jsx:323-337 | sort, cut, filter and rebuild, or throw on an empty dictionary; the rows are then exactly the shown events that pass, in order |
| EventStreamComponent.EventStream.SetProps | frontend/public/components/events.jsx:289-310 | new props recompute the rows only if they differ, and these are then exactly the shown events that pass the new props, in order |
| Chargeback.TransformData | frontend/public/components/chargeback.tsx:248-285 | the three dictionaries have exactly the groups and columns that occur, and hold, cell by cell, the group sums, the totals and the running peaks |
| Chargeback.GroupsAddUp | frontend/public/components/chargeback.tsx:268-280 | the group sums of a column add up to its total |
| Chargeback.RowOrderIrrelevant | frontend/public/components/chargeback.tsx:262-280 | sums and totals do not depend on row order |
| Chargeback.PeakIsMaximum | frontend/public/components/chargeback.tsx:281-283 | for non-negative data the recorded maximum is the largest group sum |
| Chargeback.PeakIsMaximumExactly | frontend/public/components/chargeback.tsx:281-283 | with negative amounts too no group sum exceeds it, and it is a group sum iff the data end highest |
| Chargeback.PeakOrderIrrelevant | frontend/public/components/chargeback.tsx:262-283 | nor, for non-negative data, do the recorded maxima |
| Chargeback.BarsFit | frontend/public/components/chargeback.tsx:107-114 | so no bar exceeds 100 percent, and for non-negative data none is below 0 |
| Chargeback.NegativeLeavesPeak | frontend/public/components/chargeback.tsx:281-283 | two rows of one group, 5 and then -3, leave the recorded maximum at 5 above every group sum |
| Paginator.TokenRoundTrip | frontend/public/load-test.sw.js:11 | the page parser inverts the token printer, also for negative pages |
| Paginator.ReadsExactly | frontend/public/load-test.sw.js:11 | a text is read as a number iff it starts with a numeral, after white space and a sign |
| Paginator.TokenMeaning | frontend/public/load-test.sw.js:11 | no token asks for page 0, a readable one for its number, any other for no page |
| Paginator.SliceExactly | frontend/public/load-test.sw.js:61 | a slice is the one stretch of indices inside its bounds, of which negative ones count from the end |
| Paginator.FetchExactly | frontend/public/load-test.sw.js:54-66 | every request, those without a limit, with an unreadable token or a negative page or limit included: the items sent, and a token for the next page iff the page is less than the quotient |
| Paginator.CrawlIsComplete | frontend/public/load-test.sw.js:54-66 | following the tokens returns every item once, in order, in exactly ceil(N/limit)+1 requests |
| Paginator.CrawlExists | frontend/public/load-test.sw.js:60-66 | such a crawl exists for every list and limit |
| Paginator.MultipliedEntries | frontend/public/load-test.sw.js:57-58 | the backing list has one stretch per item, in order: its numbered clones, then the item itself |
| Overview.ConsistentExactly | frontend/public/components/overview.jsx:102-127 | when exactly the comparator answers consistently for a pair |
| Overview.CompareIsTransitive | frontend/public/components/overview.jsx:102-127 | on nonzero or missing revisions it is a weak order |
| Overview.RevisionsAreOrdered | frontend/public/components/overview.jsx:101-130 | so the list of replicators can be sorted by it |
| Overview.CompareMeans | frontend/public/components/overview.jsx:102-127 | on nonzero or missing revisions the comparator means the order by revision, either way, with missing ones last or first and names between them |
| Overview.SortsByRevision | frontend/public/components/overview.jsx:101-130 | sorting rearranges the list into that order, either way, and keeps level ones in order |
| Overview.OwnedExactly | frontend/public/components/overview.jsx:204-210 | the owned resources are exactly those whose controlling owner has the uid, in order |
| Overview.CurrentControllerIsLatest | frontend/public/components/overview.jsx:204-224 | the current controller is an owned replication controller with the largest revision, or, only if there is none, such a replica set |
| Overview.GroupByPartitions | frontend/public/components/overview.jsx:168-174 | every item is in exactly the group named by its label, or "other" without one, in order |
| Overview.GroupsPartitionOtherLast | frontend/public/components/overview.jsx:153-175 | however the groups are listed first, those shown partition the items, each group in order, sorted by name with "other" last |
| Overview.GroupsCompareConsistently | frontend/public/components/overview.jsx:154-162 | the group comparator is antisymmetric except for "other" against itself, and transitive on different names |
| Overview.ArrangementIsUnique | frontend/public/components/overview.jsx:153-175 | if no names rank alike, the arrangement shown is the only one the comparator accepts |
| RuleEditorModel.ToggleVerbIsLocal | frontend/public/components/RBAC/edit-rule.jsx:215-232 | a toggle changes exactly the named known verb, from any mode |
| RuleEditorModel.SavedRule | frontend/public/components/RBAC/edit-rule.jsx:148-194 | what is saved in every mode: "get", "list", "proxy", "redirect", "watch", or '*', or the ticked verbs; the loaded resources that are not administrative, or none, or '*', or the ticked ones, in order |
| RuleEditorModel.OneClickSaves | frontend/public/components/RBAC/edit-rule.jsx:171-232 | the untouched editor saves those five verbs on everything not administrative, and one click changes that at the clicked verb alone |
| RuleEditorModel.LastModeWins | frontend/public/components/RBAC/edit-rule.jsx:79 | after any history the mode chosen last is the mode, and choosing it keeps every tick |
| RuleEditorModel.LoadedNamesAreTicked | frontend/public/components/RBAC/edit-rule.jsx:114-141 | a '*' in a loaded rule does not hide its other names |
| RuleEditorModel.ToggleResourceIsLocal | frontend/public/components/RBAC/edit-rule.jsx:234-252 | likewise for a loaded resource |
| RuleEditorModel.LastVerbClickWins | frontend/public/components/RBAC/edit-rule.jsx:171-232 | after any history the last click on a verb decides it until the mode changes |
| RuleEditorModel.LastResourceClickWins | frontend/public/components/RBAC/edit-rule.jsx:188-252 | likewise for resources |
| RuleEditorModel.SavedVerbsAreSelected | frontend/public/components/RBAC/edit-rule.jsx:155 | a saved rule permits exactly the selected verbs |
| RuleEditorModel.SavedResourcesAreSelected | frontend/public/components/RBAC/edit-rule.jsx:156 | and exactly the selected loaded resources |
| RuleEditorModel.VerbsRoundTrip | frontend/public/components/RBAC/edit-rule.jsx:119-156 | load then save keeps the verb permissions iff '*' is among them or all are known |
| RuleEditorModel.ResourcesRoundTrip | frontend/public/components/RBAC/edit-rule.jsx:129-156 | likewise for resources |
| RuleEditorComponent.EditRule.GetResource | frontend/public/components/RBAC/edit-rule.jsx:114-141 | the loading loops, which a '*' does not stop |
| RuleEditorComponent.EditRule.ToggleVerbBox | frontend/public/components/RBAC/edit-rule.jsx:215-232 | the toggle on fields: from read-only the five reading verbs, from "all" every known one, changed at the named verb |
| RuleEditorComponent.EditRule.ToggleResourceBox | frontend/public/components/RBAC/edit-rule.jsx:234-252 | the toggle on fields: from safe the loaded resources that are not administrative, from "none" none, from "all" all, changed at the named one |
| LdapFormModel.ContinueOnlyAfterTest | frontend/public/components/cluster-settings/ldap.jsx:412-462 | Continue is enabled only after an accepted test of exactly the current values |
| LdapFormModel.EnabledExactly | frontend/public/components/cluster-settings/ldap.jsx:412-462 | after an input Continue is enabled iff it was the accepted reply to a test of the current version, and the update starts only by clicking it then |
| LdapFormModel.AcceptedTestEnables | frontend/public/components/cluster-settings/ldap.jsx:412-442 | after any history a test that is accepted at once enables Continue for the values on the form |
| LdapFormModel.NonceCounts | frontend/public/components/cluster-settings/ldap.jsx:310-325 | the nonce counts the edits and the fields with outer spaces, and the form has the values entered last |
| LdapFormModel.StepKeepsInv | frontend/public/components/cluster-settings/ldap.jsx:310-344 | the nonce grows with every edit and only then, and identifies the tested values |
| LdapFormModel.LateReplyStaysDisabled | frontend/public/components/cluster-settings/ldap.jsx:419-430 | a reply that arrives after an edit cannot enable Continue |
| LdapFormComponent.LDAPs.OnEdit | frontend/public/components/cluster-settings/ldap.jsx:310-344 | an edit bumps the nonce and drops a validation of an older one |
| LdapFormComponent.LDAPs.OnReply | frontend/public/components/cluster-settings/ldap.jsx:419-437 | a reply sets the stage and, on success, the validated version |
| Sanitize.Transform | frontend/public/components/cluster-settings/cluster-monitoring.jsx:18-40 | the pass that fills the accumulator |
| Sanitize.SanitizeIsIdempotent | frontend/public/components/cluster-settings/cluster-monitoring.jsx:18-40 | sanitizing twice is sanitizing once |
| Sanitize.NothingEmptyBelowTop | frontend/public/components/cluster-settings/cluster-monitoring.jsx:31-39 | every top-level key stays, and no empty value is left below the top level |
| Sanitize.PrunedLeaves | frontend/public/components/cluster-settings/cluster-monitoring.jsx:18-40 | below the top a pass keeps exactly the non-empty leaves, converted, in place and in order |
| Sanitize.SanitizeKeepsLeaves | frontend/public/components/cluster-settings/cluster-monitoring.jsx:18-40 | sanitizing loses none of them |

## Left out

- Registering further handlers during a run (whether a bulk handler is registered is fixed), sending, URL and CSRF handling.
- Cookies, ID token verification and claim parsing: a login receives verified claims or none.
- The proxy's dialing, upgrading and copying, its header blacklist, and requests that are not WebSocket upgrades.
- White space beyond Latin-1 in the subprotocol header and in page tokens, and the fallback text encoder.
- The row filter of the event list (category, kind, text): any predicate; missing counts and timestamps.
- TransformData: leaves out text that reads as a number, which the source appends to the sum as text; sorting of the report rows and rounding are left out too, and page numbers that a double cannot hold.
- BurstsLoseNothing: takes every message as a new event; updates and deletions of events in a burst are not covered.
- Random uids of cloned items: the clone of an item is the same in every response.
- Name order under the locale: an integer rank.
- apiGroups and nonResourceURLs of a rule: they are joined with ', ' and split at ',', so a round trip is not what the code does.
- Arrays in the pruned configuration.
- Rendering, routing, static models and list pages.
