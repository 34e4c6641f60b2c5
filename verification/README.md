# auth0-mock: a Dafny model of its stateful core

auth0-mock is a Go stand-in for an Auth0 tenant. This project models the parts of it whose
guarantees only show up over whole runs, and proves those guarantees for every input, every run
and, where the source is concurrent, every interleaving of its critical sections:

- the Server-Sent Events hub: replay buffer, resume by cursor and by timestamp, expiry landing in
  the middle of a replay, and the lifecycle protocol of Publish, Reset, Shutdown and subscribers
  (`replay_buffer.dfy`, `replay.dfy`, `ring_index.dfy`, `resume.dfy`, `hub.dfy`);
- the expectation store and request matcher: subset matching by listing differences, four-tier
  lookup, response sequences under concurrent calls, near misses (`matching.dfy`,
  `expectations.dfy`, `serving.dfy`, `near_misses.dfy`, `expectation_store.dfy`, with
  `sorting.dfy` and `top_of.dfy` beneath them);
- login lineage: sessions, codes, refresh chains, mfa_tokens and the id_tokens they lead to
  (`expiring_store.dfy`, `session_store.dfy`, `login_flow.dfy`, `login_claims.dfy`,
  `login_lineage.dfy`, `login_credentials.dfy`, `login_rules.dfy`);
- the request journal and the SDK's verification ledger (`journal.dfy`, `ledger.dfy`,
  `client_ledger.dfy`).

`prelude.dfy` and `lists.dfy` hold what several of these share.

Code that changes state in place is a class whose methods are proved against functions on values
(`RingIndex.Ring`, `ExpectationStore.StubStore`, `ExpiringStore.Store`, `SessionStore.Sessions`,
`Journal.Ring`, `ClientLedger.Client`); the laws are lemmas about those functions. Concurrency is a
step system with one atomic step per critical section (`HubProtocol`, `Serving`, `LoginFlow`,
`Ledger`): the login handlers hold no lock between their store calls, so a request is a job that
makes them one at a time, and any other request may run in between. Go ranges over maps in no fixed
order; the model picks keys nondeterministically, so what is proved holds for every order.

Check everything with `dafny verify dfyconfig.toml`.

## Hypotheses

- Generated ids (stub ids, codes, session ids, tokens, subscriber and server objects) are fresh.
  `SessionStore.ReusedIdBreaksTheOrder` shows what a repeated session id would do.
- The mock clock can be set back. Only `ExpiringStore.SweepingIsUnobservable` assumes a clock that
  never runs backwards and `Resume.FromTimestampIsExact` nondecreasing record times; both have a
  lemma with a backward clock that shows why, and `ExpiringStore.SweepingIsUnobservableIff` and
  `Resume.FromTimestampIsExactIff`, which assume nothing of the clock, say exactly when they hold.
- Buffered event ids are non-empty, as Publish arranges, and no event type is an internal topic name.
- Every Publish buffers a message object of its own; only `Replay.CutsAreToldIff` and
  `Replay.SkippedHaveLeftFromTheFront` need it.
- go-sse runs Put and Replay on one goroutine, so only expiries land inside a replay.
- Nobody logs in at Go's zero time; `LoginLineage.CodeKeepsTheLoginInstant` gives the exact condition.
- Counters are unbounded integers where the source has 64-bit ones.

## Where the code and its comments differ

The model follows the code.

- The matcher's comment says that every wanted query or header key must be present
  (internal/matches/matcher.go:31-34). A wanted empty value is also satisfied by a request without
  the key: `Matching.WantedKeyRule` is the exact rule for both.
- requestMatcherEqual's comment promises equivalence and semantically equal JSON bodies
  (internal/matches/matcher.go:43-45), but a matcher with no body compares equal to one whose body
  is not JSON, so each supersedes the other, although one accepts every body and the other none.
  `Matching.EqualMatchersAgreeIff` says exactly when equal matchers agree. A body that is not JSON
  cannot arrive over HTTP, where it is a `json.RawMessage` inside a decoded document
  (internal/matches/expectation.go:76), only from Go code that fills in a matcher itself.
- dropFront's comment says that the entries a replay skips are a prefix of its snapshot
  (internal/events/replayer.go:254-259). They need not be (`Replay.SkippedNeedNotBeAPrefix`): that
  holds for every expiry exactly if the snapshot has at most one message
  (`Replay.SkipsArePrefixIff`). What always holds is that a skipped entry and everything in front of it have left the buffer
  (`Replay.SkippedHaveLeftFromTheFront`), and the results on replays rest on that.
- send's comment says that the position of a cut resume is always gone
  (internal/events/replayer.go:433-438). With an id pushed twice it can still be held:
  `Replay.DuplicateIdHidesTheLoss`, and `Replay.CutsAreToldIff` for exactly which buffers.
- idBefore's comment says that offering first copies only keeps a repeated id from replaying events
  older than the instant asked for (internal/events/replayer.go:103-106). An id pushed twice before
  that instant still does: `Resume.RepeatedIdOverDelivers`; `Resume.FromTimestampIsExactIff` says
  when the replay is exact.
- Reset's comment says that the flag records whether the wipe destroyed unverified adds
  (pkg/auth0mock/client.go:192-195). It records whether the ledger is longer than it was at some
  moment since the last Verify, Reset or full Clear (`Ledger.PendingIsTheRise`, `Ledger.FlagIff`).
  That misses an unverified handle when clearing a verified one has taken it off the counter
  (`Ledger.ClearedOldHandleHidesNewOne`), and when it was added while a Verify was checking, because
  Verify zeroes the counter after its snapshot and without the lock
  (`Ledger.AddDuringVerifyIsForgotten`). And it raises a false alarm when a Reset runs while a Verify
  is checking the handles it drops (`Ledger.ResetDuringVerifyRaisesFlag`).
- publishError's comment says that error frames carry no id and are never stored for replay
  (internal/events/hub.go:289-298). The replayer stores whatever carries an id, so one published with
  an id is buffered and replayed: `Resume.ReplayedIffIdentified`.

## Model

| member | source | states |
|---|---|---|
| ReplayBuffer.FirstIndex | internal/events/replayer.go:68-81 | the index of the first copy of an id, or -1 exactly when no entry has it |
| ReplayBuffer.BufferIsSuffixOfHistory | internal/events/replayer.go:56-66 | after any sequence of puts, evictions and expiries the buffer is a contiguous suffix of everything ever put, at most cap long |
| ReplayBuffer.EntriesNeverReturn | internal/events/replayer.go:254-282 | over any run the buffered window of history only moves forward: entries leave from the front and never come back |
| ReplayBuffer.PutEvictsOnlyWhenFull | internal/events/replayer.go:56-66 | a put drops the oldest entry exactly when the buffer is full, and the newest entry is the one put |
| ReplayBuffer.GoneIff | internal/events/replayer.go:56-66 | an entry is gone exactly if an expiry took it or cap newer ones were put |
| ReplayBuffer.WithoutExpiryHoldsNewest | internal/events/replayer.go:56-66 | a run without expiries holds exactly the newest cap entries |
| ReplayBuffer.ExpireBeforeIsExact | internal/events/replayer.go:223-252 | expireBefore on a held cursor drops exactly what precedes its first copy and keeps it, repeating it drops nothing and still finds it, an unknown or empty cursor drops nothing |
| ReplayBuffer.ExpiryKeepsSurvivingAnswers | internal/events/replayer.go:153-173 | the replay answer of every id whose first copy survives an expiry is unchanged |
| ReplayBuffer.ExpiryForgetsDroppedIds | internal/events/replayer.go:208-252 | an id none of whose copies survives is no longer held and replays nothing |
| ReplayBuffer.PositionsOfCollect | internal/events/replayer.go:194-206 | collect returns the messages of exactly the entries whose topics intersect, at strictly increasing positions |
| Replay.CutResumeHasLeftTheBuffer | internal/events/replayer.go:403-454 | with expiries anywhere between sends a resume sends a gap-free prefix of what follows its cursor, and if it is cut short without a broken connection both the entry it stopped at and the next one it was to send have left the buffer; no assumption on ids |
| Replay.CutResumeReconnectIsGone | internal/events/replayer.go:423-444 | with unique ids the position of a cut resume is no longer buffered when Replay returns |
| Replay.DuplicateIdHidesTheLoss | internal/events/replayer.go:223-242 | a buffer with a repeated id and two expiries after which the cut position still looks buffered |
| Replay.CutsAreToldIff | internal/events/replayer.go:433-443 | every cut under every expiry leaves the subscriber with an id no longer buffered exactly when, along its way, no later copy of the id it stands at is separated by another id from the next entry it is to be sent |
| Replay.StopsAreReached | internal/events/replayer.go:243-282 | some sequence of expiries empties the buffer up to any entry whose id differs from the one before it |
| Replay.BuffersStop | internal/events/replayer.go:243-282 | and no sequence of expiries leaves a buffer that starts anywhere else |
| Replay.WholeReplaySendsWhatIsHeld | internal/events/replayer.go:413-449 | whatever expires and whichever write fails, a whole-buffer replay sends, in snapshot order, exactly the messages still buffered at their own check, up to the end or to the first buffered message whose write fails |
| Replay.WholeReplayMissesNothingBuffered | internal/events/replayer.go:427-454 | every snapshot message still buffered when Replay returns was sent, except from a failed write on |
| Replay.SkippedHaveLeftFromTheFront | internal/events/replayer.go:427-432 | at a skip, the skipped entry and everything of the snapshot in front of it have left the buffer |
| Replay.SkippedNeedNotBeAPrefix | internal/events/replayer.go:254-259 | a replay that sends, skips two and sends again |
| Replay.SkipsArePrefixIff | internal/events/replayer.go:254-259 | the skipped messages are a prefix of the snapshot under every expiry exactly if the snapshot has at most one message |
| RingIndex.Ring.constructor | internal/events/replayer.go:42-54 | an empty buffer whose capacity is floored at 1 |
| RingIndex.Ring.Put | internal/events/replayer.go:56-66 | the in-place shift and append is eviction of the oldest plus append |
| RingIndex.Ring.First | internal/events/replayer.go:74-81 | the scan returns the first copy's index |
| RingIndex.Ring.Holds | internal/events/replayer.go:135-151 | identity membership over the live entries only |
| RingIndex.Ring.IDBefore | internal/events/replayer.go:83-128 | the one-pass scan with a seen set returns the last first copy in the longest predating prefix |
| RingIndex.Ring.CollectFrom | internal/events/replayer.go:194-206 | the loop returns the visible messages from an index on |
| RingIndex.Ring.MessagesAfter | internal/events/replayer.go:163-173 | the visible messages behind a cursor, nothing for an unknown or newest one |
| RingIndex.Ring.DropFront | internal/events/replayer.go:254-282 | the shift, clear and truncate drop the clamped count from the front and zero the vacated tail |
| RingIndex.Ring.ExpireAll | internal/events/replayer.go:208-221 | empties the buffer and reports how many went |
| RingIndex.Ring.ExpireBefore | internal/events/replayer.go:243-252 | drops what precedes the cursor and reports count and whether it was held |
| RingIndex.Ring.SendSnapshot | internal/events/replayer.go:413-454 | the loop over the real buffer, with expiries applied between checks, has the outcome the replay lemmas are about |
| Resume.FromTimestampMissesNothing | internal/events/handler.go:280-316 | for any buffer, whatever its times and ids, a ?from_timestamp=t connect is never 410 and replays the visible part of a suffix in front of which everything predates t |
| Resume.FromTimestampIsExactIff | internal/events/replayer.go:83-128 | a ?from_timestamp=t connect replays exactly the visible events at or after t if and only if no visible entry behind the cursor it resolves to predates t, for any buffer |
| Resume.FromTimestampIsExact | internal/events/replayer.go:83-128 | with nondecreasing times and unique ids it always does |
| Resume.BackwardClockOverDelivers | internal/events/replayer.go:89-101 | with the clock set back an older event is replayed again, none is dropped |
| Resume.RepeatedIdOverDelivers | internal/events/replayer.go:103-106 | so it is with an id pushed twice before t |
| Resume.NamedCursor | internal/events/handler.go:357-388 | a named cursor is 410 exactly when no buffer holds it and otherwise replays what is behind its first copy; header beats ?from beats ?from_timestamp |
| Resume.CutResumeIsToldSo | internal/events/handler.go:367-388 | a subscriber whose resume an expiry cut short gets 410 if it reconnects at that moment |
| Resume.DeliveryFollowsFilter | internal/events/hub.go:259-287 | a subscriber sees an event exactly if it is a control signal, there is no filter, or the filter names its type |
| Resume.InternalNameWouldBypassFilter | internal/events/handler.go:222-242 | why an internal topic name is refused as an event_type |
| Resume.PlainConnectJoinsLive | internal/events/handler.go:280-316 | a connect without cursor and timestamp, or with a timestamp to a hub without a buffer, replays nothing |
| Resume.ReplayedIffIdentified | internal/events/replayer.go:334-352 | a resume from any other held cursor is sent a published event exactly if it carries an id, whatever its type, and the filter lets it through |
| HubProtocol.InvAlways | internal/events/hub.go:140-182 | every state of every interleaving keeps the lock, key, reachability and count facts the other results rest on |
| HubProtocol.RetiredServersAreDrained | internal/events/hub.go:346-378 | a subscriber on a retired server is cancelled or in the pending list of the lifecycle call in progress; with none in progress it is cancelled |
| HubProtocol.ShutDownServersAreQuiet | internal/events/hub.go:332-378 | no server is shut down under a publish in flight, nor before every subscriber on it was cancelled |
| HubProtocol.CleanupRemovesOnlyItsOwn | internal/events/handler.go:434-452 | a late cleanup leaves its subscriber cancelled and unlisted and never removes another subscriber's entry, across any number of Resets |
| HubProtocol.CountersAgree | internal/events/hub.go:501-516 | totalSubs is the number of connects since the last drain, the active count never exceeds it, and only subscribers that have not cleaned up are counted |
| HubProtocol.ErrorClosesEveryone | internal/events/hub.go:305-330 | when an error publish ends, every subscriber registered and uncancelled at its snapshot, and not already being drained, is cancelled |
| HubProtocol.SwapOutcome | internal/events/hub.go:355-364 | Reset installs a server nobody holds and retires the old one, Shutdown installs none |
| HubProtocol.ClosedForever | internal/events/hub.go:442-476 | after Shutdown no server comes back and no publish is ever in flight |
| HubProtocol.ConnectServes | internal/events/handler.go:411-426 | a connecting subscriber is put on the hub's current server, and turned away only when the hub is closed |
| HubProtocol.StaysOnItsServer | internal/events/handler.go:411-426 | it keeps that server until its own stream ends, whoever swaps servers |
| HubProtocol.ConnectedIsCurrent | internal/events/hub.go:346-378 | so it is on the current server until a lifecycle call swaps it |
| HubProtocol.LeavingCanFinish | internal/events/handler.go:446-452 | a subscriber whose stream is over can always clean up and is then unlisted |
| HubProtocol.CancelHasACause | internal/events/hub.go:320-330 | nobody is cancelled but by its own leaving, a drain that took it, or an error publish |
| HubProtocol.PublishKeepsItsServer | internal/events/hub.go:256-287 | from start to end a publish is in flight on the server it started on, which stays the current one |
| HubProtocol.LockOutcome | internal/events/hub.go:346-364 | Reset and Shutdown go through once they hold the lock and give up only on a closed hub |
| HubProtocol.RetiredAreShutDown | internal/events/hub.go:365-378 | with no drain in progress every server ever retired has been shut down |
| HubProtocol.DrainCancelsEveryone | internal/events/hub.go:483-499 | when a Reset or Shutdown is over every subscriber listed when it began has been cancelled |
| Matching.SubDocumentReflexive | internal/matches/nearmiss.go:107-131 | the sub-document relation is reflexive |
| Matching.SubDocumentTransitive | internal/matches/nearmiss.go:107-131 | the sub-document relation is transitive |
| Matching.SubDocumentAntisymmetric | internal/matches/nearmiss.go:107-131 | the sub-document relation is antisymmetric |
| Matching.DiffsEmptyIffSubDocument | internal/matches/nearmiss.go:107-131 | explainValue finds no difference exactly when want is a sub-document of got |
| Matching.ExplainValue | internal/matches/nearmiss.go:107-131 | the recursive loop lists the same bag of differences whatever order it visits keys in |
| Matching.ExplainBody | internal/matches/nearmiss.go:89-105 | absent, null, missing, unparseable and parsed bodies; a request body of white space only is unparseable, not missing |
| Matching.Explain | internal/matches/nearmiss.go:47-87 | all differences of query, headers and body, sorted by field |
| Matching.ExplainReports | internal/matches/nearmiss.go:47-131 | the listed differences are exactly the wanted query values and headers that differ and the paths at which the bodies do, with what was wanted and what was found there |
| Matching.NoDifferencesIffSatisfies | internal/matches/matcher.go:31-41 | the list is empty exactly when the request satisfies the plain matching relation |
| Matching.Matches | internal/matches/matcher.go:31-41 | decides the plain matching relation |
| Matching.MatchesIff | internal/matches/matcher.go:31-41 | what that relation is, criterion by criterion: query values, headers and body |
| Matching.AskingLessMatchesMore | internal/matches/matcher.go:31-41 | a matcher with fewer criteria and a sub-document body matches every request the other matches |
| Matching.EmptyIffCatchAll | internal/matches/matcher.go:19-29 | a matcher is empty exactly when it matches every request, so normalising it to nil changes nothing |
| Matching.WantedKeyRule | internal/matches/nearmiss.go:55-83 | exactly when one wanted query value, and one wanted header value, is satisfied, including the empty one |
| Matching.HeaderNamesIgnoreCase | internal/matches/matcher.go:36-38 | two header names look up the same value exactly if they differ in case only |
| Matching.CanonicalCapitals | internal/matches/nearmiss.go:66-68 | the canonical spelling has capitals at the start and after hyphens and nowhere else |
| Prelude.FoldForgetsCase | internal/journal/journal.go:54-57 | case folding identifies the spellings of one letter and nothing else |
| Sorting.StringLeIff | internal/matches/nearmiss.go:85 | the order differences are sorted in: a proper prefix first, else the first character that differs decides |
| Matching.SensitiveHeadersAreNeverEchoed | internal/matches/nearmiss.go:66-83 | differences on Authorization and Cookie, however spelled, carry neither value; on any other header they carry both |
| Matching.MatcherEqualIff | internal/matches/matcher.go:43-69 | matchers are equal exactly if both are nil, or query and headers are the same and each body is a sub-document of the other or neither is a document; an equivalence |
| Matching.EqualMatchersAgreeIff | internal/matches/matcher.go:43-69 | equal matchers accept the same requests exactly when neither or both bodies are unparseable, or two spellings of one header want different values so that both reject everything |
| Matching.AbsentEqualsInvalidButDiffers | internal/matches/matcher.go:59-69 | the smallest pair of equal matchers that do not |
| Expectations.NewestMatch | internal/matches/store.go:165-179 | the newest qualifying entry of a list, or none exactly when no entry qualifies |
| Expectations.CountersAreTheStoredIds | internal/matches/store.go:15-20 | under those facts an id has a counter exactly when a stub with it is stored |
| Expectations.PutHolds | internal/matches/store.go:60-85 | after Put the store holds the new stub, with the operation and answers registered and accepting the same requests, and all others but those with an equal matcher under its key |
| Expectations.StampedRegisters | internal/matches/store.go:60-68 | normalising and stamping change neither answers nor which requests are accepted, and only a catch-all loses its matcher |
| Expectations.PutKeepsInv | internal/matches/store.go:51-85 | Put keeps: lists strictly increasing, matchers under a key pairwise unequal, requests nil or non-empty, ids and sequence numbers unique, counters for exactly the stored ids |
| Expectations.DeleteHolds | internal/matches/store.go:87-109 | DeleteByID removes exactly the stub with the id |
| Expectations.DeleteKeepsInv | internal/matches/store.go:91-109 | DeleteByID keeps the same facts |
| Expectations.ResetEndpointHolds | internal/matches/store.go:211-222 | ResetEndpoint removes exactly the stubs under the key |
| Expectations.ResetEndpointKeepsInv | internal/matches/store.go:214-222 | ResetEndpoint keeps the same facts |
| Expectations.ResetAllHolds | internal/matches/store.go:224-231 | ResetAll leaves no stub, no counter and nothing to find, and keeps the registration counter |
| Expectations.FindIsMaximal | internal/matches/store.go:132-163 | Find returns the one matching stub maximal by (exact path, has matcher, newest), and none exactly when nothing matches |
| Expectations.ServedFollowsAnswers | internal/matches/expectation.go:56-63 | the n-th call gets the n-th answer, the last one repeating, always in bounds |
| Serving.AnswersComeInOrder | internal/matches/store.go:142-163 | in any interleaving of Finds and writers the calls served by one id are numbered 1..k once each and get its answers in order |
| Serving.RemovedIdsStaySilent | internal/matches/store.go:75-80 | an id whose stub was superseded, deleted or reset never serves again |
| Serving.ReRegisteringRestarts | internal/matches/store.go:51-85 | re-registering an equal matcher silences the old id and starts the new one at zero |
| Serving.MatchedFindsAreServed | internal/matches/store.go:146-163 | in any interleaving a Find that some stored stub matches is served by the one that outranks all others, which was registered with those answers and a matcher the request satisfies |
| Serving.UnmatchedFindsPickNothing | internal/matches/store.go:146-163 | a Find that no stored stub matches picks and counts nothing |
| Serving.StubsWereRegistered | internal/matches/store.go:51-85 | every stored stub goes back to a registration and is still what was registered |
| Serving.ResetSilencesAll | internal/matches/store.go:224-231 | after ResetAll every id handed out before is silent for good |
| Serving.StubGoesIff | internal/matches/store.go:87-109 | a stored stub and its counter go exactly by deleting its id, resetting its operation or everything, or registering an equal matcher for its operation |
| Serving.RemovalSilences | internal/matches/store.go:211-231 | and then its id serves nobody again |
| Serving.StubsStayUntilRemoved | internal/matches/store.go:146-163 | until then it stays stored, through any number of Finds and other registrations |
| NearMisses.TopThreeUnique | internal/matches/store.go:278-286 | only one list is the three closest by (fewest differences, newest), so map order cannot matter |
| NearMisses.TopThreeMeans | internal/matches/store.go:278-286 | what that order is: fewer differences first, then newer, and nothing left out comes before anything listed |
| NearMisses.PathDifferenceIff | internal/matches/store.go:265-276 | a path difference is reported exactly for a stub on another concrete path, with the path it wanted |
| NearMisses.EmptyIffNothingRegistered | internal/matches/store.go:236-286 | right after a Find miss every stub of the operation is a near miss, so the answer is empty exactly when none is registered |
| ExpectationStore.StubStore.Register | internal/matches/store.go:60-85 | the filtering loop and counter updates are Put, and the stored stub is what was registered |
| ExpectationStore.StubStore.DeleteByID | internal/matches/store.go:91-109 | scanning both maps in any key order deletes exactly the id and says whether it was there |
| ExpectationStore.StubStore.Find | internal/matches/store.go:146-163 | the backward scans return the four-tier choice and bump its counter |
| ExpectationStore.StubStore.ResetKey | internal/matches/store.go:214-222 | drops the list and each of its counters |
| ExpectationStore.StubStore.Clear | internal/matches/store.go:224-231 | drops everything but the registration counter |
| ExpectationStore.StubStore.NearMissesFor | internal/matches/store.go:242-286 | collecting in any order, sorting and cutting yields the three closest misses with their differences |
| ExpiringStore.Store.Sweep | internal/pkce/pkce.go:154-162 | deletes exactly the expired entries |
| ExpiringStore.Store.Put | internal/mfa/mfa.go:99-109 | sweeps, then stores until now plus ten minutes |
| ExpiringStore.Store.Consume | internal/mfa/mfa.go:111-125 | returns the entry only if it has not expired and removes it either way |
| ExpiringStore.Store.Reset | internal/pkce/pkce.go:147-152 | drops every entry |
| ExpiringStore.SweepingIsUnobservableIff | internal/pkce/pkce.go:96-122 | for every run, under any clock, every Consume answers as in a store that never sweeps exactly if every Consume of an entry that a sweep since its Put took for expired comes after its expiry too |
| ExpiringStore.SweepingIsUnobservable | internal/pkce/pkce.go:96-122 | under a nondecreasing clock that is so |
| ExpiringStore.BackwardClockExposesSweeping | internal/clock/clock.go:147-163 | a run with the clock set back in which sweeping loses a valid entry |
| SessionStore.RunRefinesList | internal/session/session.go:63-192 | over every run a session map and its order slice hold exactly a bounded list: distinct keys, at most the maximum, evicting the earliest inserted |
| SessionStore.ApplyRefinesList | internal/session/session.go:102-116 | each operation on map and slice is one operation on that list |
| SessionStore.ReusedIdBreaksTheOrder | internal/session/session.go:153-171 | what a repeated login id would do to the order slice |
| SessionStore.Sessions.RememberProfile | internal/session/session.go:63-75 | insert with eviction, or update in place |
| SessionStore.Sessions.RememberRefresh | internal/session/session.go:102-116 | insert with eviction, or update in place |
| SessionStore.Sessions.RememberAccess | internal/session/session.go:130-143 | insert with eviction, or update in place |
| SessionStore.Sessions.StartLogin | internal/session/session.go:153-171 | append with eviction, no check for an existing id |
| SessionStore.Sessions.EndLogin | internal/session/session.go:181-192 | removes one session and its place in the order |
| SessionStore.Sessions.Clear | internal/session/session.go:88-100 | empties all four maps |
| LoginLineage.IdTokensKeepTheirLogin | internal/authapi/token.go:525-593 | in every interleaving of the requests' store calls, every id_token, through silent logins, reused sessions, code exchange and any chain of refreshes, carries the subject, auth_time, realm and profile of the login it descends from |
| LoginLineage.SessionsKeepTheirLogin | internal/session/session.go:153-179 | a session live at two moments of a run is for the same login at both |
| LoginLineage.CodeKeepsTheLoginInstant | internal/pkce/pkce.go:96-106 | a code keeps the login instant exactly unless it is the zero time and the store clock is not |
| LoginCredentials.GoneForever | internal/authapi/authorize.go:179-186 | a code, mfa_token, session or refresh token that has left its store, by whatever request, eviction or reset, is never stored again |
| LoginCredentials.GoneIsNeverHonoured | internal/authapi/logincookie.go:35-49 | and no request that has still to begin will honour it |
| LoginCredentials.PresentedOnceIsBurnt | internal/authapi/token.go:627-644 | a code or mfa_token presented once, successfully or not, is honoured by no later request |
| LoginCredentials.OneAnswerPerCredential | internal/authapi/token.go:627-692 | of requests racing with one code or mfa_token at most one gets an answer, and once |
| LoginCredentials.HonouredCodesAreGuarded | internal/pkce/pkce.go:124-145 | a code is honoured only within ten minutes of the turn that stored it, only with a verifier that answers that turn's challenge by its method, and its id_token echoes that turn's nonce |
| LoginCredentials.HonouredMfaTokensAreGuarded | internal/authapi/mfa_grants.go:15-141 | an mfa_token is honoured only in time and with the accepted factor, and completes the login of the first factor that issued it, with its subject, realm, client and profile |
| LoginCredentials.RefreshKeepsClient | internal/authapi/token.go:547-550 | a refreshed id_token is for the requesting client, or when none is named for the client of the id_token that came with the refresh token |
| LoginCredentials.PromptsAreObeyed | internal/authapi/authorize.go:158-177 | in every run prompt=none never logs in, prompt=login never reuses a session, login_hint decides the id_token's subject, and a front-channel id_token echoes the nonce and names the client |
| LoginCredentials.EndedSessionsStayEnded | internal/authapi/authorize.go:179-186 | once a new login is about to start its session, or a logout is over, the session its cookie named is not live and never will be, whatever ran in between |
| LoginCredentials.EnforcementNeedsSecondFactor | internal/authapi/token.go:85-99 | while MFA stays required no first factor that arrives under it ever gets an id_token |
| LoginRules.AuthorizeDecides | internal/authapi/authorize.go:95-127 | a servable request reuses the browser's live session exactly if prompt and login_hint let it, with that session's user and instant in code and id_token; otherwise the hinted or default user logs in now, and prompt=none without a session logs nobody in |
| LoginRules.CodeIsForLogin | internal/authapi/authorize.go:309-333 | the code stored next is for that user and instant, for ten minutes |
| LoginRules.CodesAreHonouredIff | internal/authapi/token.go:616-649 | an exchange of a stored code succeeds exactly if it is in time, its verifier answers the challenge of the issuing turn (or neither has one) and signing works |
| LoginRules.UnknownCode | internal/authapi/token.go:627-653 | an unknown code is refused with a verifier, and without one logs the default user in now |
| LoginRules.RefreshesAreHonouredIff | internal/authapi/token.go:525-533 | a refresh succeeds exactly for a stored refresh token while signing works |
| LoginRules.MfaTokensAreHonouredIff | internal/authapi/mfa_grants.go:15-80 | a second factor succeeds exactly for a stored mfa_token in time with one of the fixed challenges while signing works |
| LoginRules.PasswordLogsIn | internal/authapi/token.go:163-225 | the username, or a generated user, logs in, or with enforcement on gets an mfa_token for that user; an empty realm is refused |
| LoginRules.PasswordlessLogsIn | internal/authapi/token.go:229-300 | which passwordless logins are accepted, and as whom |
| LoginRules.IssuedOnce | internal/authapi/token.go:66-76 | no credential is issued twice |
| LoginRules.IssuedIsHeld | internal/authapi/token.go:66-76 | an issued credential is stored from the step that issues it |
| LoginRules.StoredAsPromised | internal/authapi/authorize.go:179-186 | what is stored for a challenge, a new login and a grant is that user, that login and that grant |
| LoginRules.LeavesForACause | internal/session/session.go:102-116 | a stored credential leaves only by being presented if single-use, a sweep after its expiry, its session's end, eviction as the oldest of 10000, or an admin reset |
| LoginRules.ResetForgets | internal/admin0/admin0.go:141-152 | an admin reset ends every session, refresh token and mfa_token for good; codes survive it |
| LoginRules.OnlyAdminsEnforce | internal/mfa/mfa.go:91-97 | enforcement is what an admin last set it to |
| LoginRules.RequestsProceed | internal/authapi/authorize.go:110-127 | every step brings a request closer to its answer and none after the first changes what it is based on |
| LoginRules.TokensAreDelivered | internal/authapi/token.go:665-692 | a minted id_token is what its request answers with before it is over |
| LoginRules.AcceptedRequestsIssue | internal/authapi/authorize.go:129-148 | an accepted request that is over has issued the code, session or refresh token it promised |
| LoginRules.DerivedProfileMeans | internal/authapi/profile.go:24-48 | the derived email, name and nickname of a subject |
| LoginRules.DerivedPicture | internal/authapi/profile.go:37-47 | the derived picture shows the nickname's first two letters |
| LoginRules.UnixIsSeconds | internal/authapi/token.go:671 | auth_time is the login instant in whole seconds, rounded down |
| Journal.Ring.constructor | internal/journal/journal.go:75-82 | an empty journal, a negative size meaning none |
| Journal.Ring.Add | internal/journal/journal.go:84-97 | for every size including 0 the ring still holds the newest size entries since Clear |
| Journal.Ring.Collect | internal/journal/journal.go:99-110 | walking the ring gives the filtered newest entries, oldest first |
| Journal.Ring.List | internal/journal/journal.go:112-115 | the filter of the newest size entries added since Clear |
| Journal.Ring.Unmatched | internal/journal/journal.go:117-120 | the same, restricted to no_match |
| Journal.Ring.Clear | internal/journal/journal.go:122-128 | zeroes every slot and forgets what was added |
| Journal.ListedIff | internal/journal/journal.go:52-65 | which entries a listing shows, by method without case, by operation for a path with a brace and by concrete path otherwise |
| Lists.FilteredHas | internal/journal/journal.go:99-110 | a listing holds exactly the admitted entries |
| Lists.FilteredConcat | internal/journal/journal.go:99-110 | a listing keeps arrival order |
| Ledger.PendingIsTheRise | pkg/auth0mock/client.go:69-208 | in any interleaving the counter is how much longer the ledger is than at its shortest since the last Verify finished, or the last Reset or full Clear |
| Ledger.PendingCountsTheLedger | pkg/auth0mock/client.go:69-208 | it never exceeds the ledger and equals its length exactly when the ledger was empty at some moment of that window, as it was if no Verify finished since construction or the last Reset |
| Ledger.PendingCountsTheLater | pkg/auth0mock/client.go:97-139 | it never exceeds the number of handles tracked in that window, and is that number exactly when no earlier handle was cleared while a later one stayed |
| Ledger.FlagIff | pkg/auth0mock/client.go:192-208 | the flag is up exactly when, since a Verify last took it, a Reset hit a ledger that had risen |
| Ledger.OrderingErrorIff | pkg/auth0mock/expectations.go:203-222 | a Verify that finds the ledger empty reports the ordering error exactly in that case |
| Ledger.WipedConstraintsAreReported | pkg/auth0mock/client.go:192-208 | a Reset that drops a non-empty ledger which was empty at some moment since the last Verify makes the next Verify that finds it empty report the ordering error |
| Ledger.FlagHasACause | pkg/auth0mock/client.go:97-117 | a raised flag goes back to a Reset that dropped a handle tracked since the last Verify or Reset, so retracting first raises nothing |
| Ledger.ClearedOldHandleHidesNewOne | pkg/auth0mock/client.go:97-117 | after a Verify, clearing a verified handle lets a Reset drop an unverified one unnoticed |
| Ledger.UndercountIsReachable | pkg/auth0mock/expectations.go:260-262 | the run that reaches that state |
| Ledger.AddDuringVerifyIsForgotten | pkg/auth0mock/expectations.go:210-262 | a handle added between Verify's snapshot and its store of zero is unchecked, uncounted and wiped unnoticed |
| Ledger.ResetDuringVerifyRaisesFlag | pkg/auth0mock/expectations.go:210-262 | a Reset between them raises the flag for handles that are being checked |
| Ledger.TooFewIsRepairable | pkg/auth0mock/expectations.go:464-489 | a violation is too few hits exactly when more hits could still satisfy it |
| Ledger.BoundsAreTight | pkg/auth0mock/expectations.go:464-489 | Exactly is both bounds at once, AtLeast is met from n on and AtMost up to n |
| Ledger.ClearedIff | pkg/auth0mock/client.go:119-165 | which handles Clear and ClearOp keep |
| ClientLedger.Client.TrackRegistered | pkg/auth0mock/client.go:87-95 | append and count |
| ClientLedger.Client.UntrackWhere | pkg/auth0mock/client.go:123-139 | the in-place compaction is a filter, nils the vacated tail, and takes the difference off the clamped counter, a racing store of zero counting as one that came first |
| ClientLedger.Client.UntrackByID | pkg/auth0mock/client.go:119-139 | drops the handles with the id |
| ClientLedger.Client.UntrackByMethodPath | pkg/auth0mock/client.go:141-165 | drops the handles of the operation, method compared without case |
| ClientLedger.Client.DecrementPendingAdds | pkg/auth0mock/client.go:97-117 | the compare-and-swap loop ends and subtracts, clamped at zero, from zero if Verify's unlocked store fell between load and swap |
| ClientLedger.Client.UntrackEverything | pkg/auth0mock/client.go:167-180 | empties ledger and counter |
| ClientLedger.Client.DropRegistered | pkg/auth0mock/client.go:192-208 | Reset's half: flag, counter and slice |
| ClientLedger.Client.TakeResetFlag | pkg/auth0mock/expectations.go:210 | Verify's first critical section is the step that takes the flag |
| ClientLedger.Client.RegisteredSnapshot | pkg/auth0mock/client.go:182-190 | its second copies the ledger and is the snapshot step |
| ClientLedger.Client.Conclude | pkg/auth0mock/expectations.go:229-266 | its last judges that copy, whatever ran in between, reports exactly the violated handles and is the step that zeroes the counter |
| ClientLedger.JudgedIff | pkg/auth0mock/expectations.go:229-258 | a handle is reported exactly if it is in the copy, constrained, and unlisted or listed with the wrong count |
| ClientLedger.Client.Verify | pkg/auth0mock/expectations.go:203-267 | the three in one go: consumes the flag, reports the ordering error on an empty ledger, else exactly the violated handles |

## Left out

- HubProtocol: modelled on values as a step system because interleaving is the point; the maps, slices and mutexes of Hub as objects are not.
- Keep-alive publishing releases the lock before it publishes and ignores errors, so it is outside the in-flight result.
- Which replay buffer a subscriber replays from when a Reset lands between its 410 check and its server read.
- Live delivery after Replay returns, including what it does to the position of a cut resume.
- Parsing: query strings, RFC 3339, JSON text, form bodies; the model starts from parsed values and from JSON numbers as reals.
- The 1024-byte truncation of reported want and got values.
- Matching.Explain: the order of differences that share a field name is not fixed, as in the source.
- List and GetByID of the expectation store, which only read.
- Audience and scope in codes, grants and mfa contexts; access tokens and their custom claims; issuer, iat, exp, at_hash and c_hash of id_tokens.
- The login handlers as objects: LoginFlow models their store calls on values because interleaving is the point; the stores they call are the classes of ExpiringStore and SessionStore.
- What a login request does besides those calls and its answer: the profile it remembers for /userinfo, cookies, rendering.
- Stores configured as nil, registered authorize-error rules, redirect vetting and response modes.
- LoginFlow's profile derivation lower-cases ASCII letters only; Unicode case mapping is not modelled. SHA-256 and the passwordless digest are arbitrary functions.
- ClientLedger.Client.Verify: near-miss hints and message texts.
- HTTP plumbing, routing, middleware, CORS, TLS, configuration, logging, clock modes, claims and permission stores, the OpenAPI generator and the SDK transport.
