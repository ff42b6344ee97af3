# A verified model of the game backend's core

This project models the parts of the backend that hold real state, concurrency
or encoding, and proves what they guarantee over every input and every run.
External systems (Redis lists and keys, Postgres tables, NATS, the network) are
explicit state whose operations are atomic steps that may fail; clocks, random
ids, hashing and JSON are parameters. A step that reports failure is taken to
have had no effect, except for network writes, which may be cut after any byte.

| module | what it models |
|---|---|
| `Prelude`, `Sums`, `Bytes` | options and results; sums over maps; bytes, big-endian numbers, masking |
| `Rfc6455` | sections 5.2 and 5.3 of RFC 6455, written from the standard, independent of the code |
| `WsConn` | the gateway's frame reader and writer, as methods on a connection |
| `GatewayConnection` | one connection: read loop, ping goroutine and senders under two nested locks |
| `GatewayDelivery` | which of the messages threads ask to send get onto the wire |
| `GatewayShutdown` | the handler's wait for the ping goroutine, on every schedule |
| `GatewayRegistry` | the map from users to connections |
| `Presence` | the presence key with its lifetime and refresh schedule |
| `GatewayHandler` | one undisturbed handler from registration to cleanup |
| `MatchQueue` | the pop-two/push-back queue, with any number of workers |
| `Matchmaking` | what is published for a dequeued pair |
| `Sessions` | session tables, their constraints and the service operations on them |
| `MatchToSession` | queue, announcements and session creation composed |
| `Login` | interleaved logins over the users table |
| `Base64Url`, `Token` | section 5 of RFC 4648; login tokens and their lifetime |
| `MigrationPlan`, `Migrations` | loading, selecting and running migrations |
| `Broadcast` | the broadcast to online users |
| `Metrics` | the two request counters |

Each loop or in-place operation of the source is a method proved against a
specification function or a property; the theorems are then proved about those
functions and about state machines in which every atomic action of the code is
one event and a run is any sequence of enabled events.

Some laws one might expect are false of the code. They are kept as the code has
them, with a run that breaks the law and the exact condition under which it holds:

- A write that fails part-way through a frame leaves the stream misaligned, and
  later sends succeed all the same (`GatewayConnection.TornFrameHidesNextSend`);
  the wire is the frames sent exactly when this has not happened
  (`GatewayConnection.WireIsWholeFrames`).
- A reconnect that overlaps the old handler loses the new connection's entry:
  `GatewayRegistry.OverlappingReconnectDropsNewConnection`; exactly when a live
  handler is reachable: `GatewayRegistry.ReachableIffUndisturbed`.
- Lost refreshes in a row may let a presence key lapse; exactly how many and when:
  `Presence.FailuresSurvivedIff`.
- An older handler's cleanup deletes the presence key of a live reconnect, and a
  late refresh outlives the cleanup (`Presence.CleanupHidesUntilNextRefresh`,
  `Presence.LateRefreshOutlivesCleanup`); exactly when a live connection has its
  key: `Presence.LiveConnectionHasKeyIff`.
- Two workers break the queue's order (`MatchQueue.TwoWorkersBreakFifo`). It holds
  in all runs without a failed push-back exactly for at most one worker
  (`MatchQueue.InOrderIffAtMostOneWorker`), for more when their pops exclude each
  other (`MatchQueue.ExclusiveWorkersKeepFifo`), and with one worker exactly when
  no push-back fails (`MatchQueue.OneWorkerFifoExactly`).
- A session in the tables need not come from a match, as users create sessions of
  their own; what tells them apart: `MatchToSession.SharedSessionsAreMatches`.
- Rows with an empty password hash, which the schema's default allows, let stored
  hashes change and tokens be issued for a password that is not the stored one:
  `Login.EmptyHashIsOverwritten`, `Login.EmptyHashRace`; the condition is exact by
  `Login.SafeExactlyWithoutEmptyHashes`.
- Up by k then down by k restores the applied set exactly from an applied prefix:
  `Migrations.UpDownRestoresIffPrefix`.

## Model

| member | source | states |
|---|---|---|
| `Bytes.BigEndianRoundTrip` | internal/gateway/ws.go:121-130 | a length written big-endian into k bytes reads back, for every length below 256^k |
| `Bytes.FromBigEndianRoundTrip` | internal/gateway/ws.go:156-172 | every k bytes denote a number below 256^k and are its big-endian form |
| `Bytes.MaskInvolution` | internal/gateway/ws.go:183-185 | masking twice with one key restores the data |
| `Rfc6455.DecodeEncode` | internal/gateway/ws.go:110-140 | yardstick: every valid frame of sections 5.2 and 5.3 of RFC 6455 decodes to itself and leaves exactly what followed it |
| `Rfc6455.EncodeDecode` | internal/gateway/ws.go:142-187 | yardstick: whatever decodes is byte for byte the encoding of the decoded frame plus the remainder |
| `Rfc6455.DecodePrefix` | internal/gateway/ws.go:142-187 | yardstick: a proper prefix of a frame is incomplete, never a frame or an error |
| `Rfc6455.DecodeAllEncodeAll` | internal/gateway/ws.go:110-140 | yardstick: a concatenation of frames followed by an incomplete tail splits into exactly those frames and that tail |
| `Rfc6455.EncodeAllDecodeAll` | internal/gateway/ws.go:110-140 | yardstick: for every byte string, the decoded frames encoded again followed by the undecoded remainder are that string |
| `Rfc6455.LengthForms` | internal/gateway/ws.go:117-130 | the bounds of the three length forms in numbers: 125, 65535, 2^63-1 |
| `Rfc6455.Examples` | internal/gateway/ws.go:110-140 | the yardstick gives the bytes of the standard's own examples (section 5.7 of RFC 6455): texts unmasked, masked and fragmented, ping, masked pong |
| `Rfc6455.LongExamples` | internal/gateway/ws.go:117-130 | and those of its 256-byte and 64-kibibyte examples, for every payload |
| `WsConn.Conn.ReadFull` | internal/gateway/ws.go:143-146 | reads exactly the buffer's length or fails with the stream drained |
| `WsConn.Conn.ReadFrame` | internal/gateway/ws.go:142-187 | result and unread bytes are those of the reader's specification, on every input and every error path |
| `WsConn.Conn.ReadLength` | internal/gateway/ws.go:153-172 | the three length forms and the 2^31-1 bound |
| `WsConn.Conn.ReadMasked` | internal/gateway/ws.go:174-186 | the in-place loop leaves the unmasked payload in the buffer |
| `WsConn.Conn.BuildHead` | internal/gateway/ws.go:114-130 | the header buffer ends up as the specified header for every length |
| `WsConn.Conn.WriteParts` | internal/gateway/ws.go:132-139 | whatever the network accepts, a prefix of header and payload is appended, and success means all of it |
| `WsConn.Conn.WriteFrame` | internal/gateway/ws.go:110-140 | appends a prefix of the frame, and reports success exactly when it is the whole frame |
| `WsConn.WriteIsShortestFrame` | internal/gateway/ws.go:110-140 | what the writer produces is the standard's encoding of a final unmasked frame in the shortest length form |
| `WsConn.ReadAgreesWithRfc` | internal/gateway/ws.go:142-187 | the reader succeeds if and only if the standard's decoder finds a masked frame of at most 2^31-1 bytes, with the same opcode, payload and remainder |
| `WsConn.ReadOneFrame` | internal/gateway/ws.go:142-187 | one call on a client frame followed by anything returns it and stops right after it |
| `WsConn.ReadAllFrames` | internal/gateway/ws.go:142-187 | every list of client frames, with any opcodes, keys and length forms, is read back exactly with nothing left over |
| `WsConn.ReadBoundaries` | internal/gateway/ws.go:142-187 | a successful read consumes exactly header, extension, key and payload; appended bytes do not matter; every proper prefix fails |
| `WsConn.ReadsUpToLimit` | internal/gateway/ws.go:142-187 | every valid masked frame of up to 0x7FFFFFFF bytes is read, whatever its length form and whatever follows |
| `WsConn.ReadErrors` | internal/gateway/ws.go:150-170 | exactly when the mask bit is missing and exactly when a length above 0x7FFFFFFF is refused, and what has been consumed then; every other failure is for want of bytes |
| `GatewayConnection.Reachable` | internal/gateway/handler.go:108-175 | every state of every interleaving satisfies the invariant on locks, cancellation, messages, wire, pongs and input, for every codec |
| `GatewayConnection.WireIsWholeFrames` | internal/gateway/handler.go:141-144 | in every run, the standard's decoder finds on the wire exactly the completed sends' frames in lock order and the one unfinished frame if and only if no write failed part-way; then it recovers exactly the sent messages, all lengths shortest |
| `GatewayConnection.PongsEchoPings` | internal/gateway/handler.go:164-168 | for every client input, cut off or malformed included, while no write fails the pongs the client decodes are in order the payloads of the first pings read |
| `GatewayConnection.PongsEchoClientPings` | internal/gateway/handler.go:164-168 | for a client that sends whole frames, those are its own first pings |
| `GatewayConnection.CancelledBy` | internal/gateway/handler.go:144-161 | one step cancels if and only if it is the request's cancellation, the ping goroutine giving up, a failed read or a close frame (opcode 0x8) |
| `GatewayConnection.ReadTurn` | internal/gateway/handler.go:154-173 | what each read leads to: leaving, a pong with the ping's payload, or the check that leaves if and only if the context is cancelled |
| `GatewayConnection.CloseEndsTheLoop` | internal/gateway/handler.go:160-172 | a close frame cancels and the loop is left at the next check |
| `GatewayConnection.NothingReadAfterClose` | internal/gateway/handler.go:154-173 | in every run a close frame is the last message read, and the context is cancelled from then on |
| `GatewayConnection.AfterWrite` | internal/gateway/handler.go:141-168 | a failed ping cancels and ends the ping goroutine, a failed pong does not end the read loop |
| `GatewayConnection.WriteReturns` | internal/gateway/ws.go:132-139 | a write returns without an error exactly when its whole frame was accepted |
| `GatewayConnection.WhatIsSent` | internal/gateway/ws.go:102-108 | texts go out with opcode 0x1, ticks with opcode 0x9 and the payload "ping" |
| `GatewayShutdown.WaitCompletes` | internal/gateway/handler.go:131-174 | once the read loop is left and while the network takes the pending bytes, a short schedule of the lock holder and the ping goroutine completes the wait, from every reachable state |
| `GatewayShutdown.StepsAreBounded` | internal/gateway/handler.go:131-174 | after the read loop is left, every run takes at most as many working steps as the backlog and later arrivals allow, however the network splits or fails the writes |
| `GatewayShutdown.RestIsTheEnd` | internal/gateway/handler.go:173 | a state without working steps has no thread at the locks, and the wait is about to return |
| `GatewayShutdown.NoDeadlock` | internal/gateway/handler.go:108-175 | in every run: leaving the loop and the ping goroutine's return come after cancellation, the inner lock is held only inside the outer one, every continuation has working steps bounded by backlog and later arrivals and can stop only where the wait returns, and some continuation of at most 17 steps returns |
| `GatewayConnection.TornFrameHidesNextSend` | internal/gateway/ws.go:132-139 | a run the condition shuts out: after a write cut at one byte, a later send succeeds and the client can decode nothing |
| `GatewayDelivery.SentIsAsked` | internal/gateway/handler.go:198-210 | in every run and for every thread: its completed messages are, in wire order, some of those it was asked to send, all of them but the one in hand while no write has failed, and as many as its calls that returned without an error plus one about to |
| `GatewayDelivery.TextsArriveInOrder` | internal/gateway/handler.go:206-209 | without a torn write the client decodes each thread's messages in the order it was asked to send them, one for each of those calls |
| `GatewayHandler.HandleConnection` | internal/gateway/handler.go:108-127 | one handler from registration to cleanup, undisturbed: the events it adds to map and key, and that neither keeps anything of the user |
| `GatewayRegistry.UserSender.SendToUser` | internal/gateway/handler.go:198-204 | reaches the connection the history of events determines, or reports that there is none |
| `GatewayRegistry.LastEventDecides` | internal/gateway/handler.go:108-122 | the entry of a user is that of the last event about the user |
| `GatewayRegistry.RegisteredIsLive` | internal/gateway/handler.go:108-122 | in every run a registered connection belongs to a handler of that user that has not deregistered |
| `GatewayRegistry.ReachableIffUndisturbed` | internal/gateway/handler.go:108-122 | a live handler is in the map if and only if nothing about its user happened since it registered |
| `GatewayRegistry.MapIsLiveHandlers` | internal/gateway/handler.go:108-122 | with at most one live handler per user at any moment, the map is exactly the live handlers |
| `GatewayRegistry.OverlappingReconnectDropsNewConnection` | internal/gateway/handler.go:116-119 | the old handler's cleanup removes the entry of a live new connection |
| `Presence.KeepPresent` | internal/gateway/handler.go:177-190 | initial refresh and loop issue exactly the refreshes of the successful attempts |
| `Presence.RefreshesAre` | internal/gateway/handler.go:177-190 | the command log is ordered and holds exactly the landings of the successful attempts |
| `Presence.Durations` | internal/gateway/handler.go:17-19 | one refresh makes the key present for exactly 60 seconds, and attempts are 20 seconds apart |
| `Presence.PresentIffFresh` | internal/gateway/handler.go:192-194 | the key is present at t if and only if a refresh of the previous 60 seconds was not followed by a deletion |
| `Presence.NoLapse` | internal/gateway/handler.go:124-127 | without deletions, the key is present at every moment from the first refresh to 60 seconds after the last if and only if successive refreshes are at most 60 seconds apart |
| `Presence.AttemptCovers` | internal/gateway/handler.go:17-19 | a successful attempt covers the next 60 seconds whatever the other attempts do |
| `Presence.IsolatedFailuresAreTolerated` | internal/gateway/handler.go:17-19 | with 20-second ticks and delays within 20 seconds of each other, from the first success on, no two failures in a row means the key is present throughout |
| `Presence.CoveredKeyIffNotDeleted` | internal/gateway/handler.go:120 | while some refresh is less than 60 seconds old, the key is present if and only if no deletion followed the latest refresh |
| `Presence.LiveConnectionHasKeyIff` | internal/gateway/handler.go:116-127 | a live connection whose refreshes do not fail twice in a row has its key if and only if no handler of its user deleted it since the latest refresh |
| `Presence.CleanupHidesUntilNextRefresh` | internal/gateway/handler.go:120 | an older handler's cleanup takes a live connection's key until its next refresh |
| `Presence.LateRefreshOutlivesCleanup` | internal/gateway/handler.go:177-190 | a refresh in flight that lands after the cleanup leaves the key for 60 seconds without a connection |
| `Presence.GapSurvivedIff` | internal/gateway/handler.go:177-190 | between two successes with any number of failures in between, the key is present throughout if and only if they land at most 60 seconds apart |
| `Presence.FailuresSurvivedIff` | internal/gateway/handler.go:17-19 | one failure in a row is always survived, two if and only if the next success is no later after its tick than the last one, three or more never |
| `Presence.TwoFailuresSurvivedIff` | internal/gateway/handler.go:177-190 | the case of two failures in a row |
| `MatchQueue.RedisQueue.LPopCount` | internal/matchmaking/queue.go:30 | LPOP with a count: nothing on failure, nil on an empty list, otherwise up to that many from the head |
| `MatchQueue.RedisQueue.DequeuePair` | internal/matchmaking/queue.go:29-47 | list and result, written out for a failed pop, for two or more entries, and for fewer with and without a failed push-back |
| `MatchQueue.UninterruptedDequeue` | internal/matchmaking/queue.go:29-47 | the protocol's pop and push-back, run without interleaving, do what `DequeuePair` does |
| `MatchQueue.FailedDequeue` | internal/matchmaking/queue.go:34-36 | a pop that fails changes nothing and is reported as an error |
| `MatchQueue.ExactlyOnePlace` | internal/matchmaking/queue.go:29-47 | any workers, any interleaving, any failures: every ticket is in exactly one of list, hands, pairs, lost |
| `MatchQueue.NoTicketMatchedTwice` | internal/matchmaking/service.go:55-81 | in every run no ticket occurs in two pairs or twice in one |
| `MatchQueue.RefineStep` | internal/matchmaking/queue.go:29-47 | each event is one step of the atomic queue or none: the pop is where `DequeuePair` takes effect |
| `MatchQueue.OneWorkerRefinesFifo` | internal/matchmaking/service_test.go:99-112 | one worker, no failed push-back: history is pairs, held ticket, list; the queue behaves as the tests' atomic queue on the same events; pair i is tickets 2i and 2i+1 |
| `MatchQueue.OneWorkerFifoExactly` | internal/matchmaking/queue.go:25-47 | with one worker the order holds if and only if no push-back failed |
| `MatchQueue.ExclusiveWorkersKeepFifo` | internal/matchmaking/queue.go:29-47 | any number of workers keep history = pairs, held ticket, list, and pair i = tickets 2i and 2i+1, as long as none pops while another holds a ticket and no push-back fails |
| `MatchQueue.InOrderIffAtMostOneWorker` | cmd/matchmaking/main.go:71 | all runs without a failed push-back dequeue in order if and only if there is at most one worker |
| `MatchQueue.TwoWorkersBreakFifo` | internal/matchmaking/queue.go:29-47 | with any number of workers from two on, a later pair can be matched before the first player, with no failure at all |
| `MatchQueue.PositionAdvances` | internal/matchmaking/service.go:83-94 | every successful pop brings a waiting player two places forward, whoever arrives meanwhile |
| `MatchQueue.BoundedWaiting` | internal/matchmaking/service.go:55-94 | after i/2 pops the next one dequeues the player of position i if and only if someone else is in the queue |
| `Matchmaking.Service.Enqueue` | internal/matchmaking/service.go:39-53 | the player is queued even when the announcement fails; the announcement goes out only on full success |
| `Matchmaking.Service.ProcessOnce` | internal/matchmaking/service.go:55-81 | with all up, publishes the matched event of the first two players, the message to A naming B and the message to B naming A under one match id and one correlation id, and otherwise a prefix cut at the first failure; succeeds on a pair exactly when all three go out; a failed pop is an error that changes nothing |
| `Matchmaking.EachHearsOfTheOther` | internal/matchmaking/service.go:74-80 | the three messages of a pair, written out |
| `Sessions.Repository.CreateSession` | internal/sessions/repository.go:23-55 | succeeds if and only if every step is up and the data allow it; adds exactly the listed rows and roles; a failed begin, insert or commit leaves both tables unchanged |
| `Sessions.Repository.InsertMembers` | internal/sessions/repository.go:38-48 | the loop of inserts succeeds exactly for distinct well-formed members without left-over rows, and adds exactly their rows |
| `Sessions.DuplicatesAreRefused` | deploy/sql/migrations/003_sessions_members.up.sql:11-17 | a list that names a member twice, in two spellings even, cannot be inserted |
| `Sessions.Repository.IsMember` | internal/sessions/repository.go:57-62 | true exactly when the member row exists; malformed ids are errors |
| `Sessions.Service.CreateSessionForUser` | internal/sessions/service.go:38-47 | one step of the table state machine for a one-member session; it persists although an error is returned when the announcement fails |
| `Sessions.Service.AssignServer` | internal/sessions/service.go:49-61 | succeeds and announces only for members; a non-member is refused |
| `Sessions.Service.HandleMatched` | internal/sessions/service.go:93-115 | one step of the table state machine; the first listed user owns the session; session ids are used only when there are no user ids; an empty list does nothing |
| `Sessions.UserIdsComeFirst` | internal/sessions/service.go:102-108 | the user ids are the members, the session ids only when there are none |
| `Sessions.ConsistentAdd` | deploy/sql/migrations/003_sessions_members.up.sql:11-17 | one creation keeps: one owner row, owner is `owner_user_id`, members are the list given, every member row has its session |
| `Sessions.OneOwnerPerSession` | internal/sessions/service.go:38-61 | in every database state the service reaches, those hold for every session |
| `MatchToSession.AnnouncedIsPrefix` | internal/matchmaking/service.go:55-124 | in every run, any number of workers, any failures, anything in between: what is on the bus for a dequeued pair A, B is a prefix of matched, message to A naming B, message to B naming A, under one match id and one correlation id |
| `MatchToSession.EventsAreProcessOnce` | internal/matchmaking/service.go:61-80 | the events of one pair without any in between announce what the method `ProcessOnce` publishes |
| `MatchToSession.FailedSayIsTheLast` | internal/matchmaking/service.go:74-80 | after a failed announcement none of the pair's follows |
| `MatchToSession.SessionsAreDequeuedPairs` | internal/sessions/service.go:93-115 | any number of workers, any failures, users creating sessions of their own: a session from a match has the two players of one dequeued pair as its members, the first as owner, and no two share a pair; every other session has its owner alone |
| `MatchToSession.NoTicketMakesTwoSessions` | internal/matchmaking/service.go:55-124 | in every such run the pairs behind two sessions share no enqueued ticket |
| `MatchToSession.AnnouncedPlayersAreAdjacent` | internal/matchmaking/service.go:55-124 | with one worker and no failed push-back, every message is about two players adjacent in the enqueue history |
| `MatchToSession.SessionsAreAdjacentPairs` | internal/matchmaking/service.go:55-124 | with one worker and no failed push-back, a session from a match is of two players adjacent in the enqueue history, the earlier one as owner, and no two share a pair; every other session has its owner alone |
| `MatchToSession.SharedSessionsAreMatches` | internal/sessions/service.go:38-47 | from the tables alone: a session with a member besides its owner is that of a dequeued pair, and with one worker and no failed push-back of two adjacent players |
| `MatchToSession.DeliveryMakesSessionIffPlayersDiffer` | internal/sessions/service.go:93-115 | a matched event delivered after any run with any number of workers, database up, fresh id, valid player ids: the session of the pair's A and B is made if and only if A and B differ, otherwise nothing changes |
| `Login.Repository.Create` | internal/login/repository.go:53-65 | inserts if and only if id and username are both unused; a violation changes nothing |
| `Login.LoginOnce` | internal/login/service.go:22-68 | one uninterrupted login: exactly when it is granted, refused or fails, the table afterwards, and that the granted user is stored with a hash the password verifies against |
| `Login.LoginsAreSafe` | internal/login/service.go:22-68 | every interleaving from a table without empty hashes: one id per username, stored rows never change, every token carries the stored id and was issued for a verifying password |
| `Login.EventsAreLoginOnce` | internal/login/service.go:22-68 | the steps of one login without others in between leave the table `LoginOnce` leaves, issue its user's token exactly when it succeeds, and are over when it is not granted |
| `Login.AfterLookup` | internal/login/service.go:27-50 | what follows a lookup: its failure ends the request, a missing user is hashed for, a stored hash decides by verification, an empty one is replaced |
| `Login.AfterFailure` | internal/login/service.go:32-47 | a failed hash, insert or update ends the request and leaves the table alone |
| `Login.AdmitsIff` | deploy/sql/migrations/002_login_users.up.sql:4-9 | an insert clashes exactly with a row of the same id or username |
| `Login.EmptyHashIsOverwritten` | internal/login/service.go:40-47 | any row with an empty hash can be changed by a single login |
| `Login.SafeExactlyWithoutEmptyHashes` | deploy/sql/migrations/002_login_users.up.sql:4-9 | the safety of all runs holds if and only if the initial table has no empty hash |
| `Login.EmptyHashRace` | internal/login/service.go:40-47 | two first logins to such a row can leave a token issued for a password that does not verify |
| `Base64Url.DecodeEncode` | internal/login/auth.go:59-76 | decoding undoes encoding on every byte string |
| `Base64Url.EncodeHasNoDot` | internal/login/auth.go:59-62 | no encoding contains the separator |
| `Base64Url.AlphabetIs` | internal/login/auth.go:59-62 | the characters are those of table 2 of RFC 4648 |
| `Base64Url.AcceptedCharacters` | internal/login/auth.go:76 | the decoder takes exactly those and line breaks |
| `Base64Url.GroupsOf24Bits` | internal/login/auth.go:59-62 | three octets are one 24-bit number in four digits (section 4 of RFC 4648) |
| `Base64Url.ShortGroups` | internal/login/auth.go:59-62 | the two shorter endings are filled with zero bits |
| `Token.JoinSplit` | internal/login/auth.go:66-69 | splitting yields dot-free parts that join back to the text |
| `Token.TokenHasThreeParts` | internal/login/auth.go:45-63 | a generated token splits into exactly three dot-free parts: header, claims, signature of both |
| `Token.ParseGenerated` | internal/login/auth.go:65-88 | a generated token parses back to its id and username if and only if both are non-empty and the expiry second has not passed |
| `Token.TokenLifetime` | internal/login/auth.go:45-88 | accepted at every instant up to issue plus ttl, rejected from one second after, despite truncation to seconds |
| `Token.AcceptedTokensAreSigned` | internal/login/auth.go:65-88 | every accepted text is two dot-free parts and the signature of exactly those, which decodes to their MAC, and yields the signed claims before their expiry |
| `Token.ForgedTokensAreRejected` | internal/login/auth.go:71-74 | any third part but the MAC of the first two is rejected |
| `Token.TokenPartsDecode` | internal/login/auth.go:45-63 | the parts of a generated token decode to header, claims and the MAC of the other two |
| `Token.UnixIsFloor` | internal/login/auth.go:48 | times are cut down to whole seconds |
| `MigrationPlan.LoadMigrationFiles` | cmd/migrate/main.go:93-139 | succeeds if and only if every version has both scripts, and then returns the directory's plan; otherwise names a version with one script only; sub-directories do not count |
| `MigrationPlan.Gather` | cmd/migrate/main.go:126-132 | in any map order: every version once with both scripts, or a version that lacks one |
| `MigrationPlan.Collect` | cmd/migrate/main.go:126-138 | refusal or the sorted plan, from any recorded map |
| `MigrationPlan.SortByVersion` | cmd/migrate/main.go:134-136 | strictly increasing versions and a permutation of the input |
| `MigrationPlan.PlanDependsOnNamesOnly` | cmd/migrate/main.go:93-139 | two plans of the same set of names are equal, whatever the directory and map order |
| `MigrationPlan.FirstDifferenceDecides` | cmd/migrate/main.go:134-136 | of two versions the one with the smaller character at the first difference comes first |
| `MigrationPlan.PrefixComesFirst` | cmd/migrate/main.go:134-136 | and a proper prefix comes first |
| `MigrationPlan.PlanIsInDictionaryOrder` | cmd/migrate/main.go:134-138 | the plan is in that order |
| `MigrationPlan.PlanPaths` | cmd/migrate/main.go:105-122 | a version's up path is that of its `.up.sql` file and its down path that of its `.down.sql` file |
| `MigrationPlan.CompleteMeansBoth` | cmd/migrate/main.go:126-131 | a directory is complete exactly when no version has one of the two files without the other |
| `Migrations.CollectUp` | cmd/migrate/main.go:168-173 | exactly the unapplied migrations, in plan order |
| `Migrations.CollectDown` | cmd/migrate/main.go:174-179 | exactly the applied migrations, last first |
| `Migrations.SelectMigrations` | cmd/migrate/main.go:164-187 | the selection, cut to a positive step count |
| `Migrations.StepsLimit` | cmd/migrate/main.go:182-186 | a step count of zero or below takes all that is pending, any other at most so many |
| `Migrations.PendingAre` | cmd/migrate/main.go:164-180 | upwards the versions not applied in increasing order, downwards the applied ones in decreasing order |
| `Migrations.Runner.RunMigration` | cmd/migrate/main.go:189-229 | runs the up or the down file; script and record are committed together; a failed read, begin, script, record or commit changes nothing |
| `Migrations.Runner.Migrate` | cmd/migrate/main.go:66-72 | a run commits a prefix of its selection and stops at the first failure; an up run never clashes with a recorded version |
| `Migrations.UpMovesPrefix` | cmd/migrate/main.go:164-187 | an interrupted up run moves an applied prefix up by what it committed |
| `Migrations.DownMovesPrefix` | cmd/migrate/main.go:164-187 | an interrupted down run takes the top of the prefix, last first |
| `Migrations.PrefixIsKept` | cmd/migrate/main.go:66-72 | over every sequence of runs, with any steps and failures, an applied prefix stays a prefix |
| `Migrations.UpDownRestoresIffPrefix` | cmd/migrate/main.go:164-229 | k applied ups and a down of k restore the set if and only if it was a prefix, and then in exact reverse order |
| `Migrations.PendingAfter` | cmd/migrate/main.go:164-187 | after committing the first s pending migrations the rest are pending in the same order, in both directions |
| `Migrations.SplitRunsCommitTheSame` | cmd/migrate/main.go:164-229 | from any applied set, runs of any positive step sizes execute the same scripts in the same order as one full run |
| `Broadcast.TrimUndoesKey` | internal/gateway/handler.go:212 | trimming the prefix undoes `presenceKey`, and every scanned key is the key of what trimming yields |
| `Broadcast.TargetsAre` | internal/sessions/service.go:80-84 | the targets of any part of a scan are distinct and exactly its non-empty users |
| `Broadcast.BroadcastToOnlineUsers` | internal/sessions/service.go:71-91 | the count is the number of messages published, also when stopping midway; no user twice; on success exactly the non-empty scanned users; a failure stops at the first message that cannot go out |
| `Sums.SumSet` | pkg/httpserver/server.go:105-115 | setting one counter changes the sum of all by the difference |
| `Metrics.CountersAgree` | pkg/httpserver/server.go:111-122 | in every interleaving the sum of the counters is the total plus the requests between their two additions; each counter is the number of its own requests |
| `Metrics.EventsAreIncRequestCounter` | pkg/httpserver/server.go:117-122 | the three steps of one request without others in between do what the method `IncRequestCounter` does |

## Left out

- HTTP handlers, routing, status codes, logging, tracing, configuration and start-up: one-branch facts.
- JSON, HMAC-SHA256, SHA-1 and bcrypt internals: parameters with stated laws (claims round-trip, a hash is non-empty and verifies its own password).
- The WebSocket upgrade handshake, control-frame size limits and fragmentation (sections 5.4 and 5.5 of RFC 6455): not enforced by the code; the reader also ignores FIN and the reserved bits.
- Read and write deadlines: a missed deadline appears as a failed read or write.
- Delivery through the router: it uses another key prefix and field name than the gateway, so end-to-end delivery does not hold.
- The effect of the shipped SQL scripts: scripts are opaque; down scripts are not assumed to invert up scripts.
- `DecodeV1Payload` and the subject table; listing users and sessions; `Me`.
- Repeated or ambiguous message delivery: a matched event is delivered at most once, and a step that reports failure has no effect.
- UUID generation: ids are parameters that may be missing or collide.
- Validation of login requests: the model accepts every name and password, a superset.
- Directory read errors, path cleaning by `filepath.Join`, and errors while reading the applied versions.
- WsConn.Conn.WriteFrame: does not take the mutex, because the method is sequential; both locks are in `GatewayConnection`. A write error reported after all bytes were accepted is not modelled.
- WsConn.Conn.ReadFrame: ends a stream by exhaustion only; a network error between bytes looks like a short read.
- GatewayShutdown.NoDeadlock: bounds the work left by what arrives; that new sends and last ticks stop arriving is not modelled.
- Presence.IsolatedFailuresAreTolerated: has no deletions in its command log; with them, see `Presence.LiveConnectionHasKeyIff`.
- Metrics.CountersAgree: counters are unbounded; wrap-around at 2^63 is not modelled.
