# reticulum-go-mf in Dafny

A model of the hard parts of this repository, with proofs:

- **The RRC hub** (`pkg/rrc`). `HubModel.dfy` is a step machine: each section that the hub runs under its lock is one step, and a run is any sequence of steps over any number of sessions. `HubServer.dfy` is the hub as the source writes it, objects whose fields change in place, and each of its methods is proved to take exactly the steps it stands for. `HubIndex.dfy`, `HubRuns.dfy` and `HubRate.dfy` hold what is true of every run, `HubAnswers.dfy` what one envelope achieves. `Client.dfy` is the client's side, `RateLimiter.dfy` the in-place sliding window, `Text.dfy` nicknames and room names.
- **LXMF stamps** (`pkg/lxmf/stamper.go`). `Stamps.dfy` relates the two tests made on a 256-bit digest, and `StampSearch.dfy` is the parallel search as a machine over all interleavings.
- **LXMF messages** (`pkg/lxmf/message.go`). `MsgPack.dfy` is the codec, byte by byte, `Payload.dfy` the splice that recovers the hashed bytes of a stamped payload (with the decoder as an object), `PayloadForms.dfy` the other forms of its header, `Message.dfy` and `MessageProofs.dfy` packing and unpacking, `LXMessages.dfy` the message object.
- **Printers and parsers**. `Paper.dfy` is the `lxm://` URI, and `ConfigText.dfy`, `ConfigValues.dfy`, `Config.dfy` and `ConfigProofs.dfy` the lxmd config file.
- **Propagation**. `Propagation.dfy` is the node registry and the attempt order, `Messenger.dfy` the retry loop.

`dafny verify dfyconfig.toml` checks the whole project.

## How the model reads the source

- SHA-256 and the HKDF workblock are arbitrary functions (`Crypto`); signing, encryption, the clock, path lookup, stamp search results and transfer outcomes are parameters. A stamp that a search returns is required to meet the target, which is what `StampSearch.ReturnedStampIsGood` proves of every run of the search.
- A Go string is the sequence of steps that `range` takes over it, so undecodable bytes are part of the model.
- The times of the rate limiter come from `time.Now`, which carries a monotonic reading, and the envelopes of one session are handled one at a time: so the times of one session do not go back (`Forward`, `ClockForward`). Nothing is asked of the times of different sessions, whose clock readings are taken before the lock and may reach the hub in another order. `RateLimiter.ForwardIsNeeded` shows what the order within a session is for, and `RateLimiter.PruningIsExactIff` says for any clock when the pruned list is complete.
- Asking the limiter touches the asking session's times only, so it and the section that relays are one step.
- Go maps have no order. The order in which a walk over `Fields` visits the entries is an argument of the encoder (`Emits`), and each walk may take another one.
- A float is its eight bytes; config sizes are tokens with a parser and a printer that are inverse to each other on sizes at or above a limit (`Lawful`). Nil and empty lists and byte strings are not told apart.
- A key of the model's `Fields` is one byte, and no two entries of one walk have the same key.

## What the code does not do

Where a promise of the source turned out to be false, the model keeps the code as it is, gives a state or an input that shows it, and states the exact condition.

- `pkg/rrc/property_oracle_test.go` asks that one `SanitizeNick` be idempotent. A control character at an end of the text can shield a space, as in U+0001, space, "a" (`Text.SanitizeOnceIsNotIdempotent`); idempotence holds exactly when none does (`Text.SanitizeOnceIsCleanIff`). Two applications always suffice, and the hub makes two.
- A session that lost its registration still handles envelopes. Its JOIN or PART can set the room index and the sessions apart (`HubRuns.StaleJoinBreaksAgreement`, `HubRuns.StalePartBreaksAgreement`); `HubIndex.JoinAgreesIff` and `HubIndex.PartAgreesIff` say exactly when.
- `Pack` walks `Fields` twice when there is a stamp, and the receiver hashes what was signed only if both walks took one order (`MessageProofs.ReceiverHashesWhatWasSignedIff`). All walks hash alike exactly when no map in the fields, at any depth, has two entries (`MessageProofs.PackedTwiceAlikeIff`); for any other fields there is a walk that breaks the hash (`MessageProofs.WideFieldsCanBreakTheHash`).
- Byte strings and float32 values that are elements of a list come back as strings and float64 values (`MessageProofs.ListedBytesBecomeText`). Fields come back unchanged exactly when no list in them holds one (`MessageProofs.FieldsComeBackIff`).
- `GenerateStamp` takes costs above 256. There a run returns exactly those candidates that hash to zero, and the check rejects each (`StampSearch.OverpricedSearchReturnsIff`). What any of its runs returns is valid exactly up to cost 256 (`StampSearch.ReturnedStampIsValidIff`).
- A JOINED that is dispatched behind the close of the link is noted by a client that is disconnected (`Client.LateJoinedIsNoted`). The room set is empty exactly when every JOINED since the last close was taken back by a PARTED (`Client.ClientIsEmptyIff`).
- `Dial` sets the state without looking at it, so a close between the WELCOME and `Dial` taking it is overwritten and leaves an active client on a closed link (`Client.CloseIsOverwritten`). `Client.StateIff` says exactly when a client is active and when it is disconnected.
- `DecodePaperURI` accepts URIs that carry nothing, such as `lxm://=` (`Paper.LonePaddingCarriesNothing`): exactly those whose body is not empty and, but for trailing padding, is a multiple of four line breaks (`Paper.CarriesNothingIff`).
- It also accepts URIs that `PaperURI` does not print, such as `lxm://AB` (`Paper.SpareBitsAreAccepted`). A URI is the printed one exactly when it is canonical (`Paper.PrintedIffCanonical`).

## Model

| member | source | states |
|---|---|---|
| `Text.SanitizeNick` | pkg/rrc/room.go:15-32 | the rune loop yields the trimmed text without control characters, undecodable bytes replaced |
| `Text.SanitizedAt` | pkg/rrc/room.go:15-32 | symbol by symbol: of the text between its outer white space exactly what is no control character is kept, in order, and an undecodable byte becomes U+FFFD |
| `Text.SanitizeTwiceIsClean` | pkg/rrc/room.go:15-32 | for every text, sanitizing twice gives a name without control characters and outer space, which a third time leaves alone |
| `Text.CleanNickIsFixed` | pkg/rrc/room.go:15-32 | a clean name is a fixed point |
| `Text.SanitizePrintableShrinks` | pkg/rrc/room.go:15-32 | sanitizing printable text never makes it longer in bytes |
| `Text.SanitizeOnceIsCleanIff` | pkg/rrc/room.go:15-32 | one application is idempotent, and clean, exactly when no run of control characters shields a space |
| `Text.SanitizeOnceIsNotIdempotent` | pkg/rrc/property_oracle_test.go:83-94 | for every control character in front of a space and a clean name, such as U+0001, space, "a": the promised idempotence fails |
| `Text.NormalizeRoomIdempotent` | pkg/rrc/room.go:10-12 | normalizing a room name twice is normalizing it once |
| `Text.OneRoomIff` | pkg/rrc/room.go:10-12 | two names are one room exactly when they differ in outer white space and letter case only |
| `HubIndex.EveryRunIsWellFormed` | pkg/rrc/hub.go:149-241 | in every run, guarded or not: a registered key names a session of that identity, rooms imply active, no room entry is empty, every listed key is some session's own membership |
| `HubIndex.GuardedRunsAgree` | pkg/rrc/hub.go:323-394 | in every run in which sessions without registration neither join nor part, a key is listed in a room exactly when it is registered and its session's own set holds the room |
| `HubIndex.EveryStepKeepsWellFormed` | pkg/rrc/hub.go:149-241 | each step keeps the unguarded invariant |
| `HubIndex.GuardedStepKeepsAgree` | pkg/rrc/hub.go:323-394 | each guarded step keeps the agreement of the two tables |
| `HubIndex.JoinAgreesIff` | pkg/rrc/hub.go:323-367 | a JOIN keeps the agreement exactly when it adds nothing, its session is registered, or the registered one already holds the room |
| `HubIndex.PartAgreesIff` | pkg/rrc/hub.go:369-394 | a PART keeps the agreement exactly when it removes nothing, its session is registered, or the registered one does not hold the room |
| `HubRuns.StaleJoinBreaksAgreement` | pkg/rrc/hub.go:160-177 | a reachable state in which a superseded session's JOIN lists a key its successor has no membership for |
| `HubRuns.StalePartBreaksAgreement` | pkg/rrc/hub.go:369-394 | a reachable state in which a superseded session's PART unlists the key of its successor, which is in the room |
| `HubRuns.RecipientsAreScan` | pkg/rrc/hub.go:433-441 | the recipients read from the index are the other registered sessions whose own set holds the room |
| `HubRuns.RelayReachesTheRoom` | pkg/rrc/hub.go:396-466 | an accepted message is appended to the outbox of exactly the other registered sessions in the room that are open with an active link, with the sender's registered identity and the original id, time and body; the sender's session notes the time and no other session changes |
| `HubRuns.RoomMembersAreScan` | pkg/rrc/hub.go:522-534 | RoomMembers equals a scan over the registered sessions |
| `HubRuns.EveryRunIsCapped` | pkg/rrc/hub.go:336-347 | in every run no session is in more rooms than the limit |
| `HubRuns.TransposesHaveEqualTotals` | pkg/rrc/hub.go:227-234 | two membership tables that are transposes of each other have equal sums of set sizes |
| `HubRuns.MembershipsAreConserved` | pkg/rrc/hub.go:336-347 | in every guarded run memberships counted by session and by room are equal and at most peers times the room limit |
| `HubRuns.LatestRegistrationWins` | pkg/rrc/hub.go:149-241 | in every run the hub holds session p for key k exactly when p is the latest registration of k and neither p nor the hub has closed since |
| `HubRuns.EveryRunIsInStep` | pkg/rrc/hub.go:336-394 | in every run, the messages in flight bring the client's room set of an open session with an active link to the hub's set |
| `HubRuns.ClientMirrorsHub` | pkg/rrc/client.go:200-218 | with nothing in flight the client's rooms are the hub's rooms for it |
| `HubRuns.EveryNickIsClean` | pkg/rrc/hub.go:243-253 | in every run every session's nickname is clean and within the byte limit |
| `HubRate.TimesAreWindow` | pkg/rrc/hub.go:472-493 | in every run the times a session keeps are those its calls leave in the window |
| `HubRate.HubKeepsTheRate` | pkg/rrc/hub.go:396-493 | in every run, a session whose own calls read a clock that does not go back has no more messages relayed in a minute than the limit, whatever the other sessions' times are |
| `HubAnswers.NicknameIsTaken` | pkg/rrc/hub.go:243-268 | a fitting nickname is stored in its clean form, one that is too long is refused, an empty one is passed over; nothing else changes |
| `HubAnswers.HelloIsAnswered` | pkg/rrc/hub.go:274-321 | a first HELLO makes the session active and is answered by WELCOME; if that cannot be sent the session ends closed |
| `HubAnswers.UnfitGreetingEnds` | pkg/rrc/hub.go:260-268 | a nickname that is too long ends a session that is not active yet, and its registration |
| `HubAnswers.OtherTypesAreIgnored` | pkg/rrc/hub.go:270-295 | before HELLO nothing else is heard, afterwards only JOIN, PART and the three kinds of content |
| `HubAnswers.JoinIsAnswered` | pkg/rrc/hub.go:323-367 | every JOIN of an active session is answered, and each answer goes with exactly one change, or none, of the session's set and the index |
| `HubAnswers.PartIsAnswered` | pkg/rrc/hub.go:369-394 | a PART from a room the session is in is answered and takes effect in both tables, any other changes nothing |
| `HubAnswers.RefusedContentIsAnswered` | pkg/rrc/hub.go:396-431 | a message is refused with the first reason that applies and reaches nobody |
| `HubAnswers.ContentIsRelayed` | pkg/rrc/hub.go:396-470 | handling any other message of a registered session queues it once for every other registered session of the room with an open link, and for nobody else |
| `HubAnswers.TakeOverEnds` | pkg/rrc/hub.go:149-178 | a first identification registers the session, the session it displaces ends closed, and no other session changes |
| `HubAnswers.IdentificationRuns` | pkg/rrc/hub.go:149-182 | an identification acts once and for 16 bytes only, and hands the buffered HELLO on to the handling |
| `HubAnswers.BufferedHelloIsAnswered` | pkg/rrc/hub.go:149-200 | a HELLO that came before the identity is answered by WELCOME on identification, and the session is active and registered |
| `HubAnswers.PacketIsHandled` | pkg/rrc/hub.go:184-204 | a packet of an unidentified session is kept if it is a HELLO and else dropped; once there is an identity every packet is handled |
| `HubServer.HubPeer.SetNick` | pkg/rrc/session.go:37-41 | the stored name is the sanitized one |
| `HubServer.HubPeer.SendMessage` | pkg/rrc/session.go:49-64 | a message is appended to the outbox unless the session is closed or its link is not active, and the result says which |
| `HubServer.HubPeer.AllowRate` | pkg/rrc/hub.go:472-493 | the answer and the times kept are those of the specification |
| `HubServer.HubServer.AcceptLink` | pkg/rrc/hub.go:142-148 | a link adds a fresh session and changes no table |
| `HubServer.HubServer.Delist` | pkg/rrc/hub.go:161-168 | the loop removes the key from the given rooms and drops rooms that become empty |
| `HubServer.HubServer.Displace` | pkg/rrc/hub.go:159-169 | the previous session of the identity, if another, is handed back and its rooms are unlisted |
| `HubServer.HubServer.Register` | pkg/rrc/hub.go:149-172 | the whole hub afterwards is the registration step; a session registers once |
| `HubServer.HubServer.Enter` | pkg/rrc/hub.go:170-172 | the registration is written and the buffered HELLO taken |
| `HubServer.HubServer.TakeOver` | pkg/rrc/hub.go:149-178 | registration followed by the close of the displaced session, as steps |
| `HubServer.HubServer.IdentifyLink` | pkg/rrc/hub.go:149-182 | registration, close of the displaced session and the buffered HELLO, as steps |
| `HubServer.HubServer.Inbound` | pkg/rrc/hub.go:184-200 | the packet callback: registration by the link's identity, buffering of an early HELLO, or handling, as steps |
| `HubServer.HubServer.DropIf` | pkg/rrc/hub.go:215-241 | the tables lose the session only while it is the registered one |
| `HubServer.HubServer.MarkClosed` | pkg/rrc/session.go:102-110 | the whole hub afterwards is the close step |
| `HubServer.HubServer.RunDrop` | pkg/rrc/session.go:115-117 | the whole hub afterwards is the drop step |
| `HubServer.HubServer.CloseSession` | pkg/rrc/session.go:102-118 | a session closes once, and then it is dropped |
| `HubServer.HubServer.ApplyInboundNick` | pkg/rrc/hub.go:243-253 | the nickname step, with its refusal |
| `HubServer.HubServer.OnHello` | pkg/rrc/hub.go:297-321 | the HELLO step, followed by the close when the WELCOME cannot be sent |
| `HubServer.HubServer.OnJoin` | pkg/rrc/hub.go:323-367 | the JOIN step in every branch: refusals, repeats and additions |
| `HubServer.HubServer.OnPart` | pkg/rrc/hub.go:369-394 | the PART step in every branch |
| `HubServer.HubServer.CollectMembers` | pkg/rrc/hub.go:433-441 | the loop over the index collects the recipients, each once |
| `HubServer.HubServer.CheckContent` | pkg/rrc/hub.go:396-425 | which refusal a message meets, in the order of the source |
| `HubServer.HubServer.RelayContent` | pkg/rrc/hub.go:426-466 | exactly the recipients are sent the forwarded envelope |
| `HubServer.HubServer.OnRoomContent` | pkg/rrc/hub.go:396-470 | the content step, rate limiter included |
| `HubServer.HubServer.HandlePeer` | pkg/rrc/hub.go:255-295 | an envelope is handled as the steps for its nickname and its type |
| `HubServer.HubServer.Close` | pkg/rrc/hub.go:500-512 | the step that clears both tables, followed by the close of every session that was registered, each once, as steps |
| `HubServer.CloseEndsTheRegistered` | pkg/rrc/hub.go:500-512 | in whatever order they are closed, the tables are empty, the listed sessions are closed and no other session changes |
| `Client.Client.SendHello` | pkg/rrc/client.go:135-141 | the state is set to waiting whatever it was |
| `Client.Client.TakeWelcome` | pkg/rrc/client.go:143-154 | a WELCOME that was handed over makes the client active whatever its state was |
| `Client.Client.Dispatch` | pkg/rrc/client.go:187-240 | JOINED adds and PARTED removes the normalized room; only an awaited WELCOME is kept, and only the first |
| `Client.Client.DispatchAll` | pkg/rrc/client.go:187-240 | messages in order leave the room set that the hub proof applies |
| `Client.Client.OnLinkClosed` | pkg/rrc/client.go:242-255 | a close empties the rooms and notifies once |
| `Client.Client.SendRoomContent` | pkg/rrc/client.go:327-341 | a message leaves exactly in the active state and for a joined room, and the two errors are told apart |
| `Client.UnwelcomedWaits` | pkg/rrc/client.go:187-199 | over every sequence of events a WELCOME is held exactly when one arrived behind a HELLO with no close in between; before that the client waits exactly when a HELLO is out and no close came since |
| `Client.StateIff` | pkg/rrc/client.go:135-164 | over every sequence of events: active exactly when Dial took a WELCOME it was owed and neither a close nor a HELLO came since; disconnected exactly when the link closed and Dial has written no state since |
| `Client.CloseIsOverwritten` | pkg/rrc/client.go:143-154 | a close between the WELCOME and Dial taking it leaves an active client |
| `Client.RoomsFollowTheClose` | pkg/rrc/client.go:200-255 | over every sequence of events the rooms are what the messages since the last effective close make of the empty set |
| `Client.RoomsAreLastWords` | pkg/rrc/client.go:200-218 | a room is in the set exactly when the last word on it was a JOINED |
| `Client.ClientIsEmptyIff` | pkg/rrc/client.go:200-255 | the room set is empty exactly when every JOINED since the last effective close was taken back by a PARTED |
| `Client.LateJoinedIsNoted` | pkg/rrc/client.go:200-255 | after any history, a JOINED dispatched behind the close leaves a disconnected client in that room |
| `Client.MembershipTestsAgree` | pkg/rrc/client.go:331-339 | with nothing in flight the client's membership test agrees with the hub's, so the hub does not refuse for membership |
| `RateLimiter.MessageTimes.Compact` | pkg/rrc/hub.go:481-487 | compacting the slice over itself leaves the later entries in order: none is overwritten unread |
| `RateLimiter.MessageTimes.AllowRate` | pkg/rrc/hub.go:472-493 | the answer and the recorded times are those of the specification |
| `RateLimiter.WindowIsRecentHistory` | pkg/rrc/hub.go:472-493 | the pruned list is the last minute of the full admission history |
| `RateLimiter.PruningIsExact` | pkg/rrc/hub.go:472-493 | while the clock does not go back, pruning never changes an answer |
| `RateLimiter.AdmittedIff` | pkg/rrc/hub.go:472-493 | while the clock does not go back, a call is admitted exactly when fewer than the limit were admitted in the minute up to it |
| `RateLimiter.AllowRateKeepsTheLimit` | pkg/rrc/hub.go:472-493 | over every run, no interval of one minute holds more admissions than the limit |
| `RateLimiter.NoMinuteExceedsTheLimit` | pkg/rrc/hub.go:472-493 | a limiter that never forgets keeps the limit whatever the clock does |
| `RateLimiter.PruningIsExactIff` | pkg/rrc/hub.go:481-491 | for any clock: the pruned list holds all admissions after a cut-off exactly when no call a minute or more after one of them pruned it |
| `RateLimiter.ForwardLosesNothing` | pkg/rrc/hub.go:477-487 | a clock that does not go back loses nothing that still counts |
| `RateLimiter.ForwardIsNeeded` | pkg/rrc/hub.go:477-487 | whenever the clock jumps two minutes ahead and back, which a monotonic clock cannot do, a limit of two lets three messages of one instant through |
| `Octets.LexIsNumeric` | pkg/lxmf/stamper.go:102 | comparing byte strings of one length is comparing the numbers they write |
| `Stamps.CountZeros` | pkg/lxmf/stamper.go:75-82 | the bit loop counts the leading zeros of a byte |
| `Stamps.Score` | pkg/lxmf/stamper.go:69-84 | the byte loop counts the leading zero bits of a digest |
| `Stamps.StampValue` | pkg/lxmf/stamper.go:60-84 | the value is the number of leading zeros of the hash of workblock and stamp, zero for no stamp |
| `Stamps.ScoreOfNumber` | pkg/lxmf/stamper.go:60-84 | the value of a stamp is the place among the powers of two of that same number |
| `Stamps.LeadingZerosBracket` | pkg/lxmf/stamper.go:60-84 | the score brackets the digest, as a number, between two powers of two |
| `Stamps.ScoreIsThreshold` | pkg/lxmf/stamper.go:60-84 | a score of at least c is a digest below 2^(256-c) |
| `Stamps.StampTargetBytes` | pkg/lxmf/stamper.go:206-219 | the array written is the target |
| `Stamps.TargetIsPowerOfTwo` | pkg/lxmf/stamper.go:206-219 | the target is the number 2^(256-cost) for costs 1 to 255 and zero from 256 on |
| `Stamps.ValidIsScoreOrTarget` | pkg/lxmf/stamper.go:87-103 | a 32-byte stamp is valid exactly when its score reaches the cost or the digest equals the target; at 256 exactly when the digest is zero |
| `Stamps.ValidIffSmallNumber` | pkg/lxmf/stamper.go:87-103 | for every stamp, cost and workblock: valid exactly when the cost is not positive, or the stamp has 32 bytes and SHA-256 of the workblock with the stamp behind it is, as a number, at most 2^(256-cost), zero at 256 |
| `Stamps.ValidScoresNearCost` | pkg/lxmf/stamper.go:87-103 | a valid stamp scores at least cost - 1 |
| `Stamps.TargetScoresOneBelow` | pkg/lxmf/stamper.go:206-219 | the gap of one is real at every cost |
| `Stamps.ValidAtLowerCosts` | pkg/lxmf/stamper.go:87-103 | a stamp valid at a cost is valid at every lower one |
| `Stamps.StampedEntryIsAcceptedIff` | pkg/lxmf/stamper.go:106-122 | data with a stamp found for its hash is accepted, with its parts and a value of at least cost - 1, exactly above the minimal size |
| `Stamps.EntryIsAcceptedIff` | pkg/lxmf/stamper.go:106-122 | whatever entry a node is given: accepted exactly above 144 bytes and with a small enough number for its last 32 bytes over 1000 rounds for the hash of the others; and the parts handed back |
| `StampSearch.EveryRunIsSafe` | pkg/lxmf/stamper.go:147-196 | in every interleaving: deposits meet the target, a closed channel has no live worker, the result is a deposit |
| `StampSearch.ReturnedStampIsGood` | pkg/lxmf/stamper.go:190-196 | a returned stamp meets the target, and is valid up to cost 256 |
| `StampSearch.ReturnedStampIsValidIff` | pkg/lxmf/stamper.go:134-197 | at every positive cost, what a run returns is valid exactly up to cost 256; from 256 on its digest is zero |
| `StampSearch.SearchReturnsIff` | pkg/lxmf/stamper.go:134-197 | for every job and number of workers, the runs return exactly the candidates that meet the target: 32 bytes whose hash behind the workblock is a small enough number |
| `StampSearch.OverpricedSearchReturnsIff` | pkg/lxmf/stamper.go:134-197 | above cost 256 the runs return exactly the candidates that hash to zero, and the check rejects every one |
| `StampSearch.NotFoundMeansNoDeposit` | pkg/lxmf/stamper.go:190-195 | not-found is returned only if no worker ever deposited |
| `StampSearch.NoSendAfterClose` | pkg/lxmf/stamper.go:172-189 | after the close no send is enabled |
| `StampSearch.NeverStuck` | pkg/lxmf/stamper.go:147-196 | before it returns, some worker, the closer or the receiver can move, without a cancellation or a failing source of randomness |
| `StampSearch.CancelledStepsDecrease` | pkg/lxmf/stamper.go:155-189 | after a cancellation every step lowers a measure |
| `StampSearch.CancelledSearchEnds` | pkg/lxmf/stamper.go:147-196 | after a cancellation at most four steps a worker and two more follow, and a run that cannot go on has returned with all goroutines ended |
| `MsgPackProofs.DecodeEnc` | vendor/quad4/msgpack/v5/pkg/msgpack/decode.go:552-676 | an encoded value is accepted, whatever follows it, exactly when it is within the limits, and comes back as itself but for what lists do to byte strings and float32 |
| `MsgPackProofs.EncIsInjective` | vendor/quad4/msgpack/v5/pkg/msgpack/encode_number.go:122-157 | encodings are prefix-free and determine the value |
| `MsgPackProofs.IntHead` | vendor/quad4/msgpack/v5/pkg/msgpack/encode_number.go:122-157 | every integer is read back from the shortest form it is written in |
| `MsgPackProofs.UnchangedIffFaithful` | vendor/quad4/msgpack/v5/pkg/msgpack/decode.go:464-474 | the decoder changes a value exactly when some array in it holds a byte string or a float32 |
| `MsgPackProofs.DecodedFits` | pkg/lxmf/message.go:617-650 | whatever bytes are decoded, accepted maps nest at most 32 deep with at most 8192 usable keys each, arrays at most 10000 deep |
| `MsgPackProofs.DecodeExtends` | vendor/quad4/msgpack/v5/pkg/msgpack/decode.go:552-618 | accepting a value depends on no byte behind it |
| `MsgPackProofs.DecodeLeavesSuffix` | vendor/quad4/msgpack/v5/pkg/msgpack/decode.go:552-618 | what is left is a suffix of the input |
| `MsgPackProofs.ShortForms` | vendor/quad4/msgpack/v5/pkg/msgpack/decode.go:552-580 | what each one-byte code stands for |
| `MsgPackProofs.NumberForms` | vendor/quad4/msgpack/v5/pkg/msgpack/decode.go:552-618 | numbers are read from 1, 2, 4 and 8 bytes, unsigned and in two's complement, whatever width the sender chose |
| `MsgPackProofs.LengthForms` | vendor/quad4/msgpack/v5/pkg/msgpack/decode.go:552-618 | which codes announce byte strings, strings, arrays and maps with lengths of 1, 2 and 4 bytes |
| `MsgPackProofs.TimeForms` | vendor/quad4/msgpack/v5/pkg/msgpack/time.go:135-159 | a timestamp is extension type -1 with 4, 8 or 12 bytes |
| `MsgPackProofs.ShortestForm` | vendor/quad4/msgpack/v5/pkg/msgpack/encode_slice.go:43-98 | every number and every length is written in the shortest form that holds it |
| `MsgPackProofs.NestedIsReadIff` | pkg/lxmf/message.go:617-622 | maps are read exactly to a depth of 32, lists to a depth of 10000 |
| `MsgPackProofs.WideIsReadIff` | pkg/lxmf/message.go:624-633 | a map is read exactly with up to 8192 entries |
| `MsgPackProofs.BadKeysAreRefused` | pkg/lxmf/message.go:634-641 | a map with a byte string, a list or a map as key is refused |
| `Payload.Decoder.DecodeInterface` | vendor/quad4/msgpack/v5/pkg/msgpack/decode.go:552-676 | the reader object decodes as specified, and both depth counters are as before, also after an error |
| `Payload.Decoder.DecodeSlice` | vendor/quad4/msgpack/v5/pkg/msgpack/decode_slice.go:189-220 | the element loop is the specified sequence of loose values |
| `Payload.Decoder.DecodeMap` | pkg/lxmf/message.go:617-650 | the pair loop with its depth and size limits; the depth is restored on every way out |
| `Payload.DecodePayloadAndSplit` | pkg/lxmf/message.go:548-603 | the method returns the specified split, with the hashed bytes cut at the recorded positions |
| `Payload.SplitOfEncoded` | pkg/lxmf/message.go:548-603 | splitting an encoded payload of four or five elements gives its elements and exactly the encoding of the first four |
| `Payload.HashedPartIsAPayload` | pkg/lxmf/message.go:580-603 | for every accepted payload the hashed part is accepted, splits to itself and has the same four elements |
| `Payload.PayloadsArePrefixFree` | pkg/lxmf/message.go:548-603 | no accepted payload is a proper prefix of another |
| `Payload.AcceptedIsWithinLimits` | pkg/lxmf/message.go:617-650 | every element of an accepted payload is within the nesting and size limits |
| `Payload.DecodeShrinks` | pkg/lxmf/message.go:548-603 | a decoder that leaves a suffix never looked at it |
| `PayloadForms.SplitBehindAnyHeader` | pkg/lxmf/message.go:548-603 | whatever form of header announces them: four elements are hashed with the header they came with, five as the first four behind a short one |
| `MessageProofs.UnpackOfPacked` | pkg/lxmf/message.go:395-465 | Unpack accepts a packed message exactly when its fields are within the limits and have byte keys throughout, and gives back destination, source, signature, time, title, content and stamp over the hash of the carried payload |
| `MessageProofs.WireLayout` | pkg/lxmf/message.go:261-328 | what is hashed, signed and sent, element by element |
| `MessageProofs.ListLayout` | pkg/lxmf/message.go:535-545 | the bytes of an encoded payload |
| `MessageProofs.HashedPartBindsAll` | pkg/lxmf/message.go:281-295 | the hashed bytes of two messages are equal exactly when all but their stamps is equal, the walk included |
| `MessageProofs.UnpackIff` | pkg/lxmf/message.go:385-446 | on any bytes: when a message is accepted, which bytes each part comes from, and what is hashed |
| `MessageProofs.ReceivedIff` | pkg/lxmf/message.go:446-465 | on any bytes and with any resolver: the signature is reported valid exactly when a known source vouches for the signed part, unverified exactly for an unknown source, and nothing is received exactly when the bytes are refused or the resolver fails |
| `MessageProofs.FieldsComeBackIff` | pkg/lxmf/message.go:674-738 | the receiver has the sender's fields, nested maps included, exactly when no list in them holds a byte string or a float32 |
| `MessageProofs.ListedBytesBecomeText` | pkg/lxmf/message.go:711-738 | fields that do not come back |
| `MessageProofs.HashedPartAgreesIff` | pkg/lxmf/message.go:281-290 | two walks over the fields hash to the same bytes exactly when they are the same walk |
| `MessageProofs.ReceiverHashesWhatWasSignedIff` | pkg/lxmf/message.go:281-328 | the receiver checks the signed bytes exactly when there is no stamp or both walks took one order, and has the hash exactly then or if SHA-256 collides on the two |
| `MessageProofs.SignatureHoldsIff` | pkg/lxmf/message.go:446-462 | a packed message from a known source is received, and its signature, if it fits the signed bytes only, is found valid exactly when there is no stamp or both walks took one order |
| `MessageProofs.NarrowFieldsHaveOneOrder` | pkg/lxmf/message.go:311-317 | fields whose maps have at most one entry have one walk only |
| `MessageProofs.OneOrderIffNarrow` | pkg/lxmf/message.go:261-317 | fields have one walk only exactly when no map in them, at any depth, has two entries |
| `MessageProofs.PackedTwiceAlikeIff` | pkg/lxmf/message.go:281-317 | all walks hash to the same bytes exactly under that condition on the fields |
| `MessageProofs.WideFieldsCanBreakTheHash` | pkg/lxmf/message.go:311-317 | for any other fields and any walk there is one that hashes differently |
| `MessageProofs.StampLeavesHashedPart` | pkg/lxmf/message.go:261-267 | the hashed bytes do not depend on the stamp |
| `MessageProofs.StampedSendValidates` | pkg/lxmf/messenger.go:180-204 | for costs 1 to 256 the receiver of a stamped message has the stamp, and the hashed bytes it was found for exactly when the sent walk is the first one (the hash also if SHA-256 collides); then the stamp is valid and scores at least cost - 1 |
| `LXMessages.LXMessage.Pack` | pkg/lxmf/message.go:270-328 | hash, signature and packed bytes as specified, a zero time replaced, and which of the four results is returned when |
| `LXMessages.LXMessage.ValidateStamp` | pkg/lxmf/message.go:209-244 | accepted exactly for a matching ticket or a valid stamp, with the value of the one that decided; an unpacked message is an error |
| `LXMessages.AcceptedIff` | pkg/lxmf/message.go:209-252 | accepted exactly if not empty and either the first 16 bytes of SHA-256 of a 16-byte ticket and the message hash, or 32 bytes that make a small enough number over 3000 rounds |
| `LXMessages.TicketOrWork` | pkg/lxmf/message.go:209-252 | at a positive cost the length of an accepted stamp tells which of the two tests it met |
| `LXMessages.LXMessage.FindStamp` | pkg/lxmf/messenger.go:191-203 | packing, then searching, leaves the stamp found for the message's hash; otherwise the result says which of the two failed and the stamp is as before |
| `LXMessages.LXMessage.PackStamped` | pkg/lxmf/messenger.go:180-204 | which result is returned when, for every cost; and what a receiver finds in the packed message: the stamp, what was signed iff the last two walks agree, and an accepted stamp if the last walk is the first |
| `LXMessages.LXMessage.PackPropagated` | pkg/lxmf/message.go:340-382 | the upload is the time and the encrypted message with a stamp for its hash; and which of the four results is returned when |
| `LXMessages.CarriedInBytes` | pkg/lxmf/message.go:340-376 | the upload in bytes: the time and one entry of the address in the clear, the encrypted rest and a 32-byte stamp that is good for its hash |
| `LXMessages.UploadIsRead` | pkg/lxmf/message.go:370-374 | an upload is read back as the time and the one entry |
| `LXMessages.LXMessage.PackForPropagation` | pkg/lxmf/propagation_send.go:73-111 | for every message and cost: which result is returned, checks included, and the packed bytes and time the message has afterwards; it is packed at most once |
| `LXMessages.LXMessage.PackAndPropagate` | pkg/lxmf/propagation_send.go:99-110 | the same behind the checks; on success the upload is made for the cost asked |
| `LXMessages.AttemptSucceedsIff` | pkg/lxmf/propagation_send.go:73-111 | an attempt succeeds exactly when the recipient is known, there is a signer, the message is or can be packed, the rest can be encrypted and a stamp is found if one is asked for |
| `Paper.PaperRoundTrip` | pkg/lxmf/paper.go:16-49 | every payload of 1 to PaperMDU bytes survives printing and parsing, with any number of '=' appended |
| `Paper.PaperFitsIff` | pkg/lxmf/constants.go:190-196 | a non-empty payload is printed exactly when its URI fits QRMaxStorage, and the length is 6 + ceil(4n/3) |
| `Paper.QuadIsNumber` | pkg/lxmf/paper.go:16-27 | four characters write the 24 bits of three bytes in sixes |
| `Paper.QuantaIff` | pkg/lxmf/paper.go:37-44 | a text without line breaks is decoded exactly when it is whole quanta of the alphabet with at most two '=' at the end |
| `Paper.PaperErrors` | pkg/lxmf/paper.go:29-49 | which URIs are refused with which error, and that no accepted payload is longer than 2210 bytes |
| `Paper.PrintedIffCanonical` | pkg/lxmf/paper.go:29-49 | an accepted URI is the one printed for its payload exactly when its body has no padding, line breaks or spare bits |
| `Paper.SpareBitsAreAccepted` | pkg/lxmf/paper.go:29-49 | an accepted URI that is not printed for its payload |
| `Paper.CarriesNothingIff` | pkg/lxmf/paper.go:29-49 | a URI is accepted with an empty payload exactly when its body is not empty and, but for trailing padding, is a multiple of four line breaks |
| `Paper.LonePaddingCarriesNothing` | pkg/lxmf/paper.go:29-49 | the shortest such URI, for whose payload none is printed |
| `Paper.ReencodeIff` | pkg/lxmf/paper.go:37-44 | re-encoding a decoded body gives the body back exactly when it has no spare bits |
| `ConfigText.ReadSectionedKV` | pkg/lxmf/config.go:401-445 | the scanner loop yields the specified sections or the error |
| `ConfigText.EmitSection` | pkg/lxmf/config.go:238-244 | the loop appends the header and one line a pair |
| `ConfigText.ReadSection` | pkg/lxmf/config.go:401-445 | reading a printed section enters exactly its pairs, adds them to what was read under that name before, and goes on behind it |
| `ConfigText.ClassifyPair` | pkg/lxmf/config.go:412-441 | a printed pair is read as that pair, also with an empty value |
| `ConfigText.ReadTextIsClean` | pkg/lxmf/config.go:401-445 | every value read from any text is trimmed and without comment sign and line break |
| `ConfigText.PairInAnySpacing` | pkg/lxmf/config.go:412-441 | a pair is read with any white space, or none, around its key and its value |
| `ConfigText.HeaderInAnySpacing` | pkg/lxmf/config.go:412-425 | a header is read with any white space around its name and its brackets |
| `ConfigText.CommentIsDropped` | pkg/lxmf/config.go:409-411 | what stands behind the first comment sign makes no difference |
| `ConfigText.LineEnds` | pkg/lxmf/config.go:403-408 | a line ends at a newline, with or without a carriage return, or at the end of the text |
| `ConfigText.RefusedLineIff` | pkg/lxmf/config.go:412-441 | the error lines are exactly an empty section name, a line without '=', a pair outside any section and an empty key |
| `ConfigText.LinesOfSection` | pkg/lxmf/config.go:238-244 | a printed section is its name in brackets, an empty line and one line a pair |
| `ConfigValues.ParseList` | pkg/lxmf/config.go:371-385 | the loop keeps the trimmed, non-empty parts in order |
| `ConfigValues.ListRoundTrip` | pkg/lxmf/config.go:371-385 | a list of trimmed, non-empty entries without commas survives joining and parsing |
| `ConfigValues.ListAtComma` | pkg/lxmf/config.go:371-385 | of whatever text: a comma separates, white space around an entry goes, and empty entries are left out |
| `ConfigValues.IntRoundTrip` | pkg/lxmf/config.go:347-357 | every 64-bit integer survives printing and parsing |
| `ConfigValues.IntOfText` | pkg/lxmf/config.go:347-357 | a number with either sign or none, leading zeros and outer white space is read as that number, and as zero outside 64 bits |
| `ConfigValues.NoNumberIsZero` | pkg/lxmf/config.go:347-357 | any other character makes it zero |
| `ConfigValues.BoolRoundTrip` | pkg/lxmf/config.go:338-392 | both booleans survive |
| `ConfigValues.BoolIff` | pkg/lxmf/config.go:338-345 | a switch is on exactly for one of the words 1, y, yes, on and true, letter for letter in either case, with any white space around it |
| `Config.ParseConfig` | pkg/lxmf/config.go:107-220 | the parsed config is the specified one, defaults and clamps included, or the error |
| `Config.WriteConfig` | pkg/lxmf/config.go:236-278 | the text written is the three sections in order |
| `ConfigProofs.ParsedIsNormal` | pkg/lxmf/config.go:107-220 | whatever text parses, the config is within its limits and can be printed |
| `ConfigProofs.NormalComesBack` | pkg/lxmf/config.go:236-278 | every normal config survives printing and parsing, all 26 settings |
| `ConfigProofs.ComesBackIffNormal` | pkg/lxmf/config.go:235-278 | printing loses nothing exactly when the config is normal |
| `ConfigProofs.ParsedComesBack` | pkg/lxmf/config.go:107-278 | for every text that parses, parsing what is printed for the result gives the same config |
| `ConfigProofs.ParsedSettings` | pkg/lxmf/config.go:107-220 | whatever text parses, each setting is decided by the last text under its own name in its own section, parsed and limited as that setting is, and is the default where there is none |
| `ConfigProofs.SettingNames` | pkg/lxmf/config.go:134-206 | the twenty names of the propagation section |
| `ConfigProofs.LXMFSettings` | pkg/lxmf/config.go:114-132 | the same for the lxmf section |
| `ConfigProofs.EmptyTextIsDefault` | pkg/lxmf/config.go:64-92 | an empty text parses to the default of every setting |
| `ConfigProofs.OneLineIsOneSetting` | pkg/lxmf/config.go:107-220 | a text with one pair sets exactly that setting and leaves every other at its default |
| `Propagation.HexKeepsOrder` | pkg/lxmf/propagation_send.go:30 | comparing hex strings is comparing the hashes |
| `Propagation.HexIsInjective` | pkg/lxmf/propagation.go:83 | hex keys tell hashes apart |
| `Propagation.LexIff` | pkg/lxmf/propagation_send.go:30 | one string is before another exactly if it is a prefix or smaller at the first difference |
| `Propagation.SortNodes` | pkg/lxmf/propagation_send.go:26-31 | the same nodes in strictly ascending order |
| `Propagation.PropagationRegistry.ReceivedAnnounce` | pkg/lxmf/propagation.go:48-96 | an announce files the node under its own hash with at least the minimal cost, or changes nothing |
| `Propagation.PropagationRegistry.List` | pkg/lxmf/propagation.go:120-137 | every known node once, by name and hash |
| `Propagation.ByNameIs` | pkg/lxmf/propagation.go:130-135 | the order of List is by name and, between equal names, by hash |
| `Propagation.PropagationRegistry.Reachable` | pkg/lxmf/propagation.go:195-203 | exactly the known nodes with a path, each once |
| `Propagation.PropagationRegistry.AttemptOrder` | pkg/lxmf/propagation_send.go:16-71 | a prefix, cut at a positive maximum, of a duplicate-free listing of exactly the reachable, non-skipped nodes: the preferred one first, the others by hops and hash |
| `Propagation.ListingIsUnique` | pkg/lxmf/propagation_send.go:16-71 | only one such listing exists, so neither the map walk nor the order by name shows in the result |
| `Propagation.ListingHolds` | pkg/lxmf/propagation_send.go:16-71 | the listing holds exactly the known nodes that have a path and are not skipped, each once |
| `Propagation.ListingInNumbers` | pkg/lxmf/propagation_send.go:16-71 | behind the preferred node hops never fall, and between equal hops the hashes rise as numbers |
| `Messenger.TryNode` | pkg/lxmf/propagation_send.go:147-175 | one attempt: the packing result and the packed bytes are the specified ones, it is sent exactly when packing and transfer succeed, and then the message is Sent with an acceptable upload |
| `Messenger.TryAt` | pkg/lxmf/propagation_send.go:147-175 | attempt i finds and leaves the message as the attempts before it determine, and its result is the specified one |
| `Messenger.TurnAt` | pkg/lxmf/propagation_send.go:147-175 | a turn of the loop ends the send exactly at a packing error or a success, with that error or node, and goes on otherwise |
| `Messenger.TryNodes` | pkg/lxmf/propagation_send.go:132-179 | the nodes tried are a prefix of the candidates: every one but the last packed and failed to transfer; the last is the first packing error (returned as it is), the first success, or the end of the budget (with the last failure) |
| `Messenger.TriesIsDetermined` | pkg/lxmf/propagation_send.go:136-179 | that description determines the nodes tried and the result |
| `Messenger.AttemptsAreCounted` | pkg/lxmf/propagation_send.go:121-136 | at most the maximum is tried, but always one if there is one, and before giving up all of these or all nodes |
| `Messenger.SentIff` | pkg/lxmf/propagation_send.go:136-179 | the message is sent exactly when a node within the maximum takes it and every node before that one packed and failed |
| `Messenger.SendOnce` | pkg/lxmf/messenger.go:207-227 | one attempt at the minimal cost: the exact result, error value included, the state of the message afterwards and the upload |
| `Messenger.SendPropagatedWithRetry` | pkg/lxmf/propagation_send.go:114-180 | the same over the unique listing, or a single attempt without a registry; the message afterwards is the one the attempts determine, and on success it is Sent and the node's check accepts the uploaded entry exactly for costs up to 256 and inner data longer than the overhead |
| `Messenger.CarriedIsAcceptable` | pkg/lxmf/message.go:356-372 | an upload made for a cost passes ValidatePNStamp at that cost under that condition |

## Left out

- Transport, links, path waiting, timeouts, encryption and packets: I/O over libraries outside this repository's own code.
- The CBOR codec behind `pkg/rrc/envelope.go` and the HELLO and WELCOME bodies; an envelope is a datatype.
- The timing inside Dial: each of its two writes to the state is one step, and the other events may come between them; its timeouts and its error results are not modelled.
- PING and PONG, the member list of JOINED, logging, and the hub's announce loop: they touch neither table. A send fails for a closed session or an inactive link only, not for an envelope that cannot be marshalled.
- The locks: each section under `h.mu` is one step, and the envelopes of one session are handled one at a time.
- Field maps whose keys differ on the wire but are the same byte: the result depends on map order.
- Lengths of 2^32 and more, which the format cannot write.
- The line-length limit of the config scanner, file reading and writing, and the hash-list helpers of `config.go`.
- PickRandom, WaitFor and the peering key: easy members over the same functions.
- `pkg/mf`, `container.go`, `util.go`, `debug.go` and the announce helpers: short layouts, logging and type switches.
