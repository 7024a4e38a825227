# Ditsala verification

A Dafny 4.11 model of the parts of Ditsala that hold state, loop or compute: the realtime client that
reconnects, the base64 codec, message paging, the usage rollup, the conference promotion job, the retry
loops, the media side of a call, the avatar hash, E.164 numbers, the conference price migrations, the
location purge and the PIN checks. `dafny verify dfyconfig.toml` checks all of it.

How the pieces are written:

- Where the source updates an object, a table or a local variable step by step there is a class or a
  method with loops, and its contract ties the new state to a function of the old one. The theorems are
  lemmas about that function, over every input or every run.
- A run is a sequence of events. The host's part (sockets, timers, the database, the network, the user's
  cancel, other writers) is an arbitrary choice within the assumptions written in a predicate `Enabled` or
  in the lemma's `requires`.
- Table rows that must be unique in the schema are maps or carry a uniqueness predicate. Times are
  integers. uuids are numbers drawn from a counter.
- JavaScript's 32-bit operators are defined bit by bit on integers in `Int32.dfy` (two's complement,
  32 bits kept) and shown to be the arithmetic the programs rely on.
- Some lemmas and methods start with `hide`, which keeps definitions they do not need out of their own
  proof.

Six promises do not hold of the code in general. Each is stated with its exact condition and with an
input that fails it:

- *At most one connection.* `connect()` does not close or wait for an earlier socket
  (apps/mobile/lib/messaging-ws.ts:86-96). `DoubledRun` is a run of seven events that ends with two open
  connections. `AtMostOneIffDisciplined` shows that a run never has more than one live socket or timer if
  and only if every `connect` came when no socket owed its close event.
- *Silence after disconnect.* `disconnect()` clears only the timer it still holds and closes only its
  current socket (apps/mobile/lib/messaging-ws.ts:134-143). `LostTimerRun` reconnects after it;
  `DisconnectSilencesIff` gives the condition, and `SilentAfterDisconnect` shows that disciplined runs meet it.
- *Paging shows every message.* Rows with equal timestamps can fall between two pages, since `before` is
  strict (backend/app/repositories/messages.py:39-50). `WalkIsCompleteIff` shows that a walk with a given
  page size shows every message if and only if that page size splits no timestamp. `BoundaryRowIsLost` and
  `EveryClientWalkLoses` are a conversation of 31 messages of which the client, asking for 30 at a time,
  never shows one.
- *No SOS call after the cancel.* The flag is tested before the status callback, not after it
  (apps/mobile/lib/sos-queue.ts:32-36). `CallAfterCancelIff` shows that a call starts after the
  cancellation if and only if the cancel came inside the "retrying" callback just before it;
  `CancelInsideRetrying` is such a run.
- *No SOS call after a success.* The callback that reports the success is called inside the `try`
  (apps/mobile/lib/sos-queue.ts:35-43). `GoesOnAfterSuccessIff` shows that another attempt follows a
  success if and only if that callback threw, nothing was cancelled and attempts were left;
  `ThrowInsideSent` is a run with two successful triggers.
- *The two PIN checks mirror each other* (apps/mobile/lib/validation.ts:22-23, 48-49). The server takes the
  digits of every script. `FormatsDifferIff`, `CrashesIff`, `GatesDifferIff` and `EscapesListIff` say, PIN
  by PIN, when the format checks differ, when the server's gate raises, when the two gates differ, and when
  a listed PIN gets by; `AcceptedOnlyByServer`, `CrashingPin` and `RepeatedDigitAccepted` are such PINs.

## Model

| member | source | states |
|---|---|---|
| MessagingSockets.MessagingSocket.constructor | apps/mobile/lib/messaging-ws.ts:67-75 | a new client is closed, has no socket, no timer, no token, and the initial delay |
| MessagingSockets.MessagingSocket.Connect | apps/mobile/lib/messaging-ws.ts:86-96 | the token is replaced, the held timer is cleared, flags and delay are reset, the state is "connecting", one socket is constructed with that token |
| MessagingSockets.MessagingSocket.OpenNew | apps/mobile/lib/messaging-ws.ts:98-104 | without a token nothing happens, otherwise exactly one new socket replaces the current one |
| MessagingSockets.MessagingSocket.OnOpen | apps/mobile/lib/messaging-ws.ts:106-109 | an open event resets the delay and reports "open" |
| MessagingSockets.MessagingSocket.OnClose | apps/mobile/lib/messaging-ws.ts:121-131 | an expected close reports "closed", an unexpected one reports "reconnecting" and arms a timer with the current delay |
| MessagingSockets.MessagingSocket.OnReconnectTimer | apps/mobile/lib/messaging-ws.ts:127-130 | a firing doubles the delay up to the maximum and opens a new socket |
| MessagingSockets.MessagingSocket.Disconnect | apps/mobile/lib/messaging-ws.ts:134-143 | the held timer is cleared, the current socket closed and forgotten, the state is "closed" |
| MessagingSockets.StateMeansSituation | apps/mobile/lib/messaging-ws.ts:86-143 | in every disciplined run each reported state means one situation: "connecting" an unopened socket of the client's, "open" an opened one, "reconnecting" the held timer or an unopened socket, "closed" no timer and no socket that may open |
| MessagingSockets.ExactlyOneAlive | apps/mobile/lib/messaging-ws.ts:86-143 | in every disciplined run at most one socket or timer is alive, a pending timer is the held one, and after a `connect` without deliberate disconnect exactly one is alive: never stuck, never doubled |
| MessagingSockets.AtMostOneIffDisciplined | apps/mobile/lib/messaging-ws.ts:86-143 | a feasible run has at most one live socket or timer at every moment if and only if each `connect` came when no socket owed its close event |
| MessagingSockets.DoubledRun | apps/mobile/lib/messaging-ws.ts:86-143 | connect, disconnect, connect, close of the first socket, its timer, then both new sockets opening is a feasible run and ends with two open connections |
| MessagingSockets.DisconnectSilencesIff | apps/mobile/lib/messaging-ws.ts:134-143 | after `disconnect` nothing is constructed and the state stays "closed" under every later order of host events, if and only if no other timer was pending and no other socket could open |
| MessagingSockets.SilentAfterDisconnect | apps/mobile/lib/messaging-ws.ts:134-143 | in every disciplined run `disconnect` silences the client until the next `connect` |
| MessagingSockets.LostTimerRun | apps/mobile/lib/messaging-ws.ts:121-143 | a feasible run, given event by event, in which a lost timer reconnects after `disconnect` |
| MessagingSockets.FieldsFollowEvents | apps/mobile/lib/messaging-ws.ts:81-143 | in every run the token is that of the last `connect`; `connect` reports "connecting", an open "open", `disconnect` "closed", a close "closed" after a `disconnect` and "reconnecting" otherwise, a timer nothing |
| MessagingSockets.SocketsFollowEvents | apps/mobile/lib/messaging-ws.ts:86-104 | in every run each socket was constructed by a `connect` or a firing timer, with the token of the last `connect` up to then; the client holds the newest one, or none after `disconnect` |
| MessagingSockets.EachConstructsOne | apps/mobile/lib/messaging-ws.ts:86-130 | every `connect` and every timer that fires constructs exactly one socket, and nothing else does |
| MessagingSockets.SocketsOwe | apps/mobile/lib/messaging-ws.ts:86-143 | in every run exactly the constructed sockets without a close event owe one, and of those exactly the ones without an open event and not closed by a `disconnect` may open |
| MessagingSockets.TimersFollowEvents | apps/mobile/lib/messaging-ws.ts:91-136 | in every run one timer was armed for each unexpected close, and exactly those are pending that neither fired nor were cleared while held |
| MessagingSockets.DelayIsBackoff | apps/mobile/lib/messaging-ws.ts:86-131 | in every run the delay is min(1000 * 2^k, 30000), k the timer firings since the last `connect` or open event |
| MessagingSockets.CloseArmsBackoff | apps/mobile/lib/messaging-ws.ts:121-131 | every unexpected close arms one new timer with that delay, an expected one none |
| Int32.ShlOr | apps/mobile/lib/base64.ts:35 | on 32 bits, shifting left and or-ing in the low bits is multiplication and addition modulo 2^32, for any operand |
| Int32.SarAndLow | apps/mobile/lib/base64.ts:39 | shifting right and masking a number truncated to 32 bits gives the same bits as on the full number, below bit 32 |
| Int32.ToInt32Is | apps/mobile/lib/avatar-color.ts:11 | truncation to 32 bits is the one number from -2^31 to 2^31 - 1 that differs by a multiple of 2^32 |
| Base64.LetterIs | apps/mobile/lib/base64.ts:9 | the character of every sextet: A to Z, a to z, 0 to 9, plus, slash |
| Base64.IndexOfIs | apps/mobile/lib/base64.ts:33 | the sextet of every one of these characters, and -1 for all others |
| Base64.GroupCharacters | apps/mobile/lib/base64.ts:13-21 | the text grows by four characters for each group of one to three bytes: the characters of their 6-bit pieces, zero-filled, and padding |
| Base64.SymbolsExample | apps/mobile/lib/base64.ts:9-43 | the bytes 251, 255 are written "+/8=" and read back |
| Base64.BytesToBase64 | apps/mobile/lib/base64.ts:11-24 | the text is the byte string read as one number, extended by zero bits to whole sextets, in base 64, padded to a multiple of four characters |
| Base64.Base64ToBytes | apps/mobile/lib/base64.ts:26-43 | the bytes are the whole octets at the front of the sextets the text carries, for every string |
| Base64.RunWideIsReference | apps/mobile/lib/base64.ts:32-41 | with an unbounded buffer, k characters leave their base-64 number, 6k mod 8 pending bits, and the octets above them |
| Base64.Run32RefinesWide | apps/mobile/lib/base64.ts:29-41 | the wrapping 32-bit buffer is the residue of the unbounded one at every step, the same bytes come out, 0, 2, 4 or 6 bits are pending, and there are floor(6k/8) bytes |
| Base64.NoiseIsIgnored | apps/mobile/lib/base64.ts:33-34 | a character outside the alphabet changes nothing, wherever it stands |
| Base64.DecodedLength | apps/mobile/lib/base64.ts:26-43 | k alphabet characters decode to floor(6k/8) bytes |
| Base64.RoundTrip | apps/mobile/lib/base64.ts:11-43 | decoding an encoding returns the bytes, for every byte sequence |
| Base64.ReencodesIffCanonical | apps/mobile/lib/base64.ts:11-43 | encoding a decoded text returns the text if and only if it has no foreign characters, the right padding, no lone sextet and zero trailing bits |
| MessagePages.QueryAnswers | backend/app/repositories/messages.py:38-52 | repeatedly taking a latest matching row gives an answer of the query: matching rows only, newest first, none repeated, as many as the limit allows, none left out that is later than one shown |
| MessagePages.AnswersIff | backend/app/repositories/messages.py:38-52 | a page answers the query if and only if its rows are distinct rows of that conversation, before `before` and after `clearedAt` where given, newest first, at most the limit, and a row of that kind is missing only from a full page on which no row is earlier |
| MessagePages.WalkShowsLatest | backend/app/repositories/messages.py:30-52 | after any number of pages the rows shown are initially visible ones, each once, newest first, down to the last timestamp shown, and all of those if the page size splits no timestamp |
| MessagePages.WalkIsCompleteIff | backend/app/repositories/messages.py:30-52 | a walk that reached a short page showed every initially visible message if and only if the rows, cut off by the page size from the latest on, fall apart only between different timestamps; whatever later messages arrived between the fetches and however ties were broken |
| MessagePages.WalkTerminates | apps/mobile/app/messages/[conversationId].tsx:263-282 | a walk has at most one page more than there were visible messages |
| MessagePages.PagingIsSafeIff | backend/app/repositories/messages.py:38-52 | for a given table and page size every completed walk shows all visible messages, if and only if the page size splits no timestamp |
| MessagePages.PagingIsSafeIffDistinct | backend/app/repositories/messages.py:39-50 | every page size is safe if and only if no two visible messages share a timestamp |
| MessagePages.BoundaryRowIsLost | apps/mobile/app/messages/[conversationId].tsx:67 | 31 messages of which only the 30th and 31st share a timestamp are not safe to page by the client's 30 |
| MessagePages.EveryClientWalkLoses | apps/mobile/app/messages/[conversationId].tsx:263-282 | every completed walk of the client over that conversation leaves a message out |
| UsageRollup.TranslationUsageRepository.Increment | backend/app/repositories/translation.py:176-197 | fails exactly when two rows match; otherwise the matching row gets one more request and the characters, or a row with one request and these characters is added; other rows stay, keys stay unique, and every total still equals the log's |
| UsageRollup.TranslationUsageRepository.TotalsSince | backend/app/repositories/translation.py:199-206 | equals the number of calls since the date and their characters, taken over the log of calls |
| UsageRollup.TranslationUsageRepository.TotalsForUser | backend/app/repositories/translation.py:208-215 | equals the number of the user's calls and their characters, taken over the log of calls |
| UsageRollup.SumAfterUpdate | backend/app/repositories/translation.py:185-189 | changing one row changes a sum over any selection by exactly that row's change |
| UsageRollup.RowsAreExact | backend/app/repositories/translation.py:173-215 | each row's counters are the calls logged for its user and date |
| Promotion.Session.ListDueToStart | backend/app/repositories/meetings.py:54-67 | exactly the meetings that are scheduled or live and have a scheduled start not after `now` |
| Promotion.Session.ListWaiting | backend/app/repositories/meetings.py:109-116 | exactly the meeting's waiting participants, each once |
| Promotion.AutoPromoteWaitingConferenceParticipants | backend/app/tasks/scheduler.py:132-144 | exactly the due scheduled meetings become live at `now`, exactly the participants waiting in due meetings are admitted, nothing else changes, and the result is their number |
| Promotion.PromoteIs | backend/app/tasks/scheduler.py:136-143 | row by row: a meeting becomes live with start `now` if and only if it was scheduled for a given time not after `now`; a participant becomes admitted if and only if it was waiting in a scheduled or live meeting of that kind; every other row stays |
| Promotion.CountIsAdmitted | backend/app/tasks/scheduler.py:135-144 | the number returned is how many rows went from waiting to admitted |
| Promotion.AdmitWaiting | backend/app/tasks/scheduler.py:141-143 | everyone waiting in one meeting is admitted, nobody else changes, and the count is how many fewer wait |
| Promotion.AdmittedLeaveWaiting | backend/app/tasks/scheduler.py:136-144 | those waiting before are those waiting after plus those the job had to admit |
| Promotion.RunSettles | backend/app/tasks/scheduler.py:137-144 | after a run every due meeting is live and nobody waits in one; a second run at that time or an earlier one changes nothing and admits nobody |
| Promotion.StartedAtMostOnce | backend/app/tasks/scheduler.py:122-144 | over any series of runs, new meetings, edits and arrivals the job writes a meeting's row at most once, never before its scheduled time, and the start it writes is the time of that run |
| Requests.Request | apps/mobile/lib/api.ts:42-90 | one to three fetches, all but the last without response or with a 502, 503 or 504; no response to the third is a NetworkError, a last status outside 200 to 299 an ApiError with that status and the detail of its body or the default text, a 204 undefined, any other body its value or a parse error; the delays are 500 and 1500 |
| Requests.Fetches | apps/mobile/lib/api.ts:48-83 | one to three fetches; every one but the last had no response or a 502, 503 or 504; the last one is the third or needs no retry |
| SosQueue.TriggerSosWithRetry | apps/mobile/lib/sos-queue.ts:30-57 | for every network, cancel moment, throwing callback and limit: the attempts stop at the first that delivers a success, cannot announce itself, is cancelled or exhausts the limit; promise, reports and fetches are those the run theorems below speak about |
| SosQueue.FetchBounds | apps/mobile/lib/sos-queue.ts:36 | n trigger calls make between n and 3n fetches |
| SosQueue.AttemptBounds | apps/mobile/lib/sos-queue.ts:32-53 | a finite limit m allows at most max(1, m) attempts, and no attempt begins after the cancellation |
| SosQueue.CallAfterCancelIff | apps/mobile/lib/sos-queue.ts:32-36 | a call starts after the cancellation if and only if the cancel came inside the "retrying" callback just before it, and then it is the last |
| SosQueue.CancelInsideRetrying | apps/mobile/lib/sos-queue.ts:32-46 | a run in which the second call starts after the cancellation |
| SosQueue.GoesOnAfterSuccessIff | apps/mobile/lib/sos-queue.ts:35-53 | after a success another attempt follows if and only if the callback that reported it threw, no cancel came and attempts are left |
| SosQueue.ThrowInsideSent | apps/mobile/lib/sos-queue.ts:35-53 | a run that triggers twice with success because the "sent" callback threw |
| SosQueue.ContinuesIff | apps/mobile/lib/sos-queue.ts:32-53 | an attempt is followed by another if and only if its opening callback returned, its call failed or the report of its success threw, no cancel came before the next attempt, and fewer attempts than the limit were made |
| SosQueue.FailedIff | apps/mobile/lib/sos-queue.ts:48-51 | "failed" is reported for exactly the attempts that reached the limit without a delivered success and without a cancellation |
| SosQueue.CancelledIff | apps/mobile/lib/sos-queue.ts:37-55 | "cancelled" is reported for exactly the successes after a cancellation and the attempts without a delivered success cancelled by the end of their delay |
| SosQueue.TraceShapeIff | apps/mobile/lib/sos-queue.ts:33-55 | the reports are "sending", "retrying" n - 1 times and one terminal status, if and only if neither the last opening callback nor one that reported a success threw |
| SosQueue.SentIff | apps/mobile/lib/sos-queue.ts:36-41 | "sent" is reported for exactly the attempts whose call succeeded before any cancellation |
| SosQueue.WithoutThrows | apps/mobile/lib/sos-queue.ts:30-57 | when no callback throws, no call follows a success; a success is the promise's value, a failed last call its reason if a cancel came by then or the limit is reached, and otherwise the reason is the cancellation; the trace ends with "sent" exactly if that call succeeded before any cancellation, with "failed" exactly if it failed uncancelled at the limit |
| SosQueue.EndsIff | apps/mobile/lib/sos-queue.ts:26-57 | an SOS run ends if and only if some opening callback would throw, some success would be delivered, it is cancelled, or the attempts are limited |
| CallSessions.CallSession.Start | apps/mobile/lib/call-session.ts:87-142 | succeeds if and only if the devices are granted; the stream's tracks are then enabled and on the senders, one audio track and a video track only for a video call, and an offer is sent only by the initiator; a refusal changes nothing |
| CallSessions.CallSession.SetMuted | apps/mobile/lib/call-session.ts:185-189 | every local audio track gets the flag, video tracks and the set of tracks do not change |
| CallSessions.CallSession.IsVideoEnabled | apps/mobile/lib/call-session.ts:191-193 | true exactly when a local video track exists |
| CallSessions.CallSession.SetVideoEnabled | apps/mobile/lib/call-session.ts:199-221 | a switch happens if and only if there is a call, the video state differs from the wanted one and the camera, where wanted, is granted; it ends with one video track or none, leaves senders and stream with the same tracks, keeps the audio tracks with their mute flags, stops dropped video tracks, and sends one offer; otherwise nothing changes and no offer is sent |
| CallSessions.CallSession.DropVideo | apps/mobile/lib/call-session.ts:210-215 | no video track is left on stream or senders, each was stopped, audio is untouched |
| CallSessions.CallSession.SendOffer | apps/mobile/lib/call-session.ts:144-152 | one offer if there is a connection, else none |
| CallSessions.CallSession.End | apps/mobile/lib/call-session.ts:223-232 | every local track is stopped, the connection is closed, and stream, connection and subscription are gone |
| CallSessions.PeerConnection.RemoveById | apps/mobile/lib/call-session.ts:213-214 | if the senders carried certain tracks with distinct ids, they then carry the same tracks without the one with the id |
| CallSessions.RemoveKeepsCarried | apps/mobile/lib/call-session.ts:213-214 | emptying the sender with a track's id leaves the other tracks carried, each once |
| AvatarColor.AvatarColorFor | apps/mobile/lib/avatar-color.ts:7-14 | for every string the loop computes the color of the base-31 polynomial of its code units |
| AvatarColor.ColorIs | apps/mobile/lib/avatar-color.ts:11-13 | the color is the palette entry at the absolute value, modulo 8, of the signed 32-bit residue, also for -2^31 |
| AvatarColor.PolynomialIs | apps/mobile/lib/avatar-color.ts:8-12 | each code unit counts 31 to the power of how many follow it |
| AvatarColor.RoundIsPolynomialStep | apps/mobile/lib/avatar-color.ts:10-11 | a round is multiplication by 31 and addition modulo 2^32, and its intermediate value stays below 2^53 |
| Countries.NoiseIsIgnored | apps/mobile/lib/countries.ts:68-71 | characters that are not digits do not change the number, wherever they stand |
| Countries.LeadingZerosAreIgnored | apps/mobile/lib/countries.ts:68-71 | any number of trunk zeros does not change the number |
| Countries.PlainDigitsAreKept | apps/mobile/lib/countries.ts:68-71 | digits that do not start with a zero follow the dial code as they are; with the two laws above this gives the number for every input |
| Countries.TableHasCountryCodes | apps/mobile/lib/countries.ts:15-54 | every dial code of the table is a plus sign and as many digits as the numbering plan gives for its leading digits |
| Countries.ReadsBack | apps/mobile/lib/countries.ts:68-71 | splitting a number at its country code gives the dial code and the digits it was made from |
| Countries.EqualNumbers | apps/mobile/lib/countries.ts:15-71 | equal numbers come from equal dial codes and equal stripped digits |
| ConferencePlans.Database.SeedConferencePlans | backend/migrations/versions/b4f7c1a9e6d2_conference_room_plans.py:126-185 | the loops perform the seeding of the four plans one after the other |
| ConferencePlans.SeedPlanEffect | backend/migrations/versions/b4f7c1a9e6d2_conference_room_plans.py:128-185 | one round leaves an existing plan as it is or adds it, gives it all its entitlements and an active monthly price, adds at most that price, touches no other plan's entitlements, and does nothing if everything was there |
| ConferencePlans.SeedAppends | backend/migrations/versions/b4f7c1a9e6d2_conference_room_plans.py:128-162 | existing plans stay as they are, and the only new prices are list prices of the seeded plans |
| ConferencePlans.SeedTwiceIsOnce | backend/migrations/versions/b4f7c1a9e6d2_conference_room_plans.py:126-185 | for any starting tables seeding twice equals seeding once, and afterwards all four plans are complete |
| ConferencePlans.SeedingCompletes | backend/migrations/versions/b4f7c1a9e6d2_conference_room_plans.py:55-185 | for any starting tables each of the four plans then has an active monthly ZAR price and its own limits of guests, minutes and meetings and its tools |
| ConferencePlans.SeedPlanPrice | backend/migrations/versions/b4f7c1a9e6d2_conference_room_plans.py:144-162 | a round appends an active monthly ZAR price at the list amount, unless the plan has an active monthly ZAR price |
| ConferencePlans.NewPlanHasListPrice | backend/migrations/versions/b4f7c1a9e6d2_conference_room_plans.py:55-162 | the only prices of a plan the seeding creates are active monthly ZAR prices of 0, 14900, 39900 or 149900 cents |
| ConferencePlans.NewPlanRows | backend/migrations/versions/b4f7c1a9e6d2_conference_room_plans.py:55-135 | the plans the seeding creates are active conference plans with their names |
| ConferencePlans.Database.RemoveSeededPrices | backend/migrations/versions/b7d4e9f1a3c8_remove_hardcoded_conference_prices.py:45-60 | the loop performs the four deletions in order |
| ConferencePlans.RemoveIsUnseeded | backend/migrations/versions/b7d4e9f1a3c8_remove_hardcoded_conference_prices.py:45-60 | together the deletions drop exactly the active monthly ZAR rows of the seeded amounts and keep all others in place |
| ConferencePlans.RemovedIff | backend/migrations/versions/b7d4e9f1a3c8_remove_hardcoded_conference_prices.py:37-60 | a price goes if and only if it is active, monthly, in ZAR and of its plan's seeded amount |
| ConferencePlans.OtherAmountsStay | backend/migrations/versions/b7d4e9f1a3c8_remove_hardcoded_conference_prices.py:20-22 | a price of another amount is never touched |
| ConferencePlans.Database.RestoreSeededPrices | backend/migrations/versions/b7d4e9f1a3c8_remove_hardcoded_conference_prices.py:63-90 | the loop performs the four conditional insertions in order |
| ConferencePlans.RestoreAppends | backend/migrations/versions/b7d4e9f1a3c8_remove_hardcoded_conference_prices.py:63-90 | the rollback only appends seeded prices |
| ConferencePlans.RollbackRestores | backend/migrations/versions/b7d4e9f1a3c8_remove_hardcoded_conference_prices.py:63-90 | after the rollback every one of the four plans that exists has an active monthly ZAR price, at its seeded amount if it had none |
| ConferencePlans.UpgradeAfterRollback | backend/migrations/versions/b7d4e9f1a3c8_remove_hardcoded_conference_prices.py:45-90 | upgrade, downgrade, upgrade equals upgrade |
| ConferencePlans.RemovalUndoesSeeding | backend/migrations/versions/b7d4e9f1a3c8_remove_hardcoded_conference_prices.py:37-60 | after both migrations the prices are those the removal alone would have left |
| LocationPurge.LocationPingRepository.PurgeExpired | backend/app/repositories/location.py:35-53 | of each ping no copy is left if its share was over before the cutoff and every copy otherwise, the pings left keep their order, and the result is the number of expired ones |
| LocationPurge.PurgedIff | backend/app/repositories/location.py:46-51 | a ping goes if and only if its share was revoked or expired before the cutoff; a missing revocation never counts |
| LocationPurge.LaterPurgeSubsumes | backend/app/repositories/location.py:35-53 | purging now and later leaves what the later purge alone leaves, with pings arriving and shares ending sooner in between |
| Pins.ServerAndClientAgree | apps/mobile/lib/validation.ts:50-56 | the two weak-PIN checks agree on every string of ASCII digits of any length, and the sequential part means digit i is the first plus or minus i throughout |
| Pins.WeakServerIff | backend/app/core/security.py:80-91 | on every string at all: the server's check raises if and only if some character is not a decimal digit, and otherwise answers whether the string is listed or its digit values are a run |
| Pins.FormatsDifferIff | backend/app/core/security.py:73-77 | the format checks differ on a PIN if and only if it is six characters that are digits to the server, not all ASCII; what the client takes the server takes |
| Pins.CrashesIff | backend/app/domain/onboarding/service.py:375-380 | the server's gate raises on a PIN if and only if it is six digits of which one is not decimal, and calls it malformed if and only if it is not six digits |
| Pins.GatesDifferIff | apps/mobile/app/onboarding/set-code.tsx:21-24 | the gates of client and server differ on a PIN if and only if it is six decimal digits, not all ASCII, that are no run |
| Pins.EscapesListIff | backend/app/core/security.py:66-91 | a PIN is judged like the same digits in ASCII, except if and only if these are listed, no run, and were not written in ASCII |
| Pins.AcceptedOnlyByServer | backend/app/core/security.py:73-91 | 314159 in Arabic-Indic digits is accepted by the server and malformed to the client |
| Pins.RepeatedDigitAccepted | backend/app/core/security.py:80-91 | 111111 in Arabic-Indic digits is accepted by the server |
| Pins.CrashingPin | backend/app/domain/recovery/service.py:278-280 | six superscript twos pass the format check and make the weakness check raise |
| Pins.RunsAreShort | backend/app/core/security.py:80-91 | no sequential list of digits is longer than ten |
| Pins.WeakPins | apps/mobile/app/onboarding/set-code.tsx:21-24 | among ASCII PINs the weak ones are the listed ones and the ten runs, on both sides; the client lets through exactly the six-digit strings outside these 25 |

## Left out

- SosQueue.TriggerSosWithRetry: watched for `horizon` attempts, since the loop may run for ever; every statement holds for every horizon. The round of the loop is a helper method. A fractional `maxAttempts` is not modelled.
- UsageRollup.TranslationUsageRepository.Increment: calls run one after the other; two sessions updating the same row at once and the 32-bit column width are not modelled.
- CallSessions.CallSession.SetVideoEnabled: calls do not overlap, so an `end()` during the camera prompt is not modelled, and sending an offer always succeeds.
- MessagePages.QueryAnswers: the query is the relation between a table and its possible answers; the session and the SQL text are not modelled.
- MessagingSockets.StateMeansSituation: the token passed to `connect` is not empty, as its only caller makes sure (apps/mobile/app/messages/index.tsx:183-184); listeners, frames and `sendTyping` are left out.
- Promotion.StartedAtMostOnce: assumes other writers never put a started meeting back to "scheduled"; commit failures are not modelled.
- Promotion.AutoPromoteWaitingConferenceParticipants: its loop body is two helper methods here.
- Base64.BytesToBase64: the four characters of a group are appended together.
- ConferencePlans.Database.RestoreSeededPrices: draws a uuid in every round, the program only where the plan exists; timestamps of rows and the column changes of the migration are left out.
- Countries.TableHasCountryCodes: which country has which dial code is a transcribed table; only the length of each code follows from the numbering plan. The same holds for the tables of digit characters in `Pins`.
- Pins.ServerAndClientAgree: ASCII digits only, the strings on which the client asks its weakness check; `WeakServerIff` covers the server on all strings. Which characters are digits is Unicode 15.0, as in Python 3.12.
- WebRTC negotiation, incoming signals and remote streams: foreign calls without an invariant of this class.
- Request headers, abort controllers and sleeping: only the outcome of each fetch and the delays are modelled.
- `initialsFor` in apps/mobile/lib/avatar-color.ts: one expression over the words of a name.
- JWT, Argon2, TOTP and the breach lookup of backend/app/core/security.py: library cryptography.
- The domain services (messaging, meetings, SOS escalation, billing), the remaining repositories, the request schemas and the screens: permission checks and orchestration of database calls, lookups by one column, declarations and user interface. No theorem here depends on them.
