# Gate controller connectivity and access rules, modelled in Dafny

This project models the logic of a cellular gate controller and of its web back office.

**Firmware (C++, ESP32).** The firmware keeps the device reachable:
- it brings the modem up with AT commands;
- it starts a PPP data session;
- it holds an MQTT session to the broker, with exponential backoff;
- it escalates from MQTT failures to a PPP rebuild, and from PPP failures to a modem hard reset;
- it guards gate openings with a cooldown and a ring cache of processed request ids;
- it keeps a ring-buffer diagnostic log;
- it validates command documents into fixed-size buffers.

Each stateful firmware object is a Dafny `class` whose fields the methods update: `Backoff`, `ModemManager`, `PppManager`, `MqttManager`, `GateControl`, `DiagnosticLog`. Arrays stand for the C arrays: the dedupe cache and the log's entry ring. Each method is tied to a pure step function on the object's abstract state. The lemmas are stated over those step functions.

The firmware's integer widths are written out:
- `unsigned long` time is 32 bits, and its differences wrap modulo 2^32;
- `uint8_t` streaks and counters wrap at 256.

**Backend (NestJS) and frontend (React).** The model covers these pure rules:
- registration, and login/logout bound to one active device, with e-mail addresses stored and looked up lower-cased;
- the approval guard and the admin guard;
- the administrator's user edits: status transitions, timestamps, forced logout and the rejection reason;
- password reset, the approval e-mail, and approving every pending user;
- the paging of the user list;
- reading the Bearer token (section 2.1 of RFC 6750) and the token's remaining lifetime from its `exp` claim (section 4.1.4 of RFC 7519);
- the client-IP header precedence;
- the request-id UUID check (section 3 of RFC 4122) and the limit clamps;
- the update-request validators;
- Israeli phone parsing and validation;
- the navigation redirect table, the admin page's pagination window and sort transition;
- relative-time buckets;
- the right-to-left name formatting of the approval e-mail.

The user store is a sequence of records. The services that change it are classes over that sequence, and each method is proved equal to a pure step function. The ECMAScript string built-ins these rules use (`trim`, `split`, ASCII `toLowerCase`) are defined once in `JsText`.

Calls the model cannot see become parameters: the current time (`millis()`, `Date.now()`), AT-command and serial outcomes, the MQTT client's answers, bcrypt comparisons, the mailer's success, and store-call failures.

The code and the repository's written description disagree in places. The model follows the code:
- Three failed MQTT connects leave the backoff delay at 8000 ms, not the 4000 ms the description gives (`Mqtt.ThreeFailuresRequestRebuild`).
- The PPP manager is a skeleton. Its IP check returns the `pppUp` flag itself, so a starting link can only end by timeout (`Ppp.LinkNeverComesUp`). There is no registration sub-state machine.
- `MqttManager.cpp` and `MqttManager.h` do not agree. The model follows `MqttManager.cpp`.

Several behaviours of the code as written are stated as lemmas, not corrected:
- A failed subscribe leaves the cached `connected` flag set (`Mqtt.StaleFlagAfterSubscribeFailure`).
- Login checks the `approved` flag, but the guard checks `status` (`ApprovedGuard.LoginTokenAdmitted`).
- The two Authorization-header readers disagree on a double space (`AuthController.DoubleSpaceReadersDisagree`).
- The update request's phone pattern and `validatePhoneNumber` accept prefixes 056 and 057, but `parsePhone` refuses them (`Phone.UnlistedMobilePrefixNotParsed`).
- A zero limit becomes 1 for the gate logs but 50 for the diagnostics (`GateController.ZeroLimitTreatedDifferently`).
- The update request's `rejectionReason` carries `@IsOptional` and two `@ValidateIf` guards. class-validator runs a field's validators only when all such conditions hold, and the two guards exclude each other, so neither reason validator ever runs on a request (`UpdateUserDto.ReasonValidatorsNeverRun`). The reason rule is enforced by `updateUser` itself (`AdminService.BuildUpdateData`).

## Model

| member | source | states |
|---|---|---|
| BackoffUtil.Backoff.constructor | firmware/src/util/Backoff.cpp:3-5 | a new backoff starts at the base delay and is in range |
| BackoffUtil.Backoff.GetNextDelay | firmware/src/util/Backoff.cpp:7-9 | returns the current delay and changes nothing |
| BackoffUtil.Backoff.Reset | firmware/src/util/Backoff.cpp:11-13 | restores exactly the base delay; the range invariant holds |
| BackoffUtil.Backoff.Increment | firmware/src/util/Backoff.cpp:15-22 | the delay becomes its 32-bit double, replaced by the cap when above it; base <= current <= max is preserved |
| BackoffUtil.DoubledIsCappedDouble | firmware/src/util/Backoff.cpp:15-22 | with no overflow (current <= ULONG_MAX/2) one increment gives min(2 * current, max) |
| BackoffUtil.DoubledStaysInRange | firmware/src/util/Backoff.cpp:15-22 | when max <= ULONG_MAX/2, an increment keeps base <= current <= max and never decreases the delay |
| BackoffUtil.DoubledIdempotentAtCap | firmware/src/util/Backoff.cpp:17-18 | incrementing at the cap stays at the cap, for any number of increments |
| BackoffUtil.DelayAtCapStays | firmware/src/util/Backoff.cpp:15-22 | n increments from the cap leave the cap |
| BackoffUtil.DelayAfterClosedForm | firmware/src/util/Backoff.cpp:15-22 | after n increments from base the delay is min(base * 2^n, max) |
| BackoffUtil.DoubledWrapsAboveHalf | firmware/src/util/Backoff.cpp:16 | without the overflow bound the 32-bit doubling of 2^31 wraps to 0 and is stored |
| Config.Elapsed | firmware/src/gate_control/gate_control.cpp:29-30 | an unsigned 32-bit `now - since` equals the plain difference, plus 2^32 once the clock has wrapped |
| Config.IncU8 | firmware/src/ppp/PppManager.cpp:131-132 | a `uint8_t` post-increment adds one below 255 and wraps 255 to 0 |
| Ppp.InitialPpp | firmware/src/ppp/PppManager.cpp:3-6 | a new manager is down, not starting, with a zero streak |
| Ppp.ShouldHardReset | firmware/src/ppp/PppManager.cpp:141-143 | a hard reset is due exactly when the streak is at least 2 |
| Ppp.StartOutcomes | firmware/src/ppp/PppManager.cpp:8-33 | a start while starting or up changes nothing and returns `pppUp`; otherwise it starts (clock set to now) iff both AT commands succeed, and a failure only adds one to the streak |
| Ppp.StopStep | firmware/src/ppp/PppManager.cpp:68-81 | stop clears both flags and never touches the start time or the streak |
| Ppp.WaitStep | firmware/src/ppp/PppManager.cpp:83-110 | a poll reports true when up; false when idle; while starting, true iff within the timeout and the IP check succeeds, which brings the link up and clears the streak |
| Ppp.StepsPreserveValid | firmware/src/ppp/PppManager.cpp:24-103 | start, stop and wait never leave the session both up and starting |
| Ppp.LinkNeverComesUp | firmware/src/ppp/PppManager.cpp:100-153 | with the IP check answering `pppUp`, no operation brings a down link up, so a start can only end by timeout |
| Ppp.TimeoutCountsFailure | firmware/src/ppp/PppManager.cpp:93-98 | a poll past the timeout stops the session, adds exactly one to the streak and returns false |
| Ppp.TwoFailuresTriggerHardReset | firmware/src/ppp/PppManager.cpp:127-143 | from a clean streak, one failure (AT or timeout) does not ask for a hard reset and two do |
| Ppp.StreakWrapsAfter255 | firmware/src/ppp/PppManager.cpp:131-143 | the `uint8_t` streak wraps after 255, dropping the hard-reset request |
| Ppp.PppManager.constructor | firmware/src/ppp/PppManager.cpp:3-6 | keeps the modem pointer; the state is the initial one |
| Ppp.PppManager.SendPppAtCommands | firmware/src/ppp/PppManager.cpp:35-66 | with no modem nothing is sent and the result is false; otherwise `CGDCONT` with the APN is sent strictly before `CGACT=1,1`, the second only if the first was answered OK, and the result is true iff both were |
| Ppp.PppManager.Start | firmware/src/ppp/PppManager.cpp:8-33 | the new state and result are StartStep of the old state, with success meaning a modem exists and both replies held OK |
| Ppp.PppManager.Stop | firmware/src/ppp/PppManager.cpp:68-81 | the new state is StopStep of the old one |
| Ppp.PppManager.WaitForPppUp | firmware/src/ppp/PppManager.cpp:83-110 | the new state and result are WaitStep of the old state; with the IP check as written (it returns the `pppUp` flag), a link that is not yet up is still not up afterwards and the call answers false |
| Ppp.PppManager.IsUp | firmware/src/ppp/PppManager.cpp:112-116 | reports `pppUp` |
| Ppp.PppManager.GetPppFailStreak | firmware/src/ppp/PppManager.cpp:118-120 | reports the streak |
| Ppp.PppManager.ResetPppFailStreak | firmware/src/ppp/PppManager.cpp:122-129 | sets the streak to 0 and changes nothing else |
| Ppp.PppManager.IncrementFailStreakInPlace | firmware/src/ppp/PppManager.cpp:131-139 | adds one to the streak with `uint8_t` wrap-around and changes nothing else |
| Modem.ScanFrom | firmware/src/modem/ModemManager.cpp:226-252 | the byte-by-byte wait stops at the first prefix holding the expected token (tested first) or `ERROR`, and times out only when no prefix holds either |
| Modem.ScanMatchesIffAccepts | firmware/src/modem/ModemManager.cpp:222-253 | the wait succeeds exactly when some prefix holds the expected token while the prefix one byte shorter holds no `ERROR` |
| Modem.ExpectedWinsTie | firmware/src/modem/ModemManager.cpp:231-243 | when one byte completes both the expected token and `ERROR`, the expected token wins |
| Modem.ErrorFirstRejects | firmware/src/modem/ModemManager.cpp:238-243 | `ERROR` in a prefix that lacks the expected token makes the wait fail |
| Modem.InitStep | firmware/src/modem/ModemManager.cpp:11-183 | one `init()` call returns true iff the stage is COMPLETE, only there sets `ready`, moves at most one stage (to the successor, back to POWER_ON, or nowhere), and sends the stage's AT command |
| Modem.PowerOnAdvances | firmware/src/modem/ModemManager.cpp:110-112 | POWER_ON always moves to WAIT_POWER, stamps the clock with now and returns false |
| Modem.WaitPowerSettles | firmware/src/modem/ModemManager.cpp:114-122 | WAIT_POWER enters the handshake iff more than 5000 ms have passed, restarting the clock; otherwise nothing changes |
| Modem.HandshakeFailure | firmware/src/modem/ModemManager.cpp:124-133 | a failed `AT` past AT_INIT_TIMEOUT_MS returns to POWER_ON, before it changes nothing; both return false |
| Modem.EchoFailureRestarts | firmware/src/modem/ModemManager.cpp:135-144 | a failed `ATE0` always returns to POWER_ON with false |
| Modem.QueriesAreNonCritical | firmware/src/modem/ModemManager.cpp:146-174 | the SIM, registration and signal queries advance to the next stage whatever the reply |
| Modem.HandshakeTimeoutObservedAsPowerOn | firmware/src/modem/ModemManager.cpp:128-131 | after a handshake timeout the modem is at POWER_ON and not ready |
| Modem.ResetSession | firmware/src/modem/ModemManager.cpp:185-205 | power cycle and hard reset leave POWER_ON, not ready, start time 0 |
| Modem.ModemManager.constructor | firmware/src/modem/ModemManager.cpp:3-9 | a new modem is at POWER_ON, not ready, start time 0 |
| Modem.ModemManager.Init | firmware/src/modem/ModemManager.cpp:11-183 | the new state, result and command sent are InitStep of the old state, the reply being the matcher's verdict on the arriving bytes |
| Modem.ModemManager.PowerCycle | firmware/src/modem/ModemManager.cpp:185-193 | the state becomes the reset session |
| Modem.ModemManager.HardReset | firmware/src/modem/ModemManager.cpp:195-205 | the state becomes the reset session |
| Modem.ModemManager.IsReady | firmware/src/modem/ModemManager.cpp:207-209 | reports `ready` |
| Modem.ModemManager.SendATCommand | firmware/src/modem/ModemManager.cpp:215-220 | writes the command and CR LF; succeeds iff the matcher accepts the reply |
| Modem.ModemManager.WaitForResponse | firmware/src/modem/ModemManager.cpp:222-253 | the loop over arriving bytes succeeds iff the scan specification matches |
| Modem.ModemManager.SendATCommandGetResponse | firmware/src/modem/ModemManager.cpp:255-287 | returns the bytes up to the match plus those drained after it, up to `ERROR`, or everything on timeout |
| Mqtt.InitialMqtt | firmware/src/mqtt/MqttManager.cpp:13-18 | a new manager is disconnected, with a zero streak, the base delay and zero timestamps |
| Mqtt.ShouldRebuildPpp | firmware/src/mqtt/MqttManager.cpp:206-208 | a PPP rebuild is due exactly when the streak is at least 3 |
| Mqtt.CountFailure | firmware/src/mqtt/MqttManager.cpp:61-75 | a failed attempt adds one to the streak and doubles the delay (capped), touching nothing else |
| Mqtt.ConnectStep | firmware/src/mqtt/MqttManager.cpp:27-83 | a poll that makes no client call changes nothing; a real attempt stamps `lastConnectAttempt` before the first client call; success implies the connected flag; a failed broker connection clears it; a failed subscription leaves it |
| Mqtt.ConnectGatedByBackoff | firmware/src/mqtt/MqttManager.cpp:31-38 | connected with a live client means true and no attempt; otherwise an attempt is made iff none was made before or the current delay has passed |
| Mqtt.ConnectOutcome | firmware/src/mqtt/MqttManager.cpp:51-82 | an attempt succeeds iff connect and the QoS 1 subscription to the command topic both succeed; success resets streak and delay; failure counts one and doubles the delay; only the connect failure clears the flag |
| Mqtt.StaleFlagAfterSubscribeFailure | firmware/src/mqtt/MqttManager.cpp:55-64 | a subscription failure disconnects the client yet leaves the cached flag set |
| Mqtt.LoopStep | firmware/src/mqtt/MqttManager.cpp:146-159 | `loop()` does nothing when disconnected or when the client loop works; on failure it drops the session and counts a failure iff the client state is -1, leaving the delay alone |
| Mqtt.PublishStatusStep | firmware/src/mqtt/MqttManager.cpp:126-140 | the status clock is stamped only while connected and at most once per STATUS_INTERVAL_MS |
| Mqtt.StepsKeepBackoffInRange | firmware/src/mqtt/MqttManager.cpp:36-75 | every operation keeps the delay between base and cap |
| Mqtt.ThreeFailuresRequestRebuild | firmware/src/mqtt/MqttManager.cpp:36-208 | from construction, three failed attempts spaced by the current delay leave the delay at 8000 ms and request a PPP rebuild; two do not |
| Mqtt.SuccessClearsRebuild | firmware/src/mqtt/MqttManager.cpp:66-69 | a successful attempt after any failures connects, clears the rebuild request and resets the delay |
| Mqtt.CString | firmware/src/mqtt/MqttManager.cpp:161-165 | the handler's text is the payload up to its first NUL |
| Mqtt.CStringOfTerminated | firmware/src/mqtt/MqttManager.cpp:163-165 | appending the terminating NUL does not change the C string read from the payload |
| Mqtt.MqttManager.constructor | firmware/src/mqtt/MqttManager.cpp:13-18 | a new manager has the initial state, a fresh backoff at base, and no callback |
| Mqtt.MqttManager.Connect | firmware/src/mqtt/MqttManager.cpp:27-83 | the new state, result and client calls are ConnectStep of the old state |
| Mqtt.MqttManager.Disconnect | firmware/src/mqtt/MqttManager.cpp:85-91 | the client is told to disconnect iff the flag was set; afterwards the flag is clear and nothing else changed |
| Mqtt.MqttManager.IsConnected | firmware/src/mqtt/MqttManager.cpp:93-97 | reports the cached flag |
| Mqtt.MqttManager.Publish | firmware/src/mqtt/MqttManager.cpp:99-112 | the client is called only when connected; the result is true iff connected and the client accepted |
| Mqtt.MqttManager.PublishAck | firmware/src/mqtt/MqttManager.cpp:114-124 | only the connection guard: proceeds iff connected |
| Mqtt.MqttManager.PublishStatus | firmware/src/mqtt/MqttManager.cpp:126-140 | the new state is PublishStatusStep of the old one |
| Mqtt.MqttManager.SetCommandCallback | firmware/src/mqtt/MqttManager.cpp:142-144 | records the callback and changes nothing else |
| Mqtt.MqttManager.Loop | firmware/src/mqtt/MqttManager.cpp:146-159 | the new state is LoopStep of the old one |
| Mqtt.MqttManager.OnMessage | firmware/src/mqtt/MqttManager.cpp:161-175 | with a callback the topic and the payload's C string are delivered; without one nothing is |
| Mqtt.MqttManager.GetMqttFailStreak | firmware/src/mqtt/MqttManager.cpp:183-185 | reports the streak |
| Mqtt.MqttManager.ResetMqttFailStreak | firmware/src/mqtt/MqttManager.cpp:187-194 | sets the streak to 0 and changes nothing else |
| Mqtt.MqttManager.IncrementFailStreak | firmware/src/mqtt/MqttManager.cpp:196-204 | adds one to the `uint8_t` streak with wrap-around and changes nothing else |
| Mqtt.MqttManager.ShouldRebuildPppNow | firmware/src/mqtt/MqttManager.cpp:206-208 | true iff the streak is at least MQTT_FAILS_BEFORE_PPP_REBUILD |
| Gate.EmptyCache | firmware/src/gate_control/gate_control.cpp:9-17 | the cache `init()` leaves has every slot empty and nothing counted |
| Gate.MarkStep | firmware/src/gate_control/gate_control.cpp:71-93 | a null or empty id changes nothing; otherwise the id cut to 36 characters fills the slot at the index, the index advances modulo the cache size and the count saturates at the size; the ring invariant is kept |
| Gate.MarkThenSeen | firmware/src/gate_control/gate_control.cpp:59-78 | an id of 1 to 36 characters is reported right after it is marked |
| Gate.LongIdNeverSeen | firmware/src/gate_control/gate_control.cpp:59-78 | an id longer than 36 characters is never reported, even right after it is marked |
| Gate.TruncatedPrefixSeen | firmware/src/gate_control/gate_control.cpp:77-78 | marking a long id makes its 36-character prefix count as processed |
| Gate.NullOrEmptyIgnored | firmware/src/gate_control/gate_control.cpp:52-74 | a null or empty id is never reported and marking it changes nothing |
| Gate.EmptyCacheSeesNothing | firmware/src/gate_control/gate_control.cpp:9-17 | after `init()` no id is reported |
| Gate.MarkAll | firmware/src/gate_control/gate_control.cpp:71-93 | marking a run of ids keeps the ring invariant and the cache size |
| Gate.MarkAllCounters | firmware/src/gate_control/gate_control.cpp:87-92 | after a run of non-empty ids the index has advanced by the run length modulo the size and the count is min(count + run, size) |
| Gate.MarkAllPlacement | firmware/src/gate_control/gate_control.cpp:77-87 | each of the last `size` ids of a run sits, truncated, in the slot the index pointed at when it was marked |
| Gate.OldIdsEvicted | firmware/src/gate_control/gate_control.cpp:77-92 | after `size` later non-empty ids, an id that none of them equals is no longer reported |
| Gate.GateControl.constructor | firmware/src/gate_control/gate_control.cpp:4-7 | starts never opened, with an empty cache of the given size |
| Gate.GateControl.Init | firmware/src/gate_control/gate_control.cpp:9-20 | clears the cooldown and empties every slot; the slot-clearing loop is proved against EmptyCache |
| Gate.GateControl.CanExecuteNow | firmware/src/gate_control/gate_control.cpp:22-40 | never opened means allowed with 0 remaining; otherwise allowed iff the wrapped 32-bit elapsed time reaches the cooldown, with remaining = cooldown - elapsed when refused; nothing changes |
| Gate.GateControl.RecordOpen | firmware/src/gate_control/gate_control.cpp:42-49 | only `lastOpenAtMs` changes, to now |
| Gate.GateControl.WasProcessed | firmware/src/gate_control/gate_control.cpp:51-69 | the scan over the written slots answers exactly Seen of the cache |
| Gate.GateControl.MarkProcessed | firmware/src/gate_control/gate_control.cpp:71-93 | the cache becomes MarkStep of the old cache; the cooldown is untouched |
| Diag.Pos | firmware/src/util/DiagnosticLog.cpp:52-53 | the slot of the i-th oldest entry, (head + MAX - count + i) mod MAX, lies inside the ring |
| Diag.EmptyLog | firmware/src/util/DiagnosticLog.cpp:64-69 | the cleared log has head 0 and count 0 and satisfies the ring invariant |
| Diag.MakeEntry | firmware/src/util/DiagnosticLog.cpp:21-31 | the stored event is a prefix of at most `DIAG_EVENT_LEN`-1 characters, the message a prefix of at most `DIAG_MESSAGE_LEN`-1, an absent message is empty |
| Diag.LogAppend | firmware/src/util/DiagnosticLog.cpp:33-37 | append keeps the ring invariant and makes the count min(count + 1, MAX) |
| Diag.AppendView | firmware/src/util/DiagnosticLog.cpp:33-53 | below capacity the new entry is added as the newest; when full the oldest is dropped and the view shifts by one |
| Diag.LogRemoveFirst | firmware/src/util/DiagnosticLog.cpp:71-78 | removing at least `count` entries clears the log; fewer lowers the count by n and keeps the head |
| Diag.RemoveFirstView | firmware/src/util/DiagnosticLog.cpp:71-78 | the survivors are the former entries n..count-1, in order, or none |
| Diag.LoadCountersAsWritten | firmware/src/util/DiagnosticLog.cpp:87-98 | as written, `load()` caps the count at MAX and sets the head equal to it |
| Diag.LoadAsWrittenOverrunsWhenFull | firmware/src/util/DiagnosticLog.cpp:33-98 | from a full stored log the head as written is MAX, outside the ring, so the next append would write `entries_[MAX]` |
| Diag.LoadCounters | firmware/src/util/DiagnosticLog.cpp:87-98 | corrected: the same count, with the head wrapped into the ring (equal to the count below capacity) |
| Diag.Loaded | firmware/src/util/DiagnosticLog.cpp:84-99 | the rebuilt log satisfies the ring invariant |
| Diag.LoadedView | firmware/src/util/DiagnosticLog.cpp:87-112 | with the head wrapped, the loaded log reads back exactly the stored entries, oldest first, as `save()` wrote them |
| Diag.DiagnosticLog.constructor | firmware/src/util/DiagnosticLog.cpp:12-16 | zeroes the ring and then loads: empty if storage cannot be opened, otherwise the loaded log |
| Diag.DiagnosticLog.Append | firmware/src/util/DiagnosticLog.cpp:18-39 | a null event changes nothing; otherwise the log becomes LogAppend of the built entry |
| Diag.DiagnosticLog.GetEntryCount | firmware/src/util/DiagnosticLog.cpp:41-43 | reports the count |
| Diag.DiagnosticLog.GetEntry | firmware/src/util/DiagnosticLog.cpp:45-62 | succeeds iff the index is below the count and every output buffer exists; then returns the index-th oldest entry with its strings cut to the buffers; non-zero buffer lengths are demanded only on that success path, where `eventLen - 1` and `messageLen - 1` are used |
| Diag.DiagnosticLog.Clear | firmware/src/util/DiagnosticLog.cpp:64-69 | the log becomes the empty log (count 0, head 0, zeroed slots) |
| Diag.DiagnosticLog.RemoveFirst | firmware/src/util/DiagnosticLog.cpp:71-78 | the log becomes LogRemoveFirst of the old one |
| Diag.DiagnosticLog.HasEntries | firmware/src/util/DiagnosticLog.cpp:80-82 | true iff the count is positive |
| Diag.DiagnosticLog.Load | firmware/src/util/DiagnosticLog.cpp:84-99 | unopened storage changes nothing; otherwise the log becomes Loaded from the stored count and entries, with the corrected head |
| Diag.DiagnosticLog.SaveImage | firmware/src/util/DiagnosticLog.cpp:101-114 | the image written is the count and the live entries oldest first |
| Config.Truncate | firmware/src/protocol/Protocol.cpp:40-47 | a bounded copy with a terminating NUL keeps a prefix of at most n characters: all of a short string, exactly n of a long one |
| Protocol.IssuedAtOf | firmware/src/protocol/Protocol.cpp:50-55 | an integer `issuedAt` is kept modulo 2^32: unchanged below 2^32, a negative value wrapped around |
| Protocol.ParseCommand | firmware/src/protocol/Protocol.cpp:4-63 | `valid` equals the result; the result is true iff the document parsed and `requestId`, `command`, `userId` are strings and `issuedAt` is numeric; on success the strings are cut to 36, 15 and 63 characters |
| Protocol.FieldsWithinBuffersSurvive | firmware/src/protocol/Protocol.cpp:40-47 | fields that fit their buffers are copied unchanged; a longer request id keeps its first 36 characters |
| Protocol.IssuedAtWraps | firmware/src/protocol/Protocol.cpp:50-53 | both integer branches reduce `issuedAt` modulo 2^32; -1 becomes 0xFFFFFFFF |
| Protocol.CreateAck | firmware/src/protocol/Protocol.cpp:65-76 | the ACK always starts with `requestId` (null when absent) and `ok` with their values; `errorCode` is present (third, with the given code) iff ok is false and an error code was given |
| Protocol.AckReadsBack | firmware/src/protocol/Protocol.cpp:65-76 | looking each member up by name in the ACK gives back the request id (or null), the `ok` flag, and the error code exactly when the ACK is a failure that names one |
| Protocol.Keys | firmware/src/protocol/Protocol.cpp:78-94 | one member name per member |
| Protocol.CreateStatus | firmware/src/protocol/Protocol.cpp:78-94 | status always starts with the device id (or null), online and the timestamp, with their values; `rssi` is present, fourth and with its value, iff rssi is non-zero; `fwVersion` is present, last and with its value, iff it is non-null |
| Protocol.StatusReadsBack | firmware/src/protocol/Protocol.cpp:78-94 | looking each member up by name in the status document gives back the argument it was built from; `rssi` is found iff non-zero and `fwVersion` iff given |
| JwtStrategy.AuthorizationHeader | backend/src/auth/jwt.strategy.ts:9-11 | the lower-case header wins; the capitalised one is read only when it is absent |
| JwtStrategy.ExtractJwt | backend/src/auth/jwt.strategy.ts:8-24 | an extracted token is non-empty, holds no space, and comes from a present header |
| JwtStrategy.NoUsableHeaderYieldsNull | backend/src/auth/jwt.strategy.ts:13-15 | an absent, non-string (repeated) or empty header yields null |
| JwtStrategy.BearerSchemeHasNoSpace | backend/src/auth/jwt.strategy.ts:19 | a scheme equal to "bearer" in any case is six characters without a space |
| JwtStrategy.ExtractJwtIffBearerForm | backend/src/auth/jwt.strategy.ts:17-23 | the token is extracted exactly when the header is a case-insensitive "bearer", one space, the non-empty token, then nothing or a space and anything |
| JwtStrategy.ExtractedHasBearerForm | backend/src/auth/jwt.strategy.ts:17-23 | every extracted token comes from a header of the Bearer form |
| JwtStrategy.BearerFormIsExtracted | backend/src/auth/jwt.strategy.ts:17-23 | every header of the Bearer form yields its token |
| JwtStrategy.FirstFieldIsToken | backend/src/auth/jwt.strategy.ts:17 | splitting on spaces puts the token first when a space or the end follows it |
| JwtStrategy.TrailingFieldsIgnoredEmptyTokenRejected | backend/src/auth/jwt.strategy.ts:17-23 | fields after the token are ignored, the scheme's case is ignored, and "Bearer" alone or a doubled space yields null |
| JwtStrategy.BearerTokenAccepted | backend/src/auth/jwt.strategy.ts:17-23 | "Bearer token rest" and "bearer token" both yield the token |
| JwtStrategy.DoubleSpaceRejected | backend/src/auth/jwt.strategy.ts:19-21 | a doubled space after the scheme leaves an empty second field, so null |
| JwtStrategy.Validate | backend/src/auth/jwt.strategy.ts:44-50 | sub becomes userId, role and deviceId are copied |
| JwtStrategy.ValidateIsBijective | backend/src/auth/jwt.strategy.ts:44-50 | the mapping loses nothing: distinct payloads give distinct users, and every user comes from its payload |
| AuthController.MeToken | backend/src/auth/auth.controller.ts:93-105 | a token exists iff the header is a non-empty string; a header starting with "bearer " in any case gives the trimmed remainder after 7 characters, any other the whole header trimmed |
| AuthController.Me | backend/src/auth/auth.controller.ts:92-108 | `getMe` receives the request's user id and the token unchanged; no usable header leaves it undefined |
| AuthController.BearerPrefixStripped | backend/src/auth/auth.controller.ts:100-101 | "<bearer in any case> body" gives the trimmed body |
| AuthController.OtherHeaderTrimmedWhole | backend/src/auth/auth.controller.ts:102-103 | any other non-empty header is used whole, trimmed |
| AuthController.AgreesWithStrategyOnPlainBearer | backend/src/auth/auth.controller.ts:100-101 | on a well-formed "Bearer token" header the controller and the strategy read the same token |
| AuthController.StrategyReadsPlainBearer | backend/src/auth/jwt.strategy.ts:17-23 | the strategy reads the token of a plain "<scheme> token" header |
| AuthController.DoubleSpaceReadersDisagree | backend/src/auth/auth.controller.ts:100-101 | on "Bearer  token" the strategy yields null while the controller reads the token |
| AuthController.MeReadsAfterDoubleSpace | backend/src/auth/auth.controller.ts:100-101 | the controller trims away the extra space after the scheme |
| IpExtractor.FirstHop | backend/src/utils/ip-extractor.ts:25 | the first hop of a forwarding chain contains no comma and is no longer than the header |
| IpExtractor.GetClientIp | backend/src/utils/ip-extractor.ts:13-33 | the result is never empty; a non-empty Cloudflare header wins verbatim; then a non-blank first forwarding hop; then the socket address, else "unknown" |
| IpExtractor.FirstHopIsFirstElement | backend/src/utils/ip-extractor.ts:25 | for a chain "a,rest" the first hop is `a` trimmed |
| IpExtractor.BlankFirstHopFallsThrough | backend/src/utils/ip-extractor.ts:26-32 | a blank first element falls through to the socket address even when later elements are not blank |
| GateController.CheckRequestId | backend/src/gate/gate.controller.ts:53-64 | a missing or empty `X-Request-Id` is refused as missing; otherwise it passes, unchanged, exactly when it has the 8-4-4-4-12 hex layout |
| GateController.UuidIsFiveHexGroups | backend/src/gate/gate.controller.ts:60-61 | five hex groups of 8, 4, 4, 4 and 12 digits joined by hyphens pass the check |
| GateController.RequestIdCheckIgnoresCase | backend/src/gate/gate.controller.ts:60-61 | the check ignores letter case: a value passes iff its lower-case form does |
| GateController.CheckAdminKey | backend/src/gate/gate.controller.ts:90-100 | with no configured key (neither setting nor environment) the request is refused as not configured; otherwise it passes iff the supplied key is non-empty and equals the expected key |
| GateController.ClampToPage | backend/src/gate/gate.controller.ts:113 | min(max(n, 1), 200) lies in [1, 200] and keeps values already inside |
| GateController.LogsLimit | backend/src/gate/gate.controller.ts:111-114 | the logs limit is 50 when absent or not finite, otherwise the value clamped to [1, 200] |
| GateController.DiagnosticsLimit | backend/src/gate/gate.controller.ts:126 | the diagnostics limit is 50 when absent or when the value is 0 or NaN; a truthy parsed value is clamped to [1, 200] (`ClampToPage` of it) |
| GateController.DiagnosticsSkip | backend/src/gate/gate.controller.ts:127 | the skip is never negative; a positive value is kept; only an infinite one stays infinite |
| GateController.ZeroLimitTreatedDifferently | backend/src/gate/gate.controller.ts:111-126 | a zero limit becomes 1 for the logs but 50 for the diagnostics; an infinite one 50 and 200 respectively |
| UpdateUserDto.ReasonRequired | backend/src/admin/dto/update-user.dto.ts:17-25 | with status `rejected` the reason passes iff it is given and not blank after trimming; with any other or no status it passes |
| UpdateUserDto.ReasonMustBeEmpty | backend/src/admin/dto/update-user.dto.ts:32-40 | with a status other than `rejected` the reason passes iff it is absent, null or blank; with `rejected` or no status it passes |
| UpdateUserDto.AtMostOneReasonValidatorFails | backend/src/admin/dto/update-user.dto.ts:17-84 | the two reason validators never both fail, their guards never both apply, and with no status both pass |
| UpdateUserDto.ReasonFieldValid | backend/src/admin/dto/update-user.dto.ts:80-86 | the field passes when the ANDed conditions (`@IsOptional` and both `@ValidateIf` guards) skip its validators; otherwise iff it is a string both reason validators accept |
| UpdateUserDto.ReasonValidatorsNeverRun | backend/src/admin/dto/update-user.dto.ts:80-86 | the ANDed conditions never all hold, so every request passes the field, even a rejection without a reason that `ReasonRequired` alone refuses and another status with a reason that `ReasonMustBeEmpty` alone refuses |
| UpdateUserDto.PhonePatternShapes | backend/src/admin/dto/update-user.dto.ts:58-62 | an accepted phone is all digits, 9 or 10 long; a 10-digit one starts `05`, a 9-digit one has 2, 3, 4, 8 or 9 after the 0; every 10-digit string of digits starting `05` is accepted |
| UpdateUserDto.ParseStatus | backend/src/admin/dto/update-user.dto.ts:76-78 | a parsed status is one of the four named statuses and its name is the input; anything else is refused |
| UpdateUserDto.StatusNamesRoundTrip | backend/src/admin/dto/update-user.dto.ts:76-78 | each of the four statuses is accepted by its own name; `blocked` is refused |
| Phone.Clean | frontend/src/lib/phone.ts:29-30 | the cleaned text is no longer than the input and contains no whitespace or dash |
| Phone.CleanAppend | frontend/src/lib/phone.ts:30 | cleaning a concatenation is concatenating the cleaned parts |
| Phone.Digits | frontend/src/lib/phone.ts:71-72 | only digits remain, never more than the input, and a string of digits is kept whole |
| Phone.ParsePhone | frontend/src/lib/phone.ts:24-58 | a successful split has a listed mobile or landline prefix and prefix + number is the cleaned input; an empty input or one not starting with 0 after cleaning yields two empty strings, as does every failure |
| Phone.ListedPrefixesSplit | frontend/src/lib/phone.ts:37-55 | on text without separators, a listed mobile prefix splits after three characters and a landline code after two |
| Phone.ParseIgnoresSeparators | frontend/src/lib/phone.ts:29-30 | inserting a space or dash anywhere in a non-empty input does not change the split |
| Phone.ValidatePhoneNumber | frontend/src/lib/phone.ts:66-85 | true iff both parts are given, the prefix is any three characters starting `05` or a landline code, and the number holds exactly seven digits |
| Phone.UnlistedMobilePrefixNotParsed | frontend/src/lib/phone.ts:3-45 | `0561234567` is not split, although `validatePhoneNumber("056", "1234567")` and the server's phone pattern both accept it |
| Phone.ServerPatternParsesAndValidates | frontend/src/lib/phone.ts:24-85 | every number the server's phone pattern accepts, except those starting 056 or 057, is split and the parts validate |
| Phone.UnlistedDigitsNotParsed | frontend/src/lib/phone.ts:3-45 | no string of digits starting `056` or `057` is split: the mobile prefix list skips them and no landline code starts with 5 |
| JsText.LeadingSpaces | backend/src/admin/dto/update-user.dto.ts:22 | the count of whitespace characters opening the text: all counted characters are whitespace and the next one is not |
| JsText.TrailingSpaces | backend/src/admin/dto/update-user.dto.ts:22 | the count of whitespace characters closing the text, with the same maximality |
| JsText.Trim | backend/src/admin/dto/update-user.dto.ts:22 | the result is the contiguous middle of the input that drops exactly the leading and trailing whitespace; it neither starts nor ends with whitespace, and it is empty iff the input is all whitespace |
| JsText.TrimIdempotent | backend/src/auth/auth.controller.ts:101 | trimming twice is trimming once |
| JsText.TrimStripsPadding | backend/src/auth/auth.controller.ts:101 | whitespace around a text that does not itself start or end with whitespace is removed, and nothing else |
| JsText.IndexOf | backend/src/auth/jwt.strategy.ts:17 | the first position of the character, or none iff it does not occur |
| JsText.Split | backend/src/auth/jwt.strategy.ts:17 | at least one field, no field holds the separator, and joining the fields with the separator gives back the input |
| JsText.SplitJoin | backend/src/auth/jwt.strategy.ts:17 | splitting undoes joining whenever no field holds the separator |
| JsText.SplitCons | backend/src/utils/ip-extractor.ts:25 | splitting after a separator-free field peels that field off first |
| JsText.ToLowerAscii | backend/src/auth/jwt.strategy.ts:19 | same length; upper-case ASCII letters become lower case and every other character is kept |
| JsText.ToLowerIdempotent | backend/src/auth/jwt.strategy.ts:19 | lower-casing is idempotent and keeps an all-lower-case word |
| JsText.LowerMatchesCaseInsensitively | backend/src/auth/jwt.strategy.ts:19 | a text lower-cases to a lower-case word iff it is that word with any of its letters capitalised |
| Users.FindFirst | backend/src/users/users.service.ts:27-37 | the first record whose e-mail (or id) equals the key, or none iff no record has it |
| EmailService.HebrewOfConcat | backend/src/email/email.service.ts:49-52 | a concatenation holds a Hebrew letter iff one of its parts does |
| EmailService.TrimKeepsHebrew | backend/src/email/email.service.ts:60 | trimming keeps every Hebrew letter |
| EmailService.FormatFullName | backend/src/email/email.service.ts:59-70 | the joined, trimmed name always appears whole; it is wrapped in a left-to-right span exactly when it holds no Hebrew letter |
| EmailService.JoinsWithOneSpace | backend/src/email/email.service.ts:60 | names without surrounding whitespace are joined by exactly one space; an empty last name leaves the first name alone |
| AuthService.RegisterStep | backend/src/auth/auth.service.ts:54-71 | registration fails with a bad request, changing nothing, iff the lower-cased e-mail is already stored; otherwise exactly one record is appended: that lower-cased e-mail, pending, role user, not approved, no active device |
| AuthService.NewUser | backend/src/auth/auth.service.ts:64-67 | the created record keeps the given id, e-mail and hash and takes the defaults: role user, status pending, not approved, no active device, no reason and no timestamps |
| AuthService.EmailKey | backend/src/users/schemas/user.schema.ts:22 | the stored and looked-up key of an address has the address's length |
| AuthService.EmailKeyIsLowerCase | backend/src/users/schemas/user.schema.ts:22 | the key is the address lower-cased, and lower-casing a key changes nothing |
| AuthService.EmailCaseIgnored | backend/src/users/schemas/user.schema.ts:22 | two spellings of an address that differ only in letter case are one account: after one registers, the other is refused, and both log in alike |
| AuthService.RegisterKeepsEmailsUnique | backend/src/auth/auth.service.ts:54-71 | registration keeps stored e-mail addresses pairwise distinct |
| AuthService.LoginStep | backend/src/auth/auth.service.ts:73-116 | a refused login changes nothing, and no login adds or removes records |
| AuthService.BadCredentialsIndistinguishable | backend/src/auth/auth.service.ts:78-89 | an unknown e-mail and a wrong password give the same 401 and leave the store as it was |
| AuthService.LoginOutcomes | backend/src/auth/auth.service.ts:87-116 | forbidden iff the password matches but the user is not approved; conflict iff approved and another device is active; a success makes this device the active one, rewrites only the user's own record (and stores nothing when the device was already active), and signs the user's id, role and the device into the token |
| AuthService.SecondDeviceRefused | backend/src/auth/auth.service.ts:95-99 | after a login from one device, a login from a different device is refused with a conflict |
| AuthService.LogoutStep | backend/src/auth/auth.service.ts:163-183 | a refused logout changes nothing, and no logout adds or removes records |
| AuthService.LogoutOutcomes | backend/src/auth/auth.service.ts:170-182 | for a found user, logout succeeds iff this device is the active one, and then clears only that user's active device |
| AuthService.LogoutFreesTheAccount | backend/src/auth/auth.service.ts:95-183 | with unique ids, after logging in from one device and logging out from it, a login from any device succeeds |
| AuthService.UniqueIdFound | backend/src/users/users.service.ts:35-37 | with unique ids, a lookup by a record's id finds that record |
| AuthService.SameKeysSameFind | backend/src/users/users.service.ts:27-37 | rewriting one record without changing its e-mail or id leaves every lookup's answer unchanged |
| AuthService.TokenInfoAt | backend/src/auth/auth.service.ts:128-160 | token info exists iff a token was sent and its `exp` claim is a number; then it carries that claim, a non-negative remaining time that is zero iff the expiry has passed and otherwise the difference, and whole seconds that floor it |
| AuthService.RemainingTime | backend/src/auth/auth.service.ts:146-150 | at a whole second the seconds left are the claim minus the current Unix time, or zero; later moments never leave more time |
| AuthService.AuthService.constructor | backend/src/auth/auth.service.ts:54-71 | starts from the given user store |
| AuthService.AuthService.Register | backend/src/auth/auth.service.ts:54-71 | answers and updates the store as `RegisterStep` |
| AuthService.AuthService.Login | backend/src/auth/auth.service.ts:73-116 | answers and updates the store as `LoginStep` |
| AuthService.AuthService.Logout | backend/src/auth/auth.service.ts:163-183 | answers and updates the store as `LogoutStep` |
| ApprovedGuard.CanActivate | backend/src/auth/approved.guard.ts:26-69 | no authenticated user is refused with 401 first, then a user id not in the store; a 403 always carries the message of the stored status |
| ApprovedGuard.FoundUserDecision | backend/src/auth/approved.guard.ts:42-68 | an admin by token or by record always passes; anyone else passes iff the stored status is approved and the record's active device is the token's; a non-approved status is refused with 403 before the device is checked; an approved user is refused only with 401 |
| ApprovedGuard.StatusMessagesDistinct | backend/src/auth/approved.guard.ts:48-57 | pending, rejected and archived get three distinct messages; any other stored status gets the generic one |
| ApprovedGuard.LoginTokenAdmitted | backend/src/auth/approved.guard.ts:26-69 | with unique ids, the token a successful login issues passes the guard iff the user is an admin or the stored status is approved, although login itself checked only the `approved` flag |
| ApprovedGuard.LogoutRevokesToken | backend/src/auth/approved.guard.ts:60-62 | after a successful logout, an approved non-admin's token is refused as not signed in |
| ApprovedGuard.AdminGuard | backend/src/auth/admin.guard.ts:22-34 | passes iff there is an authenticated user whose token role is admin; no user gives 401 |
| ApprovedGuard.AdminGuardStricter | backend/src/auth/admin.guard.ts:22-34 | whoever passes the admin guard also passes the approval guard while the account exists |
| NavigationGuard.RedirectFor | frontend/src/components/NavigationGuard.tsx:12-59 | nothing happens until auth has settled; every redirect goes to the login page, the pending page or home, never to the current path |
| NavigationGuard.RendersChildren | frontend/src/components/NavigationGuard.tsx:64-89 | nothing is rendered until auth has settled |
| NavigationGuard.SignedOutRule | frontend/src/components/NavigationGuard.tsx:18-24 | signed out, only the login and registration pages stay; every other path is sent to the login page |
| NavigationGuard.NotApprovedRules | frontend/src/components/NavigationGuard.tsx:26-40 | a rejected or archived user is sent to the login page from anywhere else; any other non-approved user to the pending page |
| NavigationGuard.ApprovedRules | frontend/src/components/NavigationGuard.tsx:42-58 | an approved user is redirected, always home, iff on the pending, login or registration page, or a non-admin on an admin path |
| NavigationGuard.AdminPathIsSegmentPrefix | frontend/src/components/NavigationGuard.tsx:51 | `/admin` and everything under `/admin/` are admin paths; `/administrator` is not |
| NavigationGuard.RedirectTargetIsStable | frontend/src/components/NavigationGuard.tsx:12-59 | at the target of a redirect the guard leaves the route alone |
| NavigationGuard.RenderMatchesRedirect | frontend/src/components/NavigationGuard.tsx:64-89 | for signed-out and non-approved users the children render iff no redirect is issued; an approved user always gets them |
| AdminPage.GetPageNumbers | frontend/src/app/admin/AdminPageContent.tsx:24-57 | the entries pushed one at a time, loops included, are exactly the window `PageWindow` describes |
| AdminPage.PageWindowShape | frontend/src/app/admin/AdminPageContent.tsx:24-57 | up to seven pages all are listed in order; beyond that the bar has seven entries from page 1 to the last page; page numbers strictly increase, each ellipsis sits between two links and stands for at least one page, adjacent links are consecutive, and the current page (when in range) is shown |
| AdminPage.GapsMarkedIncreasing | frontend/src/app/admin/AdminPageContent.tsx:24-57 | a bar whose gaps are all marked has strictly increasing page numbers |
| AdminPage.PageWindowCoversAllPages | frontend/src/app/admin/AdminPageContent.tsx:24-57 | every page from 1 to the last is either listed or inside the range one ellipsis stands for |
| AdminPage.HandleSort | frontend/src/app/admin/AdminPageContent.tsx:729-739 | the clicked column becomes the sort column and the page returns to 1; the same column flips the direction; a new column sorts descending iff it is the creation date |
| AdminPage.SortTwiceRestoresOrder | frontend/src/app/admin/AdminPageContent.tsx:729-739 | clicking the same column twice restores the direction; any second click on the same column flips the direction again |
| RelativeTime.FloorDiv | frontend/src/lib/time.ts:10-13 | the quotient q satisfies q * b <= a < q * b + b, the meaning of `Math.floor(a / b)` for b > 0 |
| RelativeTime.NestedFloor | frontend/src/lib/time.ts:10-13 | flooring by b and then by c is flooring once by b * c |
| RelativeTime.FormatRelativeTime | frontend/src/lib/time.ts:6-39 | "a moment ago" iff less than a minute has passed (the future included); minutes, hours and days ago carry the count n with n units <= the difference < n + 1 units, 1..59 minutes, 1..23 hours, 1..6 days; the date iff at least a week has passed |
| RelativeTime.BucketsMonotone | frontend/src/lib/time.ts:15-38 | a larger difference never selects a finer unit, nor a smaller count within the same unit |
| RelativeTime.FutureIsJustNow | frontend/src/lib/time.ts:15-17 | a timestamp in the future reads as "a moment ago" |
| AdminService.BuildFilter | backend/src/admin/admin.service.ts:101-126 | a `$or` search appears only for status `all`; an `$and` excludes both the top-level `$or` and the top-level status |
| AdminService.FilterMeaning | backend/src/admin/admin.service.ts:101-126 | the filter selects a user iff the user has the requested status (any, for `all`) and, when a search is given, the search matches the e-mail, phone, first or last name |
| AdminService.CeilDiv | backend/src/admin/admin.service.ts:131 | the smallest count of pages of the given size that holds all the users: n pages hold them, n - 1 do not |
| AdminService.GetUsersPaging | backend/src/admin/admin.service.ts:93-131 | for a valid query the skip is non-negative, the page size lies in 1..100, the pages hold every matching user, and there are no pages iff nothing matches |
| AdminService.DefaultQuery | backend/src/admin/admin.service.ts:94-99 | with no parameters the filter is status pending, the skip 0 and the page size 20 |
| AdminService.LastPageHoldsTheTail | backend/src/admin/admin.service.ts:129-131 | with matches, the last page is non-empty and the pages after it are empty; the skip is (page - 1) times the page size |
| AdminService.PatchOf | backend/src/admin/admin.service.ts:244-258 | a field is set iff the request sends it, and then to the sent value |
| AdminService.BuildUpdateData | backend/src/admin/admin.service.ts:241-315 | refused with bad request (reason required) iff the record would end up rejected without a reason that has text; otherwise the profile fields and the status are set exactly as sent |
| AdminService.EditPreservesConsistency | backend/src/admin/admin.service.ts:260-315 | an edit that goes through keeps a consistent record consistent: only rejected users carry a reason with text; approved users have an approval time and no rejection time, rejected users the reverse; users whose status signs out have no active device |
| AdminService.EditStatusRules | backend/src/admin/admin.service.ts:260-283 | entering approved stamps the approval time and clears the rejection time; entering rejected does the reverse; a repeated or absent status leaves both alone; rejected, archived and pending clear the active device, other statuses keep it; unsent fields, id, e-mail, hash, role and the e-mail time are kept |
| AdminService.EditReasonRules | backend/src/admin/admin.service.ts:285-315 | under status rejected the sent reason is stored; any other status clears it; with no status a sent reason is stored only when the record is rejected and is cleared otherwise; an absent reason is kept |
| AdminService.UpdateStep | backend/src/admin/admin.service.ts:214-383 | no record is added or removed, and an unknown user changes nothing |
| AdminService.UpdateTouchesOneRecord | backend/src/admin/admin.service.ts:274-325 | only the edited record changes, the stored record is the one returned, and a rejection refused for a missing reason has still signed the user out |
| AdminService.ApprovalEmailOnce | backend/src/admin/admin.service.ts:327-346 | the approval e-mail is attempted iff the status moves into approved and no e-mail time is stored; a successful send stamps the time; without an attempt the time is unchanged |
| AdminService.ReapprovalSendsNoSecondEmail | backend/src/admin/admin.service.ts:327-346 | with unique ids, approve, reject with a reason, approve again: both approvals go through and the second sends no e-mail |
| AdminService.SameIdsSameFind | backend/src/admin/admin.service.ts:235 | rewriting one record without changing its id leaves every lookup by id unchanged |
| AdminService.ResetPasswordStep | backend/src/admin/admin.service.ts:435-497 | a mismatched confirmation is refused before the lookup; otherwise it succeeds iff the user exists, storing the new hash and clearing the session in that record only; a refusal changes nothing |
| AdminService.SendApprovalEmailStep | backend/src/admin/admin.service.ts:654-678 | succeeds iff the user exists, is approved and the mailer succeeds; a user who is not approved gets a bad request; success stamps the e-mail time on that record only; a failure changes nothing |
| AdminService.PendingFrom | backend/src/admin/admin.service.ts:598-603 | at most the limit, each a position of a pending user, strictly increasing |
| AdminService.PendingComplete | backend/src/admin/admin.service.ts:598-603 | when fewer positions than the limit come back, every pending user is among them |
| AdminService.ApproveOne | backend/src/admin/admin.service.ts:610-639 | a failed status update leaves the user as it was; otherwise the user is approved now with no rejection time; id, e-mail and reason are kept |
| AdminService.CountBounds | backend/src/admin/admin.service.ts:605-641 | the count equals the number processed when every call goes through, and is 0 when every status update fails |
| AdminService.ApproveAllLeavesNonePending | backend/src/admin/admin.service.ts:597-652 | with fewer than 10000 pending users and every update and session clear succeeding, no user is left pending, and each formerly pending user is approved and signed out |
| AdminService.ApprovedAtStep | backend/src/admin/admin.service.ts:609-649 | processing one more unprocessed position rewrites exactly that record |
| AdminService.AdminService.constructor | backend/src/admin/admin.service.ts:93-131 | starts from the given user store |
| AdminService.AdminService.UpdateUser | backend/src/admin/admin.service.ts:214-383 | answers and updates the store as `UpdateStep` |
| AdminService.AdminService.ResetPassword | backend/src/admin/admin.service.ts:435-497 | answers and updates the store as `ResetPasswordStep` |
| AdminService.AdminService.SendApprovalEmail | backend/src/admin/admin.service.ts:654-678 | answers and updates the store as `SendApprovalEmailStep` |
| AdminService.AdminService.ApproveAllPendingUsers | backend/src/admin/admin.service.ts:597-652 | the loop over the fetched pending users leaves the store as `ApprovedAt` over all of them and returns `CountCounted`, the number whose store calls all went through |

Members without a row are helpers of the rows above: the predicates and small functions they are stated with, and these:
- `Phone.SplitPrefix`, which cuts a number into prefix and subscriber part for `Phone.ParsePhone`;
- `GateController.IsUuid`, the pattern behind the request-id check;
- `UpdateUserDto.MatchesPhonePattern`, the update request's phone pattern;
- `AdminService.Apply`, `AdminService.ApprovedAt` and `AdminService.CountCounted`, which describe the approve-all loop's store and count;
- `Protocol.Lookup`, `Protocol.LookupFinds` and `Protocol.LookupMisses`, which read a built document back by member name;
- `AuthService.LowerLetter`, one letter of `AuthService.EmailKey`.

## Left out

- Hardware I/O is not modelled. This covers GPIO and UART sequencing, `delay`/`yield`, serial flushing and logging in `ModemManager`, and the relay pulse. The bytes the modem sends and the result of each `sendATCommand` are parameters.
- PubSubClient and WiFiClient are not modelled. Their `connect`, `subscribe`, `loop`, `state` and `publish` answers are parameters. The random client id is left out.
- The modem-native MQTT interface declared only in `MqttManager.h` has no implementation, so it is not modelled.
- JSON text is not modelled: ArduinoJson parsing and serialisation, and the cast of a floating-point `issuedAt`. A command arrives as an already parsed document, and an integer `issuedAt` keeps its value modulo 2^32.
- NVS `Preferences` persistence of the diagnostic log is left out. Only the count/head rebuild in `load()` and the oldest-first image `save()` writes are modelled.
- The Mongo queries are not modelled. `getUsers` is modelled as the filter it builds and its paging arithmetic. The regular-expression search is a parameter, and so are running the query and mapping the response.
- The session-field migration inside `getUsers` is left out. It only affects old records.
- `updateUser` sent a `status` of null is not modelled. The status is either absent or one of the enum's values.
- `updateUser` answering NotFound because the user was deleted between the lookup and the write is not modelled. That needs concurrent store access.
- `updateUserRole` and `resetUserDevice` are not modelled. They are not part of the rules modelled here.
- bcrypt hashing and comparison, JWT signing, verification and decoding, and nodemailer with its template loading are not modelled. They are parameters: a password-match function, the decoded `exp`, and an e-mail success flag.
- `AuthController.login` reads a refresh token that `AuthService.login` never returns. That plumbing is not modelled.
- `JsText.ToLowerAscii`: lower-cases ASCII letters only, unlike the full Unicode `toLowerCase`. This is enough to decide equality with `bearer`.
- `JsText.Trim`: treats as whitespace the ECMAScript white-space and line-terminator characters of the Basic Multilingual Plane only.
- The locale-formatted date that `formatRelativeTime` shows for a week or more is only represented by its timestamp (`RelativeTime.DateOf`).
- Ppp.PppManager.WaitForPppUp: the IP check is a parameter `ipAssigned`, so the method is proved for any check result; its contract states the source's check (which returns `pppUp`) as the case `ipAssigned == CheckIpAssigned(old(State()))`. Computing the check inside the method leaves a branch that can never run, which the model avoids.
- RelativeTime.FormatRelativeTime: takes the timestamp in milliseconds only. The ISO-string form, read with `new Date(...)`, is not modelled, nor the NaN an unreadable date gives, which fails every bucket's test and reaches the date branch, where it prints `Invalid Date`.
- AuthService.TokenInfoAt: the `expiresAtIso` string is not modelled, nor the RangeError `toISOString` throws for an `exp` outside the representable date range.
- AuthService.EmailKey: lower-cases ASCII letters only, where the schema's `lowercase` option applies the full Unicode `toLowerCase`.
- AuthService.NewUser: the schema in `user.schema.ts` also declares a required `name` and an `authProvider` defaulting to `local`; the record holds only the fields the modelled services read.
- Concurrency and timers are not modelled. This covers the MQTT gate-device service, the terminal gateway and the simulators.
- React rendering, the other UI components, themes and the fetch wrapper are not modelled.

## Findings

| source | as written | input that shows it | evidently intended | confidence | as-written member | corrected member |
|---|---|---|---|---|---|---|
| firmware/src/util/DiagnosticLog.cpp:98 | `load()` sets `head_ = count_` after capping the count at `DIAGNOSTIC_LOG_MAX_ENTRIES` | a stored count equal to the capacity: the head becomes MAX, so the next `append` writes `entries_[MAX]`, one past the ring (line 33) | the head wrapped into the ring, `count_ % DIAGNOSTIC_LOG_MAX_ENTRIES`, so a reloaded log reads back the saved entries oldest first | high, not executed | Diag.LoadAsWrittenOverrunsWhenFull | Diag.LoadedView |
