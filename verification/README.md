# SCA smart key: a verified model

The smart key opens a door after four checks in order: a BLE connection, an NFC
tap, a UWB reading close enough and not suspicious, and an HMAC answer to a fresh
challenge. This project models the firmware that decides this, and the desktop
simulator that mirrors it, and proves what they promise over every run.

| file | what it holds |
|---|---|
| `Clock.dfy` | the 32-bit millisecond counter; when its comparisons agree with true time |
| `Sha256Spec.dfy`, `Constants.dfy`, `Padding.dfy` | SHA-256 as FIPS 180-4 defines it; where its constants come from; its padding |
| `Sha256.dfy`, `Hmac.dfy` | the streaming hash over its buffer and registers; HMAC (RFC 2104); buffer comparison |
| `HashAlgebra.dfy`, `KnownRounds.dfy`, `Rfc4231.dfy` | what the hash's functions do, apart from how they are written; running it on numbers; a known answer |
| `AuthRing.dfy`, `AuthRuns.dfy`, `AuthNonces.dfy`, `AuthEngine.dfy` | the 16-slot nonce ring and the simulator's map; their runs; exactly which nonces must differ; the two engine classes |
| `AccessController.dfy`, `AccessRuns.dfy`, `AccessTimes.dfy`, `AccessAnswers.dfy` | the access state machine; its runs, at any times; what they promise in true time; every answer explained by the history |
| `GpioActuator.dfy`, `ControllerLoop.dfy` | the actuator; the controller task that drives it |
| `Firmware.dfy`, `Binding.dfy`, `Causes.dfy`, `Overflow.dfy`, `FirmwareTasks.dfy` | all tasks and callbacks interleaved over the bounded queue; end-to-end binding; what stands behind each event; a run that breaks the binding; the task bodies as methods |
| `Uwb.dfy` | both anti-relay filters |
| `Vehicle.dfy` | the simulated vehicle on its BLE link |

Objects the source updates in place are classes whose methods are proved to move
a snapshot of their fields exactly as a specification function does; the theorems
are about those functions and about runs of them. Time in a run is true time,
a natural number; the firmware sees it modulo 2^32 through `Clock.Millis`.

## What is proved, and where the code falls short

* **Hash.** Any sequence of updates followed by `Final` gives the FIPS 180-4 hash of
  the concatenation, for every length; both padding endings are the minimal one,
  padding can always be undone, and the length field is right exactly below 2^61
  bytes (`Padding.LengthField`). The tables are the cube and square roots of the
  first primes, as the standard says. Rounds can be run backwards, equal MACs of
  different keys or messages are a SHA-256 collision, and test case 2 of RFC 4231
  comes out as it should.
* **Challenges.** Each is accepted at most once. On a given list of nonces, the ring
  answers every run as the unbounded map does, except for overwritten challenges,
  exactly when no two of one lap of the ring are equal
  (`AuthNonces.RefinesIffLapDistinct`); and it accepts the right answers to the last 16
  challenges, all of them and no others, exactly when no two of any 16 in a row are equal
  (`AuthNonces.AcceptsIffLocallyDistinct`). Every verdict is explained by the history
  (`AuthRuns.VerdictExplained`).
* **State machine.** At any times at all, on any uptime: the failure count is the
  observed streak, LOCKOUT is three failures and ignores every event, and an unlock
  happens exactly after its ordered history of heard events. An event is not heard
  when the clock reads less than the last penalty deadline. True time comes in by
  whether such comparisons read right, `Clock.ReadsRight`: from inside a deadline's own
  2^32 ms epoch they always do, and within one turn of the clock only then. Failures
  are rate-limited and lockouts last 60 s as long as no deadline is taken for passed
  too early; a history of heard events is one of all events as long as penalties
  read right in that attempt. Two runs from boot show what a wrap does otherwise: a
  lockout that ends after one millisecond, and the next failure 3 ms later
  (`AccessTimes.LockoutCutShortByWrap`, `AccessTimes.FailureRateBrokenByWrap`), and an
  unlock after a failed tap that was never heard (`AccessTimes.FailureLostByWrap`).
  Timeouts and the unlock latency only subtract readings and hold on any uptime. A
  relay pulse begun at one instant in 2^32 is never ended by `service`
  (`GpioActuator.PulseStuck`).
* **Whole firmware.** The actuator follows the state in every interleaving; unlocks
  are at most accepted responses, at most challenges, one for each connection. The
  response that unlocks was verified on the connection that opened the attempt if
  and only if the queue lost no disconnect between the two, whatever else it lost
  (`Binding.UnlockBoundToConnection`); `Overflow.OverflowBreaksBinding` is a run from
  boot in which it does, and connection 2 unlocks what connection 1 began.
* **Ranging.** The rate check against the last sample amounts to the speed bound
  between any two samples. It can be relied on exactly when no two timestamps are
  equal (`Uwb.TrustSoundIffIncreasing`).
* **Simulated vehicle.** It grants exactly the honest responses, at most one for each
  connection, and every decision it records has its reason.

Where the code and its own documentation differ, the model follows the code: LOCKED
accepts a BLE connect directly (the README diagram goes through IDLE); LOCKOUT is
entered from the state in which the third failure happens, not from IDLE; UNLOCKED
and LOCKED have no timeout although the header says every state carries one;
`active_nonces` counts unanswered records, not all valid ones.

## Model

| member | source | states |
|---|---|---|
| `Clock.AgeTestExact` | firmware/src/auth_engine.cpp:95 | the wrapped subtraction decides true expiry exactly unless the age has come round to a small residue; always below 2^32 ms |
| `Clock.DeadlineTestExact` | firmware/src/access_controller.cpp:120 | the sum-and-compare test is right if and only if clock and deadline are in one 2^32 ms epoch |
| `Clock.ReadsRightInEpoch` | firmware/src/access_controller.cpp:53 | a deadline reads right from inside its own epoch, and within one turn of the clock only from there |
| `Constants.RoundConstant` | firmware/lib/mbedtls_wrapper/hmac_wrapper.cpp:41-53 | each round constant is the first 32 bits of the fraction of the cube root of its prime, and these are the primes from 2 on with none left out (FIPS 180-4 section 4.2.2) |
| `Constants.InitialHashValue` | firmware/lib/mbedtls_wrapper/hmac_wrapper.cpp:58-61 | each initial word is the first 32 bits of the fraction of the square root of its prime (FIPS 180-4 section 5.3.3) |
| `Sha256Spec.ZeroCount` | firmware/lib/mbedtls_wrapper/hmac_wrapper.cpp:103-111 | the padding uses the fewest zeros that leave eight bytes in the last block |
| `Padding.UnpadPad` | firmware/lib/mbedtls_wrapper/hmac_wrapper.cpp:101-115 | padding can be undone for every message, whatever its length |
| `Padding.PadInjective` | firmware/lib/mbedtls_wrapper/hmac_wrapper.cpp:101-115 | no two messages have one padding |
| `Padding.LengthField` | firmware/lib/mbedtls_wrapper/hmac_wrapper.cpp:112-114 | the length field reads back as the bit length if and only if the message is shorter than 2^61 bytes |
| `Padding.BigEndianRoundTrip` | firmware/lib/mbedtls_wrapper/hmac_wrapper.cpp:113-114 | a big-endian numeral decodes to its number modulo 256^len |
| `Padding.BigEndianAt` | firmware/lib/mbedtls_wrapper/hmac_wrapper.cpp:113-114 | the shifted-out bytes are the digits of the numeral |
| `Padding.WordRoundTrip` | firmware/lib/mbedtls_wrapper/hmac_wrapper.cpp:66-69 | four bytes survive being joined into a word and split again |
| `Padding.PadInOneBlock` | firmware/lib/mbedtls_wrapper/hmac_wrapper.cpp:103-105 | with a tail below 56 bytes the padding completes one block |
| `Padding.PadInTwoBlocks` | firmware/lib/mbedtls_wrapper/hmac_wrapper.cpp:106-111 | with a tail of 56 bytes or more it completes two |
| `Sha256.Sha256Ctx.Init` | firmware/lib/mbedtls_wrapper/hmac_wrapper.cpp:55-62 | the context stands for the empty message |
| `Sha256.Sha256Ctx.ExpandSchedule` | firmware/lib/mbedtls_wrapper/hmac_wrapper.cpp:65-74 | the in-place schedule holds the recursive W of FIPS 180-4 section 6.2.2 |
| `Sha256.WNext` | firmware/lib/mbedtls_wrapper/hmac_wrapper.cpp:73 | the firmware's order of the four terms gives the same word as the standard's |
| `Sha256.Sha256Ctx.Transform` | firmware/lib/mbedtls_wrapper/hmac_wrapper.cpp:64-88 | schedule and rotating registers compute the compression of section 6.2.2 for every state and block |
| `HashAlgebra.SigmasRotate` | firmware/lib/mbedtls_wrapper/hmac_wrapper.cpp:71-81 | the four sigmas are exclusive ors of the word's rotations and shifts by the standard's amounts (FIPS 180-4 section 4.1.2) |
| `HashAlgebra.ChChooses` | firmware/lib/mbedtls_wrapper/hmac_wrapper.cpp:79 | bit by bit Ch takes y's bit where x has one and z's elsewhere |
| `HashAlgebra.MajIsMajority` | firmware/lib/mbedtls_wrapper/hmac_wrapper.cpp:82 | where two words agree Maj agrees with them |
| `HashAlgebra.SumsAdd` | firmware/lib/mbedtls_wrapper/hmac_wrapper.cpp:73-80 | the longer sums add every one of their terms |
| `HashAlgebra.RoundUndone` | firmware/lib/mbedtls_wrapper/hmac_wrapper.cpp:77-85 | a round can be run backwards |
| `HashAlgebra.RoundTakesWord` | firmware/lib/mbedtls_wrapper/hmac_wrapper.cpp:80 | two schedule words that give one result are one word |
| `HashAlgebra.RoundsInjective` | firmware/lib/mbedtls_wrapper/hmac_wrapper.cpp:77-85 | the 64 rounds on a block map different registers to different registers |
| `HashAlgebra.CompressFeedsForward` | firmware/lib/mbedtls_wrapper/hmac_wrapper.cpp:86-87 | what the compression adds to the registers is what 64 rounds make of them |
| `Sha256.Sha256Ctx.Update` | firmware/lib/mbedtls_wrapper/hmac_wrapper.cpp:90-99 | registers, buffer and bit counter keep standing for the whole message fed so far, for any split into calls |
| `Sha256.Sha256Ctx.Absorb` | firmware/lib/mbedtls_wrapper/hmac_wrapper.cpp:91-98 | the same for one byte |
| `Sha256.Sha256Ctx.FillBuffer` | firmware/lib/mbedtls_wrapper/hmac_wrapper.cpp:102-111 | after either ending, one compression with the length field yields the chaining value of the padded message |
| `Sha256.Sha256Ctx.WriteLength` | firmware/lib/mbedtls_wrapper/hmac_wrapper.cpp:113-114 | the last eight bytes are the big-endian numeral of the bit count |
| `Sha256.Sha256Ctx.WriteDigest` | firmware/lib/mbedtls_wrapper/hmac_wrapper.cpp:116-118 | the column-wise stores write the eight words big-endian, and nothing else |
| `Sha256.Sha256Ctx.Final` | firmware/lib/mbedtls_wrapper/hmac_wrapper.cpp:101-119 | the digest is the FIPS 180-4 hash of everything fed in |
| `Sha256.Hash` | firmware/lib/mbedtls_wrapper/hmac_wrapper.cpp:121-126 | the one-shot hash, leaving the rest of the output buffer alone |
| `Hmac.HmacSha256Fallback` | firmware/lib/mbedtls_wrapper/hmac_wrapper.cpp:128-156 | the result is the HMAC of RFC 2104 section 2 for every key and message |
| `Hmac.HmacSha256` | firmware/lib/mbedtls_wrapper/hmac_wrapper.cpp:163-174 | in a build without mbedTLS, fails exactly on a null pointer and then writes nothing |
| `Hmac.SameBlockKey` | firmware/lib/mbedtls_wrapper/hmac_wrapper.cpp:130-137 | two keys of at most a block are one key if and only if one is the other with zeros after it |
| `Hmac.ZeroExtendedKey` | firmware/lib/mbedtls_wrapper/hmac_wrapper.cpp:130-137 | zero-extending a key up to a block leaves every MAC unchanged |
| `Hmac.HashedKey` | firmware/lib/mbedtls_wrapper/hmac_wrapper.cpp:133-134 | a key longer than a block may be replaced by its hash |
| `Hmac.XorAllUndone` | firmware/lib/mbedtls_wrapper/hmac_wrapper.cpp:138-142 | padding a key loses nothing: padding again gives it back |
| `Hmac.PadsDiffer` | firmware/lib/mbedtls_wrapper/hmac_wrapper.cpp:138-142 | inner and outer padded key differ in every byte |
| `Hmac.EqualMacsCollide` | firmware/lib/mbedtls_wrapper/hmac_wrapper.cpp:128-156 | one MAC for two different block keys or messages yields two different strings with one SHA-256 |
| `Rfc4231.KnownMac` | tests/test_auth.cpp:43-57 | the HMAC of "what do ya want for nothing?" under "Jefe" is the one the test expects |
| `Hmac.ConstantTimeEqual` | firmware/lib/mbedtls_wrapper/hmac_wrapper.cpp:176-181 | the accumulated difference decides equality of the buffers |
| `AuthEngine.AuthEngine.SetTestRng` | firmware/src/auth_engine.cpp:26-29 | the generator starts from the seed, or from 1 when that is 0 |
| `AuthEngine.AuthEngine.FillRandom` | firmware/src/auth_engine.cpp:41-51 | the buffer holds the low bytes of successive generator outputs |
| `AuthEngine.RandByteAt` | firmware/src/auth_engine.cpp:41-51 | byte i is output i + 1 of the generator modulo 256 |
| `AuthEngine.NextRandUndone` | firmware/src/auth_engine.cpp:31-39 | the generator's step can be undone, so it never merges two states |
| `AuthEngine.NextRandStandsStill` | firmware/src/auth_engine.cpp:26-39 | it stands still exactly at 0, which seeding avoids |
| `AuthEngine.AuthEngine.NewChallenge` | firmware/src/auth_engine.cpp:53-68 | issues the returned nonce into the next slot of the ring, or changes nothing on a null buffer |
| `AuthEngine.AuthEngine.Find` | firmware/src/auth_engine.cpp:70-78 | finds the first valid slot with the nonce |
| `AuthEngine.AuthEngine.VerifyResponse` | firmware/src/auth_engine.cpp:80-114 | result and new ring are those of the specification, with the shared-secret HMAC as the expected answer |
| `AuthEngine.AuthEngine.ComputeResponse` | firmware/src/auth_engine.cpp:116-120 | computes the expected MAC |
| `AuthEngine.AuthEngine.ActiveNonces` | firmware/src/auth_engine.cpp:122-128 | counts the unanswered records |
| `AuthEngine.SimAuthEngine.VerifyResponse` | simulator/sca_common.py:157-192 | result and new dictionary are those of the unbounded specification |
| `AuthRing.FindFrom` | firmware/src/auth_engine.cpp:70-78 | the least slot from i on that matches, or none does |
| `AuthRing.RingHoldsLatest` | firmware/src/auth_engine.cpp:57-64 | in every run each slot holds the last challenge to go into it, so the ring holds exactly the last min(n, 16) |
| `AuthRuns.Accounting` | firmware/src/auth_engine.cpp:122-128 | issued = active + accepted + overwritten unanswered, with at most 16 active |
| `AuthRuns.AcceptanceSound` | firmware/src/auth_engine.cpp:80-114 | an acceptance answers one of the last 16 challenges: same nonce, same connection, right MAC, wrapped age at most 60000 ms, not answered before |
| `AuthRuns.AcceptedIsFresh` | firmware/src/auth_engine.cpp:95-97 | an accepted challenge is truly at most 60000 ms old whenever its age is below 2^32 ms |
| `AuthRuns.ConsumedStays` | firmware/src/auth_engine.cpp:88-93 | an accepted challenge stays marked while it is in the ring |
| `AuthRuns.MarkedWasAccepted` | firmware/src/auth_engine.cpp:112 | a marked record was accepted by an earlier call |
| `AuthRuns.SingleUse` | firmware/src/auth_engine.cpp:88-93 | no challenge is accepted twice, in any run, distinct nonces or not |
| `AuthRuns.NonceSingleUse` | firmware/src/auth_engine.cpp:88-93 | with distinct nonces no nonce is accepted twice, even after its slot was overwritten |
| `AuthRuns.AcceptedIffAnswers` | firmware/src/auth_engine.cpp:80-114 | while no two of any 16 challenges in a row share a nonce, a response is accepted if and only if it answers a challenge |
| `AuthRuns.RingRefinesMap` | simulator/sca_common.py:141-192 | while no two challenges of one lap of the ring share a nonce, the ring holds the last 16 challenges, with the map's marks on the last of each nonce, and gives the map's verdict, except UNKNOWN_NONCE for overwritten ones |
| `AuthRuns.VerdictExplained` | firmware/src/auth_engine.cpp:80-114 | exactly which history earns each verdict: no recent challenge, used, too old, other connection, wrong answer, or accepted |
| `AuthNonces.RefinesIffLapDistinct` | firmware/src/auth_engine.cpp:70-78 | for any list of nonces: the verdicts are the map's in every run on them if and only if no two of one lap are equal |
| `AuthNonces.AcceptsIffLocallyDistinct` | firmware/src/auth_engine.cpp:70-78 | for any list of nonces: in every run on them exactly the right answers are accepted if and only if no two of any 16 in a row are equal |
| `AuthNonces.CollisionSplits` | firmware/src/auth_engine.cpp:70-78 | when a challenge repeats the nonce of an earlier one of its lap, the ring refuses its right answer and the map accepts it |
| `AuthNonces.CollisionRefuses` | firmware/src/auth_engine.cpp:70-78 | of two challenges in the ring with one nonce, the one in the higher slot has its right answer refused |
| `AccessController.AccessController.HandleEvent` | firmware/src/access_controller.cpp:39-115 | fields and action after an event are those of the specification |
| `AccessController.AccessController.Tick` | firmware/src/access_controller.cpp:117-140 | the same for a tick |
| `AccessController.AccessController.RegisterFailure` | firmware/src/access_controller.cpp:27-37 | the same for a failure |
| `AccessRuns.LockoutInvariant` | firmware/src/access_controller.cpp:27-50 | at any times: the failure count is the observed streak, LOCKOUT if and only if it is 3, events in LOCKOUT are no-ops, AUTHENTICATED is never visible |
| `AccessRuns.UnlockIffHeard` | firmware/src/access_controller.cpp:57-115 | at any times, a call unlocks if and only if it completes an ordered history of connect, tap, near, verified response, as heard, with nothing that abandons it |
| `AccessAnswers.FailureIffHeard` | firmware/src/access_controller.cpp:70-100 | a failure is registered if and only if a failed tap is heard while an attempt awaits its tap, or a failed response while it awaits its response |
| `AccessAnswers.StateIffHistory` | firmware/src/access_controller.cpp:39-140 | each state holds if and only if the history says so: a stage of an attempt, an open door, a lockout, or nothing under way |
| `AccessAnswers.AnswersExplained` | firmware/src/access_controller.cpp:39-140 | for every call of every run, exactly which history earns each answer |
| `AccessAnswers.AnswerTellsState` | firmware/src/access_controller.cpp:39-140 | an answer tells the state it leaves, entered at that call; no answer means nothing has changed |
| `AccessRuns.StateHasHistory` | firmware/src/access_controller.cpp:57-102 | each intermediate state was reached through its pattern of heard calls |
| `AccessRuns.AuthHistoryGivesState` | firmware/src/access_controller.cpp:87-102 | conversely the pattern puts the controller in that state, entered at that call |
| `AccessRuns.UnlockedUntilLocked` | firmware/src/access_controller.cpp:104-109 | an unlocked door stays so until the first lock request, disconnect or heard far reading, which locks it |
| `AccessTimes.DeadlinesAre` | firmware/src/access_controller.cpp:27-37 | the deadlines kept are the true ones of the last penalty and lockout, modulo 2^32 |
| `AccessTimes.PenaltyMeansWaiting` | firmware/src/access_controller.cpp:34-55 | a truly unserved penalty implies IDLE or LOCKED unless a call since it was set took it for served too early, and a call that reads it right is muted only there |
| `AccessTimes.FirstEpochReads` | firmware/src/access_controller.cpp:53 | every deadline reads right below 2^32 - 60000 ms of uptime |
| `AccessTimes.LockoutHolds` | firmware/src/access_controller.cpp:47-50 | in a lockout every event and every tick that does not read it expired is a no-op |
| `AccessTimes.LockoutEnds` | firmware/src/access_controller.cpp:117-126 | a tick ends it if and only if 60000 ms have truly passed, exactly when the deadline reads right there, and clears the count |
| `AccessTimes.FailureRate` | firmware/src/access_controller.cpp:27-55 | failures since the last unlock: 5000 ms apart, the third after any 70000 ms later, at most 3(T/70000 + 1) in a span of T ms, while since then no deadline is taken for passed too early |
| `AccessTimes.ConnectAcceptedIff` | firmware/src/access_controller.cpp:52-64 | under the same condition a connect is accepted if and only if nothing is under way and the last failure's penalty is truly served, exactly when that deadline reads right |
| `AccessTimes.UnlockTraceSafety` | firmware/src/access_controller.cpp:39-115 | behind every unlock, event by event: the four events in order with no lock request, disconnect or timeout; no failed tap, far reading or failed response either, exactly when none was muted, so whenever penalties read right from the connect on |
| `AccessTimes.HistoryIsHeard` | firmware/src/access_controller.cpp:52-55 | while penalties read right from its connect to its end, a history of delivered calls is one of heard calls and conversely |
| `AccessTimes.UnlockIffHistory` | firmware/src/access_controller.cpp:57-115 | while penalties read right from call c on, call u unlocks in the attempt opened at c if and only if it completes an ordered history from c counting every call delivered |
| `AccessTimes.UnlockHasOpener` | firmware/src/access_controller.cpp:57-64 | every unlock has a connect that opened its attempt, the last one accepted |
| `AccessTimes.StageTimeout` | firmware/src/access_controller.cpp:128-139 | a tick abandons a stage if and only if it was entered more than 10000 ms ago, exactly when that age has not come round to a small residue; so for every age below 2^32 ms |
| `AccessTimes.UnlockLatency` | firmware/src/main.cpp:143-154 | on any uptime, with a tick at most d ms before each event and calls less than 2^32 - 10000 - d ms apart, an unlock comes at most 30000 + 3d ms after its connect |
| `AccessTimes.DeadlinesExact` | firmware/src/access_controller.cpp:30-34 | a penalty or lockout is timed correctly if and only if clock and deadline share an epoch |
| `AccessTimes.LockoutCutShortByWrap` | firmware/src/access_controller.cpp:120 | a run from boot across the wrap whose lockout lasts one millisecond |
| `AccessTimes.FailureRateBrokenByWrap` | firmware/src/access_controller.cpp:120 | in that run the next failure comes 3 ms after the lockout began, which breaks the rate bound |
| `AccessTimes.FailureLostByWrap` | firmware/src/access_controller.cpp:53 | a run from boot across the wrap that unlocks although a failed tap was delivered in the attempt, and no history of delivered calls justifies it |
| `GpioActuator.PulseEndExact` | firmware/src/gpio_actuator.cpp:79-86 | exactly when a service call treats a pulse deadline correctly |
| `GpioActuator.PulseStuck` | firmware/src/gpio_actuator.cpp:82 | a deadline that wraps to 0 is never served |
| `ControllerLoop.ApplyAction` | firmware/src/main.cpp:157-170 | each action does to the actuator what the specification says |
| `ControllerLoop.ActuatorFollowsState` | firmware/src/main.cpp:139-170 | in every run of the loop: servo open if and only if UNLOCKED, relay only in UNLOCKED, LED a function of the state |
| `ControllerLoop.LoopIsRun` | firmware/src/main.cpp:143-152 | the loop's controller is a run of the state machine, so the theorems about those apply |
| `ControllerLoop.RelayExact` | firmware/src/gpio_actuator.cpp:56-86 | after an unlock the relay is driven if and only if nothing has locked and no service call has come 500 ms in, while service calls read the deadline right |
| `ControllerLoop.RelayBound` | firmware/src/gpio_actuator.cpp:79-86 | with service calls at most d ms apart, the relay is off less than 500 + d ms after the pulse began |
| `Firmware.UnlocksConserved` | firmware/src/main.cpp:67-155 | in every interleaving, with any drops: unlocks <= AUTH_OK handled <= accepted responses <= challenges the ring issued = connects |
| `Firmware.StepQueue` | firmware/src/main.cpp:67-71 | a step adds to the queue what it sends if there is room, and only a dequeue takes from it |
| `Binding.AlwaysTied` | firmware/src/main.cpp:67-91 | until an overflow, every AUTH_OK ever posted carries the connection open at its place in the stream |
| `Binding.UnlockBoundToConnection` | firmware/src/main.cpp:67-155 | at any times and with any drops, behind an unlock stand the steps that opened a connection, tapped an authorised tag while connected, read a plausible distance below 30 cm and accepted a response; connect and response are one unbroken connection if and only if no disconnect was lost between them, and then the handles agree, the tap was made on it and the controller saw it open throughout |
| `Binding.UnlockHistoryDelivered` | firmware/src/main.cpp:143-150 | while penalties read right from its connect on, the history behind it counts every call delivered |
| `Binding.StreamIs` | firmware/src/main.cpp:67-71 | what got into the queue is what was handled followed by what is queued, in order |
| `Causes.SentExactlyWhen` | firmware/src/main.cpp:67-136 | exactly when each event is sent, for every kind |
| `Causes.TapsApart` | firmware/src/main.cpp:122-136 | one tap per connection: between two that are sent the task saw the link down |
| `Causes.ZonesApart` | firmware/src/main.cpp:102-120 | between two zone events of one kind there is a reading in another zone |
| `Causes.TrackerSawReadings` | firmware/src/main.cpp:109-111 | the filter has seen exactly the readings taken, in order, and is never reset |
| `Causes.ResponseAnswersConnect` | firmware/src/main.cpp:67-91 | an accepted response answers the challenge of a connect with its handle: its nonce's MAC, at a wrapped age of at most 60000 ms |
| `Overflow.OverflowBreaksBinding` | firmware/src/main.cpp:67-71 | a run from boot, for any MAC and nonces: the full queue loses the end of connection 1, and a response verified on connection 2 unlocks its attempt |
| `Binding.FirmwareActuatorFollowsState` | firmware/src/main.cpp:139-170 | the actuator coupling in every interleaving of all tasks |
| `FirmwareTasks.FirmwareTasks.OnConnect` | firmware/src/main.cpp:67-80 | posts the connect and issues one challenge bound to the handle |
| `FirmwareTasks.FirmwareTasks.OnDisconnect` | firmware/src/ble_manager.cpp:126-130 | posts the disconnect of the connection that was open |
| `FirmwareTasks.FirmwareTasks.OnResponse` | firmware/src/main.cpp:82-91 | posts AUTH_OK exactly for an accepted response, with the current connection |
| `FirmwareTasks.FirmwareTasks.UwbPass` | firmware/src/main.cpp:109-120 | posts a zone event only when the zone has changed to NEAR or FAR |
| `FirmwareTasks.FirmwareTasks.NfcPass` | firmware/src/main.cpp:127-136 | one pass of the NFC task is the step that `Causes.SentExactlyWhen` and `Causes.TapsApart` are about |
| `FirmwareTasks.FirmwareTasks.ControllerEvent` | firmware/src/main.cpp:143-150 | handles the oldest event and applies the answer |
| `FirmwareTasks.FirmwareTasks.ControllerTimers` | firmware/src/main.cpp:151-153 | ticks, applies and services |
| `Uwb.UwbManager.PushMeasurement` | firmware/src/uwb_manager.cpp:37-67 | verdict and state after a sample are those of the specification |
| `Uwb.UwbRanger.Push` | simulator/uwb_sim.py:42-92 | the same for the simulator's filter |
| `Uwb.UnsuspectedIffPlausible` | firmware/src/uwb_manager.cpp:37-67 | a session is unsuspected if and only if all times of flight are at most 50 ns and every two samples are within plus or minus 500 cm/s of each other; then all were accepted |
| `Uwb.NearNeedsTime` | firmware/src/uwb_manager.cpp:46-59 | NEAR after a sample at d > 30 cm needs more than 2(d - 30) ms |
| `Uwb.ZoneOfLastSample` | firmware/src/uwb_manager.cpp:61-73 | at any timestamps the zone is the last sample's, below 30 cm NEAR and from 150 cm on FAR, or FAR under suspicion |
| `Uwb.BaselineIs` | firmware/src/uwb_manager.cpp:46-67 | a sample is judged by the last one that was not itself implausible, latched or not |
| `Uwb.SuspicionLatches` | firmware/src/uwb_manager.cpp:61-67 | once suspected, every sample is rejected and the zone is FAR until reset, at any timestamps |
| `Uwb.EqualTimestampsSkipTheCheck` | firmware/src/uwb_manager.cpp:51 | two samples at one instant may jump any distance |
| `Uwb.TrustSoundIffIncreasing` | firmware/src/uwb_manager.cpp:49-59 | for any nondecreasing times within one turn of the clock, every unsuspected session on them is plausible if and only if they strictly increase |
| `Uwb.FiltersAgree` | simulator/uwb_sim.py:42-92 | firmware and simulator give the same verdicts, zone, latch and baseline on every common session whose timestamps never decrease, within one turn of the clock |
| `Vehicle.VehicleServer.ClientWrite` | simulator/vehicle_sim.py:73-95 | decision, lock and dictionary after a write are those of the specification |
| `Vehicle.OneOkPerConnection` | simulator/vehicle_sim.py:51-55 | at most one accepted response per connection over any run, even if nonces collide |
| `Vehicle.DeniedOnceDeniedForever` | simulator/vehicle_sim.py:81-92 | a connection whose accepted response a gate turned down is never granted |
| `Vehicle.UnlockedIffGranted` | simulator/vehicle_sim.py:57-60 | unlocked if and only if something was granted since the last connection ended |
| `Vehicle.GrantIffHonest` | simulator/vehicle_sim.py:73-95 | a write is granted if and only if it is the first right answer, on its own connection, within 60 s, with a standing whitelisted tap and an unsuspected NEAR zone |
| `Vehicle.OneDecisionPerWrite` | simulator/vehicle_sim.py:62-107 | one recorded decision for every write on a connection, and no other |
| `Vehicle.DecisionExplained` | simulator/vehicle_sim.py:73-107 | each decision's verdict and reason, exactly: malformed, refused, no standing tap, relay suspected, not near, or granted |
| `Vehicle.RangerSawRanged` | simulator/vehicle_sim.py:44-107 | the filter has seen exactly the samples ranged since its last reset |

## Left out

- AccessTimes.FailureRate: assumes that since the last unlock no deadline is taken for passed before it is due; `AccessTimes.FailureRateBrokenByWrap` is a run that does and breaks the bound.
- AccessRuns.LockoutInvariant: runs reset the controller once, at boot, as `main.cpp` does; a second `reset` during a lockout would leave the count at 3 outside LOCKOUT.
- ControllerLoop.RelayBound: assumes that service calls read the pulse deadline right; `GpioActuator.PulseEndExact` is the exact condition.
- AuthRuns.RingRefinesMap: assumes that nonces of one lap differ, exactly as needed, and that the clock can tell the ages asked about (`Clock.AgeTestExact`); both engines read one true time in whole milliseconds, and the simulator's floating-point seconds are reals.
- Uwb.UnsuspectedIffPlausible: distances are reals, without float rounding; equal or backward timestamps are outside it.
- Hmac.HmacSha256: input pointers are null or some bytes, so an output buffer that overlaps an input is not captured; the mbedTLS path is not modelled.
- Binding.UnlockBoundToConnection: each callback, each pass of the UWB and NFC tasks and each half of the controller's loop is one atomic step, so a switch between posting a connect and issuing its challenge, or between the NFC task's look at the connection and its post, is not modelled. Tap and zone events carry no connection: nothing says which one they belong to.
- FirmwareTasks.FirmwareTasks.OnConnect: the nonce comes from the host build's generator; the theorems about the firmware let it be any bytes.
- FirmwareTasks.FirmwareTasks.UwbPass: the sample is a parameter where the bench code counts a distance down.
- The nonce, MAC and `has_crypto` fields of queued events, which no task reads.
- BLE advertising, MTU, GATT set-up, notifications, the inactivity timer (its disconnect is a disconnect like any other), FreeRTOS scheduling, pins and servo duty.
- The NFC whitelist of the firmware (the verdict is a parameter), two-way-ranging distance, names for logging: one-branch facts.
- Liveness: a NEAR event may be consumed in a state that ignores it.
- Strength of the MAC, quality of the nonces, timing of the comparison.
- `attack_sim.py`, `full_demo.py`, `phone_sim.py`: particular runs of what is modelled.
