# A verified model of the PlusClouds VM agent

The agent runs inside a virtual machine. It receives commands over NATS, runs the
operations its configuration allows, answers each command with a result, and pushes
telemetry at an interval that can be changed at runtime. `plusclouds-ctl` prints its
metrics for people. This project models the parts of it whose correctness spans several
functions, several goroutines or all inputs, and proves what they are meant to guarantee.
Verify it with `dafny verify dfyconfig.toml`.

| file | models |
|---|---|
| `IntervalHandoff.dfy` | `SetTelemetryInterval` against `telemetryLoop`: two goroutines and a channel of capacity one, as a transition system |
| `DiskSampler.dfy` | `GetDisk`: the sampling state as a class, its I/O rates, and sums over sequential runs |
| `DiskInterleaving.dfy` | `GetDisk` from several goroutines: clock, counters and swap as separate steps |
| `TelemetryFeed.dfy` | `sendTelemetry` and its two subjects, interleaved with the other publishers |
| `Capabilities.dfy` | the operation catalog, the announcement built from it, and `sendCapabilities` |
| `Dispatcher.dfy` | `New`, `Dispatch` and `run`: effects and outcome of each command |
| `CommandHandler.dfy` | the subscription filter, the handler and their wiring, over runs of messages |
| `CommandPath.dfy` | the serial handler on top of the interval hand-off: messages taken and answered while a call may block |
| `Protocol.dfy`, `Uuid.dfy` | envelopes, subjects and publishing; version 4 UUID text (RFC 9562, sections 4 and 5.4) |
| `OsRelease.dfy` | `detectDebianDistro` |
| `NetworkJoin.dfy` | `GetNetwork` |
| `ByteFormat.dfy`, `DurationFormat.dfy` | `formatBytes` and `formatSeconds`, with readers of what they print |
| `Basics.dfy`, `Text.dfy`, `Rounding.dfy`, `Durations.dfy` | 64-bit integers, strings and numerals, binary64 rounding (section 4.3.1 of IEEE 754-2019), `time.Duration` |

## What the model takes as given

- The operating system, gopsutil, systemd and the broker answer arbitrarily: their answers
  are parameters (`DiskCall`, `World`, the `ok` of a publish). JSON decoding is an arbitrary
  partial function; marshalling a result fails only for a float64 that JSON cannot express,
  NaN or an infinity, and so only for `GetMetrics`, `GetCPU`, `GetMemory` and `GetDisk`:
  no other function's result type has a floating-point field. The floats that gopsutil
  returns are arbitrary.
- A clock reading is an integer with zero for the zero time; random bytes are arbitrary.
- `formatBytes` converts to binary64 by rounding to nearest, ties to even. Results about
  printed hours and minutes and reported seconds hold for every rounding that preserves
  order and fixes the multiples of 1/4096 up to 2^53 / 4096 in magnitude, which covers all
  rounding modes of the standard. Each float operation behind an I/O rate is rounded; the
  results about rates hold for every rounding with a relative error of at most some eps,
  itself at most 1/16 (2^-53 for rounding to nearest). That leaves out underflow and overflow, which
  the magnitudes at hand, between 10^-10 and 10^30, do not meet.
- Error texts are structured values; their wording is not modelled.

## Where the code and its documents differ

The model follows the code.

- The comment on `SetTelemetryInterval`, the catalog text and the repository's README give
  five seconds as the smallest interval; the code clamps at one second.
- The comment in `SetTelemetryInterval` calls the send non-blocking. It can block for ever:
  `BlockedReachable` gives a run, `BlockedIffLosesRace` says exactly when, `CallCanBlockIff`
  says for which calls, and `BlockedForEver` shows that nothing resolves it. The serial
  command handler then takes and answers no further message (`StoppedForEver`), and it can
  come to that exactly if `telemetry.set_interval` is allowed (`StopsIffAllowed`).
- An `exec` of a command outside `allowed_commands`, and an allowed operation the agent does
  not know, end as `failed` and not as `rejected` (`DisallowedExecFails`).
- With an empty `allowed_operations` the full catalog is announced while every command is
  rejected (`EmptyListFallback`).

## Properties that hold under a condition only

| property | condition | counterpart |
|---|---|---|
| a call of `SetTelemetryInterval` cannot block | no value is pending when it begins, or the loop has exited | `CallCanBlockIff`, `BlockedReachable` |
| the hand-off can settle from where it is, without a further call | the call is not stuck and the loop has not exited | `SettlesIff`, `ComesToRestIff` |
| a call under way completes | the loop does not take the pending value between the full-channel check and the drain | `BlockedIffLosesRace` |
| the serial command handler never gets stuck | `telemetry.set_interval` is not allowed | `StopsIffAllowed`, `TwoMessagesStop` |
| the reported interval is the requested one | at most 9223372036 seconds: beyond it the product with `time.Second` wraps | `ReportedIffInRange` |
| `formatSeconds` reads back | more than -60 and at most 9223372036 seconds | `FormatSecondsExactlyInRange` |
| a disk call cannot spoil the tiling of the run, for a strict clock and calls in turn before it | no other `GetDisk` call is under way when it begins | `CallCanMissIff`, `CallsInTurnConserve` |
| the disk windows of a given run tile it, for a monotonic clock | no two swaps are taken against the order of clock readings that differ; for a strict clock, the lock is taken in clock order | `TilesIffOnlyTiesCross`, `TilesIffLockFollowsClock`, `LateLockDoesNotTile` |
| reported I/O sums to the growth of the counter | time advances in every window and the counter never goes down; otherwise the difference is stated exactly | `Telescope`, `CrossedReadsWrapAround` |
| everything on the client feed is platform telemetry | no command with a delivered answer gave the feed as its `reply_to` | `WholeFeedIffNoReplyToFeed`, `AnswerReachesFeed` |
| the result echoes the command's id | the floats of its output are finite; that is so for all commands exactly if none of `system.metrics`, `system.cpu`, `system.memory` and `system.disk` is allowed | `OneResultPerAcceptedCommand`, `LosesIdIff`, `CompletedWithoutId`, `OtherOpsEcho` |
| every `apt-get` run that upgrades, under whatever path, follows an `apt-get update` | `exec` is not allowed, or no allowed command has the base name `apt-get` | `UpgradesAloneIff`, `ExecCanUpgradeAlone` |

## Model

| member | source | states |
|---|---|---|
| IntervalHandoff.ConservationAndOrder | internal/publisher/publisher.go:57-115 | over every interleaving, each requested interval is in exactly one of applied, superseded, buffered, received or held by the call; applied and superseded are in-order selections of the requests; whatever was dropped has a later request |
| IntervalHandoff.Convergence | internal/publisher/publisher.go:92-115 | whenever the loop runs, no call is under way and nothing is buffered or unapplied, the ticker runs at what the most recent call returned, or at the startup interval without a call |
| IntervalHandoff.SettlesIff | internal/publisher/publisher.go:57-115 | from every reachable state such a state can be reached without a further call if and only if the call is not stuck and the loop has not exited |
| IntervalHandoff.PeriodAlwaysPositive | internal/publisher/publisher.go:93-107 | the ticker never gets a non-positive period, and never less than a second at runtime, whatever 64-bit duration was asked for |
| IntervalHandoff.RequestedAreCalls | internal/publisher/publisher.go:57-60 | the requests are the arguments of the calls, in order, each raised to one second where it is less |
| IntervalHandoff.SnapshotForEach | internal/publisher/publisher.go:98-112 | over every interleaving the start of the loop, each tick and each applied request lead to exactly one snapshot, sent or being sent |
| IntervalHandoff.TickCanCome | internal/publisher/publisher.go:102-113 | from every state whose loop has not exited a tick can come and its snapshot be sent |
| IntervalHandoff.SelectOffers | internal/publisher/publisher.go:102-113 | the select offers a tick always, a value if there is one and the end after a cancellation; none of them outside the select |
| IntervalHandoff.LoopEndsIff | internal/publisher/publisher.go:102-105 | by itself the loop can come to its end if and only if there has been a cancellation |
| IntervalHandoff.ExitedForEver | internal/publisher/publisher.go:104-105 | after the end nothing is sent or applied any more |
| IntervalHandoff.BlockedIffLosesRace | internal/publisher/publisher.go:63-68 | a call is stuck exactly in the runs in which the loop takes the pending value between the full-channel check and the drain |
| IntervalHandoff.CallCanBlockIff | internal/publisher/publisher.go:63-68 | a call begun in any state can come to be stuck, by some continuation without a further call, if and only if a value is pending and the loop has not exited |
| IntervalHandoff.BlockedReachable | internal/publisher/publisher.go:63-68 | a concrete run to the stuck state, so the call is not non-blocking |
| IntervalHandoff.BlockedForEver | internal/publisher/publisher.go:66 | once stuck, every later step of loop, ticker or shutdown leaves the call stuck and no further request is made |
| IntervalHandoff.ProgressUnlessBlocked | internal/publisher/publisher.go:63-68 | in every reachable state a call under way can take its next step unless it is stuck, and no step if it is |
| IntervalHandoff.CallWithinThreeSteps | internal/publisher/publisher.go:63-69 | however the loop interleaves, a call takes at most three steps of its own and is finished after three |
| IntervalHandoff.CallsAloneComplete | internal/publisher/publisher.go:57-70 | without the loop any finite sequence of calls completes, leaves exactly the last clamped value in the channel and touches neither loop nor ticker |
| IntervalHandoff.QueuedNewest | internal/publisher/publisher.go:57-70 | before the loop's select is reached and after the loop has exited, whatever else happens, no call gets stuck and between calls the channel holds exactly the newest value |
| IntervalHandoff.NeverBlocksWithoutLoop | internal/publisher/publisher.go:63-68 | the same absence of blocking for runs that begin in the middle of a call |
| IntervalHandoff.Clamp | internal/publisher/publisher.go:58-60 | the result is at least a second and at least the argument, and one of the two |
| IntervalHandoff.StartupInterval | internal/publisher/publisher.go:93-96 | always positive: the configured value when that is positive, and thirty seconds otherwise |
| IntervalHandoff.ReportedIffInRange | internal/dispatcher/dispatcher.go:249-258 | for a positive number of seconds the reported applied interval equals the requested one if and only if it is at most 9223372036 |
| DiskSampler.Module.constructor | internal/modules/system/system.go:31-33 | a new module has no baseline |
| DiskSampler.Module.GetDisk | internal/modules/system/system.go:158-227 | on a failed partition listing: the error and an untouched baseline; otherwise the new sample becomes the baseline and one entry is returned for each real partition with readable usage, in order, each float operation rounded |
| DiskSampler.ReportedIff | internal/modules/system/system.go:175-211 | rates are reported exactly when time has advanced since a real previous sample, if only by a nanosecond, and both samples know the device; utilisation lies between 0 and 100 |
| DiskSampler.ElapsedNear | internal/modules/system/system.go:175-178 | the elapsed time the rates are computed with is the nanoseconds between the two clock readings over 10^9, to two roundings |
| DiskSampler.SecondsAre | internal/modules/system/system.go:177 | that quotient, written out, for a difference that fits a Duration |
| DiskSampler.TimeSubIs | internal/modules/system/system.go:177 | the difference itself, saturating at the two limits of a Duration |
| DiskSampler.RatesPerSecond | internal/modules/system/system.go:212-216 | each of the four rates, field by field, is the 64-bit difference of its own counter over those seconds, to five roundings |
| DiskSampler.UtilisationPercent | internal/modules/system/system.go:205-211 | the utilisation is the busy milliseconds of the milliseconds between the readings, in percent, and 100 where that is more |
| DiskSampler.WindowAmountIs | internal/modules/system/system.go:212-216 | for every metric the rate times those seconds gives back the difference of the counters |
| DiskSampler.EntriesOfOne | internal/modules/system/system.go:181-223 | a partition of one of the nineteen pseudo file systems, or with an unreadable usage, has no entry; any other has exactly one, with its own device, mount point, total, used and percentage |
| DiskSampler.EntriesAppend | internal/modules/system/system.go:180-224 | the entries of two lists of partitions are those of the first followed by those of the second |
| DiskSampler.EntriesCarryWindowIO | internal/modules/system/system.go:198-220 | every entry of a call carries the rates of its own device over the window, the device name taken without its /dev/ prefix |
| DiskSampler.ListedHasEntry | internal/modules/system/system.go:181-223 | every partition that is neither pseudo nor unreadable has its entry |
| DiskSampler.FirstCallReportsNothing | internal/modules/system/system.go:155-157 | the first call reports no I/O |
| DiskSampler.Telescope | internal/modules/system/system.go:168-219 | over any chain of samples, rate times the seconds between the clock readings, summed over the reporting windows, is the growth of the counter (last minus first, less the windows in which time did not advance, plus 2^64 for each reported decrease), to five roundings, and exactly so without rounding |
| DiskSampler.GrowthTelescopes | internal/modules/system/system.go:212-218 | the 64-bit differences of the reporting windows add up to that growth exactly |
| DiskSampler.GrowthModulo | internal/modules/system/system.go:212-218 | with time advancing the growth is the counter's own plus a multiple of 2^64, and exactly its own when the counter never decreases |
| DiskSampler.RegularTelescope | internal/modules/system/system.go:212-218 | with time advancing and no decrease the reported sum is the counter's own growth, within the rounding of the rates |
| DiskSampler.ShownIsReported | internal/modules/system/system.go:158-227 | what the replies of a sequential run show for a device is, rounding included, what its chain of samples reports; calls that fail at the partition listing contribute nothing and keep the baseline |
| DiskSampler.SequentialTelescope | internal/modules/system/system.go:158-227 | telescoping for a sequential run, stated on the returned entries |
| DiskSampler.SequentialGrowth | internal/modules/system/system.go:158-227 | the growth behind it, stated on the module's first and last baseline |
| DiskSampler.FreshRun | internal/modules/system/system.go:155-178 | the run of a fresh module sums up like the run that starts at its first sample |
| DiskInterleaving.PairsFormOneChain | internal/modules/system/system.go:164-173 | for every interleaving of clock, counter and swap steps of any number of callers, the (previous, current) pairs form one chain in lock order, each sample made of two readings of the run |
| DiskInterleaving.StandstillReportsNothing | internal/modules/system/system.go:175-199 | a pair that is first, or whose time does not advance, reports no I/O |
| DiskInterleaving.InterleavingIsSequentialInLockOrder | internal/modules/system/system.go:158-227 | the callers together report what one sequential caller would on the samples in lock order |
| DiskInterleaving.CallIsThreeSteps | internal/modules/system/system.go:164-173 | a call that runs by itself takes the three steps of the interleaved model, with the baseline and the window of the sequential call |
| DiskInterleaving.TilesIffAscending | internal/modules/system/system.go:164-178 | windows between consecutive stamps cover each instant exactly once and reach no further if and only if the stamps ascend |
| DiskInterleaving.ClockOrderTiles | internal/modules/system/system.go:164-178 | with a monotonic clock and lock order following clock order the windows of the run tile it |
| DiskInterleaving.TilesIffOnlyTiesCross | internal/modules/system/system.go:164-178 | in every run with a monotonic clock the windows tile the run if and only if all swaps taken against clock order are between equal clock values |
| DiskInterleaving.TilesIffLockFollowsClock | internal/modules/system/system.go:164-178 | in every run with a strictly increasing clock, if and only if the lock is taken in clock order |
| DiskInterleaving.ClocksUsedOnce | internal/modules/system/system.go:164-173 | no clock reading ends up in two pairs, or in a pair and with a caller |
| DiskInterleaving.AgreeingOrdersConserve | internal/modules/system/system.go:164-219 | when the lock is taken in clock order and in counter order and the clock is strict, the windows tile the run and all callers together report the growth of a cumulative counter, within the rounding of the rates |
| DiskInterleaving.CounterOrderConserves | internal/modules/system/system.go:164-219 | with counter order alone no pair sees the counter go down, and what is missing is the growth in windows in which time did not advance |
| DiskInterleaving.OneAtATimeInTurn | internal/modules/system/system.go:158-173 | calls of which each begins while no other is under way take the lock in clock order and in counter order |
| DiskInterleaving.CallsInTurnConserve | internal/modules/system/system.go:158-219 | with a strict clock they tile the run and report the growth of a cumulative counter, within the rounding of the rates |
| DiskInterleaving.OverlapCanCross | internal/modules/system/system.go:164-173 | whenever two calls are under way, in any run, they can finish against clock order without a further call |
| DiskInterleaving.CallCanCrossIff | internal/modules/system/system.go:164-173 | after calls in turn, a call that begins can come to break clock order if and only if another one is under way at that moment |
| DiskInterleaving.CallCanMissIff | internal/modules/system/system.go:164-178 | with a strict clock: the windows can come not to tile the run, if and only if another one is under way |
| DiskInterleaving.LateLockDoesNotTile | internal/modules/system/system.go:164-173 | a run with a strict clock whose lock order breaks clock order: the windows overlap and 200 bytes are reported as 400 |
| DiskInterleaving.CrossedReadsWrapAround | internal/modules/system/system.go:164-173 | a run whose lock order breaks counter order: a pair reports 2^64 - 100 bytes |
| NetworkJoin.GetNetwork | internal/modules/system/system.go:241-282 | the map join returns the nested-loop result: the physical counters in order, each up exactly if the last interface entry of that name carries the flag; either listing's failure is the call's |
| NetworkJoin.Physical | internal/modules/system/system.go:231-261 | exactly the counters whose names are not virtual are kept |
| NetworkJoin.LastEntryDecides | internal/modules/system/system.go:252-276 | an appended entry decides for its own name alone, and an unlisted name is down |
| NetworkJoin.JoinedAppend | internal/modules/system/system.go:257-279 | entries come out in the order of the counters |
| NetworkJoin.JoinedOfOne | internal/modules/system/system.go:257-279 | a virtual counter has no entry; any other has one with its own name, sent and received bytes, and the flag of its last interface entry |
| NetworkJoin.VirtualIff | internal/modules/system/system.go:231-238 | virtual are lo and the names that begin with docker, veth, br-, virbr or vlan |
| ByteFormat.ScaleToUnit | cmd/ctl/main.go:450-454 | for every uint64 from 1024 on the loop ends with div = 1024^(exp+1), div <= b < 1024 div, exp within the unit letters, and no product leaving 64 bits |
| ByteFormat.FormatBytes | cmd/ctl/main.go:445-456 | the text is the count in its unit with one decimal, or plain bytes |
| ByteFormat.ReadBytesText | cmd/ctl/main.go:445-456 | a reader recovers the printed value from the text of every uint64 |
| ByteFormat.FormatBytesMonotone | cmd/ctl/main.go:445-456 | larger counts never read back as smaller ones, across unit boundaries and across binary64 rounding |
| ByteFormat.BoundaryReadsEqual | cmd/ctl/main.go:445-456 | 1048575 prints "1024.0 KB", 1048576 prints "1.0 MB", and both read as the same value |
| ByteFormat.FormatBytesAccuracy | cmd/ctl/main.go:455 | for every count from 1024 on the printed value is within div / 20 plus the conversion's loss, which is at most 1024 bytes |
| ByteFormat.FormatBytesWithinFivePercent | cmd/ctl/main.go:445-456 | for every uint64 the printed value is within 5% of the count, and exact below 1024 |
| ByteFormat.WholeUnitsRoundTrip | cmd/ctl/main.go:450-455 | k whole units print as k, ".0" and the unit |
| ByteFormat.TiesPrintEven | cmd/ctl/main.go:455 | a quotient exactly between two tenths prints with an even last digit, whatever the unit |
| ByteFormat.QuarterKilobyte | cmd/ctl/main.go:455 | 1280 prints "1.2 KB" |
| Rounding.RoundHalfEvenNearest | cmd/ctl/main.go:455 | the %.1f rounding is within half a digit |
| Rounding.RoundHalfEvenTies | cmd/ctl/main.go:455 | and a tie goes to the even neighbour |
| Rounding.ToFloat64Monotone | cmd/ctl/main.go:455 | the conversion to binary64 preserves order across binades |
| Rounding.ToFloat64Nearest | cmd/ctl/main.go:455 | the conversion to binary64 is within half the local spacing |
| Rounding.ToFloat64Ties | cmd/ctl/main.go:455 | the result is a whole number of spacings, and midway between two binary64 numbers the one with the even significand |
| Rounding.UlpIsPower | cmd/ctl/main.go:455 | the spacing is a power of two |
| Rounding.RoundedQuotientTimes | internal/modules/system/system.go:212-218 | a rounded rate, multiplied by the true time, is off by no more than five roundings |
| Text.TrimSpaceOf | internal/dispatcher/dispatcher.go:310 | trimming takes off exactly the surrounding space |
| Text.SpaceIs | internal/dispatcher/dispatcher.go:310 | the characters taken for space, by code point |
| Text.TrimPrefixOf | internal/modules/system/system.go:201 | a prefix is taken off once, and only if it is there |
| Text.ReadNumberOfDecimal | cmd/ctl/main.go:447 | reading undoes %d, whatever non-digit text follows |
| Text.DecimalUnpadded | cmd/ctl/main.go:447 | only zero is printed with a leading zero |
| Durations.InUnitsTruncates | cmd/ctl/main.go:460-462 | truncating Hours(), Minutes() or Seconds() gives the whole units although each float operation rounds, as long as the remainder is below 4095/4096 of the unit |
| Durations.InUnitsTruncatesBelow | cmd/ctl/main.go:460-462 | the same below zero, toward zero |
| Durations.FromSecondsIs | internal/dispatcher/dispatcher.go:253 | the product with time.Second is exact up to 9223372036 seconds either way, and congruent modulo 2^64 beyond |
| DurationFormat.FloatUnitsExact | cmd/ctl/main.go:459-462 | on the whole range of a Duration the float arithmetic yields the exact hours and minutes |
| DurationFormat.FormatSecondsReads | cmd/ctl/main.go:458-467 | reading the printed uptime gives s - s mod 60, with or without the day field |
| DurationFormat.FormatSecondsIs | cmd/ctl/main.go:458-467 | the text from its fields: d days, h hours, m minutes and some seconds print as the numbers d, h and m with their letters, nothing padded, and without the day field if there are no days |
| DurationFormat.FormatSecondsBelowZero | cmd/ctl/main.go:458-467 | below zero hours and minutes carry the sign each, and the days are lost |
| DurationFormat.FormatSecondsInjectiveOnMinutes | cmd/ctl/main.go:458-467 | two durations print the same exactly when they are in the same minute |
| DurationFormat.FormatSecondsExactlyInRange | cmd/ctl/main.go:458-467 | for every int64 s the reading is s truncated to a whole minute if and only if s is more than -60 and at most 9223372036 |
| Uuid.NewUuid | internal/protocol/envelope.go:125-132 | the in-place masks and the five groups give the text of the stamped bytes |
| Uuid.ReadUuidText | internal/protocol/envelope.go:130-131 | a reader recovers the sixteen bytes from the text |
| Uuid.VersionAndVariant | internal/protocol/envelope.go:128-131 | 36 characters, '4' at 14 and one of 8, 9, a, b at 19, for all random bytes |
| Uuid.UuidCarriesRandom | internal/protocol/envelope.go:125-132 | a reader of the text finds each random byte at its place, with version 4 and the variant in the two stamped bytes and their free bits kept |
| Uuid.OnlyHexDigits | internal/protocol/envelope.go:130-131 | hyphens at 8, 13, 18 and 23 only, lower-case hexadecimal digits elsewhere |
| Uuid.UuidInjectiveOnFreeBits | internal/protocol/envelope.go:125-132 | two random inputs print the same exactly when they agree on the 122 free bits |
| OsRelease.DetectDebianDistro | internal/dispatcher/dispatcher.go:302-327 | the scan computes the declarative result from the last assignment of each field; an unreadable file is an error |
| OsRelease.LastAssignmentIs | internal/dispatcher/dispatcher.go:309-317 | the line that counts is the last one whose trimmed form starts with the key, and none if there is no such line |
| OsRelease.LaterAssignmentWins | internal/dispatcher/dispatcher.go:309-317 | an appended assignment overrides the field's earlier ones |
| OsRelease.ValueBetweenQuotes | internal/dispatcher/dispatcher.go:312-316 | a value is what stands after the key between any number of quotes, lower-cased |
| OsRelease.LowerAt | internal/dispatcher/dispatcher.go:312-316 | lower-casing adds 32 to the ASCII capitals and leaves other ASCII alone |
| OsRelease.DecideIs | internal/dispatcher/dispatcher.go:319-326 | which name is returned, for every pair of fields |
| OsRelease.DistroOfFields | internal/dispatcher/dispatcher.go:302-327 | a file that ends in the lines ID_LIKE=x and ID=y is decided by x and y, whatever stands before them |
| OsRelease.IrrelevantLineIgnored | internal/dispatcher/dispatcher.go:309-317 | inserting or deleting a line that assigns neither field changes nothing: as the first line, between two, or as an unterminated last line |
| OsRelease.KeysExclusive | internal/dispatcher/dispatcher.go:311-316 | no line assigns both fields |
| OsRelease.NonEmptyIffDebianFamily | internal/dispatcher/dispatcher.go:319-326 | a distribution is reported if and only if the fields name the Debian family |
| Protocol.NewIsWellFormed | internal/protocol/envelope.go:93-107 | an envelope is built exactly if its payload marshals, and then carries version 1, its type, agent type, sender, payload and time, a version 4 identifier that reads back as the stamped random bytes, and no reply subject |
| Protocol.SubjectsDiffer | internal/nats/client.go:78-91 | an agent's three subjects differ, whatever its identifier |
| Protocol.SubjectsAre | internal/nats/client.go:78-91 | the identifier is the middle of each subject |
| Protocol.Client.constructor | internal/nats/client.go:70-74 | a new client has published nothing |
| Protocol.Client.PublishToSubject | internal/nats/client.go:138-147 | one publish call on the given subject, reporting the broker's answer |
| Protocol.Client.Publish | internal/nats/client.go:133-135 | the same on the evt subject |
| TelemetryFeed.SendTelemetry | internal/publisher/publisher.go:317-347 | nothing for a failed collection or marshalling; otherwise the platform first, and the feed only after the platform's publish succeeded, with the same envelope |
| TelemetryFeed.SnapshotPublishes | internal/publisher/publisher.go:317-344 | there is a publish call if and only if the snapshot was collected and marshals, and a second if and only if the first succeeded: a telemetry envelope of the agent with that snapshot on the evt subject, and the same one on the telemetry subject |
| TelemetryFeed.SnapshotDelivered | internal/publisher/publisher.go:330-344 | published twice, it adds exactly one envelope with its payload to the platform's telemetry and to the feed |
| TelemetryFeed.SnapshotIsTwoSteps | internal/publisher/publisher.go:317-347 | the sequential code's publish calls are one or two steps of the telemetry loop in the interleaved model |
| TelemetryFeed.FeedIsSubsequence | internal/publisher/publisher.go:330-344 | at every point of every run, publishes failing at will, the telemetry on the client feed is an in-order subsequence of the telemetry on the evt subject, envelope for envelope |
| TelemetryFeed.WholeFeedIffNoIntruder | cmd/agent/main.go:150-158 | everything on the feed is such a subsequence if and only if no other message reached its subject |
| Capabilities.BuildCapabilities | internal/publisher/publisher.go:263-297 | the loops build the announcement of the configured lists, or of the whole catalog in its iteration order |
| Capabilities.SendCapabilities | internal/publisher/publisher.go:263-315 | one publish call of the announcement on the evt subject; it is returned whatever the broker answers |
| Capabilities.EventIs | internal/publisher/publisher.go:299 | the event is of type capabilities and carries the agent and the announcement |
| Capabilities.CatalogKeys | internal/publisher/publisher.go:142-252 | the catalog has the twenty names |
| Capabilities.CatalogParams | internal/publisher/publisher.go:142-252 | the parameters of each operation with their types, whether required, and least values |
| Capabilities.SchemasAppend | internal/publisher/publisher.go:283-290 | schemas come in the order of the list, repeats included |
| Capabilities.SchemasOfOne | internal/publisher/publisher.go:287-289 | a listed name outside the catalog has none |
| Capabilities.ExecCommandsAre | internal/publisher/publisher.go:272-297 | the commands are announced exactly if exec is among the operations, the fallback included |
| Capabilities.AnnouncesSupported | internal/publisher/publisher.go:280-290 | with a configured list exactly its catalog operations are announced |
| Capabilities.FullCatalogOnce | internal/publisher/publisher.go:272-278 | without one every catalog operation is announced, each once |
| Capabilities.SchemasCover | internal/publisher/publisher.go:283-290 | the schemas name exactly the listed operations that a catalog has |
| Dispatcher.Dispatcher.constructor | internal/dispatcher/dispatcher.go:39-63 | the allow map holds exactly the listed operations |
| Dispatcher.Dispatcher.Run | internal/dispatcher/dispatcher.go:153-271 | effects and answer of every operation that returns, unknown ones included: single module calls, the platform command lines of reboot and shutdown, update before upgrade, the announcement, the interval, and exec of listed commands |
| Dispatcher.Dispatcher.Dispatch | internal/dispatcher/dispatcher.go:75-129 | every command whose operation returns gets the result of its outcome, after exactly the outcome's effects |
| Dispatcher.SystemOpsAre | internal/dispatcher/dispatcher.go:156-167 | each system operation is one call of its own module function |
| Dispatcher.ServiceQueriesAre | internal/dispatcher/dispatcher.go:170-173 | list and get of the service manager, get with the name |
| Dispatcher.ServiceActionsAre | internal/dispatcher/dispatcher.go:174-179 | start, stop and restart with the name |
| Dispatcher.ServiceSettingsAre | internal/dispatcher/dispatcher.go:180-185 | reload, enable and disable with the name |
| Dispatcher.ModuleOpResult | internal/dispatcher/dispatcher.go:154-185 | a module operation answers what its function returned, or its error |
| Dispatcher.RebootIs | internal/dispatcher/dispatcher.go:188-196 | exactly one execution: systemctl reboot, or shutdown /r /t 0 on Windows, answered by its streams or its error |
| Dispatcher.ShutdownIs | internal/dispatcher/dispatcher.go:197-205 | exactly one execution: systemctl poweroff, or shutdown /s /t 0 on Windows |
| Dispatcher.UpdateIs | internal/dispatcher/dispatcher.go:208-238 | the two apt-get command lines, how far the operation gets, and both pairs of streams in its answer |
| Dispatcher.SetIntervalIs | internal/dispatcher/dispatcher.go:247-258 | a positive number of seconds is set as 10^9 times as many nanoseconds and reported as it is exactly up to 9223372036; no other number is set |
| Dispatcher.ExecIs | internal/dispatcher/dispatcher.go:261-266 | a listed command is executed with its arguments, any other is an error without effect |
| Dispatcher.AllowedOperationsIs | internal/dispatcher/dispatcher.go:241-246 | the announcement is sent and returned |
| Dispatcher.UnknownIs | internal/dispatcher/dispatcher.go:267-269 | a name outside the catalog has no effect and is an error |
| Dispatcher.DeclaredParamsDecide | internal/publisher/publisher.go:142-252 | parameters that agree on the announced names of an operation have the same effects and the same answer |
| Dispatcher.EmptySpellings | internal/dispatcher/dispatcher.go:329-338 | null, [], {} and nothing, with any space around, all mean no parameters and are never decoded |
| Dispatcher.OtherParamsDecoded | internal/dispatcher/dispatcher.go:107-113 | anything that is none of them is decoded |
| Dispatcher.CatalogIsTheSwitch | internal/publisher/publisher.go:142-252 | running an operation reaches the default case exactly for names outside the catalog |
| Dispatcher.AnnouncedIffDispatchable | internal/publisher/publisher.go:272-290 | for a non-empty list, repeats and unknown names included, an operation is announced exactly when dispatching it passes the gate and reaches a case of the switch |
| Dispatcher.EmptyListFallback | internal/publisher/publisher.go:272-297 | for an empty list the full catalog and the exec commands are announced and every command is rejected without effect |
| Dispatcher.ExecRunsAnnouncedCommands | internal/dispatcher/dispatcher.go:261-266 | a command is among the announced exec commands exactly if exec is allowed and runs it |
| Dispatcher.RejectedUntouched | internal/dispatcher/dispatcher.go:79-119 | a rejection has no effect; rejected are exactly the undecodable and the not permitted, everything that reached the switch completes or fails |
| Dispatcher.DisallowedExecFails | internal/dispatcher/dispatcher.go:262-269 | a command outside the list, and an allowed but unknown operation, fail without effect |
| CommandHandler.Agent.constructor | cmd/agent/main.go:125-142 | the client and the dispatcher share one configuration, identity and lists alike, and nothing has happened yet |
| CommandHandler.Agent.OnMessage | cmd/agent/main.go:147-168 | the callback continues any run of messages by one: the filter drops without a trace, everything else is dispatched and answered |
| CommandHandler.OneResultPerAcceptedCommand | internal/nats/client.go:98-121 | over any run of messages whose handling is over there is exactly one publish call for each decodable message of version 1, in arrival order, on its reply subject or else on evt; the payload is the command's id with exactly the output its operation returned and no reason, or failed or rejected with that error as its reason and no output; only an output with a float that is not finite leaves an empty envelope |
| CommandHandler.FilterIs | internal/nats/client.go:106-119 | what is not an envelope of version 1 leaves no trace, everything else one publish call |
| CommandHandler.EffectsAre | internal/dispatcher/dispatcher.go:75-129 | the effects of a message are those of the operation it gets to run, and none if it is dropped, not permitted or cannot be decoded |
| CommandHandler.ServeExtend | cmd/agent/main.go:147-168 | a run leaves what its messages leave, in their order |
| CommandHandler.OnlyCompletedCanLoseId | internal/protocol/envelope.go:93-122 | rejected and failed commands always get their id back |
| CommandHandler.CompletedWithoutId | internal/protocol/envelope.go:93-122 | for each of the four operations with floating-point output, where allowed: a command that completes and is answered with the zero envelope, because a float is not finite |
| CommandHandler.OtherOpsEcho | internal/protocol/envelope.go:93-122 | a command for any other operation always echoes its id, and so does one that is rejected |
| CommandHandler.LosesIdIff | internal/modules/system/types.go:16-79 | some command can lose its id if and only if `system.metrics`, `system.cpu`, `system.memory` or `system.disk` is allowed |
| CommandHandler.AnswerOnFeedIff | cmd/agent/main.go:150-158 | a result is published on the client feed exactly if its command gave the feed as `reply_to` |
| CommandHandler.WholeFeedIffNoReplyToFeed | cmd/agent/main.go:150-158 | in a run of all publishers with the messages served, everything on the feed is an in-order selection of the platform's telemetry if and only if no command with a delivered answer gave the feed as `reply_to` |
| CommandHandler.AnswerReachesFeed | cmd/agent/main.go:150-158 | one such command is enough: a run whose feed is no such selection |
| CommandHandler.ExecutionsPermitted | internal/dispatcher/dispatcher.go:188-266 | over any run of messages every execution is a fixed argument list of an allowed operation, or a listed command through an allowed exec |
| CommandHandler.ExecutedIsAnnounced | internal/publisher/publisher.go:295-297 | for a non-empty list of operations no exec ever runs a command that is not announced |
| CommandHandler.AnnouncedCommandRuns | internal/dispatcher/dispatcher.go:261-266 | and an exec command is run when asked for exactly if it is announced |
| CommandHandler.UpgradeAfterUpdate | internal/dispatcher/dispatcher.go:217-231 | over any run of messages each run of an `apt-get` binary with `upgrade` among its arguments that is not an exec directly follows a successful update |
| CommandHandler.SystemUpdateUpgrades | internal/dispatcher/dispatcher.go:227-231 | the second step of `system.update` is such a run |
| Text.BaseNameOf | internal/dispatcher/dispatcher.go:261-266 | commands are judged by what follows their last slash: a name without one is its own base name, and that of every path to it |
| CommandHandler.UpgradeAfterUpdateByCommandLine | internal/dispatcher/dispatcher.go:217-231 | the same of all executions, unless exec is allowed with a command whose base name is `apt-get` |
| CommandHandler.ExecCanUpgradeAlone | internal/dispatcher/dispatcher.go:261-266 | for every such command, with its path, a single message upgrades without an update |
| CommandHandler.UpgradesAloneIff | internal/dispatcher/dispatcher.go:208-266 | some run of messages upgrades without an update right before it if and only if exec is allowed with such a command |
| CommandPath.InsideIsARun | cmd/agent/main.go:147-168 | whatever messages arrive, the hand-off inside the handler goes through a run of the two-goroutine system, so that all its results apply |
| CommandPath.ResultsMatchMessages | cmd/agent/main.go:147-168 | at every point of every run, a blocking call included, the results published answer the accepted messages taken, one each and in order, less the one under way |
| CommandPath.TickerFollowsMessages | internal/dispatcher/dispatcher.go:249-258 | in every settled state the ticker runs at the clamped interval of the last message that set one, or at the startup interval |
| CommandPath.IntervalOfIs | internal/dispatcher/dispatcher.go:247-254 | the messages that set the interval are those that get to run telemetry.set_interval with a positive number of seconds |
| CommandPath.ComesToRestIff | cmd/agent/main.go:147-168 | from every reachable state the handler can come to rest without a further message, everything answered and the hand-off settled, if and only if it is not stuck and the loop has not exited |
| CommandPath.RestsOnLastMessage | internal/dispatcher/dispatcher.go:249-258 | at rest, however it is reached, all messages taken are answered as a serial run answers them and the ticker runs at what the last of them asked for |
| CommandPath.ProgressUnlessStopped | cmd/agent/main.go:147-168 | unless it is stuck, the handler can answer the message under way or take the next step of its call; between messages it can take any |
| CommandPath.StoppedForEver | internal/publisher/publisher.go:66 | once the call is stuck no later message is taken or answered, whatever else happens |
| CommandPath.TwoMessagesStop | internal/publisher/publisher.go:63-68 | a run of two messages to that state |
| CommandPath.StopsIffAllowed | internal/dispatcher/dispatcher.go:249-258 | the handler can come to that state if and only if the lists allow `telemetry.set_interval` |

## Left out

- `heartbeatLoop`, `GetCPU`, `GetMemory`, `GetInfo` and `GetMetrics` beyond their being called: straight copies of library values.
- NATS connection, reconnect and drain, the executor's time limit, the service managers: library behaviour or thin wrappers.
- Configuration loading, identity override from the ISO, logging, the command-line tool's HTTP client and tables.
- JSON text: payloads are values, decoding is a parameter, and the wording of error messages and the catalog's descriptions are not modelled.
- The publisher as an object: its channel and ticker are fields of the transition system's state, which does not capture their identity.
- Dispatcher.Dispatcher.Run: the method form describes a call of `telemetry.set_interval` that returns; the handler with calls that may not return is the transition system in `CommandPath.dfy`. Publishing the capabilities is an effect, not a publish call of the handler's client.
- Dispatcher.Dispatcher.Dispatch: as for `Run`.
- CommandHandler.Agent.OnMessage: as for `Run`.
- CommandHandler.OneResultPerAcceptedCommand: speaks of messages whose handling is over; `ResultsMatchMessages` adds the one under way.
- CommandHandler.UpgradesAloneIff: an allowed command of another name that itself starts `apt-get`, such as a shell, is not seen through.
- DiskSampler.Module.GetDisk: the mutex is the interleaved model's, and the usage percentage it copies is a real number; that gopsutil's float may not be finite is part of the dispatcher's model.
- Protocol.Client.PublishToSubject: has no marshalling failure, because the payload of an envelope is JSON text already and its other fields always marshal.
- OsRelease.DetectDebianDistro: the file is text already decoded from UTF-8, and lower-casing beyond ASCII is a parameter.
- DurationFormat.FormatSecondsExactlyInRange: the reader takes no signs, since an uptime has none, so that nothing printed reads as a negative number.
- Wall-clock timing: a tick may happen at any waiting state. No uniqueness of identifiers is claimed beyond injectivity on the free bits.
- The REST, gRPC, registration and Prometheus behaviour described under docs/: the code for it is not part of this repository.
