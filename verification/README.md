# Proofs about the ND45 to DTSU666 bridge

A Dafny model of the fail-safe telemetry bridge. Register blocks are read from a
source (directly, or from the cache of a hub subscription), decoded, completed by
derive rules and, for several meters, combined; the resulting sample is encoded in
two phases into the served register image; a supervisor keeps the output server up
only while that sample is fresh. The promise is that a stale, partial or mixed image
is never served. No single function makes that promise true, so the main theorems
are about whole runs.

## How it is organised

- `Pipeline`: the bridge as one state machine. Hub messages, the single reads of a
  poll, deliveries, aborts, the poll supervisor replacing a hung client and the ticks of
  the server supervisor interleave in any order on one explicit clock. Every reachable
  state satisfies `Pipeline.Invariant`.
- `ServedReadings`: with registers that vary over time, what a running server serves is
  what the devices held a bounded time ago.
- `Datastore`, `ImageCoherence`, `Bridge`, `BridgeSoundness`: the two-phase update of
  the image, when it leaves one coherent sample, when it can fail.
- `RegisterMap`, `Sources`, `Pollers`, `PollerSoundness`, `DeviceReadings`, `Episodes`:
  the load-time checks, the three pollers, what the former buy the latter, and what a
  sample says about the device.
- `SampleMeaning`, `EtangoDelivery`: what the values of a sample are, and exactly when a
  poll returns one, in plain arithmetic.
- `Derive`, `Conservation`, `Combination`, `CombinedDerive`: the derive interpreter and
  the combination of several devices, with their laws over exact reals;
  `DeriveMeaning`, `CombinationMeaning`: what each step and each combined value is.
- `HubCache`, `HubConnection`, `HubAgreement`: the pushed cache against the complete
  history of messages, readiness and close, and the subscription against the pollers.
- `ServerSupervisor`, `PollerSupervisor`: the two lifecycle loops, over every run.
- `Crc`, `CrcBursts`, `SlidingWindow`, `CappedTally`, `WireScanner`, `ReadActivity`,
  `SampleStats`: the traffic recorders and statistics, each equal to a plain function
  of everything ever recorded.
- `Codec`, `Decoding`, `Encoding`: register packing, and the numbers registers stand for.
- `BisectionScan`: the bisecting meter scan.
- `Common`: shared types.

Code that updates fields is a class whose methods are proved against functions of the
old state; the laws are lemmas about those functions. Values are exact reals with
explicit NaN and infinities. Registers are integers below 2^16. Rounding to float32,
the hypotenuse and the clock readings are parameters.

## Where the code does less than expected

Each of these is a lemma with a concrete input, next to the exact condition.

- The overlap check looks at one target section at a time. Two FC04 sections may claim
  the same registers for different values, and then serve a wrong one
  (`ImageCoherence.AcceptedMapMayClash`). The spans of an accepted map are disjoint if
  and only if its sections also keep apart (`ImageCoherence.AcceptedMapDisjointIff`),
  which is what arbitrary values need (`ImageCoherence.CoherentIffDisjoint`); one
  sample is served right if and only if the overlapping encodings happen to agree
  (`ImageCoherence.ServesAllIffAgree`).
- The check that every source produces every served name counts derive targets, but
  the ND45 poller never runs derive steps. Such a map is accepted
  (`BridgeSoundness.UnservableMapIsAccepted`) and then no sample can ever be delivered
  (`BridgeSoundness.MissingKeyIffUnderivedNd45`).
- The coverage check skips composed points. Such a map is accepted
  (`PollerSoundness.ComposedMapIsAccepted`), and the SmartLogger decoder fails on
  exactly those (`PollerSoundness.HuaweiBreaksIffComposed`). The e2TANGO decoder also
  fails on one-register types (`PollerSoundness.OneRegisterMapIsAccepted`,
  `PollerSoundness.EtangoBreaksIffUnreadable`).
- Blocks are told apart by address alone when a point is cut out of them. With
  overlapping blocks on different units, which are accepted
  (`PollerSoundness.OverlappingUnitsAreAccepted`), the first one answers
  (`Sources.RightUnitIffFirstGroup`).
- `staleness_threshold` is documented to fire before the freshness threshold. Accepted
  times violate that (`HubAgreement.StalenessMayFireLast`), and then a read can be
  answered from a message older than that threshold
  (`HubAgreement.StalenessFiresFirstIff`).
- A server is shut down exactly once and every stop is counted, as long as no
  cancellation cuts off a shutdown (`ServerSupervisor.NothingLeaks`). One that cuts off
  a shutdown of the loop repeats it, one that cuts off the final shutdown loses the
  stop (`ServerSupervisor.EveryEnding`, `ServerSupervisor.EndingsDiffer`).

## Model

| member | source | states |
|---|---|---|
| Pipeline.EveryStateInvariant | src/nd45_dtsu666/app.py:429-559 | in every state of every interleaving, hung polls and replaced clients included, the image is one sample, the reads behind it are recorded and in time, and a live server implies a stamp no older than max age at the last tick |
| Pipeline.StepKeeps | src/nd45_dtsu666/app.py:429-559 | every single step, whichever it is, keeps that invariant |
| Pipeline.ImageIsOneSample | src/nd45_dtsu666/dtsu_server.py:330-348 | in every run registers outside target spans keep their first value, and every target pair holds the encoding of its own point's value in the one sample in the store exactly when points that share registers agree on them, so always when spans are disjoint |
| Pipeline.NothingElseMovesTheImage | src/nd45_dtsu666/app.py:130-141 | no hub message, read, tick, failed or refused poll moves image or store; a delivery that does stamps the current time |
| Pipeline.DeliveryIsNeverBlocked | src/nd45_dtsu666/dtsu_server.py:258-284 | in every reachable state a poll with all its reads can deliver: the image always has room for the targets |
| Pipeline.ServedDataIsRecent | src/nd45_dtsu666/app.py:509-559 | whenever a server is up, the sample was decoded from reads at most stall timeout + check interval + max age + tick old, and over the hub each was answered by a good covering message received at most max stale before it, by whichever client was in use |
| ServedReadings.ServedIsWhatDevicesHeld | src/nd45_dtsu666/dtsu_server.py:482-534 | the whole promise: in every run, while a server is up, what is served is the encoding, value by value (source points, derived values, aliases), of the sample one poll makes of what the devices held at instants at most stall timeout + check interval + max age + tick ago, plus staleness and forwarding delay over the hub; in that sample net import and export repeat the totals and active energy is their sum |
| ServedReadings.PlainPointIsServed | src/nd45_dtsu666/dtsu_server.py:351-370 | in particular a pair that reads a plain source point is the encoding of the conversion of the registers its devices held, for each of the three sources: the float32 pattern of that number, divided by a positive CT ratio where the point asks for it, scaled, signed and offset |
| ServedReadings.SampleReadsDevices | src/nd45_dtsu666/etango_poller.py:226-250 | every plain value of a returned sample, whatever the source, is the conversion or combination of what its devices held when each block was read |
| ServedReadings.EtangoPointMeans | src/nd45_dtsu666/etango_poller.py:174-196 | for e2TANGO that combination is the sum over the aggregating devices where the point itself says sum, and the sum over their number otherwise |
| SampleMeaning.SampleAliases | src/nd45_dtsu666/canonical.py:34-47 | in every sample any poller returns, net import is the import total or zero without one, net export likewise, and active energy is the sum of the two |
| SampleMeaning.Nd45ReadingMeans | src/nd45_dtsu666/nd45_poller.py:105-135 | an ND45 point is its number, or the sum of factor times part of a composed one, times scale and sign plus offset, when all of them are strictly inside the measuring range, and zero otherwise |
| SampleMeaning.Nd45GoodIff | src/nd45_dtsu666/nd45_poller.py:105-161 | a fully read ND45 poll returns a sample if and only if every point but the four power factors is in range in each part, raw and converted |
| SampleMeaning.HuaweiReadingMeans | src/nd45_dtsu666/codec.py:132-145 | a SmartLogger point is its float or integer times scale and sign plus offset, NaN for the type's unavailable marker |
| SampleMeaning.HuaweiGoodIff | src/nd45_dtsu666/huawei_poller.py:126-158 | a SmartLogger poll without composed points returns a sample if and only if every block was read completely, whatever the values |
| SampleMeaning.HuaweiDerivedMeans | src/nd45_dtsu666/huawei_poller.py:126-158 | a derived value of a SmartLogger sample is what its step makes of the decoded points, those that are no numbers taken as zero, and of the earlier steps, and zero when that is no number |
| SampleMeaning.EtangoValueMeans | src/nd45_dtsu666/etango_poller.py:174-196 | every value of a returned e2TANGO sample, aliases aside, is the sum of what the aggregating devices returned if the map wants it summed, and their average otherwise |
| EtangoDelivery.EtangoGoodIff | src/nd45_dtsu666/etango_poller.py:226-250 | when every point is two registers wide and every derive step finds its inputs, a poll returns a sample if and only if every device, aggregating or not, answered every read in full and holds only floats in range |
| EtangoDelivery.DerivedFinite | src/nd45_dtsu666/canonical.py:55-118 | a derive list whose steps find their inputs turns finite readings into finite readings: no step divides by zero |
| ServedReadings.EveryStateTruthful | src/nd45_dtsu666/hub_client.py:144-188 | over every run, reads in flight and reads behind the store were true of the devices when answered |
| Pipeline.TickServesFresh | src/nd45_dtsu666/dtsu_server.py:403-415 | right after a tick a live server implies a sample no older than max age |
| Pipeline.TickServesWhenFresh | src/nd45_dtsu666/dtsu_server.py:482-534 | with a good server or an open throttle, a tick that does not raise leaves a server up if and only if the store holds a sample whose age is at most max age |
| Pipeline.OverwriteForgets | src/nd45_dtsu666/dtsu_server.py:347-348 | writing a complete sample over another leaves no register of the older one |
| Bridge.Bridge.OnUpdate | src/nd45_dtsu666/app.py:133-139 | image and stamp move together exactly when every point can be encoded; otherwise neither changes |
| Bridge.ReadyIffAllEncodable | src/nd45_dtsu666/dtsu_server.py:333-345 | an update succeeds if and only if every target point finds its value and can encode it |
| Bridge.NeverMissing | src/nd45_dtsu666/dtsu_server.py:333-345 | with all needed names present the missing-key error cannot happen |
| BridgeSoundness.MissingKeyIffUnderivedNd45 | src/nd45_dtsu666/config.py:312-348 | for an accepted map no returned sample runs into the missing-key error, except on an ND45 bridge whose targets need a derived name, where no delivery succeeds |
| BridgeSoundness.UnservableMapIsAccepted | src/nd45_dtsu666/config.py:335-341 | a map of that exceptional kind passes the load-time checks |
| Datastore.Store.Update | src/nd45_dtsu666/dtsu_server.py:330-348 | everything is encoded before anything is written; on either error the image is unchanged, otherwise it is the image with all writes applied in order |
| Datastore.Encode | src/nd45_dtsu666/dtsu_server.py:331-345 | the first phase stops at the first bad value and otherwise collects missing names before raising |
| Datastore.EncodeAllLayout | src/nd45_dtsu666/dtsu_server.py:333-340 | a complete encoding writes exactly two registers per target point, in declaration order, at the declared spans |
| Datastore.EncodeAllAt | src/nd45_dtsu666/dtsu_server.py:333-348 | in a complete encoding every point of every section is written the encoding of its own value at its own place |
| Datastore.BuildContext | src/nd45_dtsu666/dtsu_server.py:265-284 | the freshly sized blocks have room for both registers of exactly the targets with a non-negative address |
| ImageCoherence.CoherentIffDisjoint | src/nd45_dtsu666/config.py:235-245 | a layout reads back every point's own registers, for arbitrary writes, if and only if no two spans of a bank overlap |
| ImageCoherence.AcceptedMapDisjointIff | src/nd45_dtsu666/config.py:235-245 | the spans of an accepted map are pairwise disjoint if and only if its sections also keep apart from one another |
| ImageCoherence.AcceptedMapMayClash | src/nd45_dtsu666/config.py:352-359 | an accepted map with two FC04 sections on the same registers for different values, and a complete sample whose import energy is then served as the export energy |
| ImageCoherence.ServesAllIffAgree | src/nd45_dtsu666/dtsu_server.py:330-348 | a delivered sample is served right at every point if and only if the encodings of points that share registers agree there |
| ImageCoherence.LastWriteWins | src/nd45_dtsu666/dtsu_server.py:347-348 | a register holds what the last write touching it wrote |
| ImageCoherence.UntouchedKeeps | src/nd45_dtsu666/dtsu_server.py:347-348 | a register outside every span keeps its value |
| RegisterMap.CheckRangesDoNotOverlap | src/nd45_dtsu666/config.py:235-245 | the scan with a dictionary of occupied addresses accepts exactly the sections with pairwise disjoint spans |
| RegisterMap.CheckShape | src/nd45_dtsu666/config.py:75-94 | a source point passes the load-time check exactly when it has the accepted shape |
| RegisterMap.CheckArity | src/nd45_dtsu666/config.py:142-166 | a derive step passes it exactly when its inputs, weights, value and targets fit its operation |
| PollerSoundness.SampleKeys | src/nd45_dtsu666/config.py:312-348 | the exact key set of every sample any of the three pollers returns |
| PollerSoundness.EverySampleServesTargets | src/nd45_dtsu666/config.py:332-341 | for every accepted map a returned sample holds every name a target reads, for ND45 exactly when none of them relies on a derive step |
| PollerSoundness.Nd45NeverBreaks | src/nd45_dtsu666/nd45_poller.py:53-71 | a covered ND45 map never fails structurally on complete reads |
| PollerSoundness.Nd45PollNeverBreaks | src/nd45_dtsu666/nd45_poller.py:91-130 | whatever the responses are, a poll of a covered ND45 map either rejects the sample or returns one |
| PollerSoundness.HuaweiBreaksIffComposed | src/nd45_dtsu666/huawei_poller.py:87-101 | on complete reads an accepted SmartLogger map fails to decode if and only if it composes a point |
| PollerSoundness.ComposedMapIsAccepted | src/nd45_dtsu666/config.py:200-226 | an accepted map with one composed point on which the SmartLogger decoder fails on complete reads |
| PollerSoundness.HuaweiPollBreaksIff | src/nd45_dtsu666/huawei_poller.py:126-127 | a SmartLogger poll fails structurally if and only if every block was read and some point is composed |
| PollerSoundness.EtangoBreaksIffUnreadable | src/nd45_dtsu666/etango_poller.py:140-171 | no complete read can break the e2TANGO decoder if and only if no point is composed or one register wide |
| PollerSoundness.OneRegisterMapIsAccepted | src/nd45_dtsu666/config.py:200-226 | an accepted map with one 16-bit point on which the e2TANGO decoder fails on complete reads |
| PollerSoundness.ReturnedNd45SampleIsClean | src/nd45_dtsu666/nd45_poller.py:105-161 | a returned ND45 sample is finite, and for every critical point the raw value and each composed part are below the sentinel threshold |
| PollerSoundness.EveryReturnedSampleFinite | src/nd45_dtsu666/huawei_poller.py:129-158 | whatever the source, a returned sample is finite throughout |
| PollerSoundness.OverRangeEpisodes | src/nd45_dtsu666/nd45_poller.py:137-152 | over any run of fully read polls, warnings per channel equal its valid-to-invalid transitions and the muted set is what was invalid last, rejected samples included |
| DeviceReadings.Nd45SampleReadsDevice | src/nd45_dtsu666/nd45_poller.py:105-161 | every value of a returned ND45 sample, aliases aside, is the conversion of what the meter held at the documented addresses when each block was read, or zero for an out-of-range power factor |
| DeviceReadings.HuaweiSampleReadsDevice | src/nd45_dtsu666/huawei_poller.py:87-158 | every value no derive step or alias writes is the conversion of what the device held at address + offset when its block was read, by its own type, or zero when not finite |
| DeviceReadings.EtangoDeviceReadsDevice | src/nd45_dtsu666/etango_poller.py:161-171 | every underived value of an accepted device is the conversion of an in-range float it held when its block was read |
| DeviceReadings.EtangoSampleCombines | src/nd45_dtsu666/etango_poller.py:239-250 | a returned sample holds exactly the combination of the aggregating devices' values |
| Episodes.WarningsAreEpisodes | src/nd45_dtsu666/nd45_poller.py:137-152 | the same for any run of observations that look at each channel once per poll |
| Episodes.UnmutedWarnsEveryPoll | src/nd45_dtsu666/nd45_poller.py:137-152 | without a muted set a channel is reported by every poll that finds it invalid |
| Episodes.EpisodeLog.Observe | src/nd45_dtsu666/huawei_poller.py:129-141 | one channel is reported when it turns bad and unmuted when it turns good |
| Pollers.PollNd45 | src/nd45_dtsu666/nd45_poller.py:105-161 | one poll's decoding, over-range rules and muting, with or without a muted set, as functions of the blocks read and the old set |
| Pollers.PollHuawei | src/nd45_dtsu666/huawei_poller.py:126-158 | decode, zero, derive, scrub, alias, as a function of the blocks read |
| Pollers.PollEtango | src/nd45_dtsu666/etango_poller.py:226-250 | every device is read and derived before combining, and the first failing one decides the whole poll |
| Pollers.ReadGroups | src/nd45_dtsu666/huawei_poller.py:65-84 | an error response or a short read rejects the poll, otherwise blocks are kept under their documented bases |
| Pollers.ZeroBad | src/nd45_dtsu666/huawei_poller.py:129-141 | the in-place loop zeroes exactly the non-finite channels and reports each once per episode |
| Pollers.DeriveAndScrub | src/nd45_dtsu666/huawei_poller.py:143-153 | derive steps run first, then exactly the non-finite results become zero |
| Sources.ExtractRegisters | src/nd45_dtsu666/huawei_poller.py:54-62 | the loop returns the full-width slice of the first block holding the point, or fails |
| Sources.ExtractRegistersNd45 | src/nd45_dtsu666/nd45_poller.py:74-79 | the differently worded ND45 variant is the same function at width two |
| Sources.ExtractReadsSnapshot | src/nd45_dtsu666/etango_poller.py:102-137 | a covered point is what the device held at address + offset, full width, when the first block holding it was read, however blocks overlap |
| Sources.ExtractReadsMemory | src/nd45_dtsu666/huawei_poller.py:54-84 | in particular the device memory, when it does not change between the blocks |
| Sources.ExtractUncovered | src/nd45_dtsu666/config.py:210-225 | without a covering block extraction fails, whatever the registers are |
| Sources.RightUnitIffFirstGroup | src/nd45_dtsu666/huawei_poller.py:58-72 | a point reads the meant unit for every memory if and only if the first block holding it is on that unit |
| PollerSoundness.OverlappingUnitsAreAccepted | src/nd45_dtsu666/config.py:210-225 | an accepted map with two blocks of different units on the same addresses, whose point reads the first one |
| Sources.Nd45ExtractReadsMemory | src/nd45_dtsu666/nd45_poller.py:53-79 | every address of a covered ND45 map reads as the device memory there |
| Sources.BlocksForSource | src/nd45_dtsu666/hub_client.py:202-238 | the declared blocks of each source type, with unit override and offset, or the error of a map without any |
| Sources.EveryRequestSubscribed | src/nd45_dtsu666/hub_client.py:202-238 | every read of every poller lies inside a block its source subscribes to |
| SampleMeaning.Nd45Requests | src/nd45_dtsu666/nd45_poller.py:29-32 | an ND45 poll reads holding registers 50 to 145, 818 to 819 and 900 to 995 of its unit |
| SampleMeaning.HuaweiRequests | src/nd45_dtsu666/huawei_poller.py:65-84 | a SmartLogger poll reads the holding registers of each declared block at base plus address offset, on the block's own unit where it names one |
| SampleMeaning.EtangoRequestAt | src/nd45_dtsu666/etango_poller.py:102-137 | an e2TANGO poll reads the input registers of every declared block of one device after the other, likewise |
| HubAgreement.MakeSubscription | src/nd45_dtsu666/hub_client.py:436-476 | the blocks of all devices in order, or the error exactly when a link name is empty or a device has no blocks |
| HubAgreement.ReadyAnswersEveryRequest | src/nd45_dtsu666/hub_client.py:343-395 | once every declared block was seen, no poll read fails for want of a block |
| HubAgreement.StalenessFiresFirstIff | src/nd45_dtsu666/hub_client.py:191-199 | no read is ever answered from a message older than the freshness threshold, whatever was received, if and only if neither the timeout nor three poll intervals exceed that threshold |
| HubAgreement.StalenessMayFireLast | src/nd45_dtsu666/config.py:906-924 | times that pass every configuration check of them exceed it, through the poll interval or through the timeout |
| HubCache.AnswerRefinesHistory | src/nd45_dtsu666/hub_client.py:153-188 | every answer and every error is explained by the complete history: a success is the requested slice of a covering good message, not stale, with no covering message or error strictly newer |
| HubCache.FreshBlockIsServed | src/nd45_dtsu666/hub_client.py:153-188 | whenever a message covers the request and the newest covering ones are good, complete and fresh, the answer is a success that holds, register by register, the requested stretch of one of them |
| HubCache.BestIsNewest | src/nd45_dtsu666/hub_client.py:163-176 | the entry the lookup loop picks is a last message of its block than which no covering message ever received is newer |
| HubCache.TieGoesToFirst | src/nd45_dtsu666/hub_client.py:157-162 | the entry the lookup loop picks is strictly newer than every covering one that entered the dictionary before it |
| HubCache.BlockCache.Lookup | src/nd45_dtsu666/hub_client.py:153-188 | the best-so-far loop gives that explained answer |
| HubCache.BlockCache.Receive | src/nd45_dtsu666/hub_client.py:144-151 | a message, good or bad, replaces the entry of its block |
| HubConnection.HubConnection.Connect | src/nd45_dtsu666/hub_client.py:285-299 | success means every declared block was delivered and the stream is up, never after a close |
| HubConnection.HubConnection.OnUpdate | src/nd45_dtsu666/hub_client.py:376-395 | readiness holds if and only if every declared block has been received |
| HubConnection.HubConnection.Close | src/nd45_dtsu666/hub_client.py:301-320 | close is idempotent, ends the stream task and leaves the stream in error |
| HubConnection.HubConnection.Read | src/nd45_dtsu666/hub_client.py:322-325 | after close every read fails; once ready a read inside a declared block never fails as uncovered |
| ServerSupervisor.EveryRunKeepsInvariant | src/nd45_dtsu666/dtsu_server.py:482-544 | after every tick of every run, dead, failed and cancelled servers included: at most one live server, every other shut down once, starts at least the throttle apart, counters exact |
| ServerSupervisor.NothingLeaks | src/nd45_dtsu666/dtsu_server.py:538-544 | a run that ends by itself, by an exception or by a cancellation outside any shutdown has shut down each created server exactly once, with starts equal to stops |
| ServerSupervisor.EveryEnding | src/nd45_dtsu666/dtsu_server.py:467-475 | whichever shutdowns a cancellation cuts off: that server is shut down twice exactly if it was the loop's, it stays counted as running with one start more than stops exactly if it was the final one, every other server was shut down once |
| ServerSupervisor.EndingsDiffer | src/nd45_dtsu666/dtsu_server.py:538-544 | a run in which both happen |
| ServerSupervisor.TickKeeps | src/nd45_dtsu666/dtsu_server.py:483-534 | one tick keeps the lifecycle invariant, and a tick that raises leaves no server |
| ServerSupervisor.UpExactlyWhenFresh | src/nd45_dtsu666/dtsu_server.py:482-534 | after a tick that does not raise a server is up if and only if the sample's age is at most max age and the old server was good (task running, opened or within its grace) or the throttle interval has passed; the old one is kept exactly when it was good, and a tick that raises leaves none |
| ServerSupervisor.Supervisor.Tick | src/nd45_dtsu666/dtsu_server.py:482-534 | the loop body performs that transition on its fields |
| PollerSupervisor.HungLoopIsRebuiltInTime | src/nd45_dtsu666/app.py:509-559 | at every instant of every run at most one poll task exists, restarts equal clients replaced, and a watched task made progress, and a poll in flight began, at most stall timeout + check interval, so at most 1.5 stall timeouts, ago |
| PollerSupervisor.HealthyLoopIsLeftAlone | src/nd45_dtsu666/app.py:519-541 | a loop whose polls all return within stall timeout - poll interval is never rebuilt |
| PollerSupervisor.Supervisor.OnCheck | src/nd45_dtsu666/app.py:521-545 | one watch pass leaves a fresh task alone and otherwise ends it, counts the recovery and replaces the client |
| PollerSupervisor.Supervisor.OnStop | src/nd45_dtsu666/app.py:551-559 | a stop, even during a reconnect, ends with no task |
| Derive.Sample.ApplyDerive | src/nd45_dtsu666/canonical.py:55-97 | the in-place interpreter, step by step, later steps seeing earlier results |
| Derive.AppliedFrame | src/nd45_dtsu666/canonical.py:67-97 | a step writes every one of its targets and nothing else |
| Derive.DerivedFrame | src/nd45_dtsu666/canonical.py:55-97 | a derive list adds exactly its targets and leaves every other value alone |
| DeriveMeaning.ConstantMeans | src/nd45_dtsu666/canonical.py:68-70 | every target of a constant step is its value |
| DeriveMeaning.CopyMeans | src/nd45_dtsu666/canonical.py:71-74 | every target of a copy is its source, NaN when missing |
| DeriveMeaning.SplitEqualMeans | src/nd45_dtsu666/canonical.py:75-78 | every target of an equal split is the source over their number |
| DeriveMeaning.PhaseFromLineMeans | src/nd45_dtsu666/canonical.py:79-81 | the i-th target is the i-th line voltage over the square root of three as a double |
| DeriveMeaning.PowerFactorMeans | src/nd45_dtsu666/canonical.py:89-95 | the i-th target is 1 when the apparent power is zero and otherwise active over apparent power, taken from inputs 2i and 2i + 1 |
| DeriveMeaning.HypotMeans | src/nd45_dtsu666/canonical.py:82-86 | the i-th target is the hypotenuse of inputs 2i and 2i + 1, in that order |
| DeriveMeaning.RatioSplitMeans | src/nd45_dtsu666/canonical.py:100-118 | each target is total times its own absolute weight over the sum of the absolute weights |
| DeriveMeaning.RatioSplitAtRest | src/nd45_dtsu666/canonical.py:112-116 | with all weights zero it is the total over the number of targets |
| DeriveMeaning.RatioSplitWithoutWeight | src/nd45_dtsu666/canonical.py:112-116 | so it is with any weight missing or not finite |
| DeriveMeaning.InFinishedSample | src/nd45_dtsu666/canonical.py:67-97 | in the finished sample a target holds what its step made of everything the earlier steps left, unless a later step writes it |
| Conservation.SplitConserves | src/nd45_dtsu666/canonical.py:100-118 | the targets of an equal or weighted split add up to the total, also in the fallback for missing, non-finite or zero weights |
| Conservation.SplitConservedInSample | src/nd45_dtsu666/canonical.py:75-118 | they still do in the finished sample unless a later step writes one of them |
| Combination.Combine | src/nd45_dtsu666/etango_poller.py:186-196 | the loop over all keys averages or sums each key over the devices that have it |
| CombinationMeaning.CombinedMeans | src/nd45_dtsu666/etango_poller.py:174-196 | a key is there if and only if a device has it; it is the sum over these devices when its own point says sum, or, for a name that is no point, when the first derive step writing it does, and that sum over their number otherwise |
| Combination.StepCommutes | src/nd45_dtsu666/etango_poller.py:220-244 | one linear step whose modes match: derive per device then combine equals combine then derive |
| Combination.DeriveCommutesWithCombine | src/nd45_dtsu666/etango_poller.py:220-244 | the same for a whole list of linear steps |
| CombinedDerive.SampleDerivesCombined | src/nd45_dtsu666/etango_poller.py:226-250 | so with such rules a returned e2TANGO sample is the derive list run once on the combination of what the aggregating devices decoded |
| Combination.LiftDerived | src/nd45_dtsu666/canonical.py:55-97 | on finite samples the interpreter runs linear lists in exact arithmetic and nothing turns non-finite |
| Combination.MismatchedModes | src/nd45_dtsu666/etango_poller.py:174-195 | for a copy or an equal split the two orders give the same reading if and only if, for every target, it is combined the way its source is, or there is one device, or the readings cancel |
| Combination.PowerFactorsCommuteIff | src/nd45_dtsu666/etango_poller.py:220-224 | for any number of loaded devices the averaged power factor is the power factor of the summed powers if and only if load and power factor do not vary together (zero covariance) |
| Combination.PowerFactorCommutesIff | src/nd45_dtsu666/etango_poller.py:220-224 | for two loaded devices: if and only if the apparent powers or the power factors are equal |
| Crc.RtuCrc | src/nd45_dtsu666/dtsu_server.py:111-118 | the two loops compute the CRC function |
| Crc.FeedBijective | src/nd45_dtsu666/dtsu_server.py:114-117 | for every byte the register update is a bijection on 16-bit states, with its inverse |
| Crc.RunInjective | src/nd45_dtsu666/dtsu_server.py:111-118 | different states never meet again on the same bytes |
| Crc.ResidueIffAccepted | src/nd45_dtsu666/dtsu_server.py:133 | a frame passes the check if and only if the CRC of all its bytes is zero |
| Crc.KnownFrames | src/nd45_dtsu666/dtsu_server.py:111-118 | worked frames that fix start value, polynomial and byte order: FF FF leaves 0, FF FF 80 leaves A001, and FF FF 80 01 A0 passes |
| CrcBursts.RunAsBits | src/nd45_dtsu666/dtsu_server.py:111-118 | the bytewise CRC is the serial CRC of the wire bits, least significant first |
| CrcBursts.BurstRejected | src/nd45_dtsu666/dtsu_server.py:133 | a valid frame damaged inside any window of at most 16 wire bits is always rejected |
| CrcBursts.AdjacentBytesRejected | src/nd45_dtsu666/dtsu_server.py:133 | a valid frame changed in one byte or in two adjacent bytes is always rejected |
| CrcBursts.SeventeenBitsPass | src/nd45_dtsu666/dtsu_server.py:133 | 16 is the best possible: one 17-bit burst at any offset is never detected |
| CrcBursts.GeneratorPolynomial | src/nd45_dtsu666/dtsu_server.py:114-117 | that burst is the polynomial x^16 + x^15 + x^2 + 1, highest power first, and the register divides it out |
| CrcBursts.RunBitsLinear | src/nd45_dtsu666/dtsu_server.py:111-118 | the register is linear in start state and message |
| CrcBursts.RunBitsInjective | src/nd45_dtsu666/dtsu_server.py:111-118 | from one state, different groups of at most 16 bits end in different states |
| SlidingWindow.FoundAcrossBoundary | src/nd45_dtsu666/dtsu_server.py:160-170 | keeping one byte less than a window loses and doubles no window at a boundary |
| SlidingWindow.WholeIsExact | src/nd45_dtsu666/dtsu_server.py:160-170 | each tracked key carries exactly its number of windows in the stream |
| WireScanner.ScanRtuRequests | src/nd45_dtsu666/dtsu_server.py:121-139 | the loop lists what every 8-byte window holds, in order, none skipped |
| WireScanner.ReadRequestIff | src/nd45_dtsu666/dtsu_server.py:121-139 | a window is reported as a request if and only if its function is 1 to 6 and it is, byte for byte, that request framed by a master: unit, function, address and count high byte first, CRC low byte first |
| WireScanner.EveryRequestIsFramed | src/nd45_dtsu666/dtsu_server.py:121-139 | every reported request is such a frame, with 16-bit address and count |
| WireScanner.WireActivity.Record | src/nd45_dtsu666/dtsu_server.py:160-170 | one chunk moves counters, capped tallies, time and tail as the specification says |
| WireScanner.ChunkingIndependent | src/nd45_dtsu666/dtsu_server.py:160-170 | for every chunking, empty chunks included, the recorder equals one scan of the whole stream |
| WireScanner.WireReportExact | src/nd45_dtsu666/dtsu_server.py:142-170 | each tracked slave has exactly its number of CRC-valid windows, and the tracked ones are the first to appear |
| CappedTally.TallyCounts | src/nd45_dtsu666/dtsu_server.py:216-219 | a capped counter is exact for the keys it holds, and holds exactly the first distinct ones of the whole history |
| ReadActivity.RtuActivity.Record | src/nd45_dtsu666/dtsu_server.py:210-226 | total, last time, capped counts, ring of recent reads, pruned times and per-register times all stay functions of the complete log |
| ReadActivity.RtuActivity.Rate | src/nd45_dtsu666/dtsu_server.py:232-240 | the rate is the number of reads in the complete, unpruned history that are no older than the window, over the window |
| ReadActivity.RtuActivity.Summary | src/nd45_dtsu666/dtsu_server.py:232-240 | every field of the summary as a function of the complete log |
| ReadActivity.PruningHarmless | src/nd45_dtsu666/dtsu_server.py:222-224 | with a monotone clock pruning never changes which reads fall into the window |
| ReadActivity.WithinCounts | src/nd45_dtsu666/dtsu_server.py:233 | the filtered time stamps are as many as the reads no older than the window |
| ReadActivity.LastCoverIsLatest | src/nd45_dtsu666/dtsu_server.py:225-230 | `last_seen` is the time of a covering read after which no read covers the address |
| ReadActivity.RtuActivity.BlockCountsExact | src/nd45_dtsu666/dtsu_server.py:216-219 | a tracked block's count is its number of occurrences in the whole history |
| SampleStats.SampleStats.Record | src/nd45_dtsu666/canonical.py:141-146 | every history stays the last `window` finite values ever recorded for its point |
| SampleStats.SampleStats.Summary | src/nd45_dtsu666/canonical.py:148-164 | extremes, last value and sign changes describe exactly that history |
| SampleStats.CountSignChanges | src/nd45_dtsu666/canonical.py:152-159 | the one-pass count is the number of values of opposite sign to an earlier one with only zeros between |
| SampleStats.SignChangesMean | src/nd45_dtsu666/canonical.py:152-159 | as many as the adjacent opposite pairs once zeros are removed |
| SampleStats.AddedOnce | src/nd45_dtsu666/canonical.py:141-146 | a point listed once gets each finite value once |
| Codec.EncodeDecode | src/nd45_dtsu666/codec.py:53-67 | packing then unpacking is the identity on bit patterns for all four orders |
| Codec.DecodeEncode | src/nd45_dtsu666/codec.py:53-67 | unpacking then packing is the identity on register pairs |
| Decoding.BytesOfPattern | src/nd45_dtsu666/codec.py:41-56 | for each word and byte order, which of the four bytes on the wire is the most significant, down to the least |
| Decoding.PairOneToTwo | src/nd45_dtsu666/codec.py:53-56 | registers 3F80 to 3FFF with any second word are 1 plus the 23 fraction bits over 2^23 |
| Decoding.PairDoubled | src/nd45_dtsu666/codec.py:53-56 | one more in the exponent field doubles every normal number that stays finite |
| Decoding.PairNegated | src/nd45_dtsu666/codec.py:53-56 | the top bit negates every finite number |
| Decoding.PairSubnormal | src/nd45_dtsu666/codec.py:53-56 | below the normal numbers a pair is its pattern times 2^-149 |
| Decoding.Specials | src/nd45_dtsu666/codec.py:53-56 | the patterns of the infinities, of NaN and of the largest finite number |
| Codec.EncodePointReadsBack | src/nd45_dtsu666/codec.py:77-91 | a point encodes if and only if its value fits float32, and reads back as its pattern, low word dropped in the coarse form, under every order |
| Encoding.TargetMeans | src/nd45_dtsu666/dtsu_server.py:351-370 | a finite value is encoded if and only if the CT ratio, where used, is positive and finite and the number (value, over the ratio where used, times scale and sign, plus offset) fits float32; the pair then carries that number's pattern, its low sixteen bits cleared in the coarse form |
| Encoding.ExactNumberIsRead | src/nd45_dtsu666/codec.py:77-91 | a meter decoding a served pair gets back exactly any number float32 can hold |
| Codec.CoarseEncodingError | src/nd45_dtsu666/codec.py:77-91 | dropping the low word keeps sign and exponent, never grows the magnitude and errs by less than 2^-7 on normal numbers |
| Codec.IntDecodingExact | src/nd45_dtsu666/codec.py:98-117 | sized integers decode into the two's-complement range of their type and no two register lists decode alike |
| Decoding.Unsigned | src/nd45_dtsu666/codec.py:98-117 | one, two and four big-endian words read as the unsigned number they spell |
| Decoding.TwosComplement | src/nd45_dtsu666/codec.py:98-117 | a signed type reads the same, less one full turn when the top bit is set |
| Decoding.WordsReversed | src/nd45_dtsu666/codec.py:113-115 | little word order is the same number with its words reversed |
| Decoding.BytesSwapped | src/nd45_dtsu666/codec.py:116 | little byte order is the same number with the bytes of each word exchanged |
| Decoding.IntPointMeans | src/nd45_dtsu666/codec.py:120-145 | a raw number equal to its type's maximum is NaN, any other is converted |
| Codec.OnePatternIsInvalid | src/nd45_dtsu666/codec.py:120-145 | exactly one register pattern per type reads as unavailable |
| BisectionScan.Session.ScanSpan | scripts/full_scan_dtsu666.py:36-51 | bisection adds exactly the defined registers of the span and takes exactly the counted requests |
| BisectionScan.ScanRange | scripts/full_scan_dtsu666.py:54-61 | the result is precisely the defined registers of the range, for at most one request per block plus ten per undefined register |
| BisectionScan.CostBound | scripts/full_scan_dtsu666.py:36-51 | at most 1 + 2 u ceil(log2 n) requests for n registers with u undefined |
| BisectionScan.CeilLog2Meaning | scripts/full_scan_dtsu666.py:49-51 | the logarithm in that bound is the real one |

## Left out

- Float arithmetic: reals are exact; rounding to float32 is a parameter, and overflow of a float64 product to infinity is not modelled.
- `math.hypot` and `math.fsum` numerics: the hypotenuse is a parameter, sums are exact.
- pymodbus, gRPC, HTTP, systemd notification and serial ports: a read is an error or a register list, a server is live, dead or never opened, cancellation takes effect at once.
- The clock that stamps samples and the monotonic clock of the supervisors are one clock, and each pass of a supervisor is one atomic step.
- An e2TANGO poll decodes all devices at its end instead of between reads; a poll that ends earlier is an abort, which can happen at any time.
- The initial connect task, which touches the same heartbeat beside the poll loop and can hide a stall while it retries, is not modelled; nor is a check interval of the supervisors that is not positive, which the configuration does not refuse.
- Derive.Sample.ComputeDerived: the three energy aliases are written in one update.
- Identity registers are sized but not written, and what pymodbus does with a negative target address is not modelled.
- The order of the most common blocks in the activity summary is not modelled; the counts are.
- The reconnect delay of the hub stream is not modelled; the code never resets it, because its stream step only leaves by an exception.
- Single-field range checks, transport, name and metrics-port collisions, static debug values and identity registers: each would only add an easy member.
- `FaultReporter`, `connect_with_retry`, the watchdog, poll and recovery counters, metrics rendering and the command line: logging, retry delays and presentation.
