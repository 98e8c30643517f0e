# Verified models of the IRLight control plane, node and evidence tooling

The repository runs live media sessions: a control plane with accounts, a destination catalog and commands,
media nodes that decide between live input and a standby image, and scripts that inject network faults and
collect soak and capacity evidence. This project models the components in the table below and proves what
they promise. Each follows the branches, constants and error conditions of its source file. Times are real
numbers, integers are unbounded (the 32-bit, 14-bit and byte limits of the image formats are written out),
JSON is the identity on values, and a file is a value that is read or replaced atomically.

Check everything with `dafny verify dfyconfig.toml`.

| files | what they model |
|---|---|
| RateLimit, RateLimitRuns | the two-window authentication rate limiter and every run of attempts against it |
| Bytes, Crc, Png, Jpeg, WebP, Images | the image header parsers of node and control plane, the PNG writer, and when the two sides agree |
| MarkerSearch | the bounded chunked search for a "connected" marker in a child's stderr |
| Decimal, FaultPlan, FaultMatrix, FaultCases, FaultRun | network fault plans and what their commands do, the matrix of named cases, the check that regenerates a case, and carrying one out |
| Capacity, CapacityReport, CapacityRun, CapacityProvenance, CapacityCoverage | capacity evidence from the recorded trial to an accepted session cap |
| Continuity | the timed decision model with hysteresis |
| Catalog, CatalogRuns | destination verification, with the probe outside the lock, under every interleaving |
| Soak | the two soak schedulers and the report validator |
| SessionGc | bounded session garbage collection and its read-only estimator |
| DnsFault | applying and removing firewall rules when any command may fail or be interrupted |
| Control | the versioned audio command and the fail-safe reader |
| Prelude, Environment | result types and numeric helpers, and how an injector's command may end |

A class or a method with a loop stands where the source changes state or loops; its contract ties the
result to a function, and lemmas say what that function means.

## Where a promise needs a condition

Five promises do not hold for every input. The code is modelled as it is, and each has its exact condition.

- The node sees only the first MiB of an image. It agrees with the control plane if and only if no JPEG
  frame header ends beyond that MiB (`NodeAgreesWithControlPlane`); `LateFrameHeaderIsRefused` builds a
  file that the control plane accepts and the node refuses.
- The marker search depends on the chunking if and only if the stream outgrows the budget and its first
  marker ends within the last chunk length of the budget (`ChunkIndependence`,
  `LateMarkerDependsOnChunks`).
- An accepted control command may be repeated later. The repetition changes nothing if and only if the
  command named the version it expected or its key is still the last accepted one (`LateRetry`); without an
  expected version, `ForgottenKey` executes it twice.
- `run_sampling` plans each wait from a fresh reading after the collection. Its bound of ceil(D/I)+1 samples
  holds for every clock if and only if the duration is at most the interval (`AnyClockIsBounded`,
  `ClockBreaksBound`); for longer runs it holds as long as the clock never falls below the slot of the last
  sample, so for every monotone clock (`KeptSlotsBound`, `MonotoneKeepsSlots`). `collect_on_schedule` keeps
  the bound for any clock.
- Applying a network fault and cleaning up leaves every device as it was if and only if the device had no
  configured root discipline before (`CleanupUndoesApply`); the commands replace and delete it.

Two further facts a reader may not expect. The continuity decision needs ordered times: an observation
stamped too early after a decided lapse leaves its run without a start, and no decision is LIVE until the
next gap (`LapseThenObservation`, `StrandedStays`, `OutOfOrderIsStranded`). And a valid capacity report is
accepted only in normal form, so one that writes 60 where the recorder wrote 60.0 is refused
(`AcceptedIffNormalForm`).

## Model

| member | source | states |
|---|---|---|
| RateLimit.Table.PurgeExpired | apps/control-api/auth_rate_limit.py:496-499 | the in-place purge leaves exactly the keys that have a window still running |
| RateLimit.Table.EarliestRelease | apps/control-api/auth_rate_limit.py:502-506 | the reported wait is the rounded-up time to the least of the latest resets, at least one second |
| RateLimit.BlockedUntilIsExhausted | apps/control-api/auth_rate_limit.py:534-544 | the list of blocking resets is empty exactly when every window has room, and lists exactly the exhausted windows |
| RateLimit.ReopenWindows | apps/control-api/auth_rate_limit.py:534-542 | the first loop reopens every elapsed window, collects the exhausted ones, and reports a change exactly when one had elapsed |
| RateLimit.CountAttempt | apps/control-api/auth_rate_limit.py:546-548 | the second loop adds one to every window and changes nothing else |
| RateLimit.ChargeInPlace | apps/control-api/auth_rate_limit.py:534-548 | both loops together are the charge of one key; only an admission or an elapsed window counts as a change |
| RateLimit.StepOfCharge | apps/control-api/auth_rate_limit.py:517-548 | the change flag is true exactly when the table differs from the one before the attempt |
| RateLimit.Table.RegisterAttempt | apps/control-api/auth_rate_limit.py:509-548 | the whole method computes the abstract step: resulting table, answer, delay and change flag |
| RateLimit.Shard.Enforce | apps/control-api/auth_rate_limit.py:591-598 | skipping the write of an unchanged table stores the same table as always writing |
| RateLimitRuns.MoveFollows | apps/control-api/auth_rate_limit.py:517-548 | an attempt by any key moves a watched window only as a window may move: admitted only with room, reopened only when elapsed |
| RateLimitRuns.MovesChain | apps/control-api/auth_rate_limit.py:509-548 | every chronological run, with its purges, re-creations and refusals, is a chain of such moves |
| RateLimitRuns.ChainBound | apps/control-api/auth_rate_limit.py:534-548 | a chain admits at most the room of its running window plus one limit for each window that can open in the span |
| RateLimitRuns.SpanBound | apps/control-api/auth_rate_limit.py:534-548 | the same for a span that begins anywhere in the chain |
| RateLimitRuns.AdmissionBound | apps/control-api/auth_rate_limit.py:496-548 | for every run from any table, every key and window: at most (k+1)*L admissions in any half-open span of k windows |
| RateLimitRuns.PurgingIsUnobservable | apps/control-api/auth_rate_limit.py:496-548 | without saturation the answers and delays of a key equal those of a limiter that never purges and always writes, and depend on its own attempts only |
| RateLimitRuns.FewKeysNeverFull | apps/control-api/auth_rate_limit.py:524-529 | a run that mentions no more keys than the bound never meets a full table |
| RateLimitRuns.TableBounded | apps/control-api/auth_rate_limit.py:517-532 | over every run the table stays within its bound |
| RateLimitRuns.StepTouchesItsKey | apps/control-api/auth_rate_limit.py:509-548 | an attempt drops the fully elapsed keys, leaves every other key as it is, writes its own unless the table is full, and reports a change exactly when the table differs |
| RateLimitRuns.SaturatedRelease | apps/control-api/auth_rate_limit.py:502-529 | after a refusal by a full table the key is admitted exactly from the first expiry of a tracked key on |
| RateLimitRuns.ExhaustedRelease | apps/control-api/auth_rate_limit.py:534-544 | after a refusal by exhausted windows the key is admitted exactly from the last of their resets on |
| RateLimitRuns.DelayIsExact | apps/control-api/auth_rate_limit.py:502-548 | every denial has one release instant, and the delay is the wait for it rounded up |
| RateLimitRuns.RetryAfterDelay | apps/control-api/auth_rate_limit.py:502-548 | after a denial with delay r the key is admitted at every time from now+r on and still denied up to now+r-1 |
| Bytes.Pack32RoundTrip | apps/continuity/make_default_standby.py:10-13 | a packed 32-bit number is read back by the big-endian reader |
| Crc.CrcConcat | apps/continuity/standby_asset.py:221-222 | a checksum continued over a second block is the checksum of both blocks together |
| Crc.MaskedCrc | apps/continuity/make_default_standby.py:10-13 | masking a checksum with 32 ones changes nothing, so writer and parsers compare the same value |
| Png.ParsersAgree | apps/control-api/asset_processing.py:35-63 | the two PNG parsers, which checksum in one or in two pieces, are the same function |
| Png.ParserIsExact | apps/continuity/standby_asset.py:211-246 | a parser returns d exactly on the payloads that begin with a well-formed header chunk for d |
| Png.DepthsByColor | apps/continuity/standby_asset.py:226-239 | depths below a byte are for grey and palette images, and a palette has no 16-bit depth |
| Png.WriterRoundTrip | apps/continuity/make_default_standby.py:16-29 | both parsers read back the size of every file the writer can build, for all sizes that fit 32 bits |
| Png.FileRoundTrip | apps/continuity/make_default_standby.py:10-29 | read chunk by chunk, the written file is an 8-bit true-colour header for the frame, the compressed rows and the end, with valid checksums and nothing behind |
| Jpeg.SkipFillBytes | apps/continuity/standby_asset.py:276-279 | the inner loop stops at the first byte that is not a fill byte, within bounds |
| Jpeg.FrameAt | apps/continuity/standby_asset.py:301-312 | the frame branch returns the dimensions exactly when precision, component count and length agree |
| Jpeg.BehindMarker | apps/continuity/standby_asset.py:281-314 | one round of the loop either ends with the walk's result or goes on at an offset with the same result |
| Jpeg.JpegDimensions | apps/continuity/standby_asset.py:268-316 | the offset loop terminates, never leaves the payload, and returns the result of the recursive walk on arbitrary bytes |
| Jpeg.WalkIsExact | apps/continuity/standby_asset.py:268-316 | a payload is accepted with (w, h) after n bytes if and only if those bytes are fill bytes, standalone markers and segments followed by a valid frame header for (w, h) |
| Jpeg.MarkerClasses | apps/continuity/standby_asset.py:281-301 | frame markers are C0 to CF without C4, C8 and CC; TEM, restart markers and SOI are stepped over; a zero byte, EOI and SOS end the walk |
| Jpeg.EncoderRoundTrip | apps/control-api/asset_processing.py:74-116 | whatever items precede the frame and whatever bytes follow, the encoded dimensions are returned |
| Jpeg.WalkOfPrefix | apps/continuity/standby_asset.py:268-316 | on a prefix the walk finds the same header or runs out before the header ends |
| WebP.LosslessFields | apps/continuity/standby_asset.py:344-351 | the shifts and masks read the two 14-bit fields of the little-endian word |
| WebP.WebpOfPrefix | apps/continuity/standby_asset.py:319-363 | a prefix of at least 30 bytes decides like the whole file |
| WebP.ParserReadsChunk | apps/continuity/standby_asset.py:327-363 | the parser reads size fields and chunk as their arithmetic meaning: masks are remainders |
| WebP.WebpIsExact | apps/continuity/standby_asset.py:319-363 | a whole file is accepted with dimensions d if and only if it opens as a RIFF container of its own length whose first chunk fits and carries d |
| Images.AcceptedBlobIsTrue | apps/control-api/asset_processing.py:170-209 | an accepted blob reports the type of its signature, its length, and dimensions within the limits |
| Images.SafeMeansBounded | apps/continuity/standby_asset.py:378-384 | the division test is the pixel limit: w <= MAX // h exactly when w*h <= MAX |
| Images.BlobIsExact | apps/control-api/asset_processing.py:156-209 | a blob is accepted with a type and size if and only if its bytes are a PNG, JPEG or WebP image of that size in the terms of the format, within the limits on bytes, sides and pixels |
| Images.DimensionsOfPrefix | apps/continuity/standby_asset.py:141-153 | what the node reads from the first MiB equals what the control plane reads from the file, unless a JPEG frame header ends beyond it |
| Images.NodeAgreesWithControlPlane | apps/control-api/asset_processing.py:156-209 | the node accepts a file with dimensions d if and only if the control plane accepts it with d and no JPEG frame header ends beyond the first MiB |
| Images.LateFrameHeaderIsRefused | apps/continuity/standby_asset.py:366-384 | a file that the control plane accepts and the node refuses, built from full application segments |
| MarkerSearch.TailLosesNothing | apps/control-api/destination_probe.py:489-524 | a tail one byte shorter than the marker loses no match across a chunk boundary |
| MarkerSearch.WindowSearch | apps/control-api/destination_probe.py:518-524 | searching tail and chunk for any marker equals searching everything read so far |
| MarkerSearch.WindowIsEnough | apps/control-api/destination_probe.py:518-524 | window and carried tail stand for everything read so far |
| MarkerSearch.TakeChunk | apps/control-api/destination_probe.py:502-524 | one read leads to the event or position that a search from the start of the stream gives, and keeps the tail |
| MarkerSearch.TailOfWindow | apps/control-api/destination_probe.py:518-524 | cutting the tail from the window keeps the tail of the whole stream |
| MarkerSearch.ReadStderrEvent | apps/control-api/destination_probe.py:489-524 | the reader agrees with plain search of the consumed prefix; at most MAX+1 bytes are consumed; the events say what they should about the bytes |
| MarkerSearch.EventsAreTrue | apps/control-api/destination_probe.py:498-524 | for every chunking, CONNECTED means a marker within the budget, EOF means no marker anywhere, OVERFLOW means more than the budget |
| MarkerSearch.OutcomeIsExact | apps/control-api/destination_probe.py:502-526 | the first poll after which the reader cannot go on decides: stop request, failing read, end of stream, overflow or marker, each with its own outcome |
| MarkerSearch.WaitingIsExact | apps/control-api/destination_probe.py:502-526 | the reader is still waiting if and only if no poll was a stop or a fault and no read met the end, the budget or a marker |
| MarkerSearch.IdleIsUnobservable | apps/control-api/destination_probe.py:505-508 | empty waits change no outcome, however many and wherever |
| MarkerSearch.EnoughReadsDecide | apps/control-api/destination_probe.py:502-524 | undisturbed, more reads than bytes it may take lead to a verdict |
| MarkerSearch.ShortStreamVerdict | apps/control-api/destination_probe.py:498-524 | a stream within the budget is decided by its bytes alone |
| MarkerSearch.UsualVerdict | apps/control-api/destination_probe.py:498-524 | so is every longer stream whose first marker does not end in the last chunk length of the budget |
| MarkerSearch.LateMarkerDependsOnChunks | apps/control-api/destination_probe.py:498-524 | with such a late marker two chunkings of the same bytes reach opposite verdicts |
| MarkerSearch.ChunkIndependence | apps/control-api/destination_probe.py:489-524 | the verdict is independent of the chunking if and only if there is no late marker |
| Continuity.ContinuityState.Create | apps/continuity/state.py:51-63 | settings are refused exactly when the timeout is not positive or the window is negative |
| Continuity.ContinuityState.ObserveVideo | apps/continuity/state.py:69-76 | the start of the run moves exactly when the previous observation is missing or too old |
| Continuity.ContinuityState.ObserveAudio | apps/continuity/state.py:78-80 | only the audio time changes |
| Continuity.ContinuityState.SetAudioMode | apps/continuity/state.py:65-67 | only the wanted mode changes |
| Continuity.ContinuityState.Decide | apps/continuity/state.py:82-123 | the decision and the forgotten run start, as a function of the three timestamps |
| Continuity.RunRemembers | apps/continuity/state.py:69-97 | over every ordered history the timestamps are the last observations and the start of the maximal unbroken run |
| Continuity.RunStartIsMaximal | apps/continuity/state.py:69-76 | the remembered start begins the maximal run without a gap above the timeout |
| Continuity.DecisionMeaning | apps/continuity/state.py:65-123 | the decision is a function of the history: LIVE exactly when an unbroken run reaches from a stable window ago to within the timeout of now |
| Continuity.OnlyVideoMatters | apps/continuity/state.py:65-123 | audio, mode and query events never change the video decision |
| Continuity.NoEarlyRecovery | apps/continuity/state.py:93-108 | no LIVE decision comes within a stable window after a HOLDING one |
| Continuity.LapseThenObservation | apps/continuity/state.py:69-97 | after a decided lapse an observation starts a new run unless its time is within the timeout of the last one before the lapse, which takes a time earlier than the decision |
| Continuity.StrandedStays | apps/continuity/state.py:69-108 | with the start of the run forgotten, no decision is LIVE however long the observations go on without a break |
| Continuity.OutOfOrderIsStranded | apps/continuity/state.py:69-108 | one out-of-order history on which the decision is STABILIZING where its meaning for ordered histories is LIVE |
| SessionGc.NSmallest | apps/control-api/auth_session_gc.py:73-89 | the selection takes as many as the limit allows, each older by (expiry, hash) than every one left |
| SessionGc.ExpiredTokenHashes | apps/control-api/auth_session_gc.py:73-89 | the counting pass finds all expired sessions and selects the oldest of them |
| SessionGc.SessionStore.PruneExpired | apps/control-api/auth_session_gc.py:92-126 | a run removes the oldest expired sessions only, reports the counts, and a dry run or an error changes nothing |
| SessionGc.RunIsDetermined | apps/control-api/auth_session_gc.py:73-126 | store, time and limit determine what is left |
| SessionGc.OldestGoFirst | apps/control-api/auth_session_gc.py:73-126 | a session that has not expired stays, none that went expired later than an expired one that stays, ties go by hash, and with room for all every expired one goes |
| SessionGc.FirstDifference | apps/control-api/auth_session_gc.py:73-89 | ties are broken by the usual order of texts |
| SessionGc.RunThenRun | apps/control-api/auth_session_gc.py:92-126 | two runs are one run with the sum of the limits |
| SessionGc.RunsCompose | apps/control-api/auth_session_gc.py:92-126 | k runs with limit m delete exactly what one run with limit k*m deletes |
| SessionGc.EstimateIsExact | apps/control-api/auth_session_retention_inspect_cli.py:167-182 | the estimate is the least number of runs that leaves nothing expired, in both directions |
| SessionGc.CountSessions | apps/control-api/auth_session_retention_inspect_cli.py:155-182 | the counting loop, in any order, yields the true totals and the active count of every user |
| SessionGc.InspectRetention | apps/control-api/auth_session_retention_inspect_cli.py:155-188 | every reported figure equals the cardinality it stands for |
| DnsFault.PlanRules | scripts/network-dns-fault-injector.py:105-159 | the two rules of a fault are distinct |
| DnsFault.RulesAreItsOwn | scripts/network-dns-fault-injector.py:105-159 | a fault rejects both transports of DNS at one resolver, and shares a rule with another fault only if resolver and rule identifier are the same |
| DnsFault.Namespace.Run | scripts/network-dns-fault-injector.py:162-194 | a command acts or not and ends as the environment decides, exactly; success means one matching rule was inserted or removed |
| DnsFault.Namespace.CheckRules | scripts/network-dns-fault-injector.py:230-234 | the preflight checks in order, stops at the first rule that is there or at a check without an answer, and changes nothing |
| DnsFault.Namespace.InsertRules | scripts/network-dns-fault-injector.py:240-247 | insertions in order until one does not succeed; what is inserted lies on top of the initial chain |
| DnsFault.Namespace.CleanupApplied | scripts/network-dns-fault-injector.py:197-207 | each attempted rule gets exactly one deletion, in reverse order, even after failures; success leaves nothing behind |
| DnsFault.Namespace.ApplyDnsFault | scripts/network-dns-fault-injector.py:210-264 | the outcome is determined by how the commands ended: 0 or 130 only after a complete cleanup, 130 exactly for an interrupt; then the chain is as before, and on every path each attempted rule gets one deletion |
| DnsFault.Namespace.ClearDnsFault | scripts/network-dns-fault-injector.py:267-293 | both deletions are always attempted, and success is reported exactly when both succeeded and both rules are removed |
| DnsFault.RemoveFromTop | scripts/network-dns-fault-injector.py:197-207 | deleting an inserted rule never reaches the initial rules |
| DnsFault.DeletionStep | scripts/network-dns-fault-injector.py:197-207 | a deletion shrinks the inserted layer by at most its own rule and keeps the initial chain |
| Control.ControlStore.Read | apps/control-api/control_store.py:118-130 | a read succeeds exactly on a valid stored record |
| Control.ControlStore.Write | apps/control-api/control_store.py:132-168 | only valid records are published; a refused write changes nothing |
| Control.ControlStore.Ensure | apps/control-api/control_store.py:170-180 | the default is written only into a store that never had a record |
| Control.ControlStore.Update | apps/control-api/control_store.py:186-228 | reply and stored record of an update, in the order of the checks |
| Control.ControlStateReader.Read | apps/continuity/control_state.py:79-99 | a poll reports the file or falls back, and remembers the last valid command |
| Control.ValidatorsAgree | apps/continuity/control_state.py:41-77 | store and reader accept the same records, so the reader accepts every published one |
| Control.StepKeepsInv | apps/control-api/control_store.py:186-228 | each update or poll keeps: versions count up from zero, the reader remembers a published command, reports never go back |
| Control.RunKeepsInv | apps/control-api/control_store.py:186-228 | the same over every run |
| Control.VersionCountsAccepted | apps/control-api/control_store.py:220-228 | the version grows by the number of accepted commands |
| Control.RunFromStart | apps/control-api/control_store.py:49-57 | the first record is LIVE at version 0 without a command, and from it on the version equals the number of accepted commands |
| Control.RunPublishes | apps/control-api/control_store.py:186-228 | a run publishes one record for each accepted request, in order, each with the mode, key, new command identifier and time of its own request |
| Control.ReportsArePublished | apps/continuity/control_state.py:79-99 | after its first success the reader reports only published (mode, version, command) triples, and MUTED before; the problem it reports is the one it met |
| Control.OneWinnerPerVersion | apps/control-api/control_store.py:209-228 | at most one command with a given expected version is ever accepted |
| Control.ReplyMatchesStore | apps/control-api/control_store.py:194-228 | a successful reply is the published record, a refusal publishes nothing, and each conflict is raised exactly on its condition |
| Control.ImmediateRetry | apps/control-api/control_store.py:208-217 | an immediate retry with the same key returns the same record and changes nothing |
| Control.LateRetry | apps/control-api/control_store.py:209-228 | an accepted request repeated after any run of requests and polls changes nothing if and only if it named an expected version or its key is still the last accepted one |
| Control.ForgottenKey | apps/control-api/control_store.py:209-228 | without an expected version a request is executed again after another command came between |
| Catalog.ApplyPatch | apps/control-api/catalog_store.py:434-447 | the field-by-field edit is the patched record: verification fields fall only with a changed URL |
| Catalog.CatalogStore.Save | apps/control-api/catalog_store.py:348-351 | a catalog that the reader would refuse is never written |
| Catalog.CatalogStore.CreateDestination | apps/control-api/catalog_store.py:370-400 | new state and reply of a creation, including the refusals |
| Catalog.CatalogStore.UpdateDestination | apps/control-api/catalog_store.py:419-450 | new state and reply of an edit, including the refusals |
| Catalog.CatalogStore.DeleteDestination | apps/control-api/catalog_store.py:453-458 | exactly the owned record goes |
| Catalog.CatalogStore.ReadForVerification | apps/control-api/catalog_store.py:475-479 | the first locked section returns the URL and the lower-cased type of an owned record |
| Catalog.CatalogStore.RecordVerificationFailure | apps/control-api/catalog_store.py:524-541 | new state and reply of a failed verification, which FailureIsRecorded and StaleVerdictIsVoid spell out |
| Catalog.CatalogStore.RecordVerificationSuccess | apps/control-api/catalog_store.py:503-521 | a success is recorded only on a record that still has the URL |
| Catalog.CatalogStore.VerifyDestination | apps/control-api/catalog_store.py:461-521 | an undisturbed verification stamps the verdict about the URL it read |
| Catalog.LowerIgnoresCase | apps/control-api/catalog_store.py:475-498 | types, schemes and protocols are compared without the case of ASCII letters |
| CatalogRuns.PatchTruthful | apps/control-api/catalog_store.py:434-447 | an edit keeps verification fields only together with the URL they are about |
| CatalogRuns.StampTruthful | apps/control-api/catalog_store.py:503-541 | stamping a confirmed verdict keeps a record truthful |
| CatalogRuns.StepKeeps | apps/control-api/catalog_store.py:370-541 | each creation, edit, deletion, read, probe answer and write-back keeps every record truthful |
| CatalogRuns.RunKeeps | apps/control-api/catalog_store.py:370-541 | so does every interleaving |
| CatalogRuns.RecordsAreTruthful | apps/control-api/catalog_store.py:461-541 | from the empty catalog, VERIFIED means a probe of exactly the current URL succeeded over the stored transport with the protocol of the type, a time is set and the error is empty; FAILED means a failed verification of exactly that URL |
| CatalogRuns.StepsMakeVerification | apps/control-api/catalog_store.py:461-541 | the three steps in a row, without interference, are the one operation of the store |
| CatalogRuns.SuccessIsRecorded | apps/control-api/catalog_store.py:503-521 | undisturbed, a fitting answer from the current URL makes the record VERIFIED with that transport and time, and changes no other record |
| CatalogRuns.FailureIsRecorded | apps/control-api/catalog_store.py:481-501 | undisturbed, any answer that does not fit makes the record FAILED with the first 200 characters of the reason and no transport; URL, last verification time and every other record stay |
| CatalogRuns.VerificationReply | apps/control-api/catalog_store.py:481-541 | the reply is the verified record or the reason; only a clock below zero keeps a verdict from being written |
| CatalogRuns.StaleVerdictIsVoid | apps/control-api/catalog_store.py:503-534 | a verdict about another URL changes nothing, and the reply says so |
| CatalogRuns.CreationIsExact | apps/control-api/catalog_store.py:370-400 | when a creation is accepted, and the enabled, unverified record that it adds |
| CatalogRuns.EditIsExact | apps/control-api/catalog_store.py:419-450 | an edit changes the fields it names and no others, and resets the verification exactly when the URL changes |
| CatalogRuns.EditIsRefused | apps/control-api/catalog_store.py:419-450 | which edits are refused with which error; a refused edit changes nothing |
| CatalogRuns.DeletionIsFinal | apps/control-api/catalog_store.py:453-458 | the owner removes exactly this record, and no later run brings it back |
| CatalogRuns.OthersCannotTouch | apps/control-api/catalog_store.py:419-541 | whatever is done on behalf of others, in any interleaving, leaves the records of a user as they are |
| Soak.TargetIsNext | scripts/run-soak-sampling.py:104-122 | the closed form is the first multiple of the interval after the elapsed time, capped; the guard against a target not after it is never taken |
| Soak.WaitUntil | scripts/run-soak-sampling.py:358-376 | the loop is the wait over the remaining readings; a finished wait has read a time at or after the deadline |
| Soak.AwaitNext | scripts/run-soak-sampling.py:420-445 | one turn of the loop; when it completes, it has waited at least until the target that follows the reading before it |
| Soak.SampleUntilEnd | scripts/run-soak-sampling.py:417-458 | the loop emits exactly the samples, and ends with exactly the result, of the recursive run over the remaining readings |
| Soak.RunSampling | scripts/run-soak-sampling.py:398-458 | result and samples are those of the recursive run; every sample was collected; a completed run starts at 0, is strictly increasing and covers the duration; a monotone clock yields at most ceil(D/I)+1 samples |
| Soak.SampledIsEvidence | scripts/run-soak-sampling.py:417-458 | whatever the clock does, the samples rise strictly from the last one, and a completed run reaches the end |
| Soak.WaitIsExact | scripts/run-soak-sampling.py:358-376 | a wait ends at its first reading that is unusable or has reached the deadline, with the matching result, or runs out of readings |
| Soak.AwaitIsExact | scripts/run-soak-sampling.py:420-445 | the same for a turn, whose first reading sets the deadline |
| Soak.SampledIsCollected | scripts/run-soak-sampling.py:447-457 | every sample was collected, all but the last lie before the end, and a run that ends by a failing collector failed to collect the next one |
| Soak.SampledEnds | scripts/run-soak-sampling.py:417-457 | a run short of its end is ended by the clock in the turn after its last sample, or by the collector there |
| Soak.CollectorCutsRun | scripts/run-soak-sampling.py:398-458 | the first collection that fails cuts the run that an unfailing collector would give, and changes nothing else |
| Soak.KeptSlotsBound | scripts/run-soak-sampling.py:420-457 | at most ceil(D/I)+1 samples as long as the clock, after a collection, has not fallen below the slot of the last sample |
| Soak.MonotoneKeepsSlots | scripts/run-soak-sampling.py:420-457 | a monotone clock never falls below the slot of the last sample |
| Soak.ClockBreaksBound | scripts/run-soak-sampling.py:420-457 | for an interval shorter than the run, a clock that reads zero after every collection yields any number of samples |
| Soak.AnyClockIsBounded | scripts/run-soak-sampling.py:420-457 | the count bound holds for every clock if and only if the duration is at most the interval |
| Soak.GoalGrows | scripts/run-soak-sampling.py:104-122 | a later reading never leads to an earlier target, and every target lies ahead |
| Soak.PacedCount | scripts/run-soak-sampling.py:417-458 | at most one sample a slot and the one at zero: ceil(D/I)+1 in all |
| Soak.LandsOnTarget | scripts/orchestrate-soak-samples.py:180-185 | the first multiple after the observation, capped, is the closed form of the other scheduler |
| Soak.CatchUp | scripts/orchestrate-soak-samples.py:180-185 | the catch-up loop lands on the target of the closed form |
| Soak.Observe | scripts/orchestrate-soak-samples.py:163-174 | an observation needs two readings not before the start, and counts from the slot that was due or from the clock, whichever is later |
| Soak.CollectSlots | scripts/orchestrate-soak-samples.py:160-187 | every sample is collected and is exactly the later of the next slot after its predecessor and the clock; the result is determined by samples, readings and collector |
| Soak.CollectOnSchedule | scripts/orchestrate-soak-samples.py:136-187 | the same for the whole run: every completed run covers the duration in strict order, any clock yields at most ceil(D/I)+1 samples, and a failing collector ends the run |
| Soak.ValidateReport | scripts/validate-soak-report.py:255-307 | the neighbour-by-neighbour loop accepts exactly the well-ordered reports that meet the pass conditions |
| Soak.PassIsEvidence | scripts/validate-soak-report.py:262-307 | a passing report is accepted exactly when its times are evidence for the whole run, as a completed run gives them, its counters start at zero and never decrease, and cleanup was verified |
| Decimal.ValueOfFormat | scripts/network-fault-matrix.py:244-321 | the digits of a formatted number denote it |
| Decimal.NumberThenText | scripts/network-fault-matrix.py:244-321 | a number followed by text that starts with no digit is read back uniquely |
| FaultPlan.AcceptedIsWellFormed | scripts/network-fault-injector.py:110-166 | the chain of checks accepts exactly the faults with one kind of loss or none, bounded shaping, or a lone disconnect |
| FaultPlan.ComplaintIsTrue | scripts/network-fault-injector.py:110-166 | every complaint names a defect of the request |
| FaultPlan.LossIsRead | scripts/network-fault-injector.py:168-184 | the loss arguments of a command, read with their units and in front of any others, give back exactly the kind and the numbers of the loss |
| FaultPlan.ExtendWithShaping | scripts/network-fault-injector.py:185-190 | the delay and rate part of the growing argument vector |
| FaultPlan.BuildFaultPlan | scripts/network-fault-injector.py:91-199 | the first complaint in the order of the checks, or the two commands |
| FaultPlan.PlannedIff | scripts/network-fault-injector.py:91-199 | a plan is made for exactly the well-formed faults on permitted devices of named namespaces |
| FaultPlan.PlanRoundTrip | scripts/network-fault-injector.py:168-199 | read word by word, the first command puts exactly the requested fault on the named device of the named namespace, the second removes what is there, and the duration is kept |
| FaultPlan.CleanupUndoesApply | scripts/network-fault-injector.py:168-199 | applying configures one device and no other; applying and cleaning up leaves every device as before if and only if this one was not configured before |
| FaultPlan.PlanStaysInNamespace | scripts/network-fault-injector.py:168-199 | the fixed words of the first command and the whole second command, with the named namespace and device |
| FaultMatrix.Normalise | scripts/network-fault-matrix.py:53-125 | the loop refuses a list with a bad value, and otherwise keeps every value once |
| FaultMatrix.FirstErrorIsFirst | scripts/network-fault-matrix.py:53-125 | the complaint is that of the first bad value |
| FaultMatrix.DistinctKeepsOrder | scripts/network-fault-matrix.py:43-125 | the values that are kept stand in the order of their first occurrences |
| FaultCases.ProtocolsAreSupported | scripts/network-fault-matrix.py:43-50 | a protocol list is accepted exactly when it is not empty and every name is supported; none is lost or repeated |
| FaultMatrix.TailDetermines | scripts/network-fault-matrix.py:239-330 | the variable part of a case name determines the profile |
| FaultMatrix.IdDetermines | scripts/network-fault-matrix.py:239-330 | a case name determines the protocol, the profile and, but for disconnects, the profile duration |
| FaultMatrix.NameTellsFault | scripts/network-fault-matrix.py:166-209 | a case is named for its protocol and for what its fault does, and carries the plan of that fault |
| FaultCases.ProfilesAreAsked | scripts/network-fault-matrix.py:240-329 | the expansion of one protocol holds exactly the requested profiles |
| FaultCases.ProfilesAreExact | scripts/network-fault-matrix.py:240-329 | that is every supported loss, latency and disconnect, and the burst losses, jitters and rates asked for |
| FaultCases.ProfilesInOrder | scripts/network-fault-matrix.py:240-329 | the kinds of profile follow each other in the order of the source |
| FaultCases.MakeCase | scripts/network-fault-matrix.py:166-209 | a case is its name, fault and plan, or the complaint of the planner |
| FaultCases.ExpandProtocol | scripts/network-fault-matrix.py:240-329 | the inner loops append one case for each profile, or stop at the first complaint |
| FaultCases.CheckRequest | scripts/network-fault-matrix.py:232-237 | the normalisers in their order compute the normalised request or its first complaint |
| FaultCases.ExpandProtocols | scripts/network-fault-matrix.py:239-329 | the outer loop computes all cases of a normalised request, or the complaint of the planner |
| FaultCases.BuildMatrix | scripts/network-fault-matrix.py:212-330 | checking and expanding compute the matrix of the request, or its first complaint |
| FaultCases.MembersOfAllCases | scripts/network-fault-matrix.py:239-330 | a case is in the matrix exactly when it expands a requested profile for a requested protocol |
| FaultCases.MatrixIsExact | scripts/network-fault-matrix.py:212-330 | in terms of the request as made: a matrix exists exactly for supported values on a permitted device, and holds exactly the cases of requested profiles and protocols |
| FaultCases.MatrixIdsAreDistinct | scripts/network-fault-matrix.py:239-330 | no two cases of a matrix share a name |
| FaultCases.NamesAreUniversal | scripts/network-fault-matrix.py:239-330 | a name means the same protocol and fault in every matrix that has it, whatever the requests |
| FaultCases.SelectCase | scripts/network-fault-case-runner.py:43-69 | the first case with the name, or the refusal |
| FaultCases.EmittedIsRegenerated | scripts/network-fault-case-runner.py:72-195 | every case of every accepted matrix is returned unchanged under the same loopback flag |
| FaultCases.ExecutableIffEmitted | scripts/network-fault-case-runner.py:167-195 | a case may be executed if and only if some accepted request emits it |
| FaultCases.ExecutableIsConfined | scripts/network-fault-case-runner.py:87-195 | the commands of an executable case put one well-formed bounded fault on one permitted device in the named namespace and remove it, word for word |
| FaultCases.ValidatedGeneratedCase | scripts/network-fault-case-runner.py:72-195 | the check computes regenerate-and-compare and succeeds exactly on emitted cases |
| FaultRun.Host.Run | scripts/network-fault-case-runner.py:198-214 | a command has its effect or not and ends as the environment decides |
| FaultRun.Host.ApplyPlan | scripts/network-fault-injector.py:361-390 | whatever fails or is interrupted, the cleanup is tried once and no other device changes; the outcome is determined by how the two commands and the wait ended, and every outcome but a failed cleanup leaves the device unconfigured |
| FaultRun.Host.ExecuteCase | scripts/network-fault-case-runner.py:217-277 | only an acknowledged case that the matrix emits reaches the host, and success means apply, wait and cleanup all succeeded |
| FaultRun.CommandsAct | scripts/network-fault-case-runner.py:198-214 | what the two commands of a plan do, whatever is configured before them |
| Capacity.NormalizeTrials | scripts/validate-node-capacity-report.py:171-236 | the loop returns the normalised trials or the first complaint |
| Capacity.NormaliseIsExact | scripts/validate-node-capacity-report.py:186-236 | accepted exactly are the ladders: sound trials, rising levels, nothing passing above a failure; only numbers are turned into floats |
| Capacity.ComplaintIsTrue | scripts/validate-node-capacity-report.py:186-236 | every complaint names a defect of the trial |
| Capacity.NormaliseIsIdempotent | scripts/validate-node-capacity-report.py:171-236 | normalising twice changes nothing more |
| Capacity.NormaliseGrows | scripts/validate-node-capacity-report.py:186-236 | a normalised file grows one trial at a time: old lines stay and the new one is judged against them |
| CapacityReport.SelectOfSplit | scripts/validate-node-capacity-report.py:270-275 | the two comprehensions cut a ladder into its passing and its failing part |
| CapacityReport.SummaryIsBoundary | scripts/validate-node-capacity-report.py:277-303 | the summary is the measured boundary, and the recommendation is the largest cap that keeps the margin |
| CapacityReport.ReportIsExact | scripts/validate-node-capacity-report.py:239-303 | exactly when a report is accepted, and what its summary then says; the reversed-boundary complaint is never made |
| CapacityRun.LevelsOfCanonical | scripts/run-node-capacity-scenario.py:360-369 | a canonical plan has the same levels for each of its five scenarios and none for other names |
| CapacityRun.AppendKeepsNormal | scripts/record-node-capacity-trial.py:337-360 | a normalised file stays normalised, one sound trial longer, exactly when the longer list is a ladder within the limit |
| CapacityRun.JudgeTrial | scripts/record-node-capacity-trial.py:337-360 | the new trial is normalised alone and then behind the recorded ones |
| CapacityRun.TrialFile.AppendTrial | scripts/record-node-capacity-trial.py:325-407 | success appends exactly one normalised trial; every failure, also after the write, leaves the file and its existence as before |
| CapacityRun.ClimbLevels | scripts/run-node-capacity-scenario.py:370-395 | the loop over the levels, with early stop, leaves on file and in its variables what the recursive climb says |
| CapacityRun.RunScenario | scripts/run-node-capacity-scenario.py:335-425 | refusals before the run, of evidence file, manifest path, identity, plan or scenario, touch nothing; otherwise file and result are those of the climb, and a manifest that cannot be published fails the run and leaves the trials |
| CapacityRun.StartsIff | scripts/run-node-capacity-scenario.py:335-369 | when a run starts: no evidence on file, a canonical plan with the scenario, and a usable manifest path and identity or neither |
| CapacityProvenance.ClimbOne | scripts/run-node-capacity-scenario.py:380-395 | one more level keeps the file normalised and in step with the plan |
| CapacityProvenance.RunMeaning | scripts/run-node-capacity-scenario.py:369-395 | whatever the harness reports, a run without an error leaves normalised measurements of the first levels, all of them unless it stopped at a failure |
| CapacityProvenance.RunIsExact | scripts/run-node-capacity-scenario.py:369-395 | a run ends without an error and leaves these trials if and only if they are the normalised, kept measurements of the first levels, a ladder within the limit, and all of the levels unless the policy stopped at the only failure |
| CapacityProvenance.FileAfterRun | scripts/run-node-capacity-scenario.py:369-395 | also after an error the measurements made before stay on file, normalised and in order, and the error is that of the first level not on file |
| CapacityProvenance.SummaryIsTrue | scripts/run-node-capacity-scenario.py:396-425 | a concluded run reports what is on file, and its manifest, for a covered plan, vouches for it |
| CapacityProvenance.ManifestAcceptedIffCompleted | scripts/assemble-node-capacity-planned-report.py:109-200 | the manifest of a run has a valid shape and passes every check if and only if the run covered its plan |
| CapacityProvenance.AssembledIsValid | scripts/assemble-node-capacity-planned-report.py:203-280 | an assembled report is valid and carries the plan's levels and scenario and the manifest's identity |
| CapacityProvenance.AssembledIff | scripts/assemble-node-capacity-planned-report.py:149-280 | for every manifest and list of trials: a report is assembled if and only if the plan is canonical, the trials are a ladder over its levels, the manifest vouches for exactly this plan, scenario and trials, and the report is valid |
| CapacityProvenance.ScenarioPrefixIsUnique | scripts/assemble-node-capacity-planned-report.py:262-268 | the text that ties a report to its plan profile and scenario belongs to no other |
| CapacityProvenance.AcceptedIffRebuilt | scripts/validate-node-capacity-planned-report.py:155-202 | a report is accepted exactly when rebuilding it from its own metadata gives the same report |
| CapacityProvenance.CompletedRunIsProvable | scripts/validate-node-capacity-planned-report.py:175-202 | after a completed run the assembler succeeds exactly on valid reports, and the checker accepts what it makes |
| CapacityProvenance.PartialRunIsRefused | scripts/assemble-node-capacity-planned-report.py:185-190 | a run that did not cover its plan supports no report |
| CapacityProvenance.AcceptedIffNormalForm | scripts/validate-node-capacity-planned-report.py:175-197 | a report is accepted if and only if its normalised form is accepted and every measured number already is a float; schema validation gives both the same verdict |
| CapacityCoverage.CheckScenario | scripts/validate-node-capacity-plan-coverage.py:113-146 | one turn of the loop: the first complaint about a scenario's report, or its summary |
| CapacityCoverage.CollectScenarios | scripts/validate-node-capacity-plan-coverage.py:106-157 | the loop with its running comparisons computes the summaries or the first complaint |
| CapacityCoverage.ValidateCoverage | scripts/validate-node-capacity-plan-coverage.py:71-175 | the whole validator, with the least recommendation |
| CapacityCoverage.CoverAllIsExact | scripts/validate-node-capacity-plan-coverage.py:112-157 | accepted exactly are reports that each measure every level, with distinct run identifiers and one node profile, revision and margin |
| CapacityCoverage.LeastRecommendation | scripts/validate-node-capacity-plan-coverage.py:162-164 | the loop finds the least recommendation |
| CapacityCoverage.LeastIsLeast | scripts/validate-node-capacity-plan-coverage.py:162-164 | a cap is within the overall recommendation exactly when it is within each scenario's |
| CapacityCoverage.CapIsExact | scripts/validate-node-capacity-max-sessions.py:77-138 | a cap is accepted if and only if consistent evidence for its target recommends at least that much in every scenario |
| CapacityCoverage.RecommendationIsGreatest | scripts/validate-node-capacity-max-sessions.py:100-138 | the reported recommendation is the greatest cap that every scenario supports, and the headroom is the room below it |
| CapacityCoverage.DecisionDescribesEvidence | scripts/validate-node-capacity-max-sessions.py:100-138 | the decision counts one report for each scenario, and its margin is the margin of each |
| CapacityCoverage.CapIsSupported | scripts/validate-node-capacity-max-sessions.py:100-138 | an accepted cap c has 100*c <= highest_pass*(100-margin) in every scenario, every planned level tested, clean passes below the boundary, and c below every failing level |

## Left out

- Floating-point rounding and non-finite numbers: times and measurements are reals, so the overflow guards of `next_sampling_target` and the conversion errors of `float()` do not arise.
- The file-system boundary (identity checks, locks, fsync, temporary files, directory entries) and the size limits on report, trial and plan files; the recorder's failures after a write are modelled, a failing rollback is not.
- JSON text, regular expressions, URL splitting, IP addresses, UUID syntax, SHA-256 and HMAC: a run identifier carries the verdict of the UUID parser and is compared as text, so two spellings of one UUID count as two, a URL carries its scheme and the verdict of its safety check, digests are any deterministic functions with 64 hexadecimal characters, and limiter keys are given.
- Type and shape checks on untyped values (a boolean where a number belongs, a missing or extra field); Python's equality of 1, 1.0 and True in the comparison of a fault case is outside the typed model.
- Unicode: lower-casing and white space are the ASCII ones, and lengths count characters.
- The limiter under a clock that runs backwards: the run theorems assume chronological attempts. Shard selection and the secret are not modelled; one shard is.
- The write of PNG pixel rows: the compressed rows are a parameter of the writer.
- Process handling, cleanup timing and the network probes of the destination checker; the polls of the marker search are an arbitrary sequence of stop, idle, fault and data.
- Interrupts between two commands of the fault injectors: an interrupt is modelled inside a command or the wait. What the kernel does to packets under a fault, and the `clear` command of the network injector, which is the cleanup command alone.
- The load-plan renderer: a canonical plan is described by what rendering fixes, not by sorting and comparing. The repository-path checks of the coverage manifest are left out; it hands its reports to the coverage validator.
- Lock contention: a locked section is one atomic step. Catalog identifiers are never reused, as for random UUIDs.
- READY promotion of assets, which the code cannot reach, and the asset half of the catalog.
- Collectors, harnesses and probes: their answers are arbitrary inputs. Sample fields other than the elapsed time and the two cumulative counters are not part of a soak report here.
- GStreamer pipelines, HTTP routes, provider clients, command lines, checklists and bundles.
