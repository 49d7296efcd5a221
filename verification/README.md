# Jitter Observatory, verified

A Dafny model of the parts of Jitter Observatory whose correctness is not visible from one function:
the crash-safe store, the hashes and canonical bytes, the framed wire protocol, the worker runtime, replay
fencing, bounded windows, the restart, route generations with their episodes, evidence ageing and the
metrics. `dafny verify dfyconfig.toml` checks all of it.

## How it is organised

| files | subject |
|---|---|
| `Errors`, `CanonicalBytes`, `Lists`, `RecordForms` | outcomes, the byte writer and reader, bounded and sorted sequences, shapes shared by the record encodings |
| `Crc32c`, `Sha256`, `Sha256Constants`, `Sha256Vector` | the checksum and the digest, each against its bitwise or one-shot definition, and these against the published constants and values |
| `StoreFormat`, `StoreLoader`, `StoreRecovery`, `StoreWriter`, `StoreTheorems`, `StoreChain`, `StoreReport`, `StoreDamage` | the append-only store: format, recovery scan, writer, whole runs, what the hash chain commits to, what a load report means, what damage does |
| `Wire`, `FrameStream` | frames, and receiving them from a socket |
| `Runtime`, `RuntimePolicy` | workers, submitters, drainers and shutdown as interleaved atomic steps |
| `Samples`, `Window`, `Fencing`, `Ingest`, `IngestReadings` | observations and their order, bounded windows, the replay guard, and the ingest path that joins them |
| `SampleCodec`, `BatchCodec`, `RecordCodec`, `BaselineCodec` | record encodings with recomputed identities |
| `Paths`, `Classification`, `Episodes`, `EpisodeDrivers`, `Routes` | route generations, classification, episodes, the drivers they name, and the engine that couples them |
| `Clocks`, `Evidence`, `EvidenceLevels`, `Metrics` | clock comparability, ageing, from ages to levels and episodes, estimators |
| `Restart`, `RestartTheorems`, `RestartGuards`, `RestartReplays`, `RestartDamage` | saving the engine to a store and restoring it, what that keeps, what becomes of the fencing, and restoring from a damaged store |

Code that works by changing state is a class or a method with loops, proved against a function of the old
state; the theorems are about those functions. Files and sockets are byte sequences. The store, the wire
format and all identities take their digest and checksum as parameters, so what is proved of them holds for
any functions of those types, `Sha256.Hash` and `Crc32c.Crc` among them; where a result depends on a digest
not colliding it is stated as "equal, or here are two different inputs with one digest".

## What turned out otherwise than one might expect

- A frame whose header and payload exceed the frame bound by more than one byte is received or refused
  depending on how the network cut it (`FrameStream.ReceivedHoweverIff`).
- Bytes behind a trailer are neither read nor counted, and the file still counts as clean
  (`StoreRecovery.BytesBehindTrailer`).
- A wrong payload length in a stored record can pass for a file cut short, and a repair then drops the whole
  records behind it; `StoreDamage.LengthDamageIff` says exactly when.
- `apply_sequence` on its own can mix an old incarnation with a newer epoch or sequence
  (`Fencing.AppliedIsMaximumIff`). The engine never calls it so for live batches, but the restart does. A guard
  can be lost there (`RestartReplays.GuardLostAtRestart`), and although the original means a replay to stay
  fenced, an answered batch can be accepted again (`RestartReplays.ReplayAcceptedAfterRestart`). The exact
  conditions on the restored samples are `RestartGuards.GuardReturnsIff` and `RestartReplays.ReplaysFencedIff`.
- A tumbling window whose newest reading is before the anchor or more than an hour past it selects a sliding
  window instead of a fixed bucket; with the default anchor that is every reading after the first hour of the
  clock (`Window.TumblingSlides`, exactly: `Window.TumblingIsBucketIff`).
- A count window needs spare capacity for late arrivals; the exact amount is `count + b - 1`
  (`Window.CountWindowAgreesIff`).
- Without requiring the observation age, a stale observation can become fresh again when its age leaves the
  64-bit range (`Evidence.AbsorbingIff`).
- The driver in force of an unstable episode need not be one that is unstable
  (`EpisodeDrivers.PeakLevelMayOutlastDriver`). For one run it is exactly when the observation that first
  reached the peak was unstable (`EpisodeDrivers.AnyRuleDriverMeetsIff`); a policy rules it out exactly when
  `EpisodeDrivers.DriverKeepsUp` holds of its thresholds, which validation does not ask.
- Hops registered after their path open a generation at time zero, which overlaps the one in force exactly
  when that was opened at a positive time (`Paths.LateHopsOverlap`); over any run the segmentation holds
  exactly when every new generation can follow the one before (`Paths.SegmentedIff`). As nothing is retired,
  open episodes are left behind exactly when they lie under the new generation
  (`Routes.RouteEngine.RegisterLateHops`), until the next topology change. A summary of a generation that
  belongs to another path can do the same (`Routes.RouteEngine.Track`).
- Validation asks for ordered thresholds. Without that an unstable window can fail to be elevated, but not
  always: `Classification.LevelsNestIff` has the exact condition.
- The comment in restore says that caller and configuration both decide whether persisted evidence counts;
  the assessment looks only at the configuration (`Evidence.ConfigurationDecides`).
- Batches declared historical enter the same windows as current ones, unmarked (`Ingest.WindowsHoldEntered`).
- A hop naming a nil timing clock reads back as naming none (`RecordCodec.PathRoundTripIff`).
- Ingest validates samples but does not recompute their identities. A sample under another identity comes
  back from a store renamed (`SampleCodec.RenamedComesBack`), and a window survives a restart exactly when
  all its samples carry the derived ones (`RestartTheorems.WindowReturnsIff`).
- The magnitude of a delta is exact unless the delta is the smallest 64-bit value, whose negation the original
  leaves undefined (`Metrics.AbsoluteDeltas`).

## Model

| member | source | states |
|---|---|---|
| CanonicalBytes.ByteWriter.Fixed | src/bytes.cpp:10-45 | appends exactly the n big-endian bytes of the value, one shifted byte at a time |
| CanonicalBytes.ByteWriter.U8 | src/bytes.cpp:49 | appends the byte |
| CanonicalBytes.ByteWriter.Boolean | src/bytes.cpp:51 | appends one byte, 1 or 0 |
| CanonicalBytes.ByteWriter.U16 | src/bytes.cpp:53 | appends the two-byte encoding |
| CanonicalBytes.ByteWriter.U32 | src/bytes.cpp:55 | appends the four-byte encoding |
| CanonicalBytes.ByteWriter.U64 | src/bytes.cpp:57 | appends the eight-byte encoding |
| CanonicalBytes.ByteWriter.I64 | src/bytes.cpp:59 | appends the two's complement as eight bytes |
| CanonicalBytes.ByteWriter.Str | src/bytes.cpp:68-71 | appends the length cut to 32 bits, then the text |
| CanonicalBytes.ByteWriter.Raw | src/bytes.cpp:73-75 | appends the bytes unchanged |
| CanonicalBytes.ByteReader.U8 | src/bytes.cpp:90-93 | reads what the decoder of one byte says: same value, same bytes left, same error |
| CanonicalBytes.ByteReader.Boolean | src/bytes.cpp:95-105 | accepts only 0 and 1 |
| CanonicalBytes.ByteReader.U16 | src/bytes.cpp:107-117 | reads two bytes big-endian or refuses a short rest |
| CanonicalBytes.ByteReader.U32 | src/bytes.cpp:119-127 | reads four bytes big-endian or refuses a short rest |
| CanonicalBytes.ByteReader.U64 | src/bytes.cpp:129-137 | reads eight bytes big-endian or refuses a short rest |
| CanonicalBytes.ByteReader.I64 | src/bytes.cpp:139-145 | reads two's complement |
| CanonicalBytes.ByteReader.Str | src/bytes.cpp:158-167 | reads a length and that many bytes, bounds checked |
| CanonicalBytes.ByteReader.Raw | src/bytes.cpp:169-175 | reads n bytes, bounds checked |
| CanonicalBytes.ValueOfBigEndian | src/bytes.cpp:10-27 | a number that fits reads back from its big-endian bytes |
| CanonicalBytes.BigEndianOfValue | src/bytes.cpp:107-137 | bytes are recovered from the number read from them, so the encoding is a bijection |
| CanonicalBytes.BigEndianAt | src/bytes.cpp:22-27 | byte i is the value shifted right by the bytes behind it |
| CanonicalBytes.U64RoundTrip | src/bytes.cpp:129-137 | a 64-bit field reads back from the front of any byte string it starts |
| CanonicalBytes.I64RoundTrip | src/bytes.cpp:139-145 | so does a signed one, over the whole 64-bit range |
| CanonicalBytes.StrRoundTrip | src/bytes.cpp:158-167 | so does a text shorter than 2^32 bytes |
| Crc32c.MakeTable | src/hash.cpp:42-54 | every table entry is its index after eight division steps of the reflected polynomial |
| Crc32c.TableStep | src/hash.cpp:185-191 | one table look-up per byte equals eight bitwise steps |
| Crc32c.ExtendByTable | src/hash.cpp:185-191 | the table loop computes the bitwise definition of the checksum, from any seed |
| Crc32c.BitStepLinear | src/hash.cpp:42-54 | a division step is linear under exclusive or |
| Crc32c.BitStepsLinear | src/hash.cpp:42-54 | so is any number of them |
| Crc32c.BitStepBijective | src/hash.cpp:42-54 | a division step is a bijection of the 32-bit state, its inverse given |
| Crc32c.BitStepsInjective | src/hash.cpp:42-54 | no number of steps merges two states |
| Crc32c.RunInjective | src/hash.cpp:185-191 | the same bytes never merge two different states |
| Crc32c.ExtendConcat | src/hash.cpp:185-195 | extending the checksum of a by b is the checksum of a followed by b |
| Crc32c.NoCancellation | src/hash.cpp:185-191 | four byte differences whose effects cancel are all zero |
| Crc32c.BurstDetected | src/hash.cpp:185-195 | two strings of one length that differ only inside four consecutive bytes have different checksums |
| Crc32c.BurstRecovered | src/hash.cpp:185-195 | equal checksums and a difference confined to four bytes mean equal strings |
| Crc32c.CheckValue | src/hash.cpp:185-195 | the checksum of the nine digits is the published check value 0xE3069283, so polynomial, start value and final inversion are those of CRC-32C |
| Sha256.Hasher.Compress | src/hash.cpp:68-114 | one block changes the state as the compression function of FIPS 180-4 section 6.2 does |
| Sha256.Hasher.Update | src/hash.cpp:116-139 | an update of any size leaves the hasher holding the longer message, through top-up, whole blocks and the kept rest |
| Sha256.Hasher.Pad | src/hash.cpp:149-171 | the padding loop terminates and completes the section 5.1.1 padding of the message |
| Sha256.Hasher.Finish | src/hash.cpp:149-171 | the digest is the one-shot hash of everything fed in |
| Sha256.HashChunks | src/hash.cpp:116-171 | every way of cutting a message shorter than 2^61 bytes into updates gives the one-shot hash |
| Sha256.PaddingInjective | src/hash.cpp:149-171 | no two messages share their padded blocks |
| Sha256Constants.RoundConstantsAreCubeRoots | src/hash.cpp:12-23 | every round constant is the first 32 bits behind the point of the cube root of the prime with as many primes below it as the constant has constants before it (FIPS 180-4 section 4.2.2) |
| Sha256Constants.InitialStateIsSquareRoots | src/hash.cpp:60-66 | likewise the initial hash value and the square roots of the first eight primes (section 5.3.3) |
| Sha256Constants.TrialDivision | src/hash.cpp:12-23 | below 324, division by the primes up to 17 decides primality, which is what those primes are found by |
| Sha256Vector.AbcDigest | src/hash.cpp:68-171 | the digest of the three bytes abc is the published one, derived round by round |
| StoreFormat.HeaderRoundTrip | src/persistence.cpp:22-92 | the header, checksum included, reads back from the front of any file it starts |
| StoreFormat.OnlyHeadersDecode | src/persistence.cpp:43-92 | only written headers read: bytes that give a header are its encoding, magic, sizes, reserved field and checksum included |
| StoreFormat.OtherVersionRefused | src/persistence.cpp:65-72 | a header of another format version is told apart from a damaged one |
| StoreFormat.ImagePrefix | src/persistence.cpp:565-614 | the file of the first k records is a prefix of the file of all |
| StoreFormat.RecordInImage | src/persistence.cpp:565-614 | record k lies at its offset, framed and chained |
| StoreLoader.LoadStore | src/persistence.cpp:189-388 | the loop with its flags computes the recursive recovery scan, for any file |
| StoreLoader.LoadsIff | src/persistence.cpp:189-217 | a file loads if and only if it starts with the encoding of a header of this version, and that is the header it loads with |
| StoreLoader.ScanRecords | src/persistence.cpp:219-372 | the record loop equals the scan from the header on |
| StoreRecovery.LoadCut | src/persistence.cpp:189-388 | loading any prefix of a written file reports exactly the records it holds |
| StoreRecovery.CrashRecovery | src/persistence.cpp:189-388 | for every cut behind the header: the records wholly below it come back with payload and chain, the tail is truncated exactly off a record boundary, no corruption is claimed, valid plus discarded bytes are all the bytes |
| StoreRecovery.BytesBehindTrailer | src/persistence.cpp:344-372 | behind a trailer bytes are ignored: the byte account balances if and only if the cut is not behind the first trailer |
| StoreRecovery.EveryCutStops | src/persistence.cpp:189-388 | every cut behind the header has a record at which the scan stops |
| StoreWriter.Writer.Create | src/persistence.cpp:449-491 | refuses as the checks say, else starts the file with the header and its chain seed |
| StoreWriter.Writer.Frame | src/persistence.cpp:565-614 | assembles prefix, payload and suffix of one record and its next chain digest |
| StoreWriter.Writer.Append | src/persistence.cpp:565-614 | appends one framed record and moves chain, count and size, or changes nothing |
| StoreWriter.Writer.AppendTrailer | src/persistence.cpp:616-658 | appends the trailer stating count and chain, or changes nothing |
| StoreWriter.Writer.Reopen | src/persistence.cpp:493-563 | rebuilds the writer from what loading reports, truncating as asked, or refuses |
| StoreTheorems.StepKeepsLog | src/persistence.cpp:565-658 | one call keeps header, file, chain, count and size equal to those of its log |
| StoreTheorems.AcceptsIff | src/persistence.cpp:565-660 | a call is accepted if and only if the log with its record is still within the bounds on payload, records and bytes and no trailer passes for data; other refusals are of limits, and nothing overflows |
| StoreTheorems.CreatedLoads | src/persistence.cpp:449-491 | create accepts exactly the headers that load again and carry a store id, where no file may be lost; the new file loads clean and empty |
| StoreTheorems.RunKeepsLog | src/persistence.cpp:449-658 | so does every run of calls, refused ones included |
| StoreTheorems.Rewritten | src/persistence.cpp:565-614 | a fresh writer given the data records of a log writes that log |
| StoreTheorems.ReopenCut | src/persistence.cpp:493-563 | reopening a cut file without repair is refused exactly when bytes would be lost; else the writer is the one that wrote the surviving data records |
| StoreTheorems.ReopenRefinesNeverStopping | src/persistence.cpp:493-563 | run, cut anywhere, reopen with repair, go on: byte for byte and field for field a writer that was given the survivors and never stopped |
| StoreChain.LoadedLinks | src/persistence.cpp:189-388 | whatever the file, the records returned are linked end to end, and an agreeing trailer states their number and chain |
| StoreReport.CheckedReads | src/persistence.cpp:246-342 | a record is read wherever the file holds one: length within the bound, known type, both checksums and the chain digest agreeing |
| StoreReport.ReportExact | src/persistence.cpp:189-388 | the report of any file in terms of its bytes: the records are all that lie linked behind the header up to the first trailer, a trailer mismatches if and only if it does not state their number and chain, what follows the last record is told apart as running past the end, as followed by more or as the damaged last record, and clean means ending with an agreeing trailer or with the file |
| StoreChain.ChainCommits | src/persistence.cpp:94-99 | equal chain digests behind record k mean equal bytes up to there, or a digest collision |
| StoreChain.HistoryCommitted | src/persistence.cpp:302-305 | two files that load with the same number of records and last chain value have the same bytes, or a collision is exhibited |
| StoreChain.TrailerPinsHistory | src/persistence.cpp:344-369 | trailers that agree with their files and with each other pin the whole history, or a collision is exhibited |
| StoreDamage.PayloadBurstFound | src/persistence.cpp:262-330 | damage confined to four consecutive payload bytes ends the scan at that record, as mid-file corruption exactly if anything follows it, and no earlier record is lost |
| StoreDamage.PayloadBurstReopened | src/persistence.cpp:493-563 | such a file is refused as corrupt with or without repair while records follow the damage; in the last record it is refused without repair, and repair drops that record alone |
| StoreDamage.HeaderBurstFound | src/persistence.cpp:43-92 | damage confined to four consecutive bytes of the header never loads or reopens: no store at all if the magic is touched, an integrity failure otherwise, save where it spans reserved field and checksum |
| StoreDamage.LengthDamageIff | src/persistence.cpp:248-273 | a wrong length in a record's prefix passes for a file cut inside that record if and only if a record may have it and it reaches past the end; then no corruption is reported, whatever follows |
| StoreDamage.RepairCutsRecords | src/persistence.cpp:493-563 | reopening such a file with repair drops that record and every whole one behind it; without repair it is refused as unclean |
| Wire.FrameRoundTrip | src/wire.cpp:40-107 | a frame is recovered from the front of any stream it starts, with its length |
| Wire.PrefixNotReady | src/wire.cpp:52-107 | every proper prefix of a frame asks for more bytes |
| Wire.AnswerStable | src/wire.cpp:52-107 | any other answer is unchanged by further bytes |
| Wire.OnlyEncodingsDecode | src/wire.cpp:52-107 | the bytes a decoded frame consumed are that frame's encoding |
| Wire.FrameBurstRejected | src/wire.cpp:97-101 | damage confined to four consecutive payload bytes is rejected, whatever follows |
| FrameStream.Stream.ReadFrame | src/transport.cpp:37-77 | the buffer loop returns what the specification says of buffered and arriving bytes; received equals consumed plus buffered, across compaction |
| FrameStream.Stream.Consume | src/transport.cpp:37-77 | stepping over a frame and compacting leaves exactly the bytes behind it |
| FrameStream.FrameReceived | src/transport.cpp:37-77 | a frame that is not too long is received however the reads cut it; what follows is left for the next call |
| FrameStream.ReceivedHoweverIff | src/transport.cpp:37-77 | this independence of the cutting holds if and only if header and payload exceed the bound by at most one byte |
| FrameStream.SessionReceived | src/transport.cpp:37-77 | any number of frames, cut into reads in any way, come out one per call and in order |
| Runtime.InvKept | src/runtime.cpp:65-179 | every atomic step keeps the books, the queue order and bound, the phase and the wake-up invariants |
| Runtime.RunKeepsInv | src/runtime.cpp:44-179 | so does every interleaving of steps |
| Runtime.JobsConserved | src/runtime.cpp:65-142 | submitted is queued plus in flight plus completed plus dropped plus discarded, each job in exactly one place, the queue within capacity and first in first out |
| Runtime.DrainReturnsQuiescent | src/runtime.cpp:144-151 | drain succeeds only with nothing queued or running |
| Runtime.NoDrainerStranded | src/runtime.cpp:102-179 | while a drainer sleeps a worker that is awake, a due notification or shutdown can move, without any spurious wake-up, also when shutdown emptied the queue |
| Runtime.OpenStep | src/runtime.cpp:65-142 | while the runtime is open every step it takes by itself lowers a measure; an accepted job raises it by at most 5, a spurious wake-up of a worker by 1, nothing else does |
| Runtime.OpenBounded | src/runtime.cpp:65-142 | so over any interleaving the steps it takes by itself are bounded by where it started and what was submitted |
| Runtime.OpenMoves | src/runtime.cpp:102-151 | while a job is queued or running or a thread sleeps in drain, one of those steps is enabled |
| Runtime.OpenSettles | src/runtime.cpp:102-151 | where none is enabled every accepted job is completed, dropped or discarded, nobody sleeps in drain, and every drain call returns |
| Runtime.StoppingStep | src/runtime.cpp:102-179 | once stopping, worker steps lower a measure, no other step raises it, and nothing more is accepted or discarded |
| Runtime.StoppingCanMove | src/runtime.cpp:102-142 | while a worker is left one of those steps is enabled that needs no spurious wake-up |
| Runtime.ShutdownBounded | src/runtime.cpp:155-179 | at most that measure more worker steps can happen, however the threads interleave |
| Runtime.ShutdownCompletes | src/runtime.cpp:155-179 | while a worker is left a step that is no spurious wake-up is enabled; when every worker has exited nothing is queued or running and no drainer sleeps |
| Runtime.ShutdownAccounts | src/runtime.cpp:155-179 | shutdown without discarding loses no queued job; with discarding exactly the queued ones |
| RuntimePolicy.AdmittedIff | src/runtime.cpp:65-91 | while open, submit accepts if and only if there is room or the policy drops the oldest; a refusal leaves every job where it was and counts once, for its own reason |
| RuntimePolicy.DropsOldest | src/runtime.cpp:75-86 | a job is thrown away only by a submit into a full queue under that policy, and is the oldest queued one; the others stay in order |
| RuntimePolicy.PolicyObeyed | src/runtime.cpp:65-142 | over any interleaving no job is thrown away under Reject and none refused for want of room under DropOldest |
| RuntimePolicy.EverySubmitCounted | src/runtime.cpp:65-91 | every call of submit is counted exactly once: accepted, no room, or not open |
| RuntimePolicy.OneNotificationEach | src/runtime.cpp:65-91 | every accepted job is followed by exactly one notification, sent or still owed |
| RuntimePolicy.PeakIsReached | src/runtime.cpp:86-88 | the peak reported is the longest the queue has been |
| RuntimePolicy.StartedInOrder | src/runtime.cpp:91-142 | jobs are started in the order they were accepted, each at most once, ahead of everything queued |
| RuntimePolicy.DrainersWoken | src/runtime.cpp:102-151 | a thread asleep in drain is woken if and only if it can return, a worker exits, or for no reason |
| Fencing.SourceGuard.Apply | src/source.cpp:191-218 | the branches of apply_sequence leave the guard the specification says |
| Fencing.SourceGuard.Ingest | src/engine.cpp:363-437 | only an accepted batch whose samples were stored moves the guard |
| Fencing.VerdictIsOrder | src/source.cpp:109-189 | the verdict is the lexicographic comparison of (incarnation, epoch, sequence), split by content on equality |
| Fencing.StaleNamesComponent | src/source.cpp:109-170 | a stale batch is named after the first component in which it is behind; historical batches are never measured |
| Fencing.AppliedIsMaximumIff | src/source.cpp:191-218 | apply_sequence alone keeps the larger position if and only if the position is not stale above and ahead below |
| Fencing.GuardReached | src/engine.cpp:363-437 | after any admitted stream the guard stands at the maximum delivered, with the content of its first arrival |
| Fencing.AcceptedAreRunningMaxima | src/engine.cpp:363-437 | a current batch is accepted if and only if it is above every current batch before it |
| Fencing.AcceptedOnce | src/engine.cpp:363-437 | no position is accepted twice: accepted positions strictly increase |
| Fencing.OrderIrrelevant | src/engine.cpp:363-437 | the final position does not depend on the order of delivery |
| Fencing.RestoreGuards | src/engine.cpp:940-967 | the rebuild and merge loops compute, for every source, the rebuilt guard with the persisted ones merged in |
| Fencing.RebuiltClosed | src/source.cpp:191-218 | the guard rebuilt from traces in closed form: the largest incarnation, the largest epoch since that began, the largest sequence number since that epoch, with the content it came with last |
| Fencing.MergedOnce | src/engine.cpp:959-967 | a source saved once merges with exactly that guard |
| Fencing.GuardSurvivesIff | src/engine.cpp:940-967 | a persisted guard survives if and only if, among the traces of its source, none from the first of the largest epoch of the largest incarnation on carries a larger sequence number |
| Fencing.GuardCoversIff | src/engine.cpp:940-967 | the merged guard still covers the persisted position if and only if no larger sequence number of an older incarnation or epoch was heard, by the traces alone |
| Fencing.OwnPositionCovers | src/engine.cpp:940-967 | it does while a trace at that position is heard |
| Fencing.GuardSurvivesRestart | src/engine.cpp:940-967 | so it survives when no retained sample of the source carries a larger sequence number, and every later verdict is unchanged |
| Samples.LessTotal | src/window.cpp:12-20 | the canonical order is total on samples with different identities, and asymmetric |
| Samples.LessTransitive | src/window.cpp:12-20 | it is transitive |
| Samples.CanonicalAscending | src/window.cpp:154-155 | sorting samples with distinct identities gives an ascending sequence |
| Samples.AscendingUnique | src/window.cpp:228-232 | an ascending sequence is determined by its members |
| Samples.CanonicalOfSame | src/window.cpp:228-232 | so the canonical sequence depends only on which samples there are |
| Samples.CanonicalOrder | src/window.cpp:150-155 | the order is observation time, then sequence number, then identity |
| Samples.LexLessMeans | include/jitter/id.hpp:109 | identities compare by their first difference |
| Lists.InsertIntoLargest | src/episode.cpp:59-73 | a sorted container that drops its smallest element when full keeps the n largest of all it was given |
| Window.SampleWindow.Add | src/window.cpp:106-139 | refuses a foreign sample, ignores a retained identity, else appends, evicts from the front and keeps counters and running maximum |
| Window.SampleWindow.Select | src/window.cpp:141-226 | the sort, filter and count loops compute the selection of the retained samples; selected plus excluded is retained |
| Window.RetainsLastArrivals | src/window.cpp:106-139 | a window fed distinct samples of one series and generation holds the last arrivals, has evicted the rest and knows the newest time |
| Window.RetainsOnlyArrivals | src/window.cpp:106-139 | whatever the arrivals, it retains nothing that did not arrive |
| Window.TimeSelects | src/window.cpp:167-182 | a time window selects exactly the retained readings within its duration of the newest |
| Window.TumblingSelects | src/window.cpp:183-221 | a tumbling window selects the half-open fixed bucket that holds the newest reading while that is at the anchor or at most an hour past it, else what lies within one duration of the newest |
| Window.TumblingIsBucketIff | src/window.cpp:183-221 | the fixed bucket is what every window with this newest time selects if and only if that time is so placed, or the bucket reaches to the smallest time there is |
| Window.TumblingSlides | src/window.cpp:189-203 | with the default anchor, readings of two different minutes two hours into the clock are selected together |
| Window.BoundedAgreesIff | src/window.cpp:133-226 | for every kind: the bounded window selects what the unbounded history would if and only if no evicted arrival is selected from that history |
| Window.CountWindowAgrees | src/window.cpp:133-166 | with count + b - 1 within capacity and arrivals b apart in order, it selects the last count of the whole sorted history |
| Window.CountWindowAgreesIff | src/window.cpp:133-166 | that bound is exact: agreement on all histories holds if and only if count + b - 1 is within capacity |
| Window.BatchesOrdered | src/engine.cpp:416-426 | batches of at most b samples whose keys increase from batch to batch are arrivals b apart in order, whatever the order inside a batch |
| Window.BatchedWindowAgrees | src/window.cpp:133-166 | so a window fed such batches agrees with the unbounded history |
| Window.RestoredSelectsSame | src/window.cpp:106-232 | re-adding the retained samples in any order leaves selection and snapshot unchanged, for every kind |
| RecordForms.OptI64RoundTrip | include/jitter/codec.hpp:61-77 | an optional number reads back |
| RecordForms.OptIdRoundTrip | include/jitter/codec.hpp:79-97 | an optional identity reads back, nil as absence |
| RecordForms.WriteOptI64 | include/jitter/codec.hpp:61-68 | writes the presence byte and the value |
| RecordForms.ReadOptI64 | include/jitter/codec.hpp:70-77 | reads what the decoder says |
| RecordForms.WriteOptId | include/jitter/codec.hpp:79-87 | writes nil as absence |
| RecordForms.ReadOptId | include/jitter/codec.hpp:89-97 | reads what the decoder says |
| RecordForms.ListRoundTrip | src/codec.cpp:383-406 | a counted list of records that read back one by one reads back as a whole: concatenations decode uniquely |
| SampleCodec.WriteSample | src/codec.cpp:251-276 | writes the canonical bytes of a sample, loops included |
| SampleCodec.ReadSample | src/codec.cpp:278-333 | the field reads, bound checks and loops compute the decoder, make_sample included |
| SampleCodec.EntriesRoundTrip | src/codec.cpp:321-331 | metadata in key order reads back through map insertion |
| SampleCodec.FirstValueKept | src/codec.cpp:318-332 | metadata written in any order and with repeated keys reads back in key order with the first value of each key |
| SampleCodec.ProvenanceRoundTrip | src/codec.cpp:285-304 | provenance reads back, its enumerations checked |
| SampleCodec.TimingsRoundTrip | src/codec.cpp:308-320 | hop timings read back within their bound |
| SampleCodec.MadeIsSealed | src/sample.cpp:134-145 | what make_sample accepts is sealed: sealing it again, or after dropping its identity, changes nothing |
| SampleCodec.AcceptedIff | src/sample.cpp:45-108 | validate_sample accepts exactly the well-formed observations |
| SampleCodec.RefusalNamesCause | src/sample.cpp:45-108 | the error of a refused one names what is missing, too large or out of range |
| SampleCodec.MadeIff | src/sample.cpp:134-147 | make_sample takes exactly those that declare no identity or the derived one, and gives them the derived one |
| SampleCodec.SampleRoundTrip | src/codec.cpp:251-333 | a sealed sample reads back with identity and content digest recomputed, stopping exactly at the bytes behind it |
| SampleCodec.ReadsResealed | src/codec.cpp:278-333 | a valid sample under any identity reads back under the one derived from its content |
| SampleCodec.SampleRoundTripIff | src/codec.cpp:251-333 | so a valid sample reads back as it was if and only if its digest and identity are the derived ones |
| SampleCodec.RenamedComesBack | src/sample.cpp:45-145 | the same sample under any other identity passes validation and comes back renamed |
| SampleCodec.SampleSelfDelimiting | src/codec.cpp:251-333 | two sealed samples whose encodings start the same bytes are the same sample, followed by the same bytes |
| SampleCodec.SameContentSameSample | src/sample.cpp:13-43 | samples with equal content digests are equal, or their encodings collide |
| BatchCodec.WriteBatch | src/codec.cpp:383-389 | writes header, count and every sample |
| BatchCodec.ReadBatch | src/codec.cpp:391-406 | computes the decoder, make_batch included |
| BatchCodec.HeaderRoundTrip | src/codec.cpp:335-381 | a batch header reads back |
| BatchCodec.BatchRoundTrip | src/codec.cpp:383-406 | a sealed batch reads back with its own and its samples' identities recomputed |
| BatchCodec.BatchAcceptedIff | src/sample.cpp:169-224 | validate_batch accepts exactly one to 4096 well-formed observations of one place, source and clock under a header with incarnation, sequence and origin |
| BatchCodec.BatchRefusalNamesCause | src/sample.cpp:169-224 | the error of a refused batch names its cause |
| BatchCodec.SameContentSameBatch | src/sample.cpp:147-167 | batches with equal content digests are equal sample for sample, or a collision is exhibited |
| RecordCodec.GenerationRoundTrip | src/codec.cpp:218-249 | a generation reads back, its identity recomputed from path, ordinal and topology |
| RecordCodec.WriteGeneration | src/codec.cpp:218-228 | writes the canonical bytes |
| RecordCodec.ReadGeneration | src/codec.cpp:230-249 | computes the decoder; a zero ordinal is refused |
| RecordCodec.GuardRoundTrip | src/codec.cpp:581-603 | a source guard reads back |
| RecordCodec.WriteGuard | src/codec.cpp:581-588 | writes the canonical bytes |
| RecordCodec.ReadGuard | src/codec.cpp:590-603 | computes the decoder |
| RecordCodec.ResolutionSymmetric | src/evidence.cpp:243-261 | resolving a contradiction does not depend on which side is named first, and names a winner exactly for different sources of known, different authority |
| RecordCodec.HeavierWins | src/evidence.cpp:243-261 | a side wins if and only if it is another source and outweighs the other; otherwise the outcome says why not |
| RecordCodec.WinningCarriesOver | src/evidence.cpp:243-261 | winning carries over a third source, so there are no circles |
| RecordCodec.ConflictRoundTrip | src/codec.cpp:605-660 | a conflict reads back although outcome, winner, reason and identity are recomputed |
| RecordCodec.SameEvidenceSameClaim | src/evidence.cpp:263-280 | two conflict records of one evidence digest are about one claim, or two inputs with one digest are at hand |
| RecordCodec.OutcomeCodesTell | src/codec.cpp:605-659 | the outcome byte written tells the outcome and is one a reader takes |
| RecordCodec.WriteConflict | src/codec.cpp:605-624 | writes the canonical bytes |
| RecordCodec.ReadConflict | src/codec.cpp:626-660 | computes the decoder, make_conflict_record included |
| RecordCodec.PathRoundTripIff | src/codec.cpp:153-216 | a path with its hops reads back if and only if no hop names a nil timing clock |
| RecordCodec.SameIdSamePath | src/path.cpp:36-46 | two paths of one identity agree in name, origin and description, or two inputs with one identity are at hand |
| RecordCodec.SameIdSameHop | src/path.cpp:20-34 | two hops of one identity are on one path and agree in index, name, clock, origin and note, or likewise |
| RecordCodec.WritePath | src/codec.cpp:180-188 | writes the canonical bytes |
| RecordCodec.ReadPath | src/codec.cpp:190-216 | computes the decoder, hop identities recomputed |
| BaselineCodec.BaselineRoundTrip | src/codec.cpp:440-502 | a sealed baseline over known metrics reads back with digest and identity recomputed |
| BaselineCodec.SameContentSameBaseline | src/baseline.cpp:90-117 | two baselines of one digest differ in nothing but when they were made, or two inputs with one digest are at hand |
| BaselineCodec.MetricRoundTrip | src/codec.cpp:408-438 | a metric value reads back if its definition is registered at the same version |
| BaselineCodec.MadeIsSealedBaseline | src/baseline.cpp:64-116 | what make_baseline accepts is sealed: metrics strictly ordered, identity derived |
| BaselineCodec.DuplicateIff | src/baseline.cpp:64-91 | a baseline is refused as a duplicate if and only if two of its metrics have one identity, in whatever order given; otherwise all are kept by name and identity |
| BaselineCodec.WriteBaseline | src/codec.cpp:440-460 | writes the canonical bytes |
| BaselineCodec.ReadBaseline | src/codec.cpp:462-502 | computes the decoder, make_baseline included |
| Ingest.Engine.Ingest | src/engine.cpp:271-439 | validation, fencing, window and guard: the answer and the whole new state, every other window and guard untouched |
| Ingest.Engine.WindowFor | src/engine.cpp:227-246 | finds the window of a key or makes an empty one while the bound on windows allows, else refuses; the others stay |
| Ingest.Engine.StoreIn | src/engine.cpp:259-269 | exactly the samples of the batch enter exactly their window, or nothing when there is no room for it |
| Ingest.Engine.Store | src/engine.cpp:259-269 | the loop adds every sample of a validated batch and none is refused, so the error return behind it is never taken |
| Ingest.BatchIsKeyed | src/engine.cpp:271-277 | what validation accepts is sample by sample of the batch's series and generation and valid |
| Ingest.RunKeepsWindows | src/engine.cpp:227-269 | over any stream: no more windows than the bound, each with distinct samples of its own series and generation within its capacity |
| Ingest.RefusedForRoomIff | src/engine.cpp:227-246 | in every reached state a batch nothing else refuses is refused for want of a window if and only if it would be stored, has none and all are taken |
| Ingest.RetainsDelivered | src/engine.cpp:259-269 | every retained sample is a valid sample of a delivered batch |
| IngestReadings.RetainedReadingsFit | src/engine.cpp:276-276 | whatever was delivered, deltas of any readings taken from one window of the running engine fit 64 bits, and so do their magnitudes |
| IngestReadings.SelectedReadingsFit | src/window.cpp:146-221 | in particular those of what the window selects |
| Ingest.WindowsHoldEntered | src/engine.cpp:363-439 | over any stream every window is that of exactly the accepted and historical batches of its key; the rest leaves no trace |
| Ingest.IngestedWindowAgrees | src/engine.cpp:363-439 | end to end, replays and refusals included, a count window selects the last count of everything that entered it, sorted |
| Ingest.CoveredEver | src/engine.cpp:363-439 | once a current batch was answered the guard of its source stays at or above it for ever |
| Ingest.ReplayChangesNothing | src/engine.cpp:369-406 | delivering an answered batch again, any time later, is never accepted and changes no guard and no window |
| Ingest.SourceGuardIsMaximum | src/engine.cpp:363-437 | over any stream from any sources each guard stands at the largest position of the answered current batches of its source, reached by one of them with its content |
| Ingest.AcceptedAreMaxima | src/engine.cpp:363-437 | an answered current batch is accepted if and only if its position is above all answered current ones of its source before it |
| Restart.Save | src/engine.cpp:709-752 | when no append is refused the file is the image of exactly the saved records and their trailer |
| Restart.ClosedLogLoads | src/engine.cpp:756-782 | a closed log loads clean, its trailer count agreeing, and gives back its records |
| Restart.TakeIn | src/engine.cpp:791-907 | the record loop computes the intake of the records, or the first error |
| Restart.TakeOne | src/engine.cpp:793-906 | one record is decoded and taken in by its kind |
| Restart.RestoreWindows | src/engine.cpp:909-939 | the windows opened are the first in key order that the bound allows, each refilled with its own samples; exactly their samples are withheld when asked; the traces are those samples, window by window in key order and sorted inside |
| Restart.Restore | src/engine.cpp:756-975 | refuses mid-file corruption, an unclean file without repair and a wrong trailer count; else windows, withheld samples and every guard are functions of the records |
| Restart.KeysOrdered | src/engine.cpp:909-913 | the grouping keys ascend by series, then generation, and are those of the samples |
| Restart.EverySampleRestored | src/engine.cpp:909-928 | while there is room for every window restoring loses no sample and repeats none |
| Restart.WindowSurvives | src/engine.cpp:914-928 | although restore sorts by another comparator, a window of any kind selects and would save what it did before |
| RestartDamage.RestoredKeepsLatest | src/engine.cpp:914-927 | a restored window holds the latest observed samples of its key in the order of observation, as many as it has room for |
| RestartDamage.SmallestKeysRestored | src/engine.cpp:909-919 | short of room, the windows of the smallest series come back, and of the smallest generation within one series |
| RestartDamage.RestoreRefusals | src/engine.cpp:756-782 | restore of any file, by its bytes: corrupt when broken inside, an integrity failure when it does not end whole and repair is not allowed or its trailer states another number, else the intake of its records |
| RestartDamage.DamagedStoreRefused | src/engine.cpp:756-782 | four damaged bytes of a stored payload never reach a restored engine: corrupt with records behind it, an integrity failure in the last record without repair |
| RestartDamage.DamagedHeaderRefused | src/engine.cpp:756-762 | nor do four damaged bytes of the header |
| RestartTheorems.RestartPreserves | src/engine.cpp:714-747 | save a sound engine and restore the file without repair: nothing refused, every path has its history, every non-empty window is opened again, each holds what it held if and only if its samples carry derived identities and then selects what it selected, each source has its guard if and only if the restored samples do not run ahead of it |
| RestartTheorems.WindowReturnsIff | src/engine.cpp:909-939 | one window: the same samples come back if and only if all were sealed, and then it selects the same |
| RestartTheorems.KeysReturn | src/engine.cpp:909-928 | exactly the windows that held something are opened again, within the bound |
| RestartTheorems.ReachedIsSound | src/engine.cpp:271-439 | whatever batches were delivered and route events happened, the engine is one the restart theorem speaks about |
| RestartTheorems.DeliveredSealed | src/engine.cpp:259-269 | when all delivered samples carry derived identities so do all retained ones |
| RestartTheorems.ReachedEngineReturns | src/engine.cpp:668-975 | from the first batch to the restart: every path has the history of its run, every window selects what the run left it selecting, each source has the guard the run left if and only if the retained samples do not run ahead of it |
| RestartTheorems.RestoredNeverFresh | src/engine.cpp:441-448 | while the configuration does not admit persisted evidence nothing a restored window selects is fresh, at any time |
| RestartGuards.GuardReturnsIff | src/engine.cpp:940-967 | a saved guard comes back if and only if, among the restored samples of its source in restore order, none from the first of the largest epoch of the largest incarnation on carries a larger sequence number |
| RestartGuards.EachGuardReturnsIff | src/engine.cpp:940-967 | the same for every source; one without a guard has none again if and only if no sample of it is restored |
| RestartGuards.GuardsSurvive | src/engine.cpp:940-967 | a saved guard comes back when no retained sample of its source carries a larger sequence number |
| RestartGuards.GuardCoversIff | src/engine.cpp:940-967 | the restored guard covers the saved position if and only if the restored samples bring in no larger sequence number of an older incarnation or epoch |
| RestartReplays.ReplaysFencedIff | src/engine.cpp:940-967 | over any stream of deliveries no answered batch of a source is accepted again after the restart if and only if that holds |
| RestartReplays.ReplayChangesNothingAfterRestart | src/engine.cpp:940-967 | then a replay changes nothing, however many deliveries the restored engine took in before it |
| RestartReplays.RetainedPositionFences | src/engine.cpp:940-941 | it holds while a sample at the guard's own position is retained |
| RestartReplays.GuardsReturnWhenNumbersClimb | src/engine.cpp:940-967 | from the deliveries: when no source starts its numbers over and no stored sample is numbered above every answered batch of its source, every source gets its guard back |
| RestartReplays.GuardLostAtRestart | src/engine.cpp:940-967 | a run of two batches, saved and restored, after which the guard is lost and the next batch fenced off |
| RestartReplays.ReplayAcceptedAfterRestart | src/engine.cpp:940-967 | a run of two batches, saved and restored, after which an answered batch is accepted again |
| Paths.PathCatalog.ObserveTopology | src/path.cpp:195-247 | an unchanged topology returns the generation in force; a changed one closes it, opens the next ordinal and drops the oldest beyond the bound; other paths are untouched |
| Paths.PathCatalog.BumpRevision | src/path.cpp:249-259 | changes only revision and cause of the last generation |
| Paths.PathCatalog.CloseCurrent | src/path.cpp:261-273 | closes the last generation once |
| Paths.PathCatalog.ImportGeneration | src/path.cpp:275-296 | refuses unknown paths, zero ordinals and ordinals that do not increase; else appends within the bound |
| Paths.RetainedIsRecentLog | src/path.cpp:195-273 | what a path retains is the last 256 generations of everything it ever opened, over any run |
| Paths.LastRecords | src/path.cpp:195-273 | over any run the last generation records which observation opened it and with how many hops, how often it was revised, the reason given last, and when and why it was first closed from outside |
| Paths.ImportsIff | src/path.cpp:275-296 | an import is refused exactly when the path is unknown or its generations would stop numbering upwards |
| Paths.RouteSegmentation | src/path.cpp:195-273 | over any run with a non-decreasing clock: consecutive ordinals, matching identities, only the last open, neighbours of different topology that never overlap, a topology change closing at the instant the next opens |
| Paths.GrownChainedIff | src/path.cpp:209-240 | a changed topology keeps the history segmented if and only if its generation can follow the last one |
| Paths.FollowsFrom | src/path.cpp:218-222 | that is, if and only if it does not begin before the last was closed or, still open, opened |
| Paths.SegmentedIff | src/path.cpp:195-273 | over any run, its clock unrestricted: the history is segmented if and only if every observation that opens a generation can follow the one before |
| Paths.TilesIff | src/path.cpp:195-247 | where only topology changes close generations: if and only if the opening times never decrease |
| Paths.InForceOnce | src/path.cpp:195-247 | no instant has two generations in force |
| Paths.AlwaysOneInForce | src/path.cpp:195-247 | when only topology changes close generations every instant since the first has exactly one |
| Paths.LateHopsOverlap | src/path.cpp:138-146 | hops registered late open a generation at time zero: after any run segmented so far that loses the segmentation if and only if the generation in force opened at a positive time |
| Paths.HistoriesSurviveImport | src/path.cpp:275-336 | importing all generations into a fresh catalog reproduces every history, none refused |
| Paths.RunStorable | src/path.cpp:195-247 | every history a run produces meets what that needs |
| Paths.RunSealed | src/path.cpp:195-247 | and carries the derived identities, with texts that fit |
| Paths.SameIdSameGeneration | src/path.cpp:109-115 | two generations of one identity are the same generation of one path with one topology, or two inputs with one identity are at hand |
| Classification.Classify | src/classification.cpp:206-386 | the flag loops choose the declared level, and the driver is the first rule, in policy order, that breaches the threshold of that level |
| Classification.EvaluateRules | src/classification.cpp:273-322 | the any and all flags are the quantifiers over the rules |
| Classification.FindDriver | src/classification.cpp:347-370 | the driver is the first breaching rule, or there is none |
| Classification.AssertionNamesDriver | src/classification.cpp:347-370 | asserting instability always names a driver, and it breaches a threshold of that level |
| Classification.LevelsNestIff | src/classification.cpp:182-199 | the exact policies whose unstable windows are all elevated: any-rule ones whose misordered rules are bridged by opposite rules, all-rule ones that are ordered or can never be unstable |
| Classification.LevelsNestWhenDistinct | src/classification.cpp:182-199 | with every metric watched once: if and only if all thresholds are ordered, as validation asks |
| Classification.UnstableIsElevated | src/classification.cpp:149-204 | under a validated policy an unstable window is also elevated |
| Classification.MeetsElevated | src/classification.cpp:182-193 | so a driver of either level breaches its elevated threshold |
| Classification.ValidationNeeded | src/classification.cpp:182-193 | without validation it fails, by a concrete policy |
| Episodes.EpisodeLog.Observe | src/episode.cpp:75-183 | one classification opens, extends or closes the episode of its key, nothing else changes, and it is added to the key's history |
| Episodes.EpisodeLog.Retire | src/episode.cpp:185-224 | exactly the episodes of the series under another generation, policy or window are closed, each with the first such reason, and exactly their keys' histories say so |
| Episodes.EpisodeLog.InsertClosed | src/episode.cpp:59-73 | a bucket holds the latest 4096 of all episodes ever closed, by opening time and identity |
| Episodes.EpisodeLog.Import | src/episode.cpp:226-237 | an imported open episode is closed as evidence lost |
| Episodes.KeepsLargest | src/episode.cpp:59-73 | inserting and evicting keeps the largest of all |
| Episodes.RetainsLatestOpened | src/episode.cpp:59-73 | the retained episodes stand in the order of opening; if any is missing the bucket is full and each missing one was opened no later than each retained one |
| Episodes.RetireSparesOne | src/episode.cpp:185-224 | a retirement spares one key of the series at most, the one it names, and closes the others for the first of generation, policy and window they do not share |
| Episodes.SameIdSameOpening | src/episode.cpp:36-48 | two episodes of one identity share series, path, generation, policy, window, opening instant and driver, or a collision is at hand |
| Episodes.EpisodeMeaning | src/episode.cpp:95-224 | over any history of observations and retirements, an open episode of a key: since its opening every observation asserted or recovered, its counters count them, its peak is the largest breaching driver value with the driver that reached it first, its level unstable if one was, its recoveries below k |
| Episodes.ClosedMeaning | src/episode.cpp:50-57 | a closed episode records which observation opened it and that it closed at the later of the two instants, with what it counted and its peak |
| Episodes.ClosesLater | src/episode.cpp:50-57 | whatever closes an episode, it closes at the later of its opening and the instant given and nothing else about it changes |
| Episodes.RetiringStartsAnew | src/episode.cpp:185-224 | a retirement starts the key anew: its open episode depends only on the observations since |
| Episodes.OpenIff | src/episode.cpp:75-224 | a key has an open episode if and only if one of its observations since the last retirement asserted instability and none since was of another generation, lost the evidence or completed k recoveries in a row |
| Episodes.RecoversAtKth | src/episode.cpp:169-180 | over any such history it closes as recovered exactly at the k-th consecutive recovering observation after its last breach |
| EpisodeDrivers.DriversMeetThresholds | src/episode.cpp:97-131 | over the classifications of any inputs it opens with a driver meeting the threshold of its level, and its driver in force always meets an elevated one |
| EpisodeDrivers.AnyRuleDriverMeetsIff | src/episode.cpp:127-134 | where one rule is enough the driver in force meets the threshold of the peak level if and only if that is elevated or the observation that first reached the peak was unstable |
| EpisodeDrivers.AllRulesDriverMeetsIff | src/episode.cpp:127-134 | where all rules must agree the driver is always the first rule's metric, and it meets that threshold if and only if the level is elevated, a rule on that metric looks for large values, or no breach rose above the first rule's unstable threshold |
| EpisodeDrivers.DriverKeepsUpIff | src/classification.cpp:342-370 | the exact policies under which the driver in force can never fall behind the peak level, from the thresholds alone |
| EpisodeDrivers.PeakLevelMayOutlastDriver | src/episode.cpp:127-134 | such a run, both verdicts being those the readings are given |
| Routes.RouteEngine.ObserveTopology | src/engine.cpp:174-196 | a new generation retires every episode of every series on the path that is not current, none elsewhere; whatever was out of step on the path is in step again; coupling and counters kept |
| Routes.RouteEngine.RetireSeries | src/engine.cpp:185-193 | the loop over the series spares exactly the episodes in force |
| Routes.RouteEngine.RegisterLateHops | src/path.cpp:134-147 | hops registered late retire nothing; coupling is kept if and only if no generation opens or no open episode of the path lies under it |
| Routes.RouteEngine.Track | src/engine.cpp:450-502 | the engine looks the generation up in the whole catalog; the counters balance, and coupling is kept if and only if no episode is left open outside the generation in force on the series' path, as when the look-up finds it there |
| Routes.RouteEngine.BumpRevision | src/engine.cpp:1160-1168 | a revision keeps them |
| Routes.CurrentIsLast | src/path.cpp:339-342 | a generation found current is the open last one of its path |
| Routes.LookupIsLocal | src/path.cpp:305-342 | a look-up in the whole catalog that finds no generation of another path is a look-up on the path |
| Routes.TopologyKeepsCoupled | src/engine.cpp:174-196 | every open episode still lies in the generation currently open on its series' path |
| Routes.SparedIsInForce | src/engine.cpp:180-193 | what a new generation spares on its path lies in it, whatever was open before |
| Routes.LateHopsUncouple | src/path.cpp:134-147 | a topology observed with nothing retired keeps the coupling if and only if no open episode of the path lies in another generation than the one it opens |
| Routes.TrackKeepsCoupled | src/engine.cpp:492-500 | so it does after any observation whose generation is found on the path of the series |
| Routes.SlotCounts | src/engine.cpp:492-500 | openings minus closings is the change in the number of open episodes |
| Clocks.CheckedSub | include/jitter/checked.hpp:45-54 | the overflow guards succeed exactly when the difference fits 64 bits |
| Clocks.Assess | src/time.cpp:233-301 | the declaration loop computes the comparability of two domains |
| Clocks.ComparedSymmetric | src/time.cpp:233-301 | comparability is symmetric |
| Clocks.ComparedIff | src/time.cpp:233-301 | what the verdict on two domains means, in terms of the declared domains and equivalences |
| Clocks.OffsetsAccepted | src/time.cpp:233-301 | the offset reported is one the policy accepts |
| Clocks.ComparabilityExpires | src/time.cpp:268-292 | what is comparable later was comparable before, with the same offset when pairs are declared once |
| Clocks.DeclaringKeepsPairsUnique | src/time.cpp:162-210 | declaring an equivalence keeps every pair declared at most once |
| Clocks.DeclaredIff | src/time.cpp:162-231 | a declaration is taken exactly when it is sound, the first of its pair and within the bound, and then makes the pair comparable while it is valid |
| Clocks.DeclarationRefusalNamesCause | src/time.cpp:162-231 | the error of a refused declaration names its cause |
| Clocks.DifferenceNegates | src/time.cpp:303-330 | swapping readings negates the difference, except that the smallest value overflows |
| Clocks.DifferenceExact | src/time.cpp:303-332 | the difference of comparable readings is that of their times in nanoseconds, exactly where times and difference fit, an overflow elsewhere |
| Clocks.UnratedRefused | src/time.cpp:303-332 | a unit without a rate is refused for that |
| Clocks.IncomparableHaveNone | src/time.cpp:303-311 | readings of clocks that do not compare are refused, and they alone for that reason |
| Clocks.DifferenceAdds | src/time.cpp:303-332 | differences add up along any chain of readings as far as the sum fits |
| Clocks.LaterIsPositive | src/time.cpp:303-332 | on one clock the difference is positive if and only if the second reading is later |
| Clocks.UnitsAgree | src/time.cpp:303-332 | clocks of neighbouring units agree on an instant if and only if their readings differ by that factor |
| Evidence.FreshIff | src/evidence.cpp:99-178 | a sample is fresh if and only if its exact ages meet the budgets |
| Evidence.StatesMean | src/evidence.cpp:129-176 | expired is exactly being over an expiry, stale over a budget and no expiry, unsupported a clock that cannot be compared within budget; there is no other answer but fresh and unknown |
| Evidence.AgeingIsOneWay | src/evidence.cpp:129-176 | expired stays expired at any later instant if and only if the age stays in range and the ingest age alone suffices or the other can still be told; likewise stale is stale or expired |
| Evidence.StaleStaysStale | src/evidence.cpp:99-178 | under a policy that requires the observation age a stale or expired sample is never fresh again, across declaration expiry and subtraction overflow |
| Evidence.AbsorbingIff | src/evidence.cpp:69-178 | among validated policies staleness is absorbing if and only if the observation age is required |
| Evidence.ConfigurationDecides | src/engine.cpp:441-448 | withheld samples are kept from being fresh if and only if the configuration does not admit persisted evidence |
| Evidence.Summarize | src/evidence.cpp:180-231 | the counters count each state and the dominant state is the highest ranking one present |
| Evidence.CountsPartition | src/evidence.cpp:212-231 | the counts of all states add up to the number of assessments |
| EvidenceLevels.Weigh | src/evidence.cpp:212-234 | the evidence a classification is given is counted from the assessments |
| EvidenceLevels.LevelFromAssessments | src/classification.cpp:218-271 | the level before any rule, from the assessments: expired if and only if something expired and nothing else but tolerated conflicts is there, stale if and only if nothing is fresh otherwise, the rules decide if and only if something is fresh |
| EvidenceLevels.FreshEvidenceAsked | src/classification.cpp:266-271 | a stable, elevated or unstable level stands for the fresh evidence the policy asks for; short of it the level is insufficient |
| EvidenceLevels.OldDataNeverRecovers | src/episode.cpp:75-183 | without fresh evidence no level asserts or recovers, so an open episode ends, never as recovered |
| EvidenceLevels.LostIffNothingFresh | src/episode.cpp:139-166 | an open episode ends as having lost its evidence if and only if no assessment is fresh; with fresh evidence every level asserts or counts as a recovery |
| EvidenceLevels.AssessmentsAre | src/evidence.cpp:98-176 | the engine's own assessments are never missing, conflicting or incomplete |
| EvidenceLevels.OldSamplesEndEpisode | src/episode.cpp:148-166 | from ages to the episode: with every sample over budget the level is expired if and only if every one is past an expiry and none withheld, stale otherwise, and the open episode ends as having lost its evidence |
| Metrics.SignedDeltas | src/metrics.cpp:67-83 | the loop returns the exact differences, or overflow exactly when one does not fit |
| Metrics.AbsoluteDeltas | src/metrics.cpp:49-65 | Overflow if and only if a difference does not fit; else the magnitudes, exact if and only if no difference is the smallest 64-bit value |
| Metrics.ValidReadingsFit | src/sample.cpp:85-88 | readings within the latency bound never overflow a delta nor its magnitude |
| Metrics.DeltasTranslate | src/metrics.cpp:47-65 | adding a constant to all readings changes no delta |
| Metrics.DeltasTelescope | src/metrics.cpp:67-83 | between any two readings the signed deltas add up to the difference |
| Metrics.SignedDeltasTelescope | src/metrics.cpp:67-83 | over the series: last minus first |
| Metrics.PeakToPeak | src/metrics.cpp:138-144 | the one-pass search returns largest minus smallest |
| Metrics.DeltaBounds | src/metrics.cpp:49-144 | largest absolute delta at most peak to peak at most the sum of absolute deltas |
| Metrics.Ewma16 | src/metrics.cpp:146-155 | the loop computes the recursive average |
| Metrics.EwmaBounded | src/metrics.cpp:146-155 | it stays between the smallest and the largest delta |
| Metrics.EwmaForgets | src/metrics.cpp:146-155 | changing one delta moves it by that change times a sixteenth, damped by fifteen sixteenths per later delta |
| Metrics.QuantileOf | src/metrics.cpp:98-114 | computes the type 7 interpolation at rank p (n - 1) |
| Metrics.QuantilePermutes | src/metrics.cpp:98-114 | it depends only on which values there are |
| Metrics.QuantileMonotone | src/metrics.cpp:98-114 | it grows with p between the smallest and the largest value, its values at zero and one |
| Metrics.QuantileInterpolates | src/metrics.cpp:96-115 | between two ranks the quantile moves in a straight line from one value to the next |

## Left out

- RestartTheorems.RestartPreserves: covers the path, generation, sample and guard records; clock domains, equivalences,
  sources, series, baselines, episodes and conflicts are saved and restored by the same loop but are not part
  of the modelled engine, and path registration is reduced to its identity.
- Restart.Save: writes those four kinds of record of the eleven, in the original's order.
- Restart.TakeIn: passes over the records of the other seven kinds, which the original decodes into parts of the engine
  that are not modelled.
- Restart.TakeOne: likewise.
- Restart.Restore: likewise.
- Ingest.Engine.Ingest: the checks of a batch against the registries of sources, series, paths and generations
  enter as one refusal; recording a contradiction in the conflict log is not modelled; a guard that was looked
  up but never set is the same as none.
- Classification.Classify: metrics are looked up by key, where the original goes through the identity the
  registry gives that key; reason codes are left out.
- StoreDamage.HeaderBurstFound: does not say which error damage gets that spans the reserved field and the checksum; that
  depends on the checksum of the damaged bytes.
- Runtime: a state machine over values whose steps are the critical sections of the original, with
  spurious wake-ups; one shutdown caller at a time, and neither the failure counter nor the cancellation
  counter, which the original increments outside its lock.
- Window.SampleWindow.Select: the standard library sort is modelled as insertion sort; with the total orders used here the result
  is the same. Selection reasons are left out.
- Window.TimeSelects: subtraction is on unbounded integers; the original can overflow for readings of opposite
  extremes.
- Metrics.QuantileOf: over real numbers, without floating-point rounding; the same holds for `Metrics.Ewma16`, for classification
  thresholds and for episode values.
- Metrics.AbsoluteDeltas: negating the smallest 64-bit value is taken to wrap around, where the original leaves it undefined.
- EpisodeDrivers.DriverKeepsUpIff: speaks about all inputs of the classification; that some combinations of metric values
  cannot come out of one window is not used.
- Episodes.EpisodeMeaning: reason texts and close details are not modelled, nor is the encoding of episodes: the
  identity of an episode is derived from its first driver, and reading it back derives it from the last.
- Clocks: justification texts and unit scaling inside observation ages (the original subtracts raw ticks).
- Mean, variance, deviations and the metric table; compensated summation.
- Encodings of clock domains, equivalences, sources and series, and of the messages inside wire frames: they have
  the shape of those proved and would only add easy members.
- Baseline comparison, attribution, summaries, history reports, rendering, command line, probe and plan files.
- I/O failures, the flush and close of files, and the position of partial writes inside one append other than
  as a cut of the file.
