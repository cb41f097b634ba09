# Verified model of the CrossX agent's delivery path

The agent ships host metrics and log lines to a collector and must not lose or
reorder them. This project models the three parts that promise depends on and
proves what they promise:

1. **The write-ahead log** (`crates/crossx-agent/src/wal.rs`): a disk queue of
   length- and checksum-prefixed records in numbered segment files, a durable
   cursor replaced by rename, repair of torn tails on open, deletion of
   acknowledged segments, and eviction of the oldest segments at a byte cap.
2. **From log file to collector** (`crates/agent-telemetry/src/logs.rs`,
   `crates/crossx-agent/src/logs.rs`, `crates/crossx-agent/src/export.rs`): the
   bounded line reader with a pending and a committed offset, the exporter that
   sends directly only when the log is empty, and the file source that moves its
   checkpoint only after the exporter took charge.
3. **What gets signed** (`crates/crossx-relay-rs/src/enroll.rs`, `cert.rs`,
   `auth.rs`): the chunk encodings, and the validation of a certificate chain.

## How the model is built

The log and the export path exist twice. `WalModel` and `Export` give every
operation as a function on values; its result lists, in `trace`, each state the
disk (and the collector) passes through, one per durable effect, down to single
bytes of a write. `WriteAheadLog` and `Exporters` are the objects of the source,
with its loops; their methods are proved equal to those functions, trace
included. A crash is a prefix of a trace. Everything below is proved about the
functions and so about the objects.

| part | modules |
|---|---|
| bytes and checksum | `Wrappers`, `ByteStrings`, `Crc32` |
| log: records, state, operations | `Frames`, `WalModel`, `LogDirectory`, `WriteAheadLog` |
| log: proofs | `WalProofs`, `WalEviction`, `WalOperations`, `WalReplay`, `WalReopen`, `WalRuns`, `WalDamage`, `WalLifecycle` |
| file tailer | `Lines`, `Tailer`, `TailerRuns` |
| export path | `Export`, `Accounts`, `ExportProofs`, `DeliveryProofs`, `SkipProofs`, `Pipeline`, `Exporters` |
| signed messages | `Chunks`, `ByteOrder`, `Enroll`, `Cert`, `Auth`, `Namespace` |

The main results:

- **Crash recovery of the log** (`WalRuns.RunExact`): for every run of open,
  append, next and ack, each cut off after any number of durable effects, a
  reopening finds, in order, everything that was there or was appended less
  exactly the acknowledged heads and the records in segment files the cap
  removed. An append in flight counts when its last byte landed, an
  acknowledgement when the cursor's rename happened.
- **Corruption isolation** (`Crc32.WindowDetection`, `WalDamage.DamageIsolated`):
  a record changed inside four consecutive payload bytes, or in its stored
  checksum, is always noticed, and draining yields exactly the other records.
- **Retention** (`WalOperations.AppendRetention`, `AppendSucceeds`,
  `WalReopen.OpenSucceeds`): exactly when a successful append keeps its record,
  and when appending and opening succeed.
- **Lines once and in order** (`TailerRuns.WindowIndependence`,
  `TailerRuns.RunTiled`) for every schedule of growth, polls, checkpoints and
  restarts.
- **Strict FIFO and at-least-once, end to end** (`Pipeline.StrictFifo`,
  `Pipeline.AtLeastOnce`) against a collector that reports what it likes, with a
  crash at any durable effect. The books of a run (`Pipeline.BooksOf`) are
  computed from it, event by event: which batches the log holds and which
  requests were for which batch; which are owed, because their record was
  durable, also at the start, or the exporter took charge of them; which the cap
  took, because their record lay in a segment file an event removed; and which
  were damaged on disk.
- **Backlog** (`DeliveryProofs.TickPace`, `BacklogDrains`, `DirectResumes`,
  `Pipeline.TickDrains`): an accepting collector takes 31 off the backlog per
  tick if and only if the tick has a batch and the log does not refuse it, and
  in the end direct export resumes. `Pipeline.FixedFileShipped`: it gets every
  complete line of a file that no longer changes. `DeliveryProofs.DeliverRefines`
  gives a delivery in terms of plain queues, `Pipeline.TickPersists` when the
  checkpoint moves.
- **Signed messages** (`Enroll.CanonicalInjective`, `Auth.MessagesDisjoint`,
  `Auth.ProofBinds`, `Cert.VerifyChain` with `Cert.AcceptedMeans`,
  `Namespace.WithinIsSegmentPrefix`).

Modelling choices a reader should know:

- A segment's directory listing is kept in the order of segment numbers, which
  is the order `segment_sequences` sorts it into. 32- and 64-bit limits are
  written out (`U32_LIMIT`, `U64_LIMIT`); running out of segment numbers is an
  error outcome. Strings are their UTF-8 bytes.
- `State.records` holds the index with the record each entry points at; the
  object keeps only position and length and reads the record back from its file.
- The collector is an arbitrary function from request number to what the client
  sees of it; a request reported as failed may have been accepted. Protobuf
  encoding, signature verification and key decoding are arbitrary functions.
- `Exporters.Exporter` is the path that `LogsExporter` and `MetricsExporter`
  share line for line; `handed` is what the first returns, `clean` what the
  second returns. `Pipeline.Other` is a batch of any further source.
- A write that fails while the process lives on is not a step of the model: the
  source does not roll it back, and `Frames.UnrepairedTail` shows that the next
  record then is lost to a later scan exactly when torn bytes were left behind.
- A batch the log refuses for its size stops the drain as well: both exporters
  return from the failed append before they look at the backlog
  (`crates/crossx-agent/src/logs.rs:53-62`, `crates/crossx-agent/src/export.rs:114-117`),
  and the tailer then offers the same lines again. A tick without new lines does
  not drain either (`crates/crossx-agent/src/logs.rs:237-239`). `DeliveryProofs.StalledLog` gives
  the case, `DeliveryProofs.RefusedStalls` and `Pipeline.RefusedForever` say that it
  lasts.
- The comment at `crates/crossx-agent/src/wal.rs:77-79` reads as if the size
  check kept a successful append from evicting its own record. With a cap below
  the segment size it does not: `WalReopen.AppendCanLoseItsRecord` gives the
  case and `WalOperations.AppendRetention` the exact condition.

## Model

| member | source | states |
|---|---|---|
| Crc32.Crc32 | crates/crossx-agent/src/wal.rs:395-404 | the register loops with the mask trick compute the bit-serial checksum |
| Crc32.BranchlessFeedback | crates/crossx-agent/src/wal.rs:400 | shifting and masking with the negated low bit is the conditional polynomial feedback |
| Crc32.TableDriven | crates/crossx-agent/src/wal.rs:398-401 | eight bit steps equal one table lookup per byte, the form of section 8 of RFC 1952 |
| Crc32.TopEntry | crates/crossx-agent/src/wal.rs:400 | the table entry of byte 128 is 0xedb88320, as section 8 of RFC 1952 lists it |
| Crc32.FirstByte | crates/crossx-agent/src/wal.rs:395-404 | one byte behind the all-ones preset, in terms of the table |
| Crc32.KnownChecksums | crates/crossx-agent/src/wal.rs:395-404 | the checksums of no bytes, of 255, of 127 and of four bytes 255, as numbers: preset, polynomial and final complement |
| Crc32.RegisterLinear | crates/crossx-agent/src/wal.rs:395-404 | the register map is linear over xor of registers and messages |
| Crc32.RegisterInjective | crates/crossx-agent/src/wal.rs:395-404 | feeding the same bytes never merges two registers |
| Crc32.WindowDetection | crates/crossx-agent/src/wal.rs:395-404 | equal-length messages differing only inside four consecutive bytes, anywhere, have equal checksums iff the windows are equal |
| ByteStrings.Digits | crates/crossx-agent/src/wal.rs:101-106 | little-endian puts the lowest base-256 digit first, big-endian last |
| Frames.EncodeLayout | crates/crossx-agent/src/wal.rs:101-110 | byte by byte: length from byte 0 and checksum from byte 4, lowest byte first, payload from byte 8 |
| Frames.KnownRecord | crates/crossx-agent/src/wal.rs:101-110 | the nine bytes of the record of payload 255 |
| Frames.AppendWhole | crates/crossx-agent/src/wal.rs:97-117 | one more encoded record behind a whole segment is scanned as exactly one more entry at the old end |
| Frames.AppendTorn | crates/crossx-agent/src/wal.rs:310-321 | any strict prefix of a record is invisible to the scan |
| Frames.TruncateKeepsEntries | crates/crossx-agent/src/wal.rs:331-342 | truncating to the scan's end keeps all complete records of any bytes |
| Frames.TornTailRoundTrip | crates/crossx-agent/src/wal.rs:283-344 | any records plus a torn one scan to the records, repair to their end, and take a further record behind it |
| Frames.UnrepairedTail | crates/crossx-agent/src/wal.rs:285-289 | without the repair a later record is found iff no torn bytes precede it |
| WalModel.EvictDecreases | crates/crossx-agent/src/wal.rs:212-229 | each eviction lowers total bytes, or keeps them and lowers the segment count, also for empty and active segments |
| WalProofs.CursorRoundTrip | crates/crossx-agent/src/wal.rs:346-369 | the 16-byte cursor file reads back as the cursor written |
| WalProofs.CursorLayout | crates/crossx-agent/src/wal.rs:362-369 | byte by byte: segment number from byte 0, offset from byte 8, lowest byte first |
| WalProofs.SaveCursorExact | crates/crossx-agent/src/wal.rs:174-188 | persisting the computed cursor makes a reopening recover the in-memory index, no more and no less |
| WalEviction.EvictKeeps | crates/crossx-agent/src/wal.rs:213-244 | one eviction takes exactly the oldest segment's records out of index and rescan |
| WalEviction.EvictTraceLeaves | crates/crossx-agent/src/wal.rs:216-244 | a crash between new segment, removal and cursor rename leaves exactly the records whose segment file is still there, less damaged ones already passed over |
| WalEviction.EnforceCapKeeps | crates/crossx-agent/src/wal.rs:210-247 | the whole loop keeps exactly the records whose segment remains, in the index and, at every disk state inside it, for a rescan |
| WalEviction.EnforceCapStops | crates/crossx-agent/src/wal.rs:210-247 | on success the directory fits and is the longest suffix that fits, or one fresh empty segment when the active one alone does not |
| WalEviction.EnforceCapFails | crates/crossx-agent/src/wal.rs:216-224 | on failure every older segment is gone and the active one is not |
| WalEviction.EnforceCapSucceeds | crates/crossx-agent/src/wal.rs:212-224 | the loop fails iff the active segment alone exceeds the cap and no segment number is left |
| WalEviction.LeavesQueue | crates/crossx-agent/src/wal.rs:225-228 | on such a disk the queue is the old one less exactly as many front payloads as lay in removed files |
| WalOperations.WriteStepsRecover | crates/crossx-agent/src/wal.rs:90-112 | the record appears in a rescan with its last byte and not before |
| WalOperations.AppendKeeps | crates/crossx-agent/src/wal.rs:74-120 | an accepted append adds its record at the back and removes exactly the evicted segments' records |
| WalOperations.AppendWithinCap | crates/crossx-agent/src/wal.rs:74-120 | while the directory fits, append succeeds and evicts nothing |
| WalOperations.AppendCrash | crates/crossx-agent/src/wal.rs:74-120 | at every durable effect the disk recovers to the old queue until the last byte, then to the new one less exactly the records in removed files |
| WalOperations.AppendRetention | crates/crossx-agent/src/wal.rs:75-120 | a successful append ends at the back of the queue iff the active segment has not outgrown the cap, else the log is empty; a cap of a segment or more never loses it |
| WalOperations.AppendTakes | crates/crossx-agent/src/wal.rs:75-119 | an append succeeds iff it is not refused and, should the active segment outgrow the cap, a segment number is left |
| WalOperations.AppendSucceeds | crates/crossx-agent/src/wal.rs:74-120 | the same in numbers: below 2^32 bytes, header of 8, record within the cap, and a segment number left where 4 MiB or the cap would be outgrown; a refusal before the write changes nothing |
| WalOperations.AppendPlaces | crates/crossx-agent/src/wal.rs:85-119 | a successful append puts the record behind the newest segment, or in a new one iff that would outgrow 4 MiB, and keeps the longest suffix of that listing that fits the cap |
| WalReopen.AppendCanLoseItsRecord | crates/crossx-agent/src/wal.rs:77-84 | with a 20-byte cap any second 12-byte record is accepted and gone |
| WalReplay.IndexAgreement | crates/crossx-agent/src/wal.rs:52-68 | the index is strictly ascending, every entry reads back, and without damage it equals the rescan |
| WalReplay.ReadEntryExact | crates/crossx-agent/src/wal.rs:132-147 | seeking to an entry's offset reads that entry's record |
| WalReplay.SkipKeeps | crates/crossx-agent/src/wal.rs:148-156 | passing over damaged records leaves the disk and the deliverable queue alone and ends at an intact record |
| WalReplay.NextDelivers | crates/crossx-agent/src/wal.rs:122-163 | next returns the front of the queue on disk, or nothing iff it is empty |
| WalReplay.AckKeeps | crates/crossx-agent/src/wal.rs:165-191 | ack removes exactly the head; from the cursor's rename on every disk state recovers to the rest |
| WalReplay.AckExact | crates/crossx-agent/src/wal.rs:166-173 | an acknowledgement succeeds iff segment and offset are those of the head; any other changes nothing |
| WalReplay.DropTraceKeeps | crates/crossx-agent/src/wal.rs:198-208 | each deletion of an acknowledged segment is invisible to a rescan |
| WalReplay.DrainDelivers | crates/crossx-agent/src/wal.rs:122-191 | alternating next and ack delivers the queue on disk in order |
| WalReopen.RepairTraceKeeps | crates/crossx-agent/src/wal.rs:331-342 | every state of the tail repair recovers to the same records |
| WalReopen.OpenKeeps | crates/crossx-agent/src/wal.rs:42-71 | opening any disk a run can leave indexes exactly the records whose segment the cap left, and a crash anywhere inside leaves the same on disk |
| WalReopen.OpenSucceeds | crates/crossx-agent/src/wal.rs:42-71 | opening any directory with a readable cursor fails iff its newest segment, less the torn tail, alone exceeds the cap and no segment number is left; what stays is the longest suffix that fits, or one fresh segment |
| WalReopen.OpenEmpty | crates/crossx-agent/src/wal.rs:42-55 | the first start succeeds with one empty segment 0 and no cursor file |
| WalRuns.StepRefines | crates/crossx-agent/src/wal.rs:42-191 | every event, crashed or not, is an event of a FIFO queue that loses from its front exactly the records in the segment files the event removed for the cap, and none below the cap |
| WalRuns.RunExact | crates/crossx-agent/src/wal.rs:42-191 | over every run the recovered queue is the initial one and the landed appends, in order, less exactly the acknowledged heads and the records in removed files |
| WalRuns.NeverEvicts | crates/crossx-agent/src/wal.rs:212 | a run that stays below the cap removes none |
| WalRuns.RunFromNothing | crates/crossx-agent/src/wal.rs:42-191 | the same from an empty directory, which is a start such runs can have |
| WalDamage.DamageDetected | crates/crossx-agent/src/wal.rs:148-156 | a damaged payload window or stored checksum never verifies |
| WalDamage.HitsAreDamage | crates/crossx-agent/src/wal.rs:310-330 | any set of records, each overwritten in up to four payload bytes or in its stored checksum, leaves all other records and all positions as they are |
| WalDamage.DamageIsolated | crates/crossx-agent/src/wal.rs:127-191 | with any set of records damaged, draining and reopening both yield exactly the undamaged ones in order |
| WalLifecycle.DropAckedExact | crates/crossx-agent/src/wal.rs:198-208 | exactly the segments before the cursor go, the active one excepted, and they are a prefix |
| WalLifecycle.StepAdvances | crates/crossx-agent/src/wal.rs:42-247 | each event, crashed anywhere, keeps segment numbers contiguous, segments bounded, the cursor on a record boundary and not behind |
| WalLifecycle.RunAdvances | crates/crossx-agent/src/wal.rs:42-247 | the same over whole runs: the durable cursor never goes back |
| WalLifecycle.RunFromNothingAdvances | crates/crossx-agent/src/wal.rs:42-55 | an empty directory is a start such runs can have |
| LogDirectory.Directory.List | crates/crossx-agent/src/wal.rs:260-281 | the segment numbers in ascending order |
| LogDirectory.Directory.OpenSegment | crates/crossx-agent/src/wal.rs:381-389 | an existing segment is left alone, a new one is created empty |
| LogDirectory.Directory.Extend | crates/crossx-agent/src/wal.rs:101-112 | bytes go behind the newest segment one by one, each a state a crash can leave |
| LogDirectory.Directory.Truncate | crates/crossx-agent/src/wal.rs:338-341 | only the named segment is cut |
| LogDirectory.Directory.Remove | crates/crossx-agent/src/wal.rs:201-204 | only the named segment goes |
| LogDirectory.Directory.ReplaceCursor | crates/crossx-agent/src/wal.rs:361-379 | the cursor file is replaced in one step |
| WriteAheadLog.Wal.RollSegment | crates/crossx-agent/src/wal.rs:90-96 | opens the next segment or fails at the end of the numbers |
| WriteAheadLog.Wal.PersistCursor | crates/crossx-agent/src/wal.rs:174-188 | saves the head's position or the end of the active segment |
| WriteAheadLog.Wal.TotalBytes | crates/crossx-agent/src/wal.rs:250-258 | the sum of the segment lengths |
| WriteAheadLog.Wal.Evict | crates/crossx-agent/src/wal.rs:213-244 | one turn of the loop, state and trace, or failure when no segment number is left |
| WriteAheadLog.Wal.EnforceCap | crates/crossx-agent/src/wal.rs:210-247 | the loop equals `EnforceCap` on values, with the same disk states in the same order |
| WriteAheadLog.Wal.WriteRecord | crates/crossx-agent/src/wal.rs:97-112 | three writes make up one encoded record, byte by byte |
| WriteAheadLog.Wal.Refuses | crates/crossx-agent/src/wal.rs:75-96 | the refusals: payload beyond u32, record beyond the cap, no segment number left |
| WriteAheadLog.Wal.Append | crates/crossx-agent/src/wal.rs:74-120 | append equals `Append` on values, disk states included, and keeps the invariant |
| WriteAheadLog.Wal.ReadFront | crates/crossx-agent/src/wal.rs:132-147 | header and payload of the front entry as they are on disk |
| WriteAheadLog.Wal.Next | crates/crossx-agent/src/wal.rs:127-163 | the loop drops damaged heads and returns the first intact one, or nothing |
| WriteAheadLog.Wal.Ack | crates/crossx-agent/src/wal.rs:166-191 | ack equals `Ack` on values; anything but the head is refused |
| WriteAheadLog.Wal.DeleteFullyAcked | crates/crossx-agent/src/wal.rs:198-208 | the deletion loop, state by state |
| WriteAheadLog.Wal.PendingCount | crates/crossx-agent/src/wal.rs:193-196 | the number of index entries |
| WriteAheadLog.ScanRecords | crates/crossx-agent/src/wal.rs:306-330 | the scan loop finds the complete records at or after the cursor and where they end |
| WriteAheadLog.ScanSegment | crates/crossx-agent/src/wal.rs:290-344 | the scan indexes the segment and cuts its torn tail |
| WriteAheadLog.ScanAll | crates/crossx-agent/src/wal.rs:56-59 | all segments are scanned and repaired in order |
| WriteAheadLog.ReadCursor | crates/crossx-agent/src/wal.rs:346-359 | a missing file starts at the oldest segment, a file of any other length than 16 is an error |
| WriteAheadLog.Open | crates/crossx-agent/src/wal.rs:42-71 | open equals `Open` on values, disk states included, and establishes the invariant; an unreadable cursor file is an error, and `OpenSucceeds` says when it fails otherwise |
| Lines.BodyOf | crates/agent-telemetry/src/logs.rs:116-121 | for every line: exactly one newline and then one carriage return are stripped, the latter also from fragments |
| Lines.BodiesEach | crates/agent-telemetry/src/logs.rs:116-127 | one body per line, in order, empty ones included |
| Lines.BodyKeepsInner | crates/agent-telemetry/src/logs.rs:121 | a second carriage return stays in the body |
| Lines.TakenIsPrefix | crates/agent-telemetry/src/logs.rs:104-129 | the lines taken are the first bytes of the window |
| Lines.TakenComplete | crates/agent-telemetry/src/logs.rs:108-115 | an incomplete line is taken only from a full window without newline |
| Lines.TakenMaximal | crates/agent-telemetry/src/logs.rs:104-115 | below the record bound no complete line of the window is left |
| Lines.SplitUnique | crates/agent-telemetry/src/logs.rs:104 | complete lines are the newline split of their concatenation |
| Tailer.CheckpointRoundTrip | crates/agent-telemetry/src/logs.rs:143-146 | the 24-byte checkpoint reads back as written |
| Tailer.CheckpointLayout | crates/agent-telemetry/src/logs.rs:143-146 | byte by byte: offset from byte 0, file identity from byte 8, lowest byte first |
| Tailer.PolledTiles | crates/agent-telemetry/src/logs.rs:82-135 | a poll takes a contiguous piece from its start offset, of at most 512 KiB and 4096 lines |
| Tailer.PolledEmpty | crates/agent-telemetry/src/logs.rs:104-115 | a poll is empty iff fewer than 512 KiB remain and no newline is in them |
| Tailer.PolledWhole | crates/agent-telemetry/src/logs.rs:108-115 | every polled line is complete or a whole window without newline |
| Tailer.PolledMaximal | crates/agent-telemetry/src/logs.rs:104-107 | fewer than 4096 lines means no complete line was left in the 512 KiB window |
| Tailer.PolledAgain | crates/agent-telemetry/src/logs.rs:82-135 | polling again after growth repeats the earlier lines first |
| Tailer.UnknownFile | crates/agent-telemetry/src/logs.rs:64-67 | a file without checkpoint is read from its end: whatever it holds, only what is appended is shipped |
| Tailer.PersistedResumes | crates/agent-telemetry/src/logs.rs:130-156 | after a poll and its checkpoint, running and rebuilt tailer go on behind the polled lines, also in a replaced file |
| Tailer.DrainTakesAll | crates/agent-telemetry/src/logs.rs:79-81 | polling a fixed file to the end terminates with only a newline-free tail shorter than a window left |
| Tailer.ReplacedFile | crates/agent-telemetry/src/logs.rs:55-63 | a rotated or shortened file is drained from its first byte, by a running and a rebuilt tailer |
| Tailer.OpenTailer | crates/agent-telemetry/src/logs.rs:44-77 | fails iff the file is missing or its checkpoint malformed; else equals `NewTail`, whose start `UnknownFile`, `ReplacedFile` and `PersistedResumes` fix for a missing, a stale and a matching checkpoint |
| Tailer.FileTailer.Poll | crates/agent-telemetry/src/logs.rs:82-135 | the loop returns the bodies of the polled lines and moves only the pending offset |
| Tailer.FileTailer.PersistCheckpoint | crates/agent-telemetry/src/logs.rs:138-158 | commits the pending offset, or nothing when the file cannot be written |
| TailerRuns.StepTiled | crates/agent-telemetry/src/logs.rs:44-158 | growth, poll, persist and restart keep delivered and polled lines tiling the file and the checkpoint in step |
| TailerRuns.RestartResumes | crates/agent-telemetry/src/logs.rs:54-60 | a tailer rebuilt from its checkpoint continues identically |
| TailerRuns.RunTiled | crates/agent-telemetry/src/logs.rs:44-158 | whatever the lines and the schedule, consumed ranges have no gap and no overlap |
| TailerRuns.WindowIndependence | crates/agent-telemetry/src/logs.rs:79-135 | when every line fits a window any schedule delivers exactly the lines of the file up to the committed offset |
| TailerRuns.OnlyGrowth | crates/agent-telemetry/src/logs.rs:64-67 | over any run from an unknown file, also with restarts before the first checkpoint, nothing it held when met is delivered or polled |
| TailerRuns.RetryRepeats | crates/agent-telemetry/src/logs.rs:130-133 | a poll that was not persisted is repeated as a prefix of the next |
| Export.AttemptsExact | crates/crossx-agent/src/export.rs:143-172 | one to four attempts of the same request, all but the last reported failed, four when the export fails |
| Export.SucceedsExactly | crates/crossx-agent/src/export.rs:143-172 | an export succeeds iff one of the next four requests is reported accepted, and sends the same request up to that one |
| ExportProofs.DrainHolds | crates/crossx-agent/src/logs.rs:72-85 | a crash at any world of the drain leaves requests in order, nothing owed lost, and only a front of the log acknowledged |
| ExportProofs.DrainEnds | crates/crossx-agent/src/logs.rs:72-85 | a finished drain has lost nothing that was safe |
| ExportProofs.DrainRefines | crates/crossx-agent/src/export.rs:128-141 | draining the log is draining the plain queue it holds: same requests, same rest, same outcome, in states with damage too |
| DeliveryProofs.DeliverHolds | crates/crossx-agent/src/logs.rs:41-70 | a crash at any world of a delivery leaves requests in order and nothing owed lost; the batch is owed once its record landed, and the cap took exactly the batches in files it removed |
| DeliveryProofs.DeliverEnds | crates/crossx-agent/src/logs.rs:37-70 | success means the batch is accepted or in the log, except exactly when its append outgrew the cap inside the active segment |
| DeliveryProofs.DeliverRefines | crates/crossx-agent/src/logs.rs:41-85 | a delivery in terms of plain queues: direct with nothing waiting, into the log on failure, else behind the queue with up to 32 heads exported; charge is taken iff accepted or put into the log |
| DeliveryProofs.TickPace | crates/crossx-agent/src/export.rs:114-140 | with an accepting collector one tick takes min(N, 31) off a backlog of N iff the log does not refuse its batch; a refused batch leaves everything as it was |
| DeliveryProofs.BacklogDrains | crates/crossx-agent/src/export.rs:114-140 | after k ticks of batches that fit the cap min(N, 31 k) are gone |
| DeliveryProofs.DirectResumes | crates/crossx-agent/src/export.rs:114-126 | once 31 k reaches N the log is empty and the next batch goes straight to the collector, once |
| DeliveryProofs.RefusedStalls | crates/crossx-agent/src/logs.rs:53-62 | a refused batch behind a backlog, repeated any number of times, sends nothing whatever the collector says |
| DeliveryProofs.StalledLog | crates/crossx-agent/src/logs.rs:53-62 | a 20-byte log with one record and any batch over 12 bytes is such a case |
| Pipeline.TickBalanced | crates/crossx-agent/src/logs.rs:208-254 | one tick, crashed anywhere, keeps every byte before the durable offset accounted for; the new books are the ones computed from the tick |
| Pipeline.RunBalanced | crates/crossx-agent/src/logs.rs:208-254 | the same over whole runs with growth, restarts, missing files, damage to the log and other sources |
| Pipeline.StrictFifo | crates/crossx-agent/src/export.rs:114-141 | the numbers the run gives to its requests never decrease and never pass what is queued; when one is sent, every older batch that was ever durable or taken charge of is accepted, was in a removed segment file, or was damaged |
| Pipeline.AtLeastOnce | crates/crossx-agent/src/logs.rs:37-85 | every byte up to the durable offset, and every batch ever durable or taken charge of, is accepted, in the log, was in a segment file the cap removed, or was damaged |
| Pipeline.CalmTakesNone | crates/crossx-agent/src/wal.rs:212 | a run below the cap removes none |
| Pipeline.NothingSkipped | crates/crossx-agent/src/wal.rs:148-156 | a run without damage skips none |
| SkipProofs.UndamagedNames | crates/crossx-agent/src/wal.rs:148-156 | after damage the batches that came through, and no others, are what the log still delivers, in the same order |
| SkipProofs.DamageMatches | crates/crossx-agent/src/wal.rs:127-163 | damage under an open or closed log keeps the books, the batches it hit apart |
| Pipeline.CarriesLines | crates/agent-telemetry/src/logs.rs:104-129 | a batch encodes its stretch of the file cut into complete lines and newline-free windows |
| Pipeline.FirstInstallation | crates/agent-telemetry/src/logs.rs:64-67 | an empty log without checkpoint is a start such runs can have |
| Pipeline.RefusedForever | crates/crossx-agent/src/logs.rs:238-246 | ticks whose batch the log refuses behind a backlog never move log, collector or checkpoint |
| Pipeline.TickDrains | crates/crossx-agent/src/logs.rs:53-62 | with an accepting collector a tick takes min(N, 31) off a backlog of N iff the file has new lines and the log does not refuse them; an idle tick changes nothing |
| Pipeline.FixedFileShipped | crates/crossx-agent/src/logs.rs:208-254 | with nothing waiting, an accepting collector gets every complete line of a fixed file, in order, one request per poll |
| Pipeline.TickPersists | crates/crossx-agent/src/logs.rs:237-254 | the checkpoint moves behind the polled lines iff the exporter took charge, directly or through the log, and the file could be written before a crash; otherwise the next tick reads the same lines |
| Pipeline.MissedResumes | crates/crossx-agent/src/logs.rs:226-236 | a missing file drops the tailer only; reading resumes at the checkpoint, or at the file's end without one |
| Exporters.Exporter.ExportWithRetry | crates/crossx-agent/src/export.rs:143-172 | the retry loop sends what `Attempts` lists and reports its last outcome |
| Exporters.Exporter.DrainOne | crates/crossx-agent/src/export.rs:130-138 | one head is sent and only then acknowledged |
| Exporters.Exporter.DrainWal | crates/crossx-agent/src/export.rs:128-141 | the loop equals `Drain` on values, in the same order of effects |
| Exporters.Exporter.DeliverBatch | crates/crossx-agent/src/logs.rs:41-70 | direct when the log is empty, behind the log otherwise, into the log on failure, in this order of effects |
| Exporters.FileSource.PollInto | crates/crossx-agent/src/logs.rs:208-254 | one call is one tick of the pipeline, for which `TickPersists` says when the checkpoint moves; a missing file drops the tailer, a malformed checkpoint skips the tick |
| Chunks.AppendChunk | crates/crossx-relay-rs/src/enroll.rs:53-57 | appends the big-endian length and the value |
| Chunks.ChunkLayout | crates/crossx-relay-rs/src/enroll.rs:53-57 | byte by byte: four length bytes, highest first, at most 0xffffffff, then the value |
| Chunks.ConcatInjective | crates/crossx-relay-rs/src/auth.rs:47-51 | chunk lists of encodable lengths are uniquely decodable |
| Chunks.ParseConcat | crates/crossx-relay-rs/src/auth.rs:47-51 | a chunk list reads back as its values |
| Chunks.TagsSeparate | crates/crossx-relay-rs/src/enroll.rs:10-11 | different tags make different messages, whatever follows |
| ByteOrder.SortKeeps | crates/crossx-relay-rs/src/enroll.rs:64-65 | sorting orders bytewise and keeps multiplicities |
| ByteOrder.LexLeMeans | crates/crossx-relay-rs/src/enroll.rs:65 | the order is the bytewise one: a prefix first, otherwise the smaller byte at the first difference |
| ByteOrder.SortCanonical | crates/crossx-relay-rs/src/enroll.rs:64-65 | sorted lists agree iff the multisets do |
| Enroll.CanonicalBytes | crates/crossx-relay-rs/src/enroll.rs:63-85 | the two buffers end up holding the canonical bytes |
| Enroll.CanonicalInjective | crates/crossx-relay-rs/src/enroll.rs:63-85 | equal bytes iff equal scalar fields and equal scope multisets |
| Enroll.CanonicalReads | crates/crossx-relay-rs/src/enroll.rs:63-85 | every field reads back from its place, the scope sorted |
| Enroll.CanonicalChunks | crates/crossx-relay-rs/src/enroll.rs:63-85 | the chunks in order: tag, version, project, peer, kind, key, count and sorted scope, expiry in two's complement |
| Enroll.VerifyExactly | crates/crossx-relay-rs/src/enroll.rs:96-108 | malformed iff key or signature has the wrong shape, else invalid iff the signature does not verify over the canonical bytes |
| Enroll.VerifyIgnoresScopeOrder | crates/crossx-relay-rs/src/enroll.rs:96-108 | a signature holds for one listing of the scope iff for every other |
| Cert.CanonicalCertBytes | crates/crossx-relay-rs/src/cert.rs:49-60 | the buffer ends up holding the canonical bytes |
| Cert.CanonicalCertInjective | crates/crossx-relay-rs/src/cert.rs:49-60 | equal bytes iff all fields but the signature are equal |
| Cert.CanonicalCertReads | crates/crossx-relay-rs/src/cert.rs:49-60 | every field but the signature reads back from its place |
| Cert.CanonicalCertChunks | crates/crossx-relay-rs/src/cert.rs:49-60 | the chunks in order: tag, subject key and id, role, namespace, expiry in two's complement, issuer |
| Cert.ConditionsMean | crates/crossx-relay-rs/src/cert.rs:64-80 | each condition that decides an error, spelled out: roles, expiries, whose key each signature verifies under, lengths |
| Cert.AcceptedMeans | crates/crossx-relay-rs/src/cert.rs:127-169 | acceptance spelled out, both ways: each certificate verifies under the key of the next, the issuing one under the trusted root it names, the enrollment under the member's key; 32- and 64-byte guards, roles, expiries, namespace |
| Cert.VerifyChain | crates/crossx-relay-rs/src/cert.rs:127-169 | accepts iff the conditions hold that `AcceptedMeans` spells out, and returns each error on exactly its condition |
| Cert.AcceptanceWindow | crates/crossx-relay-rs/src/cert.rs:139-164 | an acceptable chain is accepted at precisely the times before its least expiry, which is positive |
| Cert.AcceptedInsideOrg | crates/crossx-relay-rs/src/cert.rs:165-167 | an accepted project lies below its organisation, segment by segment |
| Namespace.WithinIsSegmentPrefix | crates/crossx-relay-rs/src/cert.rs:171-185 | the string test is the prefix test on clean path segments |
| Namespace.CleanExactly | crates/crossx-relay-rs/src/cert.rs:181-185 | a path without slash is clean iff it is not empty, one dot or two; a path with one iff both sides of it are clean |
| Namespace.WithinPartialOrder | crates/crossx-relay-rs/src/cert.rs:171-178 | containment is reflexive on clean paths, antisymmetric and transitive |
| Namespace.WithinLaminar | crates/crossx-relay-rs/src/cert.rs:171-178 | two namespaces containing one project are nested |
| Auth.TranscriptBytes | crates/crossx-relay-rs/src/auth.rs:7-16 | the buffer ends up holding the transcript |
| Auth.EnrollmentTranscriptBytes | crates/crossx-relay-rs/src/auth.rs:32-45 | the buffer ends up holding the enrollment transcript |
| Auth.TranscriptReads | crates/crossx-relay-rs/src/auth.rs:7-45 | both transcripts read back as tag, digest, middle part and nonce |
| Auth.TranscriptInjective | crates/crossx-relay-rs/src/auth.rs:7-16 | equal transcripts iff equal digest, principal and nonce |
| Auth.EnrollmentTranscriptInjective | crates/crossx-relay-rs/src/auth.rs:26-45 | equal transcripts iff equal digest and nonce and the same claims |
| Auth.MessagesDisjoint | crates/crossx-relay-rs/src/auth.rs:7-45 | no bytes are a signed message of two of the four kinds |
| Auth.ProofBinds | crates/crossx-relay-rs/src/peer.rs:419-424 | equal proofs iff same identity kind and content, same binding and same nonce |
| Auth.ProofReads | crates/crossx-relay-rs/src/peer.rs:419-424 | an enrolled identity signs binding, canonical claims and nonce under the enrollment tag, a bare one binding, principal and nonce under the other |

## Left out

- Sockets, gRPC, relay pipes, TLS, yamux, scheduling, sleeps and jitter: only the reported outcome of each request is kept.
- Ed25519, SHA-256, base64, JSON, protobuf and lossy UTF-8 decoding: arbitrary functions, so the log's decode of a payload it encoded is taken to succeed.
- I/O errors other than the modelled ones: a failing file operation ends the process; a torn write without a restart is covered by `Frames.UnrepairedTail` only.
- Effects of power loss beyond torn appends, such as lost directory entries or reordered sectors; the Windows replacement of the checkpoint in two steps.
- Names in the log directory that parse to the same segment number, and a cursor file pointing beyond the newest segment.
- LogDirectory.Directory.List: the listing is kept in the order of segment numbers; reading the numbers off the file names and sorting them is not modelled.
- The time stamp of a log record: what a batch encodes to depends on its lines only.
- Inode reuse and copy-truncate of a log file that grows past the old offset.
- Pipeline.AtLeastOnce: the file only grows; a file rotated while part of it is unread is outside the statement, as is a file read before its first checkpoint.
- SkipProofs.DamageMatches: a record is damaged at most once; overwriting a damaged record again, which could restore it, is not an event.
- The journald follower, `sampler.rs`, `otlp.rs`, `config.rs`, `main.rs`, `frame.rs`, `protocol.rs` and `relay.rs`: readings, field mappings and one-line rules.
- Cert.VerifyChain: the order of checks shows only in which error is returned; `ChainError::Chain` is what remains when none of the other conditions holds.
