# FastDL verification

A Dafny model of the stateful core of FastDL, a Metamod plugin that serves game content over an
embedded HTTP server: the on-disk gzip cache, the bandwidth limiter, the request limiter, range
requests and transfers, transfer metrics, the asynchronous logger and the configuration parser.

`dafny verify dfyconfig.toml` checks the whole project.

## How the system is modelled

Threads become interleaved atomic steps. A protocol in which several threads act on files or atomics is
a total step function over events, and its theorems are about every sequence of events whatever, or about
every sequence that meets a named condition (there is one such condition, `TrueReturns` below):

- `PublishProtocol`: the worker that publishes `.gz`/`.meta` pairs by temporary file and rename, request
  threads that look entries up and open them, maintenance, process death, and modification of the source
  under the worker's hands, one filesystem operation at a time. Any operation may fail, and a failed write
  may leave anything behind. `PublishProgress` shows where every run without faults ends, and what a source
  that changes back leads to; `RestoredSource` is a concrete instance of the latter; `EndToEnd` joins the
  protocol to the response that a client receives. `TempFiles` follows the temporary files.
- `AcquireProtocol`: any number of `acquire` calls on the global and the per-IP buckets, with loads,
  compare-and-swap attempts (also spurious failures), waits, cancellation and stopping interleaved.
  `AcquireProgress` shows what calls get from it.
- `Metrics` (the counters) and `Logger`: the same for `saturatingAdd` and for the logger's producers and
  worker.

State that the program updates under one mutex is a class whose methods are the locked regions:
`CacheBudget.CompressionCache`, `JobQueue.Queue`, `ClientTable.Table`, `RateLimiter.Limiter`,
`Metrics.TransferMetrics`, `Logger.AsyncLogger`. Loops of the source stay loops. Each method is proved
against a description that does not know the bookkeeping: the full history of decisions (`RateHistory`),
an unbounded log of bytes (`Metrics`), the newest artifacts of a directory (`CacheBudget.Evicted`), the
run of the logger's machine. Time is an integer argument, the filesystem a map from names to contents.

Assumptions, each stated as a predicate where it is used:

- `Gzip.Lawful`: inflating what the bundled deflater wrote gives back its input however it was cut into
  chunks, and a CRC can be continued. `RestoredSource.PackerIsLawful` shows the laws can be met.
- `PublishProtocol.NoCollision`: the 128-bit cache key does not collide on the identities that occur, and
  an identity (path, size, modification time, file id) determines the file's content.
- `PublishProtocol.TrueReturns`, a condition on the run: whenever the source that the worker has open gets
  back the identity its job was started for, what was read meanwhile is that version's content. It holds in
  particular if no source ever gets an earlier identity back (`NeverReturnsTrueReturns`).
- Clock readings of the request limiter and of the metrics ring are nondecreasing in lock order.
- Atomic operations are sequentially consistent single steps.

## What turned out not to hold

- `durationFor` is the exact ceiling if and only if its fractional product does not wrap at 64 bits
  (`Bandwidth.DurationExactIff`). It wraps for one byte at the largest rate (`DurationWraps`); for the sizes
  and rates the limiter uses it never does (`DurationCovers`).
- A source that is changed, read and restored with its old modification time passes the second inspection
  of `compress`, which compares identities. `PublishProgress.FalseReturnIsServed` shows that any such return
  can lead to wrong content being served, `RestoredSourceIsServed` that the content served is the source's if
  and only if the bytes read are, and `RestoredSource.ZerosServedForOnes` gives a concrete run. In every run
  whatever, a job that has passed the inspection is about to publish the right content if and only if the
  bytes it read are that content (`PublishProtocol.InspectedIff`).
- Not every dropped log line is reported: when the worker has left, all of them have been if and only if it
  never left right after a failure to open the file (`Logger.AllReportedIff`); `DropsGoUnreported` gives a
  run. A full queue alone never costs a report.
- A generated setting is read back if and only if its value is nonempty and has no quote and no line end
  (`Config.SettingRoundTripIff`).
- The total of an eviction pass is 64 bits wide. If what its scan held along the listing never weighed 2^64
  bytes or more, the pass evicts as it should; and if and only if that is so, or nothing is left, the counters
  it leaves are the directory's and the budget holds (`CacheBudget.CompressionCache.MaintainCache`). With at
  most 16384 candidates the condition is on their sum (`WithinIff`). Over three artifacts of the largest file size it ends far over budget (`PassLeavesTooMuch`).

## Model

| member | source | states |
|---|---|---|
| PublishProtocol.ServedContentIsSource | src/compression_cache.cpp:250-273 | over every run from a consistent directory in which no source returns falsely, whatever a request thread has opened after a hit has the size announced and decompresses to exactly the content of the source version it asked for, and a hit not yet opened finds nothing or such an artifact |
| PublishProtocol.RunKeeps | src/compression_cache.cpp:404-585 | every state such a run reaches keeps the invariant: a marker never vouches for an artifact with other content, whatever fails, dies, changes or is removed in between |
| PublishProtocol.InspectedIff | src/compression_cache.cpp:516-522 | in every run whatever, a job past the second inspection holds its version's content if and only if the bytes it read are that content |
| PublishProtocol.NeverReturnsTrueReturns | src/compression_cache.cpp:516-522 | a run in which no open source gets its job's identity back is one without false returns |
| PublishProtocol.CompressKeeps | src/compression_cache.cpp:447-514 | a turn of the read-deflate-write loop, or its end, keeps: the temporary file is the gzip stream of what was fed, and that is a piece of the job's version if it was before |
| PublishProtocol.CheckKeeps | src/compression_cache.cpp:516-526 | a job goes on to publish only a file that reads back as what was fed, and, without a false return, as its version's content |
| PublishProtocol.SkipKeeps | src/compression_cache.cpp:527-557 | each operation of the skip branch only removes published artifacts and markers (that the branch ends, and in what, is `PublishProgress.EveryJobEnds` and `FaultFreeJob`) |
| PublishProtocol.RenameKeeps | src/compression_cache.cpp:571-582 | the two renames replace no good artifact by a bad one and show a marker only beside a good artifact, for every identity |
| PublishProtocol.PublishShrinks | src/compression_cache.cpp:560-584 | every other operation of publishing only removes published files |
| PublishProtocol.AdvanceKeeps | src/compression_cache.cpp:258-267 | each filesystem operation of a lookup and of the open after it keeps the invariant, although marker and artifact are examined at different moments |
| PublishProtocol.ModifyKeeps | src/compression_cache.cpp:516-522 | any change of the open source, and any change back that is not a false return, keeps the invariant |
| PublishProtocol.EvictShrinks | src/compression_cache.cpp:620-627 | maintenance only removes files |
| PublishProtocol.CacheWorldIsWellFormed | src/compression_cache.cpp:181-189 | without hash collisions, keys separate source versions |
| PublishProgress.FaultFreeJob | src/compression_cache.cpp:404-585 | every run of a job without faults, with any requests in between, never gives the job up, and once the worker is idle has left either the pair or the skip marker of its source, by the 5 percent rule and the budget, and nothing else changed in what is published |
| PublishProgress.EveryJobEnds | src/compression_cache.cpp:404-585 | every job ends, whatever fails and however the source changes: once the worker has had as many turns as the source has bytes, and thirteen more, it is idle |
| PublishProgress.FaultFreeJobEnds | src/compression_cache.cpp:404-585 | after so many turns a job without faults has left the pair or the skip marker: the marker if no reading of the source is worth keeping, the pair if every one is |
| PublishProgress.GivenUpChangesNothing | src/compression_cache.cpp:404-526 | a job given up before it publishes anything, for whatever reason, has changed nothing that is published |
| PublishProgress.DeathLeavesDirectory | src/compression_cache.cpp:145-158 | the death of the process ends the job and all requests and leaves the directory as it is |
| TempFiles.NoTempsLeft | src/compression_cache.cpp:413-585 | a job leaves no temporary file behind and touches no other job's, however it ended, unless a removal, a rename or the measuring failed or the process died |
| TempFiles.NoOrphanLeft | src/compression_cache.cpp:571-582 | a job leaves no artifact without a marker, also if its second rename fails, unless taking the artifact away fails too or the process dies |
| TempFiles.WorkTouches | src/compression_cache.cpp:413-424 | every operation of a job leaves the temporary files of all other keys alone |
| PublishProgress.LookupExact | src/compression_cache.cpp:250-273 | on a directory that does not change a lookup comes, in at most six operations, to the artifact if marker and artifact are exactly in place, else to nothing if exactly the skip marker for this budget is, else to asking for a job |
| PublishProgress.RequestIsAnswered | src/compression_cache.cpp:250-273 | while the worker is idle every request comes to that answer after six turns of its thread, whatever other requests do |
| PublishProgress.PublishedIsServed | src/compression_cache.cpp:250-273 | once a job without faults is over, every request for its source is served the artifact it kept, which decompresses to the source, or, if it kept none, does not ask for the job again |
| PublishProgress.ReadIsServed | src/compression_cache.cpp:516-585 | from any state in which the open file has its job's identity, some run serves whatever was read if it is worth keeping, and it is the source if and only if the bytes read are |
| PublishProgress.FalseReturnIsServed | src/compression_cache.cpp:516-522 | any false return to a worker with an intact stream can lead to serving content that is not the source's |
| PublishProgress.RestoredSourceIsServed | src/compression_cache.cpp:516-522 | for every source and all bytes of its length worth keeping: a source changed before it is read and restored before it is inspected is served as those bytes |
| RestoredSource.ZerosServedForOnes | src/compression_cache.cpp:516-522 | a concrete world and run in which zeros are served for a file of ones |
| RestoredSource.PackerIsLawful | src/compression_cache.cpp:470-499 | a codec that meets the laws assumed of the library |
| Gzip.MemberRoundTrip | src/compression_cache.cpp:425-514 | the member written for any chunking of a content reads back, header, CRC and length checked, as that content |
| Gzip.EncoderFeed | src/compression_cache.cpp:470-485 | feeding one chunk keeps checksum and file in step with what was fed |
| Gzip.EncoderFinish | src/compression_cache.cpp:491-508 | the trailer turns the file so far into a member that reads back as everything fed |
| Gzip.LittleEndianRoundTrip | src/compression_cache.cpp:55-63 | the four bytes written denote the value modulo 2^32 |
| Identity.SourceIdentityInjective | src/compression_cache.cpp:169-174 | a source identity determines path, size, modification time and file id, even if the path contains newlines |
| Identity.SkipIdentityInjective | src/compression_cache.cpp:176-179 | a skip identity determines the source and the byte budget |
| Identity.SourceNeverSkip | src/compression_cache.cpp:169-179 | no source identity is a skip identity |
| Identity.EtagInjective | src/fastdl_server.cpp:223-230 | an entity tag determines size, modification time, file id and representation |
| Identity.EtagWellFormed | src/fastdl_server.cpp:223-230 | a tag is a quoted string without a quote or blank inside, as section 8.8.3 of RFC 9110 asks |
| Identity.PathIsFirstLine | src/compression_cache.cpp:219-222 | the path of a source is the first line of its marker, where maintenance looks for it, unless the path has a line end |
| CacheBudget.CompressionCache.MaintainCache | src/compression_cache.cpp:599-708 | for every directory and order: the survivors are the newest valid artifacts up to 16384, pruned only when over budget and then to the first total within 90 percent of it, if what the scan held never weighed 2^64 bytes; the byte count is exact and the budget holds if and only if that is so or nothing is left; a pass that notices stopping leaves the counters alone |
| CacheBudget.CompressionCache.Start | src/compression_cache.cpp:117-131 | starting over less than 2^64 bytes of usable artifacts establishes the budget invariant by the first pass |
| CacheBudget.WithinIff | src/compression_cache.cpp:681-694 | with at most 16384 candidates the scan stays exact if and only if they weigh less than 2^64 bytes together |
| CacheBudget.FitsWithin | src/compression_cache.cpp:681-694 | candidates of less than 2^64 bytes together keep every scan exact, however many they are |
| CacheBudget.PassLeavesTooMuch | src/compression_cache.cpp:697-707 | over three artifacts of the largest file size, in any order, a whole pass leaves one, over budget, with a byte count of one |
| CacheBudget.CompressionCache.Scan | src/compression_cache.cpp:633-695 | after every entry the streaming pass holds the newest valid artifacts so far, up to the limit; its total is their sum if it never passed 64 bits and stays strictly below it otherwise |
| CacheBudget.CompressionCache.Prune | src/compression_cache.cpp:697-705 | the oldest go, one by one while the known total is over the target; with an exact total only when over budget and no further than needed, with one that had stuck the total stays below what is left |
| CacheBudget.Admit | src/compression_cache.cpp:681-694 | one more candidate keeps the bounded queue the newest of all seen so far; its total stays exact unless the sum passes 64 bits, and strictly below for ever after |
| CacheBudget.ScanEntry | src/compression_cache.cpp:660-695 | an unusable artifact is removed at once, a usable one admitted; the directory is what is kept and what is unread |
| CacheBudget.CompressionCache.RecordArtifact | src/compression_cache.cpp:587-597 | the counters grow by the artifact, and a pass runs exactly when they exceed a limit |
| CacheBudget.CompressionCache.Publish | src/compression_cache.cpp:571-585 | publishing, also over an existing artifact, keeps the counters at or above the directory's count and bytes and within the limits |
| CacheBudget.CompressionCache.Discard | src/compression_cache.cpp:527-557 | the skip branch takes the artifact away and keeps the same invariant |
| CacheBudget.AddSize | src/compression_cache.cpp:628-631 | the saturating sum is the sum exactly when that fits 64 bits |
| CacheBudget.Target | src/compression_cache.cpp:698-698 | pruning aims at nine tenths of the budget, rounded up |
| JobQueue.Queue.constructor | src/compression_cache.cpp:126-130 | a started queue is empty and not stopping |
| JobQueue.Queue.Enqueue | src/compression_cache.cpp:241-248 | a key is queued and made pending together, unless stopping, full or pending; a full queue leaks no pending key |
| JobQueue.Queue.RequestBuild | src/compression_cache.cpp:275-280 | a build is requested unless stopping |
| JobQueue.Queue.TakeWork | src/compression_cache.cpp:301-316 | stopping wins over a build, a build over a job; jobs are taken in the order they were accepted and stay pending |
| JobQueue.Queue.Claim | src/compression_cache.cpp:355-358 | the scan compresses only keys that nobody has queued |
| JobQueue.Queue.Finish | src/compression_cache.cpp:322-326 | afterwards pending is exactly the queued keys; failures count only while not stopping |
| JobQueue.Queue.EndScan | src/compression_cache.cpp:317-320 | the scan gives the worker back to the waiting loop with the queue intact |
| JobQueue.Queue.BeginStop | src/compression_cache.cpp:146-149 | stopping keeps the queue invariant |
| JobQueue.Queue.FinishStop | src/compression_cache.cpp:152-157 | once the worker is joined, clearing leaves no pending key behind |
| Bandwidth.DurationExactIff | src/bandwidth_limiter.cpp:29-41 | for all 64-bit arguments the duration is the ceiling of bytes*1e9/rate, cut to 63 bits, if and only if the fraction does not wrap |
| Bandwidth.DurationWraps | src/bandwidth_limiter.cpp:33-34 | one byte at the largest rate takes no time |
| Bandwidth.DurationCovers | src/bandwidth_limiter.cpp:29-41 | for sizes up to 256 KiB and rates up to 2^63 the duration covers the bytes and is the least that does |
| Bandwidth.DurationMonotone | src/bandwidth_limiter.cpp:29-41 | fewer bytes never take longer |
| Bandwidth.Quantum | src/bandwidth_limiter.cpp:56-62 | with any limit configured the quantum lies between 1 KiB and 16 KiB |
| Bandwidth.QuantumIsTwentieth | src/bandwidth_limiter.cpp:56-62 | the quantum is a twentieth of the smaller of the limits that are set, unless that is out of range |
| Bandwidth.BurstShort | src/bandwidth_limiter.cpp:43-50 | the burst always passes one quantum at once and is otherwise at most a tenth of a second |
| Bandwidth.BurstLong | src/bandwidth_limiter.cpp:43-50 | the burst covers a tenth of a second of the rate, to the byte, or 256 KiB |
| Bandwidth.BurstIsFree | src/bandwidth_limiter.cpp:110-127 | of reservations made at one moment on a bucket that is not in use, the next waits exactly for what those before it exceed the burst by |
| Bandwidth.WindowBound | src/bandwidth_limiter.cpp:110-127 | for any order of successful swaps and any clock readings, the durations of reservations i..j-1 are at most the time between the allowed times of i and j plus the burst |
| Bandwidth.WindowBytes | src/bandwidth_limiter.cpp:110-127 | the same in bytes: at most the rate times that interval and the burst |
| Bandwidth.CumulativeRate | src/bandwidth_limiter.cpp:43-65 | by any time the bytes let through a bucket are at most its rate times the time since configuration, the burst and one quantum, cancelled reservations included |
| Bandwidth.BoundedWait | src/bandwidth_limiter.cpp:133-138 | a reservation is scheduled within one quantum's duration for each earlier one still in the future, and one more |
| Bandwidth.ArrivalClose | src/bandwidth_limiter.cpp:117-121 | an arrival time is at most its reservation's allowed time, the burst and the duration |
| Bandwidth.QuantumIsLongest | src/bandwidth_limiter.cpp:133-138 | no reservation lasts longer than one of a quantum |
| AcquireProtocol.RateLimit | src/bandwidth_limiter.cpp:110-149 | over every interleaving of calls, for the global and each client bucket at once, 1e9 times the bytes delivered by time t is at most rate*(t - t0 + burst + one quantum's duration) |
| AcquireProtocol.WindowLimit | src/bandwidth_limiter.cpp:110-127 | over every interleaving, the bytes reserved on a bucket between two reservations are at most its rate times the time between their allowed moments and the burst |
| AcquireProtocol.WaitLimit | src/bandwidth_limiter.cpp:129-138 | over every interleaving, a reservation waits at most one quantum's duration for each earlier one of its bucket still in the future, and one more, after the latest clock reading on it |
| AcquireProtocol.RunKeeps | src/bandwidth_limiter.cpp:129-149 | in every reachable state each bucket's arrival time is that of its log of successful swaps, no call is let through before its time, and the log accounts for exactly the bytes delivered |
| AcquireProtocol.SwapKeeps | src/bandwidth_limiter.cpp:115-125 | a successful swap appends one priced reservation to the bucket and to the call, and disturbs no other call |
| AcquireProtocol.ReturnKeeps | src/bandwidth_limiter.cpp:139-148 | a call let through is charged to its own reservations in both buckets and to nobody else's |
| AcquireProtocol.CancelKeeps | src/bandwidth_limiter.cpp:143-148 | a cancelled call delivers nothing and keeps its reservations |
| AcquireProgress.EveryCallCounts | src/bandwidth_limiter.cpp:129-149 | over every run not yet stopped, the calls accepted are, each exactly once, delivered or outstanding, with the bytes (all, or at most a quantum if limited) and the buckets they were accepted for |
| AcquireProgress.EveryReservationCounts | src/bandwidth_limiter.cpp:110-149 | over every such run, each reservation of a bucket has been let through or is held by the outstanding call that made it |
| AcquireProgress.UndisturbedCall | src/bandwidth_limiter.cpp:129-149 | from any state, a call that nobody disturbs gets its bytes through all its buckets exactly from the latest moment on that one of them asks for, and not before |
| AcquireProgress.SecondSwapReserves | src/bandwidth_limiter.cpp:115-126 | a swap that fails is tried again, and two attempts with nobody in between reserve the bucket |
| AcquireProgress.IdleIsImmediate | src/bandwidth_limiter.cpp:129-149 | on buckets that are not in use that moment is now |
| AcquireProgress.StopEndsDeliveries | src/bandwidth_limiter.cpp:130-130 | once stopping no call is accepted and nothing is delivered any more |
| AcquireProgress.StoppedCallReturns | src/bandwidth_limiter.cpp:143-148 | a wait that is cancelled ends at once |
| AcquireProgress.BucketsAreConfigured | src/bandwidth_limiter.cpp:43-50 | over every run a bucket keeps the rate and burst it was configured with and starts at that moment |
| ClientTable.Table.Attach | src/bandwidth_limiter.cpp:87-108 | a lease unless unlimited, on the address's live bucket if there is one, else on a bucket no lease has had if there is room, else on the one overflow bucket, and that only when the whole table is alive |
| ClientTable.Table.Choose | src/bandwidth_limiter.cpp:90-107 | the choice itself, with the clean-ups that every 64th attachment and a full table make |
| ClientTable.Table.Place | src/bandwidth_limiter.cpp:95-107 | an address without a live bucket gets a new entry exactly when the table has room after its clean-up |
| ClientTable.Table.CleanupClients | src/bandwidth_limiter.cpp:76-85 | exactly the entries without a live bucket go |
| ClientTable.Table.Reconfigure | src/bandwidth_limiter.cpp:67-74 | a new epoch starts with an empty table and no overflow bucket |
| ClientTable.Table.Drop | src/bandwidth_limiter.h:18-26 | a lease can go at any time without harm to the table |
| ClientTable.Table.Sweep | src/bandwidth_limiter.cpp:90-90 | exactly every 64th attachment cleans up |
| ClientTable.Table.LeasesShare | src/bandwidth_limiter.cpp:91-94 | in every reachable state two leases of one address outside the overflow bucket share one bucket |
| ClientTable.Table.LeasesDiffer | src/bandwidth_limiter.cpp:104-107 | in every reachable state two such leases of different addresses have different buckets |
| ClientTable.Table.LiveBounded | src/bandwidth_limiter.cpp:95-103 | in every reachable state at most 257 buckets of the epoch are alive |
| RateLimiter.Limiter.RequestExceeded | src/rate_limiter.cpp:46-63 | a request is accepted exactly when the full history has fewer than the limit of accepted requests in the minute before it, the address has or can get an entry, and the event store has room; only accepted requests are recorded |
| RateLimiter.Limiter.RecordDenial | src/rate_limiter.cpp:65-87 | the history gains the denial, and a block of the given time exactly when the denials of the last minute reach the limit; exactly a full event store blocks at once and exactly a table of 1024 clients that are not stale ignores the denial |
| RateLimiter.Limiter.Deny | src/rate_limiter.cpp:71-86 | the same for an address with an entry, with the exact condition under which the store counts as full |
| RateLimiter.Limiter.IsBlocked | src/rate_limiter.cpp:38-44 | an address is blocked exactly as the latest block of the full history says |
| RateLimiter.Limiter.MinuteLimit | src/rate_limiter.cpp:46-63 | in every reachable state, with a constant limit, no 60-second window holds more accepted requests of one address |
| RateLimiter.Limiter.BlockLasts | src/rate_limiter.cpp:82-86 | in every reachable state, with a constant block time, a block lasts its whole time despite clean-ups and further denials, unless the address is forgotten |
| RateLimiter.Limiter.DenialLimit | src/rate_limiter.cpp:80-86 | in every reachable state, with a constant limit, the denials of an address since its last block are fewer than the limit in any minute |
| RateLimiter.ConsequenceJudged | src/rate_limiter.cpp:74-86 | recording a denial keeps: everybody who reaches the limit is blocked at once, and nobody is blocked otherwise but by a full event store |
| RateLimiter.BlockUnits | src/rate_limiter.cpp:83-83 | a block of so many minutes is as long as so many windows |
| RateLimiter.Limiter.Cleanup | src/rate_limiter.cpp:13-27 | exactly the stale unblocked clients go, the event count stays the sum of all queues, and no answer changes |
| RateLimiter.Limiter.FindOrCreate | src/rate_limiter.cpp:29-36 | an address finds an entry unless 1024 clients that are not stale hold the table |
| RateLimiter.Limiter.Unblock | src/rate_limiter.cpp:89-96 | the address is forgotten and its events leave the count |
| RateLimiter.Limiter.Clear | src/rate_limiter.cpp:98-103 | everything is forgotten |
| RateLimiter.Limiter.constructor | src/rate_limiter.cpp:98-103 | an empty limiter agrees with an empty history |
| RateLimiter.Trim | src/rate_limiter.cpp:3-11 | the loop leaves the queue from its first value after the cutoff on and returns how many went |
| RateLimiter.TrimExact | src/rate_limiter.cpp:3-11 | trimming a queue that ends an ordered history leaves exactly the history's moments after the cutoff |
| RateLimiter.StaleIsNew | src/rate_limiter.cpp:17-21 | a stale client answers every later question as a new one would |
| RateHistory.MinuteNeverExceeds | src/rate_limiter.cpp:57-62 | requests accepted under the sliding window never exceed the limit in any minute, wherever it is placed |
| RateHistory.MinuteNeverReaches | src/rate_limiter.cpp:80-86 | denials that were each below the limit never reach it in any minute, wherever it is placed |
| RateHistory.BlocksExtend | src/rate_limiter.cpp:82-86 | later blocks of the same length only extend earlier ones |
| ByteRange.ParseUnsigned | src/fastdl_server.cpp:107-120 | succeeds exactly on nonempty digit strings below 2^64 and returns their value, without overflowing on the way |
| ByteRange.RangeInside | src/fastdl_server.cpp:130-191 | every valid result is a nonempty piece of the file, from a header with a single range |
| ByteRange.AbsentIff | src/fastdl_server.cpp:130-133 | no range is asked for exactly if the header is nothing but spaces and tabs |
| ByteRange.HeaderMeans | src/fastdl_server.cpp:134-190 | every header that is, between blanks, the unit in any letter case and two parts around one dash without a comma: its answer by the numbers of the two parts and the size of the file |
| ByteRange.OthersInvalid | src/fastdl_server.cpp:134-154 | every other header is refused |
| ByteRange.BlanksDoNotMatter | src/fastdl_server.cpp:97-105 | blanks around a header never change its answer |
| ByteRange.ClosedRange | src/fastdl_server.cpp:171-190 | every closed range of 64-bit numbers: unsatisfiable if reversed or past the end, else the piece of the file it covers |
| ByteRange.RangeRoundTrip | src/fastdl_server.cpp:171-190 | for s <= e < total the text bytes=s-e parses to start s and length e-s+1 |
| ByteRange.OpenAndSuffix | src/fastdl_server.cpp:158-190 | an open range is the rest of the file, a suffix range its end cut to what there is, a start past the end is unsatisfiable |
| ByteRange.RangeCanonical | src/fastdl_server.cpp:130-191 | every valid result, however it was asked for, is what its closed form parses to |
| EndToEnd.ServeHit | src/fastdl_server.cpp:636-651 | after any run of the cache without false returns, a completed answer with an opened hit is the source version asked for: compressed, a range of it, or as it is |
| Transfer.Respond | src/fastdl_server.cpp:611-700 | for every header, file, grants, short reads and end of connection: the body is a prefix of the selected bytes; completed exactly when the library reports success and the body is all of them, aborted and timed out exactly when it reports that; a completed body is the file |
| Transfer.SelectInside | src/fastdl_server.cpp:622-651 | a range error exactly for malformed or unsatisfiable headers; partial exactly for a valid range whose If-Range holds, and then that range of the file itself; compressed means the whole cached representation, never a range; otherwise the whole file |
| Transfer.PlainRequest | src/fastdl_server.cpp:622-651 | a request without a range, or whose range no longer applies, is for the whole file, as it is or as its cached representation |
| Transfer.Deliver | src/fastdl_server.cpp:321-347 | repeated reader calls yield a prefix of the slice and count exactly its bytes; served calls finish it |
| Transfer.TransferContext.FileReader | src/fastdl_server.cpp:321-347 | one call returns the file's bytes at the position asked for, as many as slice, buffer, grant and read allow, and counts exactly them; it ends the stream exactly at the slice's end |
| Metrics.AdditionsAreExact | src/transfer_metrics.cpp:8-16 | every interleaving of saturating additions gives the exact sum cut to 2^64 - 1 |
| Metrics.AdditionsAreConserved | src/transfer_metrics.cpp:8-16 | over every interleaving, what has been added and what is still to be added is what the counter started with and every amount begun since |
| Metrics.FinishedCounter | src/transfer_metrics.cpp:8-16 | once nobody is adding, the counter is the sum of all amounts begun, cut to 2^64 - 1 |
| Metrics.SecondTryFinishes | src/transfer_metrics.cpp:10-15 | a swap that fails is tried again, and succeeds if nobody comes in between |
| Metrics.TransferMetrics.BytesSupplied | src/transfer_metrics.cpp:47-61 | the ring and the total stay in step with the unbounded log, the total being the saturated sum of everything |
| Metrics.TransferMetrics.RecordBytes | src/transfer_metrics.cpp:51-60 | the ring keeps, per slot, the saturated sum of the latest second of the unbounded log that falls into it |
| Metrics.TransferMetrics.AddToSlot | src/transfer_metrics.cpp:51-60 | bytes are added to their second's slot, over whatever older second it held; no other slot changes |
| Metrics.TransferMetrics.RecentBytes | src/transfer_metrics.cpp:95-104 | the sum over the ring is the saturated sum of all bytes logged in the last ten seconds |
| Metrics.TransferMetrics.constructor | src/transfer_metrics.cpp:24-37 | a reset ring agrees with an empty log |
| Logger.Conservation | src/logger.cpp:161-222 | over every run each line offered while not stopping is in exactly one place: written, in the batch, queued or lost; the lost lines are as many as the counts pending, taken, reported and never reported |
| Logger.EveryOfferCounts | src/logger.cpp:161-172 | the lines the other results speak of are exactly those offered while not stopping, in order, by the events alone |
| Logger.BatchIsWritten | src/logger.cpp:217-220 | a batch goes out line by line, whatever is offered meanwhile, and then the worker waits again |
| Logger.StopDrains | src/logger.cpp:174-222 | after a stop a worker whose file opens writes everything queued, reports every drop, loses nothing and leaves |
| Logger.WrittenInOrder | src/logger.cpp:217-219 | the file holds the offered texts in the order they were offered |
| Logger.ClearLosesNothing | src/logger.cpp:148-159 | when the queue is cleared after the join it is empty already, and every line has been written or lost |
| Logger.AllReportedIff | src/logger.cpp:174-222 | over every run, when the worker has left, every lost line has been reported if and only if it never left right after a failure to open the file |
| Logger.UnreportedIff | src/logger.cpp:185-190 | over every run nothing is left unreported if and only if no exit came right after such a failure |
| Logger.PendingRuns | src/logger.cpp:207-212 | in every reachable state a count is pending exactly after such a failure, or beside a full queue |
| Logger.DropsGoUnreported | src/logger.cpp:183-211 | a run in which that happens |
| Logger.AsyncLogger.Write | src/logger.cpp:161-172 | one offer is one step of the machine: ignored, counted or queued |
| Logger.AsyncLogger.Take | src/logger.cpp:182-191 | the worker takes queue and count together, and leaves exactly when stopping with an empty queue |
| Logger.AsyncLogger.OpenFile | src/logger.cpp:193-216 | a failed open carries batch and count forward as dropped, a successful one reports the count |
| Logger.AsyncLogger.WriteLine | src/logger.cpp:217-220 | lines go to the file one by one, oldest first |
| Logger.AsyncLogger.BeginStop | src/logger.cpp:148-152 | stopping is one step of the machine |
| Logger.AsyncLogger.FinishStop | src/logger.cpp:154-158 | clearing changes nothing |
| Logger.AsyncLogger.Restart | src/logger.cpp:126-145 | a new start resets a drop count that is zero already |
| Logger.AsyncLogger.constructor | src/logger.cpp:126-145 | a first start is the machine's initial state |
| Config.StripComment | src/config_parser.cpp:15-25 | the loop with one flag cuts the line at the first pair of slashes behind an even number of quotes |
| Config.SettingRoundTrip | src/config_parser.cpp:27-48 | a padded quoted setting, bare or with blanks and a comment behind it, parses back to its name and value |
| Config.SettingRoundTripIff | src/meta_plugin.cpp:459-470 | a generated line is read back if and only if the value is nonempty without quotes and line ends |
| Config.TailDecides | src/config_parser.cpp:27-48 | whatever text follows a quoted setting: it is read as it was if what is left of that text's first line without its comment is blank, and refused if not |
| Config.BareValue | src/config_parser.cpp:43-47 | an unquoted value is the word after the name, whatever follows it behind a space, a tab or a line end |
| Config.NothingToRead | src/config_parser.cpp:27-29 | an empty or blank line, or one with nothing but a comment, is no assignment |
| Config.NameAlone | src/config_parser.cpp:31-36 | nor is a name without a value, bare or with blanks and a comment behind it |
| Config.TrimTail | src/config_parser.cpp:8-13 | trimming a text that starts and ends nonblank, with blanks before it and anything behind, keeps it and takes only blanks away |
| Config.TrimEmptyIff | src/config_parser.cpp:8-13 | nothing is left exactly of blanks |

## Left out

- Durability: a crash is the death of the process between two filesystem operations; power loss with unsynchronised writes is not modelled, nor are torn renames.
- Tests for symbolic links and regular files, the eligibility of a source (1 KiB, extension allowlist), the containment checks at start and `markerCurrent`'s path resolution: in an eviction pass the artifacts whose marker is current enter as a set.
- In `PublishProtocol` maintenance may remove any files at any time; which files it removes is the subject of `CacheBudget`, where removals succeed.
- CacheBudget.CompressionCache.Publish: assumes a budget below 2^63 bytes; the configuration allows at most 1 GiB (src/meta_plugin.cpp:224-225).
- Deflate, inflate, CRC-32 and the FNV hash themselves.
- Bandwidth.CumulativeRate: holds while the arrival time has not saturated at 2^63 - 1 nanoseconds, some 292 years.
- Reconfiguration of the bandwidth limiter while calls of the previous configuration are still reserving.
- `rateFromMbps` and throughput in bits per second, which are floating point: rates and sums are integers here.
- C++ memory orders; liveness of condition variables; the race between two threads that reset one metrics slot at the same time.
- Metrics.TransferMetrics.BytesSupplied: calls are serialized and seconds are below 2^32, where the truncation to a 32-bit `size_t` does not change the slot.
- The counters of requests and of active, completed, aborted, timed-out and failed transfers, which are single additions.
- The clock of the request limiter is read before the lock is taken; readings out of lock order are not modelled.
- Content of an open file is fixed during a transfer of that file; conditional requests, entity-tag lists, HTTP dates, `Accept-Encoding` negotiation, HEAD requests and response headers.
- Stream errors of the logger after its file has opened, the daily file change and the removal of old logs.
- A rejected configuration line may already have written its out-parameters; only the result of an accepted line is modelled.
- The rest of the plugin: engine hooks, console commands, path resolution, file opening, HTTP setup.
