# A verified model of the TCBackup storage engine

TCBackup is a deduplicating backup store. The client cuts files into content-defined chunks,
looks each chunk's fingerprint up in an index (a *bin*), and packs the chunks it does not know
into 4 MB containers. Three rewrite policies (capping, perfect, CFL) store some duplicates
again, so that a restore has to touch fewer containers. The server keeps a log of recipes behind
an index of whole-file fingerprints.

The project models that engine in Dafny and proves what it is for. There are two central
results.

`BackupRestore.RunAllThenRestore`: after any number of backup processes, one after another, with
changing files and policies, over whatever directory, index and table earlier processes left, a
restore process gives back every file of every run byte for byte as it was in that run. It
composes chunking, the four policies, the container store, the server's table and the container
cache. The only files missing are those that perfect rewriting drops, and
`BackupRestore.BackupThenRestore` says exactly which these are, and exactly when a restore through
the index stops.

`Simulate.Reported`: a policy passes its records to another thread while it may still hold some
of them by their mutexes. Each policy keeps the trace of its single locks, writes and unlocks and
proves that it is legal; for every interleaving of a legal trace with the reading thread there is
no race, what was read is final, no run gets stuck, every run ends, and then the reported bytes
and cache misses are those of the final records. The drivers in `Simulate` say, for each policy,
which mutexes are taken, which are held whenever a file is passed on, and how every record was
decided.

Tests, formats and constants that a method and its specification share are pinned by laws that
do not mention them: the water mark, the reuse share and the threshold in bytes
(`CflSpec.HeldInNumbers`, `CflSpec.HeldFate`, `PerfectRewrite.RewrittenInNumbers`), the cuts by
the marks alone (`Chunker.RecordsFollowMarks`), the reported total by the fingerprints alone
(`Simulate.ReportedFirsts`), the rotations and functions of SHA-1 bit by bit and the whole by the
digest of "abc" (`Sha1Vector.AbcDigest`), the hash as a numeral in base 17
(`HashTable.BucketIsNumeral`), and the octets of each file format by position.

`dafny verify dfyconfig.toml` checks everything.

| file | models |
|---|---|
| `Types.dfy` | octets, fingerprints, constants |
| `HashTable.dfy` | client/lib/htable.c: the chained table with growth, on linked heap nodes |
| `Container.dfy`, `Store.dfy` | client/src/container.c and client/src/store.c: container codec, container roll-over |
| `Lru.dfy`, `Restore.dfy` | client/lib/lru_cache.c; the container cache and `restore_chunk` |
| `Chunker.dfy` | client/lib/rabin.c `chunk_data`, client/src/backup.c `chunk_file` |
| `ChunkDedup.dfy`, `RewriteSpec.dfy` | chunk records, `write_chunk_to_cloud`, and what a rewrite pass may do |
| `Trace.dfy` | the actions of the deduplication thread on the records, and the locking discipline |
| `SegmentSort.dfy`, `CappingSpec.dfy`, `Capping.dfy` | client/src/capping.c |
| `PerfectRewrite.dfy`, `CflSpec.dfy`, `Cfl.dfy`, `NoRewrite.dfy` | the other three policies |
| `FileTable.dfy` | the server's table of recipes, as the client relies on it |
| `Backup.dfy`, `BackupRestore.dfy` | a backup run under each policy, the restore, and both composed |
| `Sha1.dfy`, `Sha1Vector.dfy` | client/lib/sha1.c against RFC 3174, and the first test vector of its section 7.3, through all 80 rounds |
| `BinVolume.dfy` | client/src/extreme_binning.c |
| `RecipeVolume.dfy`, `Session.dfy` | server/src/recipe.c, server/src/index.c, and the backup session |
| `Handoff.dfy`, `Simulate.dfy` | the two threads of client/src/simulate.c; the same hand-over feeds `update_recipe_module` in client/src/pipeline_backup.c |
| `JobDeletion.dfy` | server/database/mysql_delete.c |

## Assumptions

- No two chunks of the stock that a client ever meets have the same fingerprint
  (`Hashing.CollisionFree`); the restore needs it, storing and the policies do without it. No
  two files ever met have the same fingerprint (`World.FilesDiffer`); the server's table needs it.
- The server's table is right about the container files when a run begins (`TableSound`), files
  that other clients have stored included; every run proves it again for its end. When the answer about a file is late, the file counts as new:
  `missed` is an arbitrary set of such files, so all timings of the pipeline are covered.
- The file system is a map from names to octets, source files do not change during a backup, and
  reads and writes succeed.
- The Rabin fingerprint is a function of the last 48 octets; which windows have the break mark is
  arbitrary. That the window survives from one call of `chunk_data` to the next is modelled, and
  proved to make no difference.
- A process runs within a span of seconds of the 32-bit clock and reads any times in it
  (`Store.Span`), and a later process starts after the spans of the earlier ones. This is what the
  container names need: a name is the second and a counter that starts anew in every process, so
  the names of a new process are free if and only if all names in the directory were made in
  earlier seconds (`Store.FreshStart`). Two processes can collide only in the same second, or if
  the clock is set back.
- Thresholds and the fragmentation level are rationals instead of `float`; 32- and 64-bit
  counters do not overflow unless the model says so (lengths in the SHA-1 context do, and are
  handled). `max_refer_count` and table size hints are not negative; a bin's length and a
  recipe's count fit 31 bits, and a bin volume stays below 2^56 octets, as the packed address
  needs. A container file that a recipe names exists.
- Addresses are strings in the client's engine, and the 64 octets of a `Chunkaddress` in the bin
  volumes and recipes.
- `cfl_init` leaves the length of the temporary container unset; the model starts it at 0.
- `hash & mask` is the remainder, because the table size is a power of two and the mask is one
  less; both are invariants of the model.

## What the proofs show about the code

- Perfect rewriting drops a file exactly if the server knows it and the bin lacked one of its
  chunks when the run began; all other files are backed up (`Backup.BackupPerfect`). The bin is
  filled in the second pass only, so the copy of a file that is new in the same run is dropped if
  the server knows it by then (`PerfectRewrite.NewThenCopy`, `Backup.CopyIsDropped`). In the
  pipeline the server does not, because the first file's records stay locked until the second
  pass; there the dropped files are such as another client has stored (`Backup.ForeignIsDropped`).
  The chunks of a dropped file that were marked before the refusal stay counted, and their
  mutexes are never given back. For a container the count is that of the accepted stream exactly
  if none of these chunks refers to it (`PerfectRewrite.CountsDropped`).
- Without a policy, the chunks of a file that the server knows do not enter the bin
  (client/src/pipeline_backup.c:148-158 leaves such a file to its recipe). So if a rewrite policy
  is configured for the restore, which then looks every chunk up in the bin, it stops at the
  first file with a chunk that neither the bin at the start nor a new file of the run has, and
  only there (`BackupRestore.BackupThenRestore`). `BackupRestore.KnownThenIndexStops` shows one: a
  file that another client has stored. A file that the server did not know at the start
  is never such a file (`Backup.NewFilesIndexed`).
- The branch of `mark_deplicate_chunk` for known files (client/src/chunkdedup.c:97-110) is never
  reached: `chunk_dedup` gets a known file only under a rewrite policy, and the trace reader calls
  every file new. For the same reason a simulation never takes the error return after marking.
- The mutexes protect every record. Capping and perfect rewriting take each mutex once, CFL takes
  those of the records that it holds back, always before the file is passed on; each is given back
  after the last write, and all are by the end of the stream (`Simulate.SimulateCapping`,
  `Simulate.SimulatePerfect`, `Simulate.SimulateCfl`). The deduplication thread never waits for the reading thread (`Handoff.NoRace`).
- `SHA1File` of 2^61 octets or more leaves the digest unset although it reports success; below
  that it is the digest of the whole file however the reads are split (`Sha1.File`).
- `write_recipe_to_vol` reserves four octets more for a recipe than it writes, because the
  count has 64 bits in memory and 32 in the file. The hole is never read (`RecipeVolume.LogAppend`).
- The answer to a new file is one octet long on the wire, since `NEW_FILE` is 0 and the message is
  sent as a C string; the client still reads it correctly because it clears its buffer
  (`Session.AnswerRead`).
- `hash_index` never looks at octet 0 of a key, and counts the character `9` as 2
  (`HashTable.BucketIgnoresFirst`, `HashTable.DigitValues`); with binary fingerprints an octet can
  count negative, which the 64-bit accumulator wraps.
- A threshold above one does not store every duplicate again: one that is repeated often enough
  counts its container with more than 4 MiB (`PerfectRewrite.AllRewritten`).
- The comment on `lru_cache_new` calls a negative size unbounded; by the code zero is unbounded
  too, and the model follows the code.

## Model

| member | source | states |
|---|---|---|
| HashTable.TableSize | client/lib/htable.c:51-54 | the bucket count is the smallest power of two above a quarter of the hint |
| HashTable.HTable.HashIndex | client/lib/htable.c:25-41 | the bucket depends on the key and the current bucket count, and is within the table |
| HashTable.BucketIsNumeral | client/lib/htable.c:34-38 | the bucket is the value, in base 17 with the last octet most significant, of the shortest tail of the key that reaches the bucket count, or of the whole key but its first octet, reduced by the bucket count |
| HashTable.BucketIgnoresFirst | client/lib/htable.c:34 | keys that differ in their first octet only share a bucket in tables of every size |
| HashTable.DigitValues | client/lib/htable.c:35 | digits count 0 to 8 and letters 10 to 15, but the character 9 counts 2 |
| HashTable.HTable.Insert | client/lib/htable.c:150-175 | the table's items gain exactly the new one, every item stays in the bucket its key selects, and the table doubles exactly when it reaches four items a bucket |
| HashTable.HTable.GrowTable | client/lib/htable.c:104-148 | growth relinks the nodes in place and keeps every item exactly once, now in the bucket that its key selects among twice as many |
| HashTable.HTable.Rehash | client/lib/htable.c:129-139 | the walk over the old table visits every item once although each insertion overwrites the link it came by |
| HashTable.HTable.Lookup | client/lib/htable.c:177-189 | it finds an item with the key if and only if there is one; if no two items share a key, it is the map lookup |
| HashTable.HTable.Remove | client/lib/htable.c:191-211 | it takes out one item with the key if there is one, and touches no other |
| HashTable.HTable.InsertNew | client/lib/htable.c:150-175 | a table without equal keys that stands for a map stands for the map with one more entry afterwards |
| HashTable.HTable.RemoveKey | client/lib/htable.c:191-211 | a table that stands for a map stands for the map without the key afterwards, and the entry's item is returned |
| HashTable.MapsOne | client/lib/htable.c:177-189 | items with pairwise different keys stand for exactly one map |
| HashTable.HTable.Walk | client/lib/htable.c:229-266 | first and next visit every item exactly once |
| HashTable.HTable.WalkOrder | client/lib/htable.c:229-266 | the concatenated chains list every item of the table once |
| HashTable.ChainWithout | client/lib/htable.c:200-204 | bypassing one node of a chain leaves the chain of the others |
| Container.PayloadSlice | client/src/container.c:105-112 | each table entry designates its chunk's bytes, with the tab sentinel right behind |
| Container.LayoutTiles | client/src/container.c:105-115 | the entries tile the data section without gaps |
| Container.Container.AppendChunk | client/src/container.c:99-117 | a chunk is taken if and only if, at 29 octets a chunk beside its data and 32 for the container, all of them fit 4194304 octets; a refusal changes nothing |
| Container.FitsInNumbers | client/src/container.c:100 | the limit on the chunks of a container, in octets |
| Container.Container.Serialize | client/src/container.c:169-205 | the write buffer never overflows, and its content encodes exactly the chunks held |
| Container.Container.Deserialize | client/src/container.c:13-67 | reading a written file gives back its chunks, whatever order the table walk emitted; a file without the magic number is refused |
| Container.Container.ReadChunk | client/src/container.c:69-97 | a chunk is returned if and only if one with the fingerprint was appended, and it is such a chunk |
| Container.WriteMetaTable | client/src/container.c:188-197 | the table walk emits every entry once |
| Container.FileFields | client/src/container.c:36-49 | the header fields read back from a file are the ones written |
| Container.FileEntry | client/src/container.c:52-60 | each table entry read back from a file is the one written |
| Container.Int32RoundTrip | client/src/container.c:44-47 | four little-endian octets give back the number |
| Container.LowOctetFirst | client/src/container.c:178-183 | the low octet of a number comes first, and the magic number 0xf5f5e4e4 lies so in the file |
| Container.OneChunkFits | client/src/store.c:28-38 | every chunk of at most MAX_CHUNK_SIZE fits an empty container, so the unchecked second append succeeds |
| Store.NamesDiffer | client/src/container.c:118-122 | names with different counters differ whatever the clock shows |
| Store.NamesEqual | client/src/container.c:118-122 | a name determines its second and its counter |
| Store.NameValues | client/src/container.c:118-122 | the first eleven characters of a name are the second in octal, the rest is the counter in decimal |
| Store.FreshStart | client/src/container.c:118-122 | a new process finds its names free if and only if all names in the directory were made in earlier seconds |
| Store.GetContainerName | client/src/container.c:118-122 | the name is not in use whatever the clock shows while the process runs, and names remain for the future |
| Store.Store.StoreChunk | client/src/store.c:28-43 | the chunk goes into the open container if that has the octets left, and else into a new one under an unused name; the address names a container that holds it and nothing stored is lost |
| Store.Store.RollOver | client/src/store.c:32-34 | the full container is on disk under its own name and the new one is empty |
| Store.Store.Close | client/src/store.c:44-51 | everything stored is on disk, an empty last container excepted |
| Lru.RecentIsTrace | client/lib/lru_cache.c:38-81 | the names of a trace by recency are its distinct names |
| Lru.RecentOrder | client/lib/lru_cache.c:38-81 | of two names the one nearer to the front was used after the last use of the other |
| Lru.TouchIsContent | client/lib/lru_cache.c:38-81 | one lookup with insertion keeps the content equal to the k most recently used names |
| Lru.LruCache.Lookup | client/lib/lru_cache.c:38-50 | a hit moves the element to the front and counts a hit, a miss counts a miss |
| Lru.LruCache.Insert | client/lib/lru_cache.c:67-81 | the element goes to the front; only a full bounded cache evicts, and then its last element |
| Lru.LruCache.Access | client/src/simulate.c:195-197 | after any trace the cache holds the k most recently used addresses, and hits plus misses are the accesses |
| Lru.ContentInclusion | client/lib/lru_cache.c:67-81 | stack property: the content of a cache is a prefix of that of a larger one |
| Lru.MissesMonotone | client/lib/lru_cache.c:38-50 | a larger cache never misses more |
| Lru.MissesUnbounded | client/lib/lru_cache.c:67-75 | an unbounded cache misses once for every distinct address |
| Restore.RestoreCache.constructor | client/src/container.c:225-245 | the cache is a list of the given containers |
| Restore.RestoreCache.SearchCache | client/src/container.c:247-283 | a hit moves the node with the name to the front; a miss moves the last node there with an empty container; no node is lost |
| Restore.Rewired | client/src/container.c:258-260 | unlinking a node and linking it in front moves it to the front of the list |
| Restore.RecentHit | client/src/container.c:247-283 | a hit keeps the cache equal to the k most recent requests |
| Restore.RecentMiss | client/src/container.c:268-281 | a miss keeps the cache equal to the k most recent requests |
| Restore.Restorer.Fetch | client/src/store.c:120-127 | the front container is the file's content, and the file is read exactly when an LRU cache of this size misses |
| Restore.Restorer.RestoreChunk | client/src/store.c:60-137 | the cached restore returns what reading the container directly would, its file reads are the misses of the LRU cache, and a container is downloaded once |
| Chunker.CutBounds | client/src/backup.c:103-104 | a cut is at most MAX_CHUNK_SIZE, at least MIN_CHUNK_SIZE unless the data end, and takes all of a short rest |
| Chunker.CutStable | client/src/backup.c:103-109 | a cut not forced by the end of the data stays when more data follow |
| Chunker.CutAtMark | client/src/backup.c:98-109 | a first marked window that ends at octet 2048 or later and before octet 65536 ends the chunk there |
| Chunker.CutUnmarked | client/src/backup.c:98-109 | without such a window the chunk is all of the data, or its first 65536 octets |
| Chunker.RecordsFollowMarks | client/src/backup.c:98-136 | no chunk of a file has a mark inside from its octet 2048 on, and each ends at a mark, at 65536 octets, or with the file |
| Chunker.Rabin.ChunkData | client/src/backup.c:103-104 | the size is the first place where a chunk may end, whatever the rolling window held before |
| Chunker.EmitChunks | client/src/backup.c:98-122 | chunks that depend on data still to be read are carried over, all others are emitted |
| Chunker.ChunkFile | client/src/backup.c:49-141 | the buffered loop yields the chunks of cutting the whole file again and again, each of which follows the marks, terminates, and never overflows its buffer |
| Chunker.RecordsTile | client/src/backup.c:107-136 | the chunks are nonempty and bounded, each offset is where the chunk before ends, and joined they are the file |
| ChunkDedup.WriteChunkToCloud | client/src/chunkdedup.c:148-184 | the address names a container that holds the chunk, and nothing stored is lost |
| ChunkDedup.WriteAndIndex | client/src/capping.c:115-125 | the index names the container that just received the chunk, and every index entry still names a container that holds its chunk |
| ChunkDedup.FindOrStore | client/src/chunkdedup.c:115-130 | a chunk is stored and indexed if and only if the index lacks it, and the address holds it either way |
| Trace.LegalCounts | client/src/capping.c:145-240 | along every legal trace a mutex is taken at most once, and it is held exactly if it was taken once more than given back |
| Trace.QuietIsFinal | client/src/capping.c:111-150 | when the policy does not hold a record that was passed on, no later action changes it |
| Trace.TakeOver | client/src/capping.c:113-116 | flag and address of a duplicate are two writes, allowed only under the mutex or before anyone else can see the record |
| Trace.Stored | client/src/capping.c:130-140 | a stored record gets its address, then its flag, under the same condition |
| Trace.GiveBack | client/src/cfl.c:40-71 | a held record is given back after the last write, never before |
| Trace.Completed | client/src/simulate.c:130-144 | when all files were passed on and no record is held, each mutex was given back as often as taken, at most once |
| RewriteSpec.TilesPop | client/src/capping.c:102-135 | popping a run leaves the rest of the queue covering the rest of the window |
| RewriteSpec.CountsSnoc | client/src/capping.c:217-236 | the counters are exactly the duplicate bytes buffered for each container |
| RewriteSpec.ProgressStep | client/src/capping.c:109-141 | deciding one record keeps the account of a rewrite pass: outcomes so far, untouched rest, index |
| RewriteSpec.FirstStoredStep | client/src/capping.c:110-126 | of the new chunks with one fingerprint the first is stored and no other |
| SegmentSort.Sort | client/src/capping.c:32-69 | the linked insertion sort yields a descending permutation of the counters |
| SegmentSort.DropTail | client/src/capping.c:71-85 | exactly the first max_refer_count nodes keep their table entry |
| SegmentSort.SortSegments | client/src/capping.c:26-90 | it never fails, and the table keeps max_refer_count entries, none smaller than a dropped one |
| CappingSpec.KeptIsOptimal | client/src/capping.c:26-90 | no choice of at most max_refer_count containers keeps more duplicate bytes of the window |
| CappingSpec.CappingBound | client/src/capping.c:91-143 | the duplicates that stay in place lie in at most max_refer_count containers |
| CappingSpec.RewritesFewestBytes | client/src/capping.c:127-142 | no other choice of containers to leave alone rewrites fewer bytes |
| CappingSpec.GreedySnoc | client/src/capping.c:193-212 | a window is closed only when the next record does not fit the buffer |
| CappingSpec.LinkedKeys | client/src/capping.c:110-139 | each window is marked against the index that the one before left, and in the end the index has gained exactly the stream's fingerprints |
| Capping.Capping.DecideChunk | client/src/capping.c:109-145 | each branch of the rewrite loop: which records are stored, left or found, what the index then says, and that the mutex is given back after the last write |
| Capping.Capping.Rewrite | client/src/capping.c:91-162 | a rewrite never fails, decides and unlocks every record of the window within the capping rules, and changes no decided one |
| Capping.Capping.BufferChunk | client/src/capping.c:214-240 | buffering keeps the byte count, the counters and the capacity bound exact |
| Capping.Capping.Admit | client/src/capping.c:191-240 | exactly one window is closed if the record does not fit, none otherwise |
| Capping.Capping.Process | client/src/capping.c:163-246 | the file's records join the stream in order, buffered runs partition the undecided ones, and every address held by index or decided record stays good |
| Capping.Capping.Held | client/src/capping.c:214-246 | between two files the records of closed windows are final and free, all later ones are held, and they fit the buffer |
| Capping.Capping.Finish | client/src/capping.c:170-181 | at the end of the stream every record is final and stored where it says, every mutex was taken once and given back, and every window, marked against the index of its time, kept the bound and was full when closed |
| Capping.WindowsFull | client/src/capping.c:193-212 | two adjacent windows of the stream, the second not empty, hold more bytes than one buffer |
| PerfectRewrite.PerfectRewrite.Process | client/src/perfect_rewrite.c:21-80 | it succeeds if and only if a file that the server knows has no chunk unknown to the bin; a refused file leaves the stream as it was, but what was marked before the refusal stays counted and locked, and later files go on |
| PerfectRewrite.NewThenCopy | client/src/perfect_rewrite.c:29-78 | a new file is accepted, its copy called known is refused at the first chunk that the bin lacks |
| PerfectRewrite.CountsDropped | client/src/perfect_rewrite.c:43-73 | what is counted for a container is what the accepted stream holds of it exactly if no dropped record refers to it |
| PerfectRewrite.DroppedOnlyKeep | client/src/perfect_rewrite.c:43-57 | chunks of dropped files can only save a container from being rewritten, never condemn it |
| PerfectRewrite.PerfectRewrite.DecideChunk | client/src/perfect_rewrite.c:110-187 | each branch of the second pass: a duplicate is stored again exactly if the bytes counted for its container are below the threshold times 4194304; its error returns are never taken |
| PerfectRewrite.PerfectRewrite.Finish | client/src/perfect_rewrite.c:81-198 | after accepted and refused files alike the second pass never fails, decides every record, and gives back every mutex; a duplicate is stored again exactly if all that was counted for its container is below the threshold times 4194304 bytes |
| PerfectRewrite.ContainerKeptOrRewritten | client/src/perfect_rewrite.c:147-183 | the duplicates of a container all stay or are all stored again |
| PerfectRewrite.OutcomesAllOrNothing | client/src/perfect_rewrite.c:109-191 | what became of a container's duplicates is decided by its bytes among all marked records; of equal new chunks only the first is stored |
| PerfectRewrite.RewrittenInNumbers | client/src/perfect_rewrite.c:150-183 | over every stream, a duplicate is stored again exactly if its container is counted with fewer bytes than the threshold times 4194304, and stays as it was otherwise |
| PerfectRewrite.NothingRewritten | client/src/perfect_rewrite.c:158 | a threshold of zero stores no duplicate again |
| PerfectRewrite.AllRewritten | client/src/perfect_rewrite.c:158 | a threshold above one stores every duplicate again whose container is counted with at most 4 MiB |
| Cfl.Cfl.Reference | client/src/cfl.c:62-69 | the reference set gains the container and its counter stays its size |
| Cfl.Cfl.SelectiveDedup | client/src/cfl.c:25-108 | a duplicate is held back; records of another container are first decided together, by their share of it |
| Cfl.Cfl.TypicalDedup | client/src/cfl.c:110-141 | a new chunk is stored and indexed, a duplicate stays in place, and its container enters the reference set |
| Cfl.Cfl.ProcessChunk | client/src/cfl.c:154-196 | the first record is held back exactly if it is a duplicate and 1 is below the water mark; a later one exactly if it is a duplicate, some container is referred to, and the bytes before it, divided by 4194304 and rounded down, plus one, over the number of these containers are below the mark; the reference set is exactly the containers of decided chunks, and the held-back ones share one container |
| CflSpec.AccountSnoc | client/src/cfl.c:154-196 | a record is held back, and its mutex taken, exactly if it is a duplicate at whose turn the level of the stream so far is below the mark; those that wait are decided together or joined |
| CflSpec.AccountEnd | client/src/cfl.c:202-240 | the records that wait at the end are decided without changing any earlier turn |
| CflSpec.HeldInNumbers | client/src/cfl.c:164-194 | the same condition over every stream, from fingerprints, lengths and addresses alone; and what is not held back is stored exactly if it is new |
| CflSpec.HeldFate | client/src/cfl.c:31-86 | every held-back record waits in a last group, and is stored again exactly if the bytes of that group are below the reuse share of 4194304 |
| CflSpec.FateInNumbers | client/src/cfl.c:36 | the fate of one group by the total length of its records |
| CflSpec.NoneHeldBack | client/src/cfl.c:164 | with a water mark of zero no mutex is taken, and exactly the first records of unknown fingerprints are stored |
| Cfl.Cfl.Flush | client/src/cfl.c:35-86 | held-back records are all stored again or all left, by the reuse threshold, and all unlocked |
| Cfl.Cfl.Finish | client/src/cfl.c:202-240 | at the end of the stream every record is final and stored where it says, exactly the mutexes of held-back records were taken, and all are given back |
| Cfl.ReleaseFirst | client/src/cfl.c:40-66 | deciding the first held-back record keeps the others held and the decided ones good |
| NoRewrite.NoRewrite.MarkNewFile | client/src/chunkdedup.c:109-134 | a chunk is stored if and only if neither index nor an earlier chunk of the file has its fingerprint; reading at the running offset stores the right bytes |
| NoRewrite.NoRewrite.MarkDuplicateFile | client/src/chunkdedup.c:95-108 | the recipe's addresses enter the index for unknown fingerprints only |
| NoRewrite.DeduplicatedConcat | client/src/chunkdedup.c:109-134 | deduplicating file after file is deduplicating the whole stream |
| FileTable.SoundInsert | server/src/index.c:76-90 | entering the recipe of a file that is backed up keeps the table right about every file it knows |
| FileTable.SettledRecipe | server/src/dedupHandle.c:262-274 | the recipe made of a file's final records lists its chunks where they are stored |
| Backup.BackupCapping | client/src/capping.c:91-246 | a run under capping leaves index and table right about the store, the recipes are cut out of the final records, and these fall into windows that each kept the bound |
| Backup.BackupPerfect | client/src/perfect_rewrite.c:21-198 | a file is dropped exactly if the server knows it and the bin lacked a chunk of it at the start; each duplicate of the others is stored again exactly if its container is below the threshold times 4194304 bytes among all chunks marked against the old index, dropped files up to the first chunk it lacks included; the recipes are cut out of these records |
| Backup.CopyIsDropped | client/src/perfect_rewrite.c:60-73 | of a new file and its copy, which the server knows in time, the copy is dropped |
| Backup.ForeignIsDropped | client/src/perfect_rewrite.c:60-73 | a file that another client stored, with a chunk that the bin lacks, is dropped |
| Backup.MarkedSnoc | client/src/perfect_rewrite.c:29-78 | what the first pass marks of a file are all its chunks, or those up to the first that the bin lacks |
| Backup.BackupCfl | client/src/cfl.c:143-243 | a run under CFL leaves index and table right about the store, the recipes are cut out of the final records, and these keep the account of a CFL stream; with a water mark of zero a record is stored exactly if it is new |
| Backup.BackupPlain | client/src/chunkdedup.c:86-139 | a run without a policy does the same; known files keep the recipe of an earlier run or of this one, and the index gains exactly the chunks of the others |
| Backup.NewFilesIndexed | client/src/chunkdedup.c:111-135 | every file that the server did not know at the start has all its chunks in the index after a run without a policy |
| Backup.FileRecipes | server/src/dedupHandle.c:259-274 | after the stream the server has for every accepted file the recipe cut out of its final records, unless it had one before |
| BackupRestore.StoredIsOriginal | client/src/store.c:129-134 | what a container holds under a chunk's fingerprint is the chunk's own piece of the file |
| BackupRestore.StillSound | client/src/store.c:44-51 | closing the store keeps index and table right |
| BackupRestore.RestoreFile | client/src/store.c:60-137 | the restored bytes are the file; a restore through the index fails exactly if the index lacks a chunk of it |
| BackupRestore.RestoreAll | client/src/store.c:60-137 | all files come back up to the first one that the index does not cover, and that one alone stops the restore |
| BackupRestore.BackupProcess | client/client.c:276-291 | a backup process leaves a directory, an index and a table from which the next process can go on, and says which files it kept |
| BackupRestore.RestoreProcess | client/client.c:292-294 | a later process restores all files it is asked for, or stops at the first one that the index does not cover |
| BackupRestore.BackupThenRestore | client/src/store.c:28-137 | a backup process and a later restore process give back every file that was not dropped, under every policy, with the exact condition for a restore through the index after a run without a policy |
| BackupRestore.KnownThenIndexStops | client/src/store.c:60-137 | the restore through the index of a file that only another client stored gives nothing |
| BackupRestore.BackupThenRestoreEarlier | client/src/store.c:28-137 | a later backup process, under any policy, leaves the files of earlier ones restorable, by recipe always and through the index as before |
| BackupRestore.RunAll | client/client.c:276-291 | any number of backup processes keep directory, index and table right, and the files of each run known |
| BackupRestore.RunAllThenRestore | client/client.c:276-294 | after any number of backup processes every file of every run is restored, those that perfect rewriting dropped excepted |
| Sha1.Context.Update | client/lib/sha1.c:107-165 | the message grows by the octets given unless it reaches 2^64 bits; input after the digest is an error that sticks |
| Sha1.Context.CountOctet | client/lib/sha1.c:133-139 | the two length words carry correctly, and overflow is noticed exactly at 2^64 bits |
| Sha1.Context.ProcessMessageBlock | client/lib/sha1.c:188-272 | one block is processed as in section 6.1 of RFC 3174 |
| Sha1.RotateBits | client/lib/sha1.c:6-7 | a rotation by 1, 5 or 30 moves each bit up by as many places |
| Sha1.FunctionBits | client/lib/sha1.c:220-258 | in the four stretches of 20 rounds each bit is chosen, added, decided by majority, and added |
| Sha1.Roots | client/lib/sha1.c:190-195 | the four constants are the square roots of 2, 3, 5 and 10 times 2^30, rounded down |
| Sha1.InitialOctets | client/lib/sha1.c:39-43 | the octets of the initial hash value count up and down again |
| Sha1.ScheduleBits | client/lib/sha1.c:202-213 | from word 16 on each bit of the schedule is the sum of four earlier bits one place down |
| Sha1.Context.PadMessage | client/lib/sha1.c:293-333 | the final blocks are the padding of section 4 of RFC 3174 |
| Sha1.PadBlocks | client/lib/sha1.c:301-318 | the padding takes two blocks exactly if more than 55 octets are left over |
| Sha1.PadLayout | client/lib/sha1.c:293-333 | the padded message is the message, 0x80, fewer than 64 zeros, and the bit length with the high octet first, in whole blocks |
| Sha1.PadInjective | client/lib/sha1.c:293-333 | different messages have different padded messages |
| Sha1.Context.Final | client/lib/sha1.c:70-100 | the digest is SHA-1 of all octets taken in, however often it is asked for |
| Sha1.Buf | client/lib/sha1.c:335-343 | the digest of a buffer is its SHA-1 |
| Sha1Vector.AbcDigest | client/lib/sha1.c:335-343 | the digest of the octets of "abc" is the one in section 7.3 of RFC 3174 |
| Sha1.File | client/lib/sha1.c:345-366 | reads of any sizes give the SHA-1 of the whole file if it is shorter than 2^64 bits; otherwise the caller's buffer is left alone, and success is reported all the same |
| BinVolume.FindLevel | client/src/extreme_binning.c:188-192 | the level search ends at the lowest sufficient level, and the offset survives exactly if the level does |
| BinVolume.LevelsDouble | client/src/extreme_binning.c:162-172 | the lowest level has slots of 512 octets, each next one of twice as many, and the first slot lies at octet 20 |
| BinVolume.PackRoundTrip | client/src/extreme_binning.c:177-178 | a packed address decodes to its level and offset |
| BinVolume.SerializeBin | client/src/extreme_binning.c:196-233 | the slot encodes exactly the bin's fingerprints: the representative in octets 0 to 19, their number in the next four, then the entries, and 0xcf up to the end |
| BinVolume.DeserializeBin | client/src/extreme_binning.c:312-332 | reading a slot gives the fingerprints written; another bin's slot is refused |
| BinVolume.WriteElsewhere | client/src/extreme_binning.c:245-259 | writing one slot of a volume leaves the others as they were |
| BinVolume.PutKeeps | client/src/extreme_binning.c:235-264 | bins keep disjoint slots, volumes stay as long as their slots, and only the written bin changes |
| BinVolume.ExtremeBinning.WriteBin | client/src/extreme_binning.c:175-264 | a bin keeps its slot while it fits and else gets a new one at the lowest level that fits; the others are untouched |
| BinVolume.ExtremeBinning.ReadBin | client/src/extreme_binning.c:267-335 | reading a stored bin returns its latest fingerprints |
| BinVolume.ExtremeBinning.LoadBin | client/src/extreme_binning.c:374-395 | it returns the bin's current content, from the cache, the volume, or empty, and changes no bin |
| BinVolume.ExtremeBinning.FreeBin | client/src/extreme_binning.c:397-418 | the bin is on disk and out of the cache, and no bin's content changes |
| BinVolume.UpdateAndReload | client/src/extreme_binning.c:374-418 | a bin that was updated and written back is loaded with the update, and the other bins are as before |
| BinVolume.FlushInit | client/src/extreme_binning.c:16-75 | flushing a volume writes magic number, level, number of bins and length to octets 0, 4, 8 and 12 of the file and leaves the rest; opening it at its level, and at no other, gives back counters and slots |
| RecipeVolume.LogAppend | server/src/recipe.c:149-182 | appended recipes lie in disjoint regions, and all earlier ones still lie where they were |
| RecipeVolume.RecipeVolume.Write | server/src/recipe.c:149-182 | a recipe goes to the old end of the log, which grows by 8 octets and 84 for each entry, and all of the file written before, head included, is still there |
| RecipeVolume.RecipeVolume.Read | server/src/recipe.c:115-147 | reading at an offset returns the recipe once written there |
| RecipeVolume.RecipeStore.StoreRecipe | server/src/dedupHandle.c:262-274 | a new file's recipe becomes known; what was known, and every index entry, stays |
| RecipeVolume.RecipeStore.IndexInsert | server/src/index.c:76-90 | an index entry never moves once inserted |
| RecipeVolume.RecipeStore.FileDedupMark | server/src/backup.c:5-36 | a file is a duplicate exactly if it is known, and then its recipe is read |
| RecipeVolume.FlushInit | server/src/recipe.c:59-113 | flushing and opening keeps the counters, at their places in the head, and every recipe |
| Session.AnswerRead | client/src/filededup.c:87-113 | both answers of the server are read as they were meant |
| Session.ClientFollows | client/src/filededup.c:5-161 | at every point the client sends or accepts exactly the next message of the session |
| Session.ServerFollows | server/src/dedupHandle.c:232-314 | at every point the server sends or accepts exactly the next message, and only ever learns |
| Session.InvStep | server/src/dedupHandle.c:232-314 | every step keeps the two views consistent and brings the session one message closer to its end |
| Session.SessionAgrees | server/src/dedupHandle.c:259-274 | at every moment the server's recipe of each finished file is the client's chunk list, and nothing known is lost |
| Session.NoDeadlock | client/src/filededup.c:69-161 | the two sides never both wait before both are through |
| Session.SessionCompletes | server/src/dedupHandle.c:232-324 | a session that can go no further is complete: no message is left, and every file is known as the client has it |
| Session.FileMessages | client/src/filededup.c:69-161 | the exchange over one file, message by message, for a new and for a known one |
| Handoff.InvStep | client/src/simulate.c:120-206 | every single lock, write, read and unlock of either thread keeps: what was read is final, totals, containers noted and cache are those of what was read, the reader's place fits the queue |
| Handoff.ItemsInOrder | client/src/simulate.c:142-159 | the files in the queue are consecutive runs of the records passed on, and the end mark comes last |
| Handoff.ReadIsFinal | client/src/simulate.c:183-201 | each flag and each address read, at any moment of any run, is the record's final one |
| Handoff.NoRace | client/src/simulate.c:188-199 | while the result thread has a record's mutex the other thread neither has it nor is about to touch the record, so it never waits |
| Handoff.TotalIsExact | client/src/simulate.c:188-199 | the reported bytes are those of the records finally marked duplicate, the cache missed as an LRU cache does along the final addresses, and the containers noted are those the records name, at most as many as the misses |
| Handoff.DuplicateBytesPure | client/src/simulate.c:190-192 | the total is nothing if every record is new, and all bytes if none is |
| Handoff.DuplicateBytesConcat | client/src/simulate.c:190-192 | the totals of two stretches of records add up |
| Handoff.DuplicatesAreRepeats | client/src/simulate.c:190-192 | if exactly the first records of unknown fingerprints are new, the total is the bytes of the records whose fingerprint was known or came earlier |
| Handoff.StepsDown | client/src/simulate.c:120-206 | every step of either thread lowers the work that is left |
| Handoff.RunsAreFinite | client/src/simulate.c:120-206 | every run is bounded by the length of the trace, the files and the records |
| Handoff.NoDeadlock | client/src/simulate.c:120-206 | with a complete trace some thread can go on until both are through |
| Simulate.SimulateCapping | client/src/simulate.c:120-165 | every file is in the queue as the run of its records; each mutex is taken once and given back; when a file is passed on exactly the records after some closed windows are held, at most a buffer full; the windows kept the bound |
| Simulate.SimulatePerfect | client/src/simulate.c:120-165 | each mutex is taken once and given back; whenever a file is passed on every record is held as it was first marked; a chunk in the old index is stored again exactly if the whole stream refers to its container with fewer bytes than the threshold times 4194304 |
| Simulate.SimulateCfl | client/src/simulate.c:120-165 | exactly the mutexes of held-back records are taken, once each, and given back; whenever a file is passed on exactly those that wait are held, duplicates of one container; with a water mark of zero no mutex is taken and no duplicate stored again |
| Simulate.SimulatePlain | client/src/simulate.c:120-165 | no mutex is ever taken, and over the whole stream a chunk is stored exactly if neither index nor stream had it |
| Simulate.Reported | client/src/simulate.c:120-206 | whatever the interleaving, both threads end, and the report is that of the final records: no bytes if all are new, all bytes if none is, and the misses of an LRU cache of four containers along their addresses |
| Simulate.ReportedFirsts | client/src/simulate.c:120-206 | without a policy, and under CFL with a water mark of zero, the reported bytes are those of the records whose fingerprint was in the old index or came earlier in the stream |
| JobDeletion.Catalogue.RecordFile | server/src/dedupHandle.c:279-298 | recording a file keeps the counts right and adds it to this job only |
| JobDeletion.Catalogue.DeleteJob | server/database/mysql_delete.c:6-58 | deleting a job removes exactly the files only it referred to, keeps every count right and no row dangling, and leaves what other jobs can restore |
| JobDeletion.DeletionConsistent | server/database/mysql_delete.c:13-40 | after the first three statements each VersionCount is the number of the file's rows |
| JobDeletion.BackupThenDelete | server/database/mysql_delete.c:6-58 | a backup and the deletion of its job leave every other job with the files that it had |

## Left out

- Sockets, message framing, cloud upload and download, user accounts, list and quit commands, timers, statistics files.
- Failed reads and writes, and the error returns behind them.
- The polynomial arithmetic of the Rabin fingerprint; a fingerprint is a function of its window.
- The chunk fingerprints are taken as given by a function; the client computes them with a library, not with client/lib/sha1.c.
- SIMULATE mode of the container codec, which skips the data section.
- Processes that run at the same time over one directory.
- Hash tables inside the policies, containers and bins are maps and multisets there; `HashTable` shows that the table behaves so. A chunk record is an index into the sequence of all records, so pointers and freeing of records are not modelled.
- The variant of a backup without the pipeline, which sends a file's recipe and frees its records before a rewrite policy has decided them.
- `free_cache_bin`, which steps through the cache while `FreeBin` takes items out of it; `FreeBin` is modelled one bin at a time.
- Representative fingerprints: `calculate_rep_finger` sets them to zero, so there is one bin; `BinVolume` allows any number.
- The pipelined variant of the backup session with its second socket, and several clients at once.
- client/lib/queue.c as linked nodes with a condition variable: queues are sequences, and waiting is a step that is not enabled.
- client/src/read_trace.c, client/src/overhead_test.c: conversions and copies that would add easy members.
- The persistent form of the server's index (`index_open`, `index_close`) and of the primary index of bins.
- Simulate.SimulateCapping: gives the simulated chunks real contents, as all four drivers do, where SIMULATE mode stores the right number of arbitrary octets; the records and the trace do not depend on the contents.
- Backup.BackupPerfect: `missed` also allows answers that the pipeline cannot give under perfect rewriting, where no recipe of the run is sent before the second pass.
- SegmentSort.Sort: links fresh nodes, one for each table entry; the source links the table's own `RefNode`s, whose second link field the table does not use.
- Container.Container.Deserialize: covers files that the program wrote and files without the magic number; for a damaged file that has the magic number the source follows lengths that it does not check.
- Session.NoDeadlock: covers sessions without transport or database errors.
- Cfl.Cfl.Finish: says nothing about the reference set, because the code does not keep it up to date at the end of the stream.
- Capping.Capping.Process: says which windows were closed and what they kept, but not which container a rewritten chunk goes to; that is the open container of the store.
- Sha1.Context.TwentyRounds: is one loop body for the four loops of the source, which differ in function and constant only.
