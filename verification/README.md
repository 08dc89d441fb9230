# skvdb: a verified model

skvdb is an embedded key-value store: a log-structured engine, volumes that show a tree of named
entries kept in that engine, and a virtual file system that merges entries of several volumes. This
project models those three layers in Dafny and proves what they promise over whole runs.

`dafny verify dfyconfig.toml` checks everything.

## What is modelled

**Bytes.** Integers are little-endian of 1, 2, 4 or 8 bytes, strings are length-prefixed byte
sequences, a property is a 16-bit tag with its payload. A record prints its key, parent, name and
three counted sections. Each printer is a function to bytes, each parser a function from bytes to a
value and the bytes left over; the stream classes and `Record` are classes whose methods are proved
to compute them. A container may be walked in any order: every result about printing holds for
every order.

**Engine.** The log device is a file of bytes with a 32-bit block counter; the index maps keys to
(block, byte count); the index file is written at close and read at open. `Engines` gives each
operation as a function of the engine's value, `StorageObjects` and `EngineObject` hold the mutable
classes, and every method is proved against the function. `EngineRuns` then proves that an engine
refines a plain `map` from keys to records. Time is an argument of every operation that reads a clock.

**Volume.** `Volumes` is the table of open entries and the path cache over that map, `VolumeObjects`
the mutable class. The view of a volume is the open record where there is one and the stored record
elsewhere. `VolumeRefinement` proves that a volume refines a plain tree: a map of records, a key
counter and the set of handles held. `VolumeOverEngine` joins the two refinements: the engine serves
every call a volume makes, and its loads give back the records of the tree.

**Virtual file system.** `Mounts` and `VfsStorages` are the ordered table of mount points, longest
prefix resolution, priority order and the claims of volumes; `VirtualEntries` is the merged entry,
whose calls run in any order of a thread pool. `VfsReads` joins it to the volumes: what is read of a
merged entry is what their plain trees hold.

| file | of the source |
|---|---|
| Serialization, Properties, Records, RecordObject | serializers, property variant, record |
| LogDevice, IndexTable, Engine, StorageObjects, EngineObject | log device, index table, storage engine |
| Compaction, EngineRuns, Extents, StaleIndex, UnlockedLoad | properties of the engine over runs |
| EngineOpens | what open refuses, when it compacts, broken storage |
| CompactionCases, VolumeCases, VfsCases | stores and runs in which a promise of the intent fails |
| Paths, MRUCache | split, simplifyPath, reverse path iterator, recency cache |
| Volume, PathCache, VolumeRuns, VolumeRefines, VolumeObject, Claims | volume, open entries, path cache, claims |
| VolumeOverEngine | a volume and the engine under it, in step over whole runs |
| Mounts, VfsStorage, VirtualEntry | mount points, resolution, merged entry |
| VfsReads | a merged entry from its path to what is read of it |

## Where the code departs from its intent

Each of these is modelled as the code has it, with the exact condition under which the promise holds.

- Compaction stores the size of a buffer shared by all copies (lib/ondisk/StorageEngine.hpp:420), which
  only grows. Both that length and the intended one of line 410 are modes of the model. The compacted
  engine still refines its map exactly when every record's new block plus its length, in whole blocks,
  is inside the new device (`EngineRuns.CompactRefines`), and each record loads exactly when its own is
  (`CompactionCases.CompactedLoads`). Live extents stay disjoint exactly when the table is walked by
  ascending block counts (`Extents.CompactTidy`). Neither holds of every walk: a record of 5000 bytes
  walked before the root loses the root (`CompactionCases.ShorterAfterLongerIsLost`), and the root
  walked between two such records overlaps the second (`CompactionCases.ShorterBetweenLongerOverlaps`).
- A padded record of exactly 4 GiB counts as no block, because the cast to 32 bits precedes the
  division (lib/ondisk/LogDevice.hpp:237). The count is right exactly below that
  (`LogDevices.BlocksAddedExact`).
- `split` counts in 32 bits (lib/util/String.cpp:7-8). The loop splits, and simplifies, every string of a
  given length correctly exactly when the length is below 4 GiB; of a longer single name only the length
  modulo 2^32 is left (`Paths.SplitRightExactly`).
- Cancelling an expiration that has passed makes the property visible again if no cleanup came between
  (lib/ondisk/Record.hpp:150-154). Cancelling sees a cleanup exactly when the property is both
  expired and still there (`Records.CancelSeesCleanup`); likewise removing an expired property reports
  success before a cleanup and failure after it (`VolumeRefinement.StatusRefines`).
- Unlink leaves the path cache alone (lib/ondisk/Volume_p.hpp:187-235) and the cache keeps the old value
  of a key (lib/util/MRUCache.hpp:52-55). A lookup by path equals the walk exactly unless its longest
  cached prefix is stale and the walk finds something (`PathCaches.EntryIsWalk`); unlinking a cached
  child and linking its name again hides the new child (`VolumeRefinement.RelinkIsHidden`), and a run of
  eight calls from a new volume leads there (`VolumeCases.RelinkHidesInARun`). That run looks "/a" up with an
  empty cache.
- A lookup whose longest cached prefix is "/" tracks "//a" for "/a" (lib/ondisk/Volume_p.hpp:95 and 124-126), so
  that it caches no path at all (`PathCaches.RootHitCachesNothing`); one that finds nothing cached does
  cache its path (`PathCaches.MissCaches`).
- A store whose first session never closes has no index file, and no later open accepts it: open is fatal
  exactly when the log of a store without index entries has a whole block (`EngineOpens.BrokenStorage`,
  `EngineOpens.FirstSessionLost`).
- Open gives a store without a root a new one and starts the key counter over
  (lib/ondisk/StorageEngine.hpp:231-241, 349-355): after a removal of the root, keys in use are handed out
  again (`EngineOpens.RootRecreated`). A volume never removes the root (`VolumeOverEngine.IssuedCallable`).
- Unmount compares with the end of the index instead of the end of the range
  (lib/vfs/Storage_p.hpp:275), so that unmounting what is not mounted can erase another mount. Mounts
  and claims stay in step exactly under `VfsStorages.Rightful` (`VfsStorages.UnmountKeepsStep`). With one
  volume at "/a" and another at "/b", unmounting the second from "/" erases the first
  (`VfsCases.WrongMountGoes`).
- Release and flush do not look at the status of their saves (lib/ondisk/Volume_p.hpp:300-342). What the
  volume shows is unchanged exactly when each record was saved or the stored one reads the same
  (`VolumeRuns.ReleaseAnsweredShows`, `VolumeRuns.ReinitializeAnsweredShows`).
- An index loaded by an engine object that was open before adds to its old footprint
  (lib/ondisk/IndexTable.hpp:197-205). The footprint stays within the device exactly when the live blocks
  and those counted before do (`Extents.FootprintWithinDevice`); a store of the root alone, closed and
  opened twice by one object, counts two blocks on a device of one
  (`CompactionCases.ReopenedFootprintGrows`).
- README.md of the repository says that the index file starts with the count of records; the code
  writes the key counter first (lib/ondisk/StorageEngine.hpp:337). It describes the parent field as an
  index on the log device; the code writes a handle (lib/ondisk/Record.hpp:374-376). It says that
  values of other types are stored as the native value in little-endian; a `float` takes eight bytes
  (lib/util/Serialization.hpp:32-41). The model follows the code.

## Model

| member | source | states |
|---|---|---|
| Serialization.UIntRoundTrip | lib/util/Serialization.hpp:43-46 | the little-endian bytes of a number that fits their width give the number back |
| Serialization.UIntReprint | lib/util/Serialization.hpp:94-97 | any bytes are the little-endian form of the number they read as |
| Serialization.UIntLayout | lib/util/Serialization.hpp:43-46 | byte by byte, the least significant first |
| Serialization.ParsePrintUInt | lib/util/Serialization.hpp:94-97 | reading a printed integer consumes exactly its bytes and leaves the tail |
| Serialization.SignedRoundTrip | lib/util/Serialization.hpp:43-46 | a signed value in range survives the unsigned bytes it is stored as |
| Serialization.ParsePrintString | lib/util/Serialization.hpp:47-54 | reading a printed string gives it back and leaves exactly the tail |
| Serialization.ParseStringLonger | lib/util/Serialization.hpp:98-109 | a string read does not depend on the bytes behind it |
| Serialization.StringLayout | lib/util/Serialization.hpp:47-54 | a string is its length in eight bytes and then its bytes |
| Serialization.Serializer.PutUInt | lib/util/Serialization.hpp:43-46 | appends the little-endian bytes to the stream |
| Serialization.Serializer.PutString | lib/util/Serialization.hpp:47-54 | appends the 64-bit length and the bytes |
| Serialization.Deserializer.GetUInt | lib/util/Serialization.hpp:94-97 | reads a little-endian integer and advances past it, or reports a short stream |
| Serialization.Deserializer.GetString | lib/util/Serialization.hpp:98-109 | reads a length-prefixed string and advances past it, or reports a short stream |
| Properties.WordRoundTrip | lib/vfs/Property.cpp:42-51 | every fixed-size alternative survives the word it is stored as |
| Properties.PropertyLayout | lib/vfs/Property.cpp:42-51 | the two-byte tag of each alternative, and the width and form of its value |
| Properties.UnknownTag | lib/vfs/Property.cpp:24-40 | a tag of no alternative is read and nothing behind it, and gives the default value |
| Properties.ParsePrintProperty | lib/vfs/Property.cpp:42-62 | parsing a printed property gives the same alternative and value, and leaves exactly the tail |
| Properties.ParsePropertyLonger | lib/vfs/Property.cpp:53-62 | what a property parses to does not depend on the bytes behind it |
| Properties.ParsedPropertyFits | lib/vfs/Property.cpp:24-40 | whatever the bytes, a parsed property is in the range of its C++ type |
| Properties.PutProperty | lib/vfs/Property.cpp:42-51 | writes the 16-bit tag and the payload of the alternative |
| Properties.GetProperty | lib/vfs/Property.cpp:24-62 | reads the tag and then the one alternative it names; an unknown tag reads no payload |
| Records.CleanupTwice | lib/ondisk/Record.hpp:247-260 | removing what expired by one time and then by a later one is removing it by the later |
| Records.CleanupKeeps | lib/ondisk/Record.hpp:247-260 | exactly the properties and expirations that have passed go, and everything else stays |
| Records.CleanupIsTransparent | lib/ondisk/Record.hpp:247-272 | a read at a later time does not see whether a cleanup came before |
| Records.CancelSeesCleanup | lib/ondisk/Record.hpp:150-154 | cancelling an expiration commutes with a cleanup exactly when the property has not expired or is not there |
| Records.SetIgnoresCleanup | lib/ondisk/Record.hpp:110-116 | setting a property commutes with a cleanup |
| Records.RemoveIgnoresCleanup | lib/ondisk/Record.hpp:130-137 | removing a property commutes with a cleanup |
| Records.ExpireIgnoresCleanup | lib/ondisk/Record.hpp:139-148 | expiring a property commutes with a cleanup |
| Records.ReadsAfterSet | lib/ondisk/Record.hpp:110-116 | after a set the property is that value at every time, and the others read as before |
| Records.ReadsAfterRemove | lib/ondisk/Record.hpp:130-137 | after a removal the property is gone, and the others read as before |
| Records.ReadsAfterExpire | lib/ondisk/Record.hpp:139-148 | a visible property is there until its new time and gone from then on; the others read as before |
| Records.ReadsAfterCancel | lib/ondisk/Record.hpp:150-154 | after a cancelling the property has its value at every time, even when it had expired; the others read as before |
| Records.RecordLayout | lib/ondisk/Record.hpp:369-413 | key, parent, name length and name at fixed places, then the three containers each behind its count |
| Records.PairsLayout | lib/ondisk/Record.hpp:380-408 | one after the other, each pair as its name and its value |
| Records.AssignKeepsLast | lib/ondisk/Record.hpp:316-325 | of pairs with one name the last is kept |
| Records.AddAllExact | lib/ondisk/Record.hpp:327-343 | children whose name or handle is taken are left out, and the flag says exactly whether any was |
| Records.ParsePrintRaw | lib/ondisk/Record.hpp:300-413 | printing and parsing a record, for any walk of its containers: the same record, every addChild succeeds, exactly the tail is left |
| Records.ParseRawLonger | lib/ondisk/Record.hpp:300-367 | a record parses the same whatever bytes follow it, which stay unread |
| Records.RecordRoundTrip | lib/ondisk/Record.hpp:300-413 | printed at one time and parsed at a later one: the record without what expired by then, and exactly the tail |
| RecordObject.Record.HasProperty | lib/ondisk/Record.hpp:103-108 | visible means present and not expired |
| RecordObject.Record.GetProperty | lib/ondisk/Record.hpp:118-128 | the visible value, or nothing |
| RecordObject.Record.SetProperty | lib/ondisk/Record.hpp:110-116 | sets the value and drops the expiration |
| RecordObject.Record.RemoveProperty | lib/ondisk/Record.hpp:130-137 | drops value and expiration; reports whether there was a value |
| RecordObject.Record.ExpireProperty | lib/ondisk/Record.hpp:139-148 | a visible property expires the given time from now; others are refused |
| RecordObject.Record.CancelPropertyExpiration | lib/ondisk/Record.hpp:150-154 | drops the expiration |
| RecordObject.Record.Properties | lib/ondisk/Record.hpp:156-165 | exactly the visible properties |
| RecordObject.Record.AddChild | lib/ondisk/Record.hpp:180-193 | links a child unless its name or its handle is taken, and keeps names and handles in bijection |
| RecordObject.Record.RemoveChild | lib/ondisk/Record.hpp:195-207 | unlinks the child with that handle, or reports that there is none |
| RecordObject.Record.DoPropertyCleanup | lib/ondisk/Record.hpp:247-260 | the loop removes exactly the expired properties |
| RecordObject.Record.Print | lib/ondisk/Record.hpp:369-413 | the loops print the record after a cleanup, in some order of its containers |
| RecordObject.Parse | lib/ondisk/Record.hpp:300-367 | the loops parse what the grammar says, and clean up at the end |
| LogDevices.BlocksAddedExact | lib/ondisk/LogDevice.hpp:236-241 | the 32-bit block count of an append is the rounded-up one exactly when the padded length is below 4 GiB |
| LogDevices.FourGibibytesCountAsNothing | lib/ondisk/LogDevice.hpp:236-241 | a record of 2^32 - 1 bytes on 2048-byte blocks, padded to exactly 4 GiB, is counted as no block and cannot be read |
| LogDevices.ReadExact | lib/ondisk/LogDevice.hpp:161-200 | a read succeeds exactly within the counted blocks, and gives the bytes at that place |
| LogDevices.ReadAnswers | lib/ondisk/LogDevice.hpp:167-199 | a read of nothing or past the counted blocks is an invalid argument, all else is read |
| LogDevices.ReadGrown | lib/ondisk/LogDevice.hpp:161-200 | what could be read stays readable, unchanged, however the device grows |
| LogDevices.ReadIntoFront | lib/ondisk/LogDevice.hpp:167-199 | reading into a used buffer puts the same bytes at its front and never shrinks it |
| LogDevices.AppendAligned | lib/ondisk/LogDevice.hpp:207-242 | an append returns the old block count, adds the rounded-up blocks and keeps the file a whole number of blocks |
| LogDevices.AppendReadsBack | lib/ondisk/LogDevice.hpp:207-242 | what was appended reads back, byte for byte |
| LogDevices.AppendHistory | lib/ondisk/LogDevice.hpp:161-242 | over any sequence of appends that fit 32 bits, each returns the right index and count and all of them still read back |
| LogDevices.OpenAligned | lib/ondisk/LogDevice.hpp:96-98 | reopening counts the same blocks |
| StorageObjects.LogDevice.Open | lib/ondisk/LogDevice.hpp:67-109 | rejects a bad block size or a missing file, and counts whole blocks |
| StorageObjects.LogDevice.ReadBuffer | lib/ondisk/LogDevice.hpp:161-200 | grows a short buffer, refuses a device that is not open and reads within the counted blocks |
| StorageObjects.LogDevice.Append | lib/ondisk/LogDevice.hpp:207-242 | refuses an empty buffer and a device that is not open; else writes, pads to a whole block and counts with the 32-bit cast |
| IndexTables.ParsePrintIndexRecord | lib/ondisk/IndexRecord.hpp:67-95 | an index record survives its 16 bytes |
| IndexTables.LoadAllEntries | lib/ondisk/IndexTable.hpp:181-210 | loading a table, in any order, lays its entries over those there |
| IndexTables.LoadAllFootprint | lib/ondisk/IndexTable.hpp:195-207 | the block footprint grows by the rounded-up lengths loaded, modulo 2^64 |
| IndexTables.LoadAllBytes | lib/ondisk/IndexTable.hpp:195-207 | the byte footprint grows by the lengths loaded, modulo 2^64 |
| IndexTables.IndexRecordLayout | lib/ondisk/IndexRecord.hpp:67-95 | key, block and length at fixed places of 16 bytes |
| IndexTables.IndexFileLayout | lib/ondisk/StorageEngine.hpp:331-347 | key counter, count, and the records 16 bytes apart |
| IndexTables.IndexFileRoundTrip | lib/ondisk/StorageEngine.hpp:311-347 | key counter and entries round-trip through the index file, whatever order the table was walked in |
| StorageObjects.IndexTable.InsertRecord | lib/ondisk/IndexTable.hpp:90-94 | inserts or replaces by key |
| StorageObjects.IndexTable.EraseKey | lib/ondisk/IndexTable.hpp:100-105 | erases by key |
| StorageObjects.IndexTable.Print | lib/ondisk/IndexTable.hpp:160-176 | the loop prints the count and the records in some order |
| StorageObjects.IndexTable.Parse | lib/ondisk/IndexTable.hpp:181-210 | the loop inserts each record and accumulates both footprints |
| EngineObject.StorageEngine.NewKey | lib/ondisk/StorageEngine.hpp:269-273 | hands out the counter and increments it, with its 64-bit wrap |
| EngineObject.StorageEngine.Save | lib/ondisk/StorageEngine.hpp:133-183 | prints the record after a cleanup, appends it and indexes it; each refusal leaves the engine alone |
| EngineObject.StorageEngine.Load | lib/ondisk/StorageEngine.hpp:86-131 | index fetch, device read and parse, with each error status |
| EngineObject.StorageEngine.Remove | lib/ondisk/StorageEngine.hpp:189-208 | erases the index entry, or reports that there is none |
| EngineObject.StorageEngine.Close | lib/ondisk/StorageEngine.hpp:248-263 | closes the device and writes the index file |
| EngineObject.StorageEngine.OpenIndexTable | lib/ondisk/StorageEngine.hpp:311-329 | reads counter and table when there is an index file |
| EngineObject.StorageEngine.OpenFiles | lib/ondisk/StorageEngine.hpp:210-241 | device, index, the broken-storage check and the root of a new store |
| EngineObject.StorageEngine.DoOfflineCompaction | lib/ondisk/StorageEngine.hpp:371-450 | the copy loop with its shared buffer, and the switch to the new file and index |
| EngineObject.StorageEngine.Open | lib/ondisk/StorageEngine.hpp:210-246 | open, then compaction by minimum size and ratio |
| Engines.DecodeSaved | lib/ondisk/StorageEngine.hpp:139-182 | the extent a save indexes decodes to the record saved |
| Engines.DecodeLonger | lib/ondisk/StorageEngine.hpp:110-116 | an extent that begins with the bytes of another decodes to the same record |
| Engines.LoadDecodes | lib/ondisk/StorageEngine.hpp:86-131 | a load of an indexed key gives the record of its extent without what has expired |
| Compaction.CopyAllWorks | lib/ondisk/StorageEngine.hpp:400-421 | the copy loop lays the records side by side in order and indexes each, and all bytes can be read back |
| Compaction.CompactedDecodes | lib/ondisk/StorageEngine.hpp:400-421 | after compaction a record decodes as before exactly when the length stored for it is inside the new device |
| Compaction.WrittenIsIntended | lib/ondisk/StorageEngine.hpp:410-420 | the lengths written are the intended ones exactly when records come by nondecreasing length |
| Compaction.IntendedAlwaysFits | lib/ondisk/StorageEngine.hpp:410 | with the length of each record itself, every record fits |
| CompactionCases.CompactedLoads | lib/ondisk/StorageEngine.hpp:400-450 | a load after compaction gives the record as before exactly when the length stored for it is inside the new device, and is refused otherwise |
| CompactionCases.ShorterAfterLongerIsLost | lib/ondisk/StorageEngine.hpp:410-420 | a store built from nothing whose root loads, and is refused after a close and an open that compacts as written and reports success |
| CompactionCases.ShorterBetweenLongerOverlaps | lib/ondisk/StorageEngine.hpp:410-420 | a store built from nothing whose live extents overlap after a close and an open that compacts as written, with all its records kept |
| CompactionCases.ReopenedFootprintGrows | lib/ondisk/IndexTable.hpp:197-205 | the root alone, closed and opened twice by one engine object: a footprint of two blocks on a device of one |
| EngineRuns.NewStoreRefines | lib/ondisk/StorageEngine.hpp:210-241 | the part of open before compaction, on a directory without the files, gives a store of the root alone, on one block |
| EngineRuns.SaveRefines | lib/ondisk/StorageEngine.hpp:133-183 | a save changes the abstract map at its key only |
| EngineRuns.RemoveRefines | lib/ondisk/StorageEngine.hpp:189-208 | a removal drops the key, and succeeds exactly when it is there |
| EngineRuns.LoadRefines | lib/ondisk/StorageEngine.hpp:86-131 | a load succeeds exactly when the map has the key, with its record up to expiry |
| EngineRuns.ReopenKeepsFiles | lib/ondisk/StorageEngine.hpp:210-263 | close and open keep device, counter and entries, for a new engine object or the same one |
| EngineRuns.CompactRefines | lib/ondisk/StorageEngine.hpp:371-450 | with room for the live records, compaction succeeds on a device of exactly the live blocks, and keeps the keys and the records exactly when the lengths it stores are inside that device |
| EngineRuns.IntendedFit | lib/ondisk/StorageEngine.hpp:410 | with the length of each record itself, every length stored by a compaction is inside the new device |
| EngineRuns.StepRefines | lib/ondisk/StorageEngine.hpp:86-263 | one operation answers as the map does, and the engine still represents the map |
| EngineRuns.StepRefinesExactly | lib/ondisk/StorageEngine.hpp:86-263 | with room, one operation answers as the map in any case, and the engine still represents the map exactly when a compaction in it stores lengths that fit |
| EngineRuns.RunRefines | lib/ondisk/StorageEngine.hpp:86-450 | over every run of saves, removals, loads, new keys and reopens with or without compaction, the engine answers as the map and still represents it at the end |
| Extents.Packing | lib/ondisk/StorageEngine.hpp:375-381 | disjoint extents inside a device do not cover more than the device |
| Extents.FootprintWithinDevice | lib/ondisk/IndexTable.hpp:197-205 | the footprint loaded is the live blocks on top of those the object had counted, modulo 2^64; it is within the device exactly when that sum is or wraps around, so always for a new object |
| Extents.CompactTidy | lib/ondisk/StorageEngine.hpp:400-448 | after compaction live extents are disjoint and inside the device exactly when the lengths stored take each record's own blocks, that is for line 410 always and for line 420 when walked by ascending block counts; they then tile the device |
| Extents.TidyHasRoom | lib/ondisk/StorageEngine.hpp:400-421 | a device with disjoint live extents leaves room for all of them on the compacted one |
| Extents.TidyGuard | lib/ondisk/StorageEngine.hpp:86-263 | from disjoint extents nothing about the state need be assumed: what an operation asks of its environment meets the guard |
| Extents.StepTidy | lib/ondisk/StorageEngine.hpp:133-263 | one operation keeps live extents disjoint and inside the device exactly when a compaction in it stores lengths that take each record's own blocks |
| Extents.RunTidy | lib/ondisk/StorageEngine.hpp:133-450 | over every run in which compactions do so, every guard is met, live extents stay disjoint and inside a file of exactly the counted blocks |
| Extents.NewStoreTidy | lib/ondisk/StorageEngine.hpp:210-241 | the extents of that store are disjoint and inside the device |
| Extents.NewStoreOpens | lib/ondisk/StorageEngine.hpp:210-246 | open to its end on a directory without the files: compacted at once exactly when the minimum size is at most one block, and with either length a store of the root alone on one block |
| Extents.NewStoreRuns | lib/ondisk/StorageEngine.hpp:86-450 | from a new store as open leaves it, over every run and with nothing assumed of any state on the way, the engine answers as the map and its extents stay disjoint |
| StaleIndex.StaleIndexSafe | lib/ondisk/StorageEngine.hpp:331-347 | the index of the last close, read against the log at any later point of a session, even with a torn append, opens to the map as of that close |
| StaleIndex.SessionGrows | lib/ondisk/LogDevice.hpp:207-242 | a session only extends the log, never touches the index file and never counts a footprint |
| EngineOpens.ClosedRefuses | lib/ondisk/StorageEngine.hpp:86-208 | a closed engine refuses to load, save and remove, and is left as it is |
| EngineOpens.SaveRefuses | lib/ondisk/StorageEngine.hpp:133-183 | a save is refused exactly for the null key, an empty buffer and 4 GiB or more, and then changes nothing |
| EngineOpens.KeysGoRound | lib/ondisk/StorageEngine.hpp:269-273 | the key counter goes up by one and after the last 64-bit key starts over at the null key |
| EngineOpens.CloseWrites | lib/ondisk/StorageEngine.hpp:248-263 | close leaves the log as it is and writes counter and table |
| EngineOpens.OpenRefuses | lib/ondisk/StorageEngine.hpp:210-219 | a bad block size and a missing log that may not be created are refused, and nothing changes |
| EngineOpens.BrokenStorage | lib/ondisk/StorageEngine.hpp:223-224 | with the index file missing or without entries, open is fatal exactly when the log has a whole block, counted in 32 bits, and then touches neither file |
| EngineOpens.FirstSessionLost | lib/ondisk/StorageEngine.hpp:210-224 | after any first session that did not close, with any torn tail, open is fatal and touches neither file |
| EngineOpens.OpenCompactsExactly | lib/ondisk/StorageEngine.hpp:371-383 | a close and open compacts exactly when the log has the minimum size and the counted share is at most the ratio; then the device is just the live blocks, else log and entries are as before |
| EngineOpens.RootRecreated | lib/ondisk/StorageEngine.hpp:229-241 | a store that has lost its root gets one and starts its key counter over, or is fatal when nothing else is left |
| UnlockedLoads.UnlockedLoadIsAtomic | lib/ondisk/StorageEngine.hpp:92-116 | a load that releases its lock between index fetch and device read returns the record the map held at the fetch, under any interleaving with saves and removals |
| UnlockedLoads.PromiseKept | lib/ondisk/StorageEngine.hpp:92-116 | between its two steps no move of another thread changes what a load will return |
| UnlockedLoads.RestingInv | lib/ondisk/StorageEngine.hpp:92-116 | interleavings can begin wherever the engine refines its map |
| UnlockedLoads.SaveInPieces | lib/ondisk/StorageEngine.hpp:133-183 | the moves of a save, in however many pieces its bytes reach the file, together do what the save of the engine does |
| UnlockedLoads.LoadInSteps | lib/ondisk/StorageEngine.hpp:86-131 | the two steps of a load with nothing between them are the load of the engine |
| Paths.SplitIsMaximalRuns | lib/util/String.cpp:5-32 | split returns exactly the maximal separator-free runs, from left to right |
| Paths.SplitString | lib/util/String.cpp:5-32 | the loop computes split with 32-bit indices, whatever the length, which is split for strings below 4 GiB |
| Paths.SplitRightExactly | lib/util/String.cpp:5-32 | the loop splits and simplifies every string of a given length correctly exactly when the length is below 4 GiB |
| Paths.SimplifyIdempotent | lib/util/StringPath.cpp:9-38 | simplifying twice is simplifying once, and splitting the result gives the component stack |
| Paths.SimplifyFrontFirst | lib/util/StringPath.cpp:9-38 | simplifying the front of a joined path first makes no difference |
| Paths.DotDotUndoesName | lib/util/StringPath.cpp:18-21 | two dots take back exactly the one name before them, anywhere in a path |
| Paths.DotStays | lib/util/StringPath.cpp:13-17 | a single dot anywhere in a path makes no difference |
| Paths.DotDotAtRoot | lib/util/StringPath.cpp:18-21 | two dots at the root stay at the root |
| Paths.SeparatorsMerge | lib/util/StringPath.cpp:9-38 | a doubled separator makes no difference |
| Paths.PathStringInjective | lib/util/StringPath.cpp:26-37 | different component lists have different path strings |
| Paths.ComponentsAppend | lib/util/StringPath.cpp:9-38 | joining a tail of names to a simplified path appends its components |
| Paths.SuffixSplits | lib/ondisk/Volume_p.hpp:92-94 | what is left of a path behind a cached or mounted prefix splits into the remaining components |
| Paths.ResolveStack | lib/util/StringPath.cpp:10-24 | the loop pushes names and pops on two dots |
| Paths.SimplifyPath | lib/util/StringPath.cpp:9-38 | the method computes simplification with the 32-bit split, whatever the length, which is simplification for paths below 4 GiB |
| Paths.ReverseStringPathIterator.Next | lib/util/StringPathIterator.cpp:50-60 | steps to the parent, and becomes invalid behind the root |
| Paths.ReverseStringPathIterator.Current | lib/util/StringPathIterator.cpp:62-74 | the string of the current ancestor, a lone separator for the root |
| MRUCaches.CacheIsRecency | lib/util/MRUCache.hpp:49-81 | over every run the keys are the first distinct ones of the reversed history of inserts and hits, up to the capacity |
| MRUCaches.ValueOrigin | lib/util/MRUCache.hpp:49-81 | the value of a resident key is that of the insert that last made it resident |
| MRUCaches.ApplyWellFormed | lib/util/MRUCache.hpp:49-81 | keys stay unique and the size within the capacity |
| MRUCaches.RemovedKeeps | lib/util/MRUCache.hpp:83-96 | a removal takes its key out; the others keep their values and their order |
| MRUCaches.MRUCache.Insert | lib/util/MRUCache.hpp:49-58 | pushes to the front, relocates a duplicate with its old value, drops the last on overflow |
| MRUCaches.MRUCache.Lookup | lib/util/MRUCache.hpp:60-81 | a hit gives the value and moves the key to the front |
| MRUCaches.MRUCache.Remove | lib/util/MRUCache.hpp:83-96 | removes the key, if it is there |
| MRUCaches.MRUCache.Clear | lib/util/MRUCache.hpp:104-106 | empties the cache |
| Volumes.EveryHandleReached | lib/ondisk/Volume_p.hpp:97-127 | every live handle is reached from the root by walking its parents |
| Volumes.ListedOnce | lib/ondisk/Record.hpp:180-207 | what being a tree says of one handle, read from the definition: listed once, by its parent under its name, and the root never |
| Volumes.WalkIsInjective | lib/ondisk/Volume_p.hpp:97-127 | different paths lead to different handles |
| PathCaches.SearchIsLongest | lib/ondisk/Volume_p.hpp:237-251 | the search gives the longest cached prefix with its handle, and misses exactly when no prefix is cached |
| PathCaches.SearchFinds | lib/ondisk/Volume_p.hpp:237-251 | what the search finds stands for the prefix it found, and the lookups keep the cache right |
| PathCaches.TracksOnly | lib/ondisk/Volume_p.hpp:95-126 | the keys the walk caches stand for one path only, even behind one separator too many |
| PathCaches.WalkDownFinds | lib/ondisk/Volume_p.hpp:95-127 | the walk that caches as it goes finds what the plain walk finds |
| PathCaches.FindHandleIsWalk | lib/ondisk/Volume_p.hpp:79-129 | a lookup finds the handle of the plain walk, or nothing live when its longest cached prefix is stale |
| PathCaches.EntryIsWalk | lib/ondisk/Volume_p.hpp:79-130 | an entry found by path is the one the walk finds; the two agree exactly unless the longest cached prefix is stale and the walk finds something |
| PathCaches.MissCaches | lib/ondisk/Volume_p.hpp:86-127 | a lookup that finds its path with no prefix of it cached leaves the path in the cache, so that the next one hits |
| PathCaches.RootHitCachesNothing | lib/ondisk/Volume_p.hpp:95-127 | a lookup whose longest cached prefix is the root caches no path |
| VolumeRuns.OpenIsTransparent | lib/ondisk/Volume_p.hpp:265-298 | opening succeeds exactly for a stored handle and does not change the tree shown |
| VolumeRuns.OpenThenRelease | lib/ondisk/Volume_p.hpp:265-314 | opening an entry and letting it go saves nothing and leaves the volume as it was |
| VolumeRuns.ReleaseIsTransparent | lib/ondisk/Volume_p.hpp:300-314 | releasing writes a dirty record back and does not change the tree shown |
| VolumeRuns.ReleaseAnsweredShows | lib/ondisk/Volume_p.hpp:300-314 | a release, whatever the engine answers to its save: the tree shown is unchanged exactly when the record was saved or the stored one reads the same |
| VolumeRuns.ReinitializeIsTransparent | lib/ondisk/Volume_p.hpp:65-73 | deinitialize then initialize shows the same tree, with nothing open or cached |
| VolumeRuns.ReinitializeAnsweredShows | lib/ondisk/Volume_p.hpp:331-342 | deinitialize then initialize, whatever the engine answers: the tree shown is unchanged exactly when each open record was saved or its stored one reads the same |
| VolumeRuns.MutateKeepsInv | lib/ondisk/Entry.cpp:24-118 | a mutation changes one record of the tree shown, and leaves it dirty unless nothing changed |
| VolumeRuns.FailedMutationChangesNothing | lib/ondisk/Entry.cpp:51-103 | a mutation that reports no success changes nothing, the dirty flag included |
| Volumes.MutationLeavesOthers | lib/ondisk/Entry.cpp:24-118 | a mutation shows in no property but its own, at no time |
| Volumes.MutationSets | lib/ondisk/Entry.cpp:24-118 | what a mutation makes of its own property, at any later time |
| VolumeRuns.SameMutated | lib/ondisk/Entry.cpp:24-118 | mutations do not tell a record from its cleaned-up form, save the cancelling of a passed expiration |
| VolumeRuns.LinkAnswers | lib/ondisk/Volume_p.hpp:132-185 | a link succeeds exactly when the name is valid and new, the parent is open and the child is saved |
| VolumeRuns.FailedLinkChangesNothing | lib/ondisk/Volume_p.hpp:132-185 | a link that fails leaves the tree unchanged, whether refused or not saved |
| VolumeRuns.LinkAddsLeaf | lib/ondisk/Volume_p.hpp:132-185 | a link that succeeds adds one leaf under a fresh handle and keeps a tree |
| VolumeRuns.UnlinkRemovesLeaf | lib/ondisk/Volume_p.hpp:187-235 | an unlink that succeeds removes one closed leaf and keeps a tree |
| VolumeRuns.UnlinkedWalks | lib/ondisk/Volume_p.hpp:187-235 | removing a leaf leaves every other walk alone |
| VolumeRuns.UnlinkedCacheOk | lib/ondisk/Volume_p.hpp:187-235 | after an unlink each cached path is right or stands for a handle no longer stored |
| VolumeRefinement.FindRefines | lib/ondisk/Volume_p.hpp:79-130 | a lookup answers as the walk in the plain tree, and the entry is then held |
| VolumeRefinement.StatusRefines | lib/ondisk/Entry.cpp:51-64 | a mutation reports what the plain tree reports, save a removal that finds an expired property |
| VolumeRefinement.LinkRefines | lib/ondisk/Volume_p.hpp:132-185 | link answers and acts as on the plain tree |
| VolumeRefinement.UnlinkRefines | lib/ondisk/Volume_p.hpp:187-235 | unlink answers and acts as on the plain tree, refusing open and nonempty children |
| VolumeRefinement.UnlinkStatus | lib/ondisk/Volume_p.hpp:187-235 | an unlink succeeds exactly for a child that is listed, closed, stored and without children, and else changes nothing |
| VolumeRefinement.StepRefines | lib/ondisk/Volume_p.hpp:65-342 | one operation of a volume answers as the plain tree, and the two still agree |
| VolumeRefinement.RunRefines | lib/ondisk/Volume_p.hpp:65-342 | over every run with nondecreasing times the volume answers as the plain tree, which stays a tree |
| VolumeRefinement.LookupsExactUntilUnlink | lib/ondisk/Volume_p.hpp:79-130 | over every run without unlinks each lookup by path finds exactly what the walk in the plain tree finds |
| VolumeRefinement.HandlesIssuedOnce | lib/ondisk/StorageEngine.hpp:269-273 | over every run, reinitializing included, the handles drawn ascend above all handles drawn, stored or removed before |
| VolumeRefinement.NewVolumeRefines | lib/ondisk/StorageEngine.hpp:349-355 | a volume over a new store shows the root alone |
| VolumeRefinement.RelinkIsHidden | lib/ondisk/Volume_p.hpp:187-255 | unlinking a cached child and linking its name again: the walk finds the new child and the lookup finds nothing |
| VolumeCases.RelinkHidesInARun | lib/ondisk/Volume_p.hpp:79-251 | a run from a new volume, all of whose calls succeed, to a state in which the walk to a path finds a child and the lookup of it finds nothing |
| VolumeOverEngine.StepSavable | lib/ondisk/Volume_p.hpp:65-342 | whatever a volume does with arguments of their types, each record it stores or holds open is one the engine can print |
| VolumeOverEngine.StepIssued | lib/ondisk/Volume_p.hpp:132-342 | the saves, removals and keys an operation asks of the engine do to the engine map exactly what the operation does to the store of the volume |
| VolumeOverEngine.IssuedCallable | lib/ondisk/Volume_p.hpp:132-342 | every record a volume saves meets what the engine asks of one, and a volume never removes the root |
| VolumeOverEngine.LayersStayInStep | lib/ondisk/Volume_p.hpp:65-342 | over every run in which each call is one its caller may make and the environment has room, engine, volume and tree stay in step, which no state on the way is asked |
| VolumeOverEngine.EngineHoldsTree | lib/ondisk/Volume_p.hpp:65-342 | over every run of a volume on an engine, with nothing assumed of any state on the way, the volume answers as the plain tree; at the end, with no entry held, the loads of the engine give the records of that tree and no others |
| VolumeOverEngine.NewLayers | lib/ondisk/StorageEngine.hpp:349-355 | a new volume on a new engine is where such a run begins |
| VolumeObjects.OpenEntry.HasProperty | lib/ondisk/Entry.cpp:18-22 | reads the open record |
| VolumeObjects.OpenEntry.Property | lib/ondisk/Entry.cpp:39-49 | reads the open record |
| VolumeObjects.OpenEntry.SetProperty | lib/ondisk/Entry.cpp:24-37 | mutates the open record and raises the dirty flag |
| VolumeObjects.OpenEntry.RemoveProperty | lib/ondisk/Entry.cpp:51-64 | mutates the open record; dirty only when it succeeds |
| VolumeObjects.OpenEntry.ExpireProperty | lib/ondisk/Entry.cpp:90-103 | mutates the open record; dirty only when it succeeds |
| VolumeObjects.OpenEntry.CancelPropertyExpiration | lib/ondisk/Entry.cpp:105-118 | mutates the open record and raises the dirty flag |
| VolumeObjects.Volume.SearchCachedPathEntry | lib/ondisk/Volume_p.hpp:237-251 | the loop over ancestors finds the longest cached prefix of the chunks of the path |
| VolumeObjects.Volume.WalkTokens | lib/ondisk/Volume_p.hpp:97-127 | the loop walks down from a handle, caching each path it passes |
| VolumeObjects.Volume.FindByPath | lib/ondisk/Volume_p.hpp:79-127 | search, the exact hit, the start at the root or at the prefix, and the walk, on a path string of any length |
| VolumeObjects.FindEntry32IsFindEntry | lib/ondisk/Volume_p.hpp:79-130 | for paths below 4 GiB, before and after simplification, that is the lookup on the components of the path |
| VolumeObjects.Volume.EntryAt | lib/ondisk/Volume_p.hpp:79-130 | the entry in the table that the path leads to, or nothing |
| VolumeObjects.Volume.CreateEntryForHandle | lib/ondisk/Volume_p.hpp:265-298 | shares an open entry, or opens a stored handle |
| VolumeObjects.Volume.CreateChild | lib/ondisk/Volume_p.hpp:132-185 | link, with each of its refusals and the undo after a failed save |
| VolumeObjects.Volume.RemoveChild | lib/ondisk/Volume_p.hpp:187-235 | unlink, with each of its refusals |
| VolumeObjects.Volume.ReleaseEntry | lib/ondisk/Volume_p.hpp:300-314 | leaves the table and saves when dirty, whatever the engine answers |
| VolumeObjects.Volume.FlushEntries | lib/ondisk/Volume_p.hpp:331-342 | the loop saves exactly the dirty entries that the engine accepts, in any order, and empties the table |
| VolumeObjects.Volume.Deinitialize | lib/ondisk/Volume_p.hpp:65-73 | refused while claimed, else flush and forget the cache, whatever the engine answers |
| VolumeObjects.Volume.Claim | lib/ondisk/Volume_p.hpp:344-360 | one holder at a time, counted; the null token is refused |
| VolumeObjects.Volume.Release | lib/ondisk/Volume_p.hpp:362-377 | only the holder releases; the last release frees the volume |
| ClaimTokens.ClaimsAreCounted | lib/ondisk/Volume_p.hpp:344-383 | over every run each holder has the claims granted less those returned, at most one holder has any, and a claim is granted exactly when no other holder has one |
| Mounts.InsertedSorted | lib/vfs/Storage_p.hpp:249-250 | insertion keeps the index ordered and adds the mount behind those at its path |
| Mounts.RangeIsMatching | lib/vfs/Storage_p.hpp:318-328 | equal_range is exactly the mounts at the path, in order of insertion |
| Mounts.SearchIsLongestPrefix | lib/vfs/Storage_p.hpp:311-337 | the search finds the longest component-wise prefix that is a mount point, if there is one |
| Mounts.SubPathIsEntryThenRest | lib/vfs/Storage_p.hpp:140-148 | a volume is asked for the components of the mounted entry followed by exactly the unmatched ones |
| Mounts.MountResolves | lib/vfs/Storage_p.hpp:140-148 | in the volume that is the walk from the mounted entry along the unmatched components |
| Mounts.MergedEntriesDiffer | lib/vfs/Storage_p.hpp:144-148 | two mounts of one volume at one path lead to different entries |
| Mounts.SortByPriority | lib/vfs/Storage_p.hpp:138 | the same mounts by descending priority |
| VfsStorages.MatchingMembers | lib/vfs/Storage_p.hpp:325-330 | the mounts returned for a path are all mounts with that path |
| VfsStorages.PositionFinds | lib/vfs/Storage_p.hpp:268-275 | where unmount looks: on the mounted triple, else on the first greater path, if any |
| VfsStorages.MountAnswers | lib/vfs/Storage_p.hpp:232-260 | a mount succeeds exactly when the volume is there and claimed by nobody else, the entry opens and the volume is not mounted there by that entry; other mounts do not matter |
| VfsStorages.MountKeepsStep | lib/vfs/Storage_p.hpp:232-260 | a mount takes exactly one claim; one that fails leaves mounts and claims alone |
| VfsStorages.UnmountMounted | lib/vfs/Storage_p.hpp:262-287 | unmounting a mounted triple removes that mount and returns one claim |
| VfsStorages.UnmountNotMounted | lib/vfs/Storage_p.hpp:268-286 | unmounting what is not mounted is refused, unless a mount has a greater path and the volume is mounted: then another mount goes |
| VfsStorages.UnmountKeepsStep | lib/vfs/Storage_p.hpp:262-287 | mounts and claims stay in step exactly when the unmount is rightful |
| VfsCases.WrongMountGoes | lib/vfs/Storage_p.hpp:262-287 | after two mounts that succeed, unmounting a triple that is not mounted succeeds, erases the mount of another volume and leaves that one claimed with no mount and the other mounted unclaimed |
| VfsStorages.RunKeepsStep | lib/vfs/Storage_p.hpp:232-287 | over every orderly run the storage holds as many claims of each volume as it has mounts of it |
| VfsStorages.Storage.Mount | lib/vfs/Storage_p.hpp:232-260 | claim, open, insert, and the release when either fails, in step with the claims or not; below 4 GiB it keeps them in step |
| VfsStorages.Storage.Unmount | lib/vfs/Storage_p.hpp:262-287 | find, release, erase, with the comparison as written, in step with the claims or not; from in step it stays so exactly when rightful |
| VfsStorages.Storage.SearchMountPathFor | lib/vfs/Storage_p.hpp:311-337 | the loop over ancestors of a path of any length finds the longest mounted prefix and all its mounts |
| VfsStorages.Storage.EntryPlan | lib/vfs/Storage_p.hpp:126-150 | every mount of the longest prefix is asked once, by descending priority, each for its own path |
| VirtualEntries.AnyScheduleSameResults | lib/vfs/VirtualEntry.hpp:67-126 | whatever order the calls run in, the i-th result is that of the i-th entry, and each record is what its own call leaves |
| VirtualEntries.UnionHas | lib/vfs/VirtualEntry.cpp:70-99 | the union has a property exactly when some entry does, with the value of the first that does |
| VirtualEntries.SetThenGet | lib/vfs/VirtualEntry.cpp:32-56 | after setting a property on all entries the merged property is that value, and the others are unchanged |
| VirtualEntries.RemoveThenGone | lib/vfs/VirtualEntry.cpp:58-68 | after removing a property from all entries nothing of it is left |
| VirtualEntries.ExpireThenGone | lib/vfs/VirtualEntry.cpp:132-142 | an expired merged property stays what it was until its time, and then is gone |
| VirtualEntries.MutationLeavesMerged | lib/vfs/VirtualEntry.cpp:32-154 | a mutation of all entries shows in no merged property but its own |
| VirtualEntries.CancelThenStays | lib/vfs/VirtualEntry.cpp:144-154 | after its expiration is cancelled on all entries the merged property is there at every later time |
| VfsReads.AskAllKeeps | lib/vfs/Storage_p.hpp:126-156 | whatever order the lookups of a merged entry run in, each answers with the walk in the plain tree or, behind a stale cached path, nothing, and the trees stay as they were |
| VfsReads.MergedLookup | lib/vfs/Storage_p.hpp:126-183 | each mount at the longest mounted prefix answers with the walk in the tree of its volume along the components of the mounted entry and the unmatched ones, and no entry comes twice |
| VfsReads.MergedReadIsUnion | lib/vfs/VirtualEntry.cpp:44-99 | reading a merged entry gives the union, by priority, of the records that the plain trees of the mounted volumes hold there |
| VfsReads.HighestPriorityWins | lib/vfs/Storage_p.hpp:138 | of the entries that have a property, one mounted with higher priority than all others decides |
| VirtualEntries.VirtualEntry.RunCalls | lib/vfs/VirtualEntry.hpp:89-113 | each call fills in its own future, in any order |
| VirtualEntries.VirtualEntry.ForEachEntry | lib/vfs/VirtualEntry.hpp:67-126 | results come in the order of the entries |
| VirtualEntries.VirtualEntry.HasProperty | lib/vfs/VirtualEntry.cpp:19-30 | any entry has it, which is to say the union does |
| VirtualEntries.VirtualEntry.Property | lib/vfs/VirtualEntry.cpp:44-56 | the value in the union, or nothing |
| VirtualEntries.VirtualEntry.AllProperties | lib/vfs/VirtualEntry.cpp:70-99 | exactly the union |
| VirtualEntries.VirtualEntry.PropertiesNames | lib/vfs/VirtualEntry.cpp:101-130 | exactly the keys of the union |
| VirtualEntries.VirtualEntry.Links | lib/vfs/VirtualEntry.cpp:156-185 | exactly the names of children of any entry |
| VirtualEntries.VirtualEntry.SetProperty | lib/vfs/VirtualEntry.cpp:32-42 | sets it on every entry |
| VirtualEntries.VirtualEntry.RemoveProperty | lib/vfs/VirtualEntry.cpp:58-68 | removes it from every entry; succeeds when any had it |
| VirtualEntries.VirtualEntry.ExpireProperty | lib/vfs/VirtualEntry.cpp:132-142 | succeeds exactly when the union has the property |
| VirtualEntries.VirtualEntry.CancelPropertyExpiration | lib/vfs/VirtualEntry.cpp:144-154 | cancels it on every entry |

## Left out

- EngineRuns.RunRefines: every append has room in the 32-bit device, the root is not removed, the key counter does not wrap and the block size is the same at every open. Compactions of the run store lengths that fit; Extents.NewStoreRuns derives that, and the room to compact, for the lengths of line 410 always and for those of line 420 along ascending block counts.
- StaleIndex.StaleIndexSafe: for a session that begins without a compaction; a crash between the switch of the log file and the next close leaves an index that belongs to the old log.
- VolumeRefinement.RunRefines: for sequential runs in which the saves of releases and flushes succeed (which VolumeOverEngine proves of an engine with room; VolumeRuns says what is left when they do not), an entry held across deinitialize is let go before initialize, no expiration is cancelled after it has passed, and the 64-bit key counter does not wrap; what the plain tree cannot know (a stale cached prefix, an expired property still in memory) is passed to it as a hint.
- VolumeObjects.Volume.EntryAt: for paths of 4 GiB and more the contract follows the 32-bit split, and nothing is said of what such a path should lead to.
- VolumeObjects.Volume.Deinitialize: closing the engine, and its status, are outside the method.
- VfsStorages.Storage.Mount: the entry that the volume opens is a parameter and is not kept.
- VfsStorages.Storage.EntryPlan: for paths below 4 GiB where they are split; gives the volumes and paths asked, in order; VfsReads asks them.
- VfsReads.MergedReadIsUnion: for lookups in which every volume has the entry; one that has not leaves a null in the merged list, and calling it is not modelled. The lookups of one merged entry run one after the other, in any order.
- VirtualEntries.VirtualEntry.ForEachEntry: calls that throw, and calls from other threads between those of one merged call.
- Short reads: a parser that runs out of bytes leaves the C++ object in no definite state, which the model reports and says nothing more about.
- File I/O that fails, unlink and rename: the log is a byte sequence whose writes complete, except for the torn last append of StaleIndex. A short write breaks block alignment and nothing in the code repairs it.
- An append that fails during compaction: the code assigns the status of the read (lib/ondisk/StorageEngine.hpp:415). Appends of the model succeed.
- Two threads opening and releasing the same entry, or linking and unlinking: the volume is sequential. Only the unlocked load and the merged calls are modelled as interleavings.
- Locks, the thread pool with its queue, and back-off.
- Floating point: values are bit patterns, and the compaction ratio is compared in integers.
- Status messages, logging, exceptions and out-of-memory paths: a status is its kind.
- Entries named "." or "..": link accepts them and no path reaches them; results about reaching a handle by its path string are for names.
- Handles of merged entries, their registration and childOperation, hit counters and the forward path iterator: single-branch facts.
