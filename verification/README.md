# Verified models of the hard parts of Redis

This project models six parts of the Redis server in Dafny and proves what they promise, for every
input and every run:

- **The append-only file as a crash-safe protocol** (`AofLog`, `AofServer`, `AofInvariant`,
  `AofRewrite`, `AofBackup`, `AofSafety`, `AofTheorems`, `AofProgress`, `AofSteps`, `AofExact`,
  `AofHole`, `HoleBytes`, `AofReuse`, `AofInterrupt`, `AofInstallCrash`, `AofRuns`, `AofFlush`,
  `FlushRefinement`, `Durable`, `DurableProgress`, `Bio`, `BioProgress`, `BioWakeups`). The state holds the manifest in memory
  and on disk, directory entries and inodes, file contents, the open descriptor with its offset, the
  AOF buffer, the rewrite child and the BACKUP state. A run is any sequence of commands, flushes
  with short or failed writes, rewrites that succeed or fail at any point, history deletion, BACKUP
  START, cron, SEAL, ABORT and CLEANUP, switching `appendonly`, and crashes in the middle of a write
  or between the system calls that install a rewrite, followed by a restart. `AofExact`, `AofHole`,
  `AofReuse` and `AofInstallCrash` say what becomes of the files without the conditions the safety
  theorem assumes, and `AofRuns` has runs from a fresh server to each such loss. `AofFlush` looks
  inside a flush and `FlushRefinement` shows that it is the flush of the protocol, `Durable` puts
  the main thread's flush against the fsync worker in single steps, and `Bio` is the worker protocol
  itself, lock by lock. `AofSteps`, `DurableProgress` and `BioProgress` say of every step exactly when
  it does what; `BioWakeups` is about the condition variable that a worker shares with those who wait
  for it.
- **The record codec and the manifest codec** (`Decimal`, `Resp`, `Recovery`, `LoaderExits`,
  `LoaderMulti`, `SplitArgs`, `Manifest`, `ManifestCodec`, `ManifestFile`, `ManifestLoad`): byte-exact
  printers and loaders, comments, transactions and truncation recovery included.
- **The ACL command-rule log** (`AclString`, `AclRules`, `AclSelector`, `AclReplay`, `AclEffects`,
  `AclObject`): the in-place string surgery, the meaning of a rule, the replay of the compacted log,
  and what every operation does to bits and first arguments.
- **Bit operations** (`Bits`, `Popcount`, `Bitcount`, `Bitpos`, `Bitop`, `Bitfield`, `BitfieldOps`):
  word-at-a-time code against per-bit definitions.
- **Blocked clients** (`AdList`, `WaiterList`, `Blocked`, `BlockedClients`, `BlockedExact`,
  `BlockedIndex`, `Serving`, `WakeUp`, `ReadyKeys`, `Delivery`): the linked list at pointer level and
  the waiters of a key on top of it, the two-way index between clients and keys, the pass that
  serves a ready key while its visits remove and re-block clients, and the whole way from a signal to
  the clients it wakes.
- **Cuckoo Heavy Keeper** (`Cuckoo`, `ChkHeap`), after "Cuckoo Heavy Keeper and the balancing act of
  maintaining heavy hitters in stream processing" by Ngo and Papatriantafilou.

Code that works in place is a class or a method on an array, proved equal to a function of the old
state; the properties are lemmas about those functions. Where several threads or a crash are
involved, the code is a state machine over its steps, and results are about all its runs.

`dafny verify dfyconfig.toml` checks the whole project.

## Where a promise of the code is not kept

Each of these has a lemma that gives the condition, and a run or an input that shows the failure
where the lemma itself does not.

- A manifest write that fails after its rename (`src/aof.c:678-684`) makes a failed rewrite unlink
  the BASE that the manifest on disk now lists, and leaves a rotation or SEAL with a manifest that
  lists an empty INCR behind the one still written: `AofExact.ManifestMustBeAtomic`,
  `AofExact.RotationMustBeAtomic`, `AofExact.RewriteMustBeAtomic`, `AofExact.SealMustBeAtomic`;
  `AofRuns.LostBaseRun`, `AofRuns.UnsyncedRotationRun`.
- A rotation while the buffer still holds part of a command leaves an INCR that does not load,
  commands left in the buffer at a fork are replayed twice, and commands left in the buffer at SEAL
  are not in the backup: `AofExact.RotationNeedsWholeCommands`,
  `AofExact.UnflushedCommandsReplayTwice`, `AofExact.SealNeedsFlush`, `AofHole.SealOffNeedsFlush`;
  `AofRuns.PartialRotationRun`, `AofRuns.ReplayedTwiceRun`, `AofRuns.EarlySealRun`,
  `AofRuns.OwnedSealRun`.
- Switching `appendonly` on while a backup owns the directory and then aborting the backup deletes
  the live files: `AofExact.EnablingDuringOwnedBackup`, `AofRuns.OwnedBackupRun`.
- After a restart on a manifest without INCR files the INCR counter starts again. A file that still
  has the next name is appended to, and if history lists that name the file just opened is deleted:
  `Manifest.ReloadedWellFormed`, `AofExact.StaleIncrReplayed`, `AofReuse.RestartKeepsListedIff`,
  `AofReuse.RotationKeepsListedIff`, `AofReuse.InstallKeepsListedIff`; `AofRuns.StaleIncrRun`,
  `AofRuns.ReusedNameRun`, `AofRuns.SwitchedOnReuseRun`.
- A crash between the rename of the first INCR and the manifest leaves such a file as well:
  `AofInstallCrash.FirstInstallCrashIff`, `AofRuns.FirstInstallCrashRun`.
- A rotated INCR is opened without `O_APPEND` (`src/aof.c:1218`): removing a short write leaves the
  offset beyond the end, and the next write leaves a hole. The loader reads over it
  exactly when it falls behind the number of a header, or before the zero of an empty argument, and
  the line still fits its buffer: `AofFlush.FlushExactIff`,
  `AofFlush.TruncateLosesPosition`, `AofFlush.RotatedHole`, `HoleBytes.LogHoled`, `AofHole.HoleIff`,
  `AofHole.FirstHoleIff`, `AofRuns.HoleRun`, `AofRuns.FirstHoleRun`.
- A file that ends inside a command of a transaction is cut before that command and not before its MULTI
  (`src/aof.c:2181-2206`): what is written next joins the open transaction, and is not run at the next
  start, or is run together with the part that was never committed: `LoaderMulti.RecoveredGoesOnIff`,
  `LoaderMulti.WriteSwallowed`.
- A worker and those who drain it wait on one condition variable that is signalled to one waiter
  (`src/bio.c:191-199`, `src/bio.c:386-414`). No wake-up is lost exactly when at most one thread drains a
  worker, as in this server: `BioWakeups.SignalsSufficeIff`, `BioWakeups.TwoGetStuck`.
- The fsynced offset published after a rotation can run ahead of the old file's fsync:
  `Durable.PublicationSafeIff`, `Durable.RotationPublishesEarly`.
- `sdsneedsrepr` does not quote a word for a single quote, which the splitter then takes as an
  opening quote: `SplitArgs.WordRoundTrip`.
- The printer drops an end offset without a start offset and writes lines longer than the loader
  reads, and a manifest without files prints as a file the loader refuses:
  `ManifestCodec.LineSurvives`, `ManifestCodec.LoadOfPrint`, `ManifestFile.ReachableRoundTrip`,
  `ManifestCodec.NothingIsRefused`.
- A saturating signed BITFIELD SET of a number far below the type stores the largest number of the
  type: `BitfieldOps.SaturatingSet`, `BitfieldOps.SaturatingSetFails`.
- A key that was queued by a signal for a list that grew stays queued as "do not wake modules" when
  it is signalled as created before it is served: `ReadyKeys.ModulesHearIff`,
  `ReadyKeys.ModulesPassedOver`.
- The alternate index is an involution exactly when the number of buckets is a power of two, as the
  constructor asserts: `Cuckoo.AltIdxInvolutionIff`, `Cuckoo.AltIdxNotInvolution`.

## Model

| member | source | states |
|---|---|---|
| Resp.CatCommand | src/aof.c:1769-1792 | the loop appends exactly the RESP array of bulk strings for the argv, whatever bytes it holds |
| Resp.ReadCommands | src/aof.c:2051-2176 | the reading loop executes the commands, keeps the valid-up-to offset and takes the exit that the recursive definition of loading gives for any bytes |
| Resp.LoadSingleAppendOnlyFile | src/aof.c:1970-2256 | the loader, with its offset kept only where recovery is configured, executes the commands that loading defines and reports and leaves what `Loaded` says, about which the rows of `Recovery` are |
| Recovery.CutLoads | src/aof.c:2051-2176 | any file at all, cut where the loader stopped, loads cleanly to the same commands |
| Recovery.RecoveryKeeps | src/aof.c:2194-2232 | for every file, configuration and outcome of truncate: a file that is not recovered is untouched, a recovered one is a proper prefix that loads again without error to the commands just executed |
| Recovery.PrefixRecovers | src/aof.c:2194-2210 | a log that lost its tail is accepted iff nothing is left over, or short reads may be cut off and the cut succeeds; what is left then encodes exactly the executed commands, else the file is untouched |
| Recovery.CorruptTailRecovers | src/aof.c:2213-2232 | a log followed by bytes that are no command is accepted iff they are fewer than configured and the cut succeeds; then they are gone and nothing else, else the file is untouched |
| LoaderExits.Layout | src/aof.c:1769-1792 | in bytes: `*`, the count, and for every argument `$`, its length and its bytes, each closed by CR LF |
| LoaderExits.NotesSkipped | src/aof.c:2066-2074 | a file of commands with comment lines anywhere runs exactly the commands, in order |
| LoaderExits.CorruptBytesRecover | src/aof.c:2213-2232 | a log followed by bytes without a mark, with a count below one or with an argument that does not start with `$` is accepted iff they are fewer than configured and the cut succeeds; then they are gone and nothing else |
| LoaderExits.UnknownFails | src/aof.c:2117-2128 | whatever is configured, a command that does not exist ends loading in failure: those before it are run, the file is untouched |
| LoaderExits.NulStar | src/aof.c:2076 | so does a line of `*` and NUL, unless the file ends in it: then it is a short read |
| LoaderExits.NegativeLengthAborts | src/aof.c:2097-2108 | a negative length ends the process and leaves the file |
| LoaderMulti.ReadTransactions | src/aof.c:2051-2186 | the reading loop with its queue and its two offsets, for any bytes |
| LoaderMulti.NoTransactions | src/aof.c:2051-2186 | without MULTI and EXEC it is the loading of the rows above |
| LoaderMulti.EveryCut | src/aof.c:2051-2186 | every proper prefix of a log of commands and transactions is whole units, some commands of the next and some bytes of one more |
| LoaderMulti.CutTx | src/aof.c:2177-2210 | of a log cut anywhere exactly the whole commands and transactions take effect; the file is good up to the cut unit, but up to the cut command if that stands in a transaction |
| LoaderMulti.AppendedIs | src/aof.c:2130-2173 | what is run of units written behind whole units and the start of a transaction |
| LoaderMulti.RecoveredGoesOnIff | src/aof.c:2177-2210 | a file cut anywhere, recovered and written to again loads to the whole units and those written since, iff the cut was not inside a command of a transaction, or only its MULTI was whole and a transaction follows, or nothing follows |
| LoaderMulti.WriteSwallowed | src/aof.c:2177-2210 | MULTI, a command, a byte of EXEC; recovered; a command written: loading runs nothing |
| Resp.LoadFilePrefix | src/aof.c:2051-2176 | loading any prefix of a log executes exactly the commands wholly inside it, valid-up-to ends the last one, and a short read is reported iff bytes are left over |
| Resp.LoadFileRoundTrip | src/aof.c:2051-2176 | decoding inverts encoding for every sequence of binary argvs |
| Resp.EncodeAllInjective | src/aof.c:1769-1792 | two command sequences with the same bytes are the same |
| AofLog.CutRecovers | src/aof.c:2194-2210 | what the loader leaves of a log cut anywhere is a whole log with the same commands |
| AofLog.TornWrite | src/aof.c:2194-2210 | a buffer write torn after any number of bytes leaves exactly the commands wholly written |
| Manifest.NewBaseWellFormed | src/aof.c:510-532 | a new BASE keeps sequences increasing and retired names retired, its name is neither listed nor retired, the old BASE joins the history and nothing else changes |
| Manifest.NewIncrWellFormed | src/aof.c:538-548 | a new INCR joins the end of the list with its start offset, under a name never used before; the list stays strictly increasing with its last number equal to the counter |
| Manifest.MarkRewrittenWellFormed | src/aof.c:575-605 | exactly the rewritten INCRs join the history, and the one being written, if any, is the only one left; the manifest stays well formed |
| Manifest.SetEndOffsetWellFormed | src/aof.c:1267-1279 | the end offset is recorded in the last INCR and nowhere else; neither well-formedness nor which names are retired changes |
| Manifest.DropHistoryWellFormed | src/aof.c:772-818 | deleting history entries keeps the manifest well formed, whichever unlinks fail |
| Manifest.RetiredIsNotListed | src/aof.c:772-818 | a name that history deletion may unlink is never a BASE or INCR in use |
| Manifest.ReloadedWellFormed | src/aof.c:393-442 | a reloaded manifest is well formed iff an INCR is in use or no INCR is left in history |
| Manifest.ManifestObject.Dup | src/aof.c:474-493 | the copy has the value of the original |
| Manifest.ManifestObject.GetNewBaseFileNameAndMarkPreAsHistory | src/aof.c:510-532 | the in-place update is the value-level one, and the name is the next BASE name |
| Manifest.ManifestObject.GetNewIncrAofName | src/aof.c:538-548 | the in-place update is the value-level one, and the name is the next INCR name |
| Manifest.ManifestObject.MarkRewrittenIncrAofAsHistory | src/aof.c:575-605 | the backwards walk moves all INCRs but the open one to history, newest first |
| Manifest.ManifestObject.DelHistoryFiles | src/aof.c:772-818 | the walk unlinks exactly the entries whose unlink succeeds and keeps the others in order |
| SplitArgs.EscapeText | src/sds.c:974-989 | which bytes stand for themselves, which take two and which four, all printable |
| SplitArgs.HexDigits | src/sds.c:1016-1050 | hexadecimal digits are read in either case, and nothing else is one |
| SplitArgs.ReadRepr | src/sds.c:970-998 | a quoted string is read back by the splitter, whatever bytes it holds |
| SplitArgs.SplitOfJoin | src/sds.c:1066-1170 | splitting a line of safe words gives the words |
| SplitArgs.WordRoundTrip | src/sds.c:1003-1014 | a non-empty word is read back iff it was quoted or holds no single quote |
| ManifestCodec.ParseFormat | src/aof.c:188-210 | a printed line parses to all it says of its entry; a name that the splitter does not agree about is refused or read as a shorter one |
| ManifestCodec.LineSurvives | src/aof.c:188-210 | an entry comes back from its line iff the splitter agrees about its name, its end offset does not stand alone and the line is at most 1024 bytes |
| ManifestCodec.LoadOfPrint | src/aof.c:335-465 | loading a printed manifest returns the same BASE, HISTORY and INCR lists, counters read off them, iff it has an entry and every entry survives its line |
| ManifestCodec.NothingIsRefused | src/aof.c:335-465 | the printed form of a manifest without files is refused by the loader |
| ManifestCodec.CountersSurvive | src/aof.c:393-442 | the whole manifest comes back iff moreover each counter is zero or still has an entry |
| ManifestFile.InfoFormat | src/aof.c:188-210 | the code appends exactly the line the codec defines |
| ManifestFile.AppendInfos | src/aof.c:253-264 | the loop appends the lines of the list in order |
| ManifestFile.ManifestAsString | src/aof.c:281-299 | BASE, then HISTORY, then INCR lines |
| ManifestFile.ReadPairs | src/aof.c:393-420 | the loop over key-value words of a line computes the entry or refuses as the codec defines |
| ManifestFile.ReadLine | src/aof.c:393-420 | trimming, splitting and checking of one line |
| ManifestFile.LoadManifest | src/aof.c:335-465 | the line-reading loop returns the codec's result on any bytes, errors included |
| ManifestFile.RenderInjective | src/aof.c:510-553 | different files never get the same name |
| ManifestFile.ReachableRoundTrip | src/aof.c:281-299 | for every appendfilename the configuration accepts, the file of a well-formed manifest loads back to the same lists and names iff there is an entry, every line fits with its offsets, and a single quote in the name is joined by a character that causes quoting |
| ManifestLoad.LineText | src/aof.c:188-210 | the bytes of a line: file, seq, type and its letter, and the offsets that are known |
| ManifestLoad.NameText | src/aof.c:510-553 | the bytes of the names of BASE, INCR and temporary INCR |
| ManifestLoad.AnyOrderLoads | src/aof.c:422-442 | lines in any order are accepted iff there is at most one BASE and the INCR numbers are positive and grow; then every list is as written, and the counters are the numbers of the BASE and the last INCR |
| ManifestLoad.CommentSkipped | src/aof.c:373-374 | a comment line is skipped, but counts as a line |
| ManifestLoad.LongLineRefused | src/aof.c:376-379 | a line without its line feed or longer than the buffer is refused |
| ManifestLoad.BlanksTrimmed | src/aof.c:381-385 | blanks around a line make no difference, and a line of blanks is refused |
| ManifestLoad.PairsRefused | src/aof.c:395-413 | the words of a line are refused iff some file name is a path |
| ManifestLoad.PairsLast | src/aof.c:395-413 | a field has the value of the last of its keys, in any order and case |
| ManifestLoad.PairsKeep | src/aof.c:395-413 | a field without a key keeps its value |
| ManifestLoad.LineIff | src/aof.c:381-420 | a line gives an entry iff it has three pairs or more, no path, a name, a number that is not zero and a known type; the entry has what the last of each key says |
| AofInvariant.FlushCore | src/aof.c:1649-1733 | a flush that writes any number of bytes, whatever the descriptor, keeps "BASE, INCRs and buffer make up the history" and the offset at the end, unless it takes a short write back without O_APPEND |
| AofInvariant.OpenNewIncrCore | src/aof.c:1192-1263 | rotation keeps the invariant, in use or as the temporary INCR of a first rewrite |
| AofInvariant.StartRewriteCore | src/aof.c:3368-3462 | flush, rotation and fork keep the invariant, if the flush empties the buffer and the manifest write does not fail after its rename |
| AofInvariant.UpdateEndCore | src/aof.c:1267-1279 | recording the end offset keeps the invariant even when the manifest write fails |
| AofInvariant.StopAofCore | src/aof.c:1411-1444 | stopAppendOnly ends with AOF off and the invariant kept; its mutual recursion with backupSetFailed terminates |
| AofInvariant.BackupFailedCore | src/aof.c:3684-3709 | backupSetFailed keeps the invariant and ends any backup in progress |
| AofRewrite.InstallSucceeds | src/aof.c:4048-4228 | a finished rewrite leaves the new BASE and exactly one INCR that together are the history |
| AofBackup.SealInv | src/aof.c:3871-3944 | SEAL keeps the invariant on every path, its assertions included, under the same two conditions |
| AofSafety.RestartInv | src/aof.c:863-915 | a crash at any point of a write and a restart, with AOF on or off, re-establish the invariant, where the restart finds its INCR counter and name free |
| AofTheorems.StepInv | src/aof.c:4048-4228 | every step of the machine keeps the invariant under the conditions of `Guard` |
| AofTheorems.RunInv | src/aof.c:3368-3462 | so does every run |
| AofTheorems.CrashKeepsHistory | src/aof.c:1559-1767 | with AOF on, a crash after any byte of a write leaves files that load to exactly the commands wholly written; what is missing is what was still in the buffer |
| AofTheorems.CrashSafety | src/aof.c:4048-4228 | the same for every run from a server that never had an append-only file, failed rewrites, backups and earlier crashes included |
| AofTheorems.ListedFilesExist | src/aof.c:772-818 | in every run, no file that the manifest on disk lists as BASE or INCR is ever gone, and no assertion fails |
| AofTheorems.EffectOfReplay | src/aof.c:2280-2380 | loading a BASE dataset and executing the INCRs gives the dataset of all the commands |
| AofTheorems.SealedBackupLoads | src/aof.c:3871-3944 | a sealed backup loads to exactly the history recorded at SEAL |
| AofTheorems.SealRecordsHistory | src/aof.c:3871-3944 | what SEAL records is the whole history of that moment |
| AofTheorems.SealedBackupStays | src/aof.c:3735-3748 | whatever the server does afterwards, the sealed backup loads to the same history |
| AofTheorems.SealAssertionsHold | src/aof.c:3879-3881 | while incrementing, AOF is on, there is exactly one INCR and the live BASE is the pinned one |
| AofProgress.HistoryOfRun | src/aof.c:1821-1857 | in every run without a crash the history is exactly the executed commands, in order, whatever rewrites and backups did |
| AofProgress.ForkIff | src/aof.c:3368-3462 | a rewrite is forked iff no child runs, no backup pins the files, and rotation and fork succeed; its snapshot is the whole history |
| AofProgress.RewriteTakesEffect | src/aof.c:4048-4228 | a rewrite whose system calls succeed leaves the snapshot as BASE, the INCR opened at the fork as the only one, and nothing of the files before |
| AofProgress.SnapshotIff | src/aof.c:3735-3748 | a backup moves on to INCREMENTING iff child, renames, manifest write and the link of the new BASE succeed |
| AofProgress.SealIff | src/aof.c:3871-3944 | SEAL seals iff fsync, link and manifest succeed, and the rotation if AOF goes on |
| AofSteps.ExecuteIff | src/aof.c:1821-1857 | a command joins the history, and the buffer iff AOF is on or the first rewrite runs |
| AofSteps.FlushMoves | src/aof.c:1649-1733 | a flush moves exactly the bytes it writes from the front of the buffer to the end of the file |
| AofSteps.BgRewriteIff | src/aof.c:3368-3462 | BGREWRITEAOF forks iff no child runs, no backup pins the files, and rotation and fork succeed; a first rewrite that cannot start leaves nothing open |
| AofSteps.RotationRecords | src/aof.c:1192-1263 | a rotation lists the next INCR with its start offset, in memory and on disk, and writes go to its empty file |
| AofSteps.ChildExitIff | src/aof.c:4048-4228 | the snapshot becomes the BASE, and AOF that waited is on, iff child, renames and manifest write succeed; otherwise the manifest is as it was |
| AofSteps.RewriteStep | src/aof.c:4048-4228 | a rewrite whose system calls succeed leaves only its BASE and the INCR since the fork |
| AofSteps.FirstRewriteRecords | src/aof.c:4096-4134 | after a first rewrite the manifest lists its BASE and one INCR with its start offset |
| AofSteps.FirstRewriteUndone | src/aof.c:4134-4146 | a first rewrite whose manifest cannot be written is undone: the renamed files are gone, AOF goes on waiting, the manifest is as it was |
| AofSteps.SnapshotExitIff | src/aof.c:3735-3762 | the backup counts commands iff child, renames, manifest write and link succeed, and fails otherwise |
| AofSteps.SwitchOnIff | src/aof.c:1448-1497 | switching AOF on waits for another child, or replaces a running rewrite by its own iff file and fork succeed; otherwise the setting is off again and nothing stays open |
| AofSteps.SwitchOffIff | src/aof.c:1411-1444 | switching it off closes descriptor, buffer and rewrite and fails a backup in progress; otherwise only the setting changes |
| AofSteps.SwitchOffRecords | src/aof.c:1267-1279 | it records the end offset in the INCR in use and nothing else |
| AofSteps.GcIff | src/aof.c:772-818 | deleting history unlinks exactly the files that it lists and that can be unlinked, keeps the other entries, and touches nothing else; when it is disabled nothing happens |
| AofSteps.PendingIff | src/aof.c:3770-3816 | a pending backup takes over a rewrite that runs with AOF on, waits while any other child runs, and otherwise forks its own iff rotation and fork succeed, or fails |
| AofSteps.StartBackupIff | src/aof.c:3837-3868 | BACKUP START is refused while a backup is in progress or sealed or its directory is not empty, stays pending inside EXEC, and otherwise starts as a pending backup does |
| AofSteps.SealStepIff | src/aof.c:3871-3944 | SEAL is ignored unless commands are counted; it seals iff fsync, link and manifest succeed and, if AOF goes on, the rotation; otherwise the backup fails |
| AofSteps.SealRecords | src/aof.c:3871-3944 | the sealed INCR ends and the next one starts at the given offsets, and the sealed one is linked under its own name |
| AofSteps.SealAborts | src/aof.c:3879-3881 | SEAL aborts the process when no BASE is pinned, the pinned one is not in use, or there is not exactly one INCR |
| AofSteps.AbortIff | src/aof.c:3684-3709 | a backup in progress fails, its directory is emptied, AOF that ran only for it is off, and the append-only directory goes iff the backup owned it |
| AofSteps.CleanupIff | src/aof.c:3958-3966 | a backup that is not in progress is forgotten and its directory emptied |
| AofSteps.OtherChildren | src/server.c:881-883 | there is one child at a time, and only its own end makes room for another |
| AofSteps.RestartResumes | src/aof.c:863-915 | after a crash at any byte of a write a restart goes on with exactly the commands wholly written, an empty buffer, no child and no backup |
| AofSteps.RestartAfterInstalling | src/aof.c:4077-4146 | so it does after a crash at any stage of installing a rewrite |
| AofSteps.RestartWithoutAof | src/aof.c:863-915 | a restart with AOF off leaves the listed files and starts from the dataset it is given |
| AofSteps.RestartRefuses | src/aof.c:2280-2380 | with AOF on, files that do not load are fatal and nothing is changed |
| AofExact.InvLoadsHistory | src/aof.c:2280-2380 | with AOF on and the buffer written, the files load to exactly the history |
| AofExact.ManifestMustBeAtomic | src/aof.c:4134-4141 | the files load after a rewrite that renamed its files iff the manifest write did not fail after its rename |
| AofExact.RotationMustBeAtomic | src/aof.c:1192-1263 | after a rotation, a crash inside the next command leaves files that load iff the manifest write did not fail after its rename |
| AofExact.RewriteMustBeAtomic | src/aof.c:3387-3400 | the same for BGREWRITEAOF |
| AofExact.SealMustBeAtomic | src/aof.c:3871-3944 | the same for SEAL while the append-only file goes on |
| AofExact.SealNeedsFlush | src/aof.c:3883-3892 | with appendonly on, what SEAL pins loads to the history iff its flush emptied the buffer |
| AofExact.RotationNeedsWholeCommands | src/aof.c:1192-1263 | the files load after a rotation iff the old INCR ends between two commands |
| AofExact.UnflushedCommandsReplayTwice | src/aof.c:3387-3400 | after a fork whose flush ended between commands, the files load to the history plus the commands left in the buffer; the history comes back iff none were |
| AofExact.EnablingDuringOwnedBackup | src/aof.c:3684-3709 | after enabling and aborting, the append-only file is alive iff the backup did not own the directory |
| AofExact.StaleIncrReplayed | src/aof.c:863-915 | a server starting on a BASE alone loads back to it iff the file that has the next INCR name holds no command |
| AofHole.HoleIsRefused | src/aof.c:2051-2176 | NULs where a command should start are a format error |
| AofHole.HoleReadOver | src/aof.c:2051-2176 | NULs after the number in the header of a command are read over |
| HoleBytes.CommandHoled | src/aof.c:2051-2176 | a command with NULs at any place is read as itself iff they stand behind the number of one of its headers, or before the zero of an empty argument, and the line fits; else it is not read, or as another command, or what follows is no command |
| HoleBytes.LogHoled | src/aof.c:2051-2176 | a log with NULs at any place loads to its commands iff they are read over |
| AofHole.FileHoled | src/aof.c:2051-2176 | the same for a log cut anywhere, NULs, and the rest of it |
| AofHole.HoleIff | src/aof.c:1649-1733 | a flush followed by a complete one leaves files that load to the history iff the first did not take a short write back through a descriptor without O_APPEND, or the hole is read over; between commands they load at all iff it did not |
| AofHole.FirstHoleIff | src/aof.c:1218 | the same for the temporary INCR of a first rewrite, once that is installed |
| AofHole.SealOffNeedsFlush | src/aof.c:3919-3933 | with appendonly off, what SEAL pins loads to the history iff its flush and that of stopAppendOnly together wrote the buffer, and the first took nothing back or left a hole that is read over |
| AofReuse.DelHistoryListed | src/aof.c:772-818 | deleting history keeps every listed file iff it unlinks no listed name |
| AofReuse.RestartKeepsListedIff | src/aof.c:863-915 | after a restart with AOF on every listed file exists, iff it is not the case that no INCR was in use and history still names INCR 1 and gets it unlinked |
| AofReuse.RotationKeepsListedIff | src/aof.c:1192-1263 | after a rotation and the deletion of history every listed file exists iff the deletion does not unlink the name just given out |
| AofReuse.InstallKeepsListedIff | src/aof.c:4073-4134 | after a first rewrite and the deletion of history every listed file exists iff the deletion unlinks neither of the two names just given out |
| AofInterrupt.InterruptedRestarts | src/aof.c:4077-4146 | a crash at any stage of installing a rewrite and a restart re-establish the invariant, where the restart finds its counter and name free |
| AofInstallCrash.InstallCrashKeepsHistory | src/aof.c:4077-4146 | with AOF on, or once the manifest is written, such a crash leaves files that load to exactly the commands wholly written, and any restart finds its counter and name free |
| AofInstallCrash.InstallCrashSafety | src/aof.c:4077-4146 | the same for every run from a server that never had an append-only file |
| AofInstallCrash.FirstInstallCrashIff | src/aof.c:4096-4134 | a first rewrite interrupted before its manifest: after a restart AOF is alive iff the manifest on disk lists an INCR, the counter has moved on, or nothing was written to the INCR; else its commands are replayed on top of what the manifest lists |
| AofRuns.HoleRun | src/aof.c:1218 | enable, execute, a short write taken back, a complete write: the file does not load |
| AofRuns.FirstHoleRun | src/aof.c:1218 | the same on the temporary INCR of the first rewrite |
| AofRuns.PartialRotationRun | src/aof.c:3387-3400 | enable, execute, rewrite with a flush of one byte: the files do not load |
| AofRuns.ReplayedTwiceRun | src/aof.c:3387-3400 | enable, execute, rewrite without a flush: the command is replayed twice |
| AofRuns.LostBaseRun | src/aof.c:4134-4141 | enable, rewrite, a manifest renamed but not synced: the files do not load |
| AofRuns.UnsyncedRotationRun | src/aof.c:1192-1263 | the same at the rotation: a crash inside the next command leaves files that do not load |
| AofRuns.EarlySealRun | src/aof.c:3871-3944 | a backup sealed without a flush lacks the command |
| AofRuns.OwnedSealRun | src/aof.c:3919-3933 | so does one of a server without AOF |
| AofRuns.OwnedBackupRun | src/aof.c:3684-3709 | a backup of a server without AOF, appendonly switched on, the backup aborted: AOF is on and every file is gone |
| AofRuns.ReusedNameRun | src/server.c:8628-8633 | AOF off, rewrite, a failed unlink, restart with AOF on: the INCR just opened is deleted |
| AofRuns.SwitchedOnReuseRun | src/aof.c:4096-4150 | the same restart with AOF off, AOF switched on later: the INCR of the first rewrite is deleted |
| AofRuns.FirstInstallCrashRun | src/aof.c:4096-4134 | enable, execute, flush, a crash before the manifest, restart: AOF is on and not alive |
| AofRuns.StaleIncrRun | src/aof.c:863-915 | if that unlink fails again, the command in the old INCR is replayed on top of the BASE that has it |
| AofFlush.Aof.FeedAppendOnlyFile | src/aof.c:1853-1857 | the fed bytes are appended to the buffer |
| AofFlush.Aof.PutBytes | src/aof.c:1521-1538 | write(2) at the offset or at the end, holes filled with NULs |
| AofFlush.Aof.AofWrite | src/aof.c:1521-1538 | the write loop, for any sequence of short, interrupted and failed writes |
| AofFlush.Aof.FlushAppendOnlyFile | src/aof.c:1649-1733 | file, buffer, sizes and exit after a flush, for any outcome of the writes and of ftruncate |
| AofFlush.WriteAppends | src/aof.c:1521-1538 | however the writes go, exactly the reported number of bytes has been appended |
| AofFlush.AppendNothingLost | src/aof.c:1649-1733 | after any feeds and flushes, file followed by buffer is every byte fed, in order, once, and the recorded sizes are true |
| AofFlush.FlushOutcome | src/aof.c:1649-1733 | a flush empties the buffer and clears the error iff everything was written, exits iff it failed under policy always, and leaves no trace of a short write that was truncated |
| AofFlush.FlushExactIff | src/aof.c:1649-1733 | that holds for every outcome of a flush iff the descriptor writes at the end of the file |
| AofFlush.TruncateLosesPosition | src/aof.c:1218 | a descriptor without O_APPEND stays at the end iff no short write was truncated away |
| AofFlush.RotatedHole | src/aof.c:1218 | a run that leaves a hole in the file and a size that is too small |
| FlushRefinement.WriteIsPut | src/aof.c:1521-1538 | however the write calls go, they are one write of some first part of the data |
| FlushRefinement.FlushRefines | src/aof.c:1649-1733 | every flush under a policy other than always is a flush of the protocol |
| FlushRefinement.FlushIsReached | src/aof.c:1649-1733 | every flush of the protocol is the effect of some write calls |
| FlushRefinement.AlwaysIsCrash | src/aof.c:1649-1733 | a failing flush under policy always leaves the file as a crash inside the write does |
| Bio.RunInv | src/bio.c:267-391 | every interleaving of submitters and workers keeps locks, queues, counters and completion lists consistent |
| Bio.CountersExact | src/bio.c:395-403 | whenever a reader can see it, a counter is the number of queued or running jobs of its type |
| Bio.FinishInOrder | src/bio.c:191-199 | finished jobs followed by queued ones are the submitted ones, in order |
| Bio.DrainWaits | src/bio.c:406-414 | when bioDrainWorker returns, every job submitted to that worker before is finished |
| Bio.CallbacksOnce | src/bio.c:445-494 | a completion callback runs at most once, and only after all earlier jobs of its worker |
| BioProgress.RunSnoc | src/bio.c:267-391 | a run of the threads is its steps, one after the other |
| BioProgress.SubmitAdds | src/bio.c:191-199 | the job is listed last with the worker of its type and counted once, and nothing else changes |
| BioProgress.DrainReturns | src/bio.c:406-414 | draining an empty list returns at once |
| BioProgress.DrainWaitsAgain | src/bio.c:406-414 | draining a list with jobs gives the lock back, waits, and looks again |
| BioProgress.ReadReturns | src/bio.c:395-403 | reading a counter returns the number of listed jobs of the type and leaves everything as it was |
| BioProgress.WorkerWakes | src/bio.c:288-305 | a sleeping worker whose lock is free goes back to the start of its loop |
| BioProgress.JobRuns | src/bio.c:267-391 | five steps of a worker process, unlist and uncount its oldest job, and pass a completion request on |
| BioProgress.AllJobsRun | src/bio.c:267-391 | a worker left alone finishes everything listed, in order |
| BioProgress.CompletionsCalled | src/bio.c:445-494 | the event loop calls every completion back, in order |
| BioWakeups.RunInv | src/bio.c:267-414 | with one drainer, in every run a worker that waits has no job and then nobody else waits, and a drainer waits only while there are jobs |
| BioWakeups.AllFinish | src/bio.c:267-414 | from every such state the threads that can run finish the list, and the drainer returns |
| BioWakeups.TwoGetStuck | src/bio.c:267-414 | two drainers can take the signals of a worker: a job is left that nobody will run |
| BioWakeups.StuckStays | src/bio.c:267-414 | that lasts until another job is submitted or a wait ends by itself |
| BioWakeups.SignalsSufficeIff | src/bio.c:406-414 | no run leaves jobs that nobody will look at, or a drainer waiting on an empty list, iff at most one thread drains the worker |
| Durable.PublishedIsDurable | src/aof.c:1559-1593 | within one INCR, in every interleaving and under any policy changes, every byte of every command up to the published offset is on disk |
| Durable.PublishedIsDurableAcrossFiles | src/aof.c:1735-1767 | the same across rotations, if no close of an old file is pending when the main thread publishes |
| Durable.CounterZeroMeansDurable | src/bio.c:335-353 | while the job counter reads zero, every byte the main thread believes fsynced is on disk |
| Durable.PublicationSafeIff | src/aof.c:1559-1593 | a publication is safe iff the bytes of all earlier files are on disk |
| Durable.WriteOneByte | src/aof.c:1735-1767 | the state before the failing run is reachable |
| Durable.RotationPublishesEarly | src/aof.c:1369-1385 | a run that publishes an offset whose bytes are not on disk |
| Durable.PublishedNeverGoesBack | src/aof.c:1735-1767 | within one INCR the published offset never decreases |
| DurableProgress.AlwaysPublishes | src/aof.c:1735-1767 | under policy always a complete flush ends with the whole file on disk and the current offset published |
| DurableProgress.IdlePublishes | src/aof.c:1559-1593 | with nothing to write, fsync or wait for, a flush publishes the current offset |
| DurableProgress.WorkerDrains | src/bio.c:335-353 | left alone the worker empties its list, every file it was given is on disk and the last offset is published |
| DurableProgress.EverySecCatchesUp | src/aof.c:1735-1767 | under everysec a complete flush whose second has elapsed and one job of the worker leave everything on disk and published, with no byte left to fsync |
| DurableProgress.IdleEverySecCatchesUp | src/aof.c:1563-1593 | so does a flush with an empty buffer when bytes written earlier were not handed to fsync |
| DurableProgress.IdleAlwaysPublishes | src/aof.c:1563-1593 | the same after a change of policy to always |
| DurableProgress.FlushStartIff | src/aof.c:1563-1622 | when a flush writes, is put off, publishes, or fsyncs with an empty buffer |
| DurableProgress.SettleIff | src/aof.c:1649-1733 | an incomplete write ends the process iff the policy is always; otherwise its bytes are gone iff they could be taken back |
| DurableProgress.PolicyIff | src/config.c:2914-2923 | a change to always waits until the worker has done all its jobs |
| AclString.MoveDown | src/acl.c:621-663 | the overlapping move towards the front copies the bytes and touches nothing before its target |
| AclString.RuleEnd | src/acl.c:621-663 | the end of the rule at the cursor is the next space or the end of the string |
| AclString.Turn | src/acl.c:621-663 | one turn of the loop drops the rule at the cursor iff its body is the new rule or extends it with a bar |
| AclString.RemoveCommandRule | src/acl.c:621-663 | the in-place loop terminates and leaves the other rules joined by single spaces |
| AclString.RulesOfJoined | src/acl.c:621-663 | splitting on spaces undoes joining |
| AclString.JoinedRulesOf | src/acl.c:621-663 | joining undoes splitting |
| AclString.WellFormedAfter | src/acl.c:621-663 | the result has no stray space and splits into exactly the kept rules |
| AclRules.ReplacedIsBelow | src/acl.c:665-676 | a replaced rule touches nothing the new rule does not overwrite |
| AclRules.UpdateKeepsEffect | src/acl.c:665-676 | dropping the replaced rules does not change what the log grants |
| AclRules.UpdatedOk | src/acl.c:665-676 | an update leaves a compacted log of meaningful rules |
| AclRules.ReplayStep | src/acl.c:755-764 | replaying a compacted log one rule at a time drops nothing |
| AclSelector.ParseMeaning | src/acl.c:1176-1253 | what is logged for an operation is its text in lower case, and means what the operation does |
| AclSelector.ParsedRuleOk | src/acl.c:1176-1253 | the logged rule is a rule of the log language |
| AclReplay.RuleParses | src/acl.c:807-860 | every logged rule is accepted again, does what it means and logs itself |
| AclReplay.ApplyGrants | src/acl.c:1084-1253 | every operation does to bitmap and first-argument lists what its rule means, and logs that rule |
| AclReplay.MeanBelowReserved | src/acl.c:755-764 | no rule touches the reserved bit |
| AclReplay.SetAllInv | src/acl.c:1084-1253 | after any operations the log grants exactly what the selector holds |
| AclReplay.DescriptionRebuilds | src/acl.c:807-860 | the description of such a selector rebuilds it on a fresh one |
| AclReplay.LogReplays | src/acl.c:807-860 | for every sequence of operations the printed rules are accepted and rebuild bitmap, first-argument sets and log, so the panic is unreachable |
| AclReplay.LogSplits | src/acl.c:807-860 | the argument splitter cuts the log into exactly its rules |
| AclReplay.FlagMeansAll | src/acl.c:607-616 | the ALLCOMMANDS flag is set only when every bit is |
| AclEffects.ResetWords | src/acl.c:1101-1114 | in any case, allcommands and +@all leave every bit and the flag set, nocommands and -@all leave none; no first arguments and no rules are left |
| AclEffects.CommandEffect | src/acl.c:680-696 | +command and -command change exactly the bits of the command and its subcommands and drop its first arguments; a denial clears the flag |
| AclEffects.SubEffect | src/acl.c:680-696 | a sign, a command, a bar and a subcommand change that one bit |
| AclEffects.ArgEffect | src/acl.c:992-1018 | a plus, a command, a bar and an argument add the argument to the list unless it is there in any case, and changes nothing else |
| AclEffects.CategoryEffect | src/acl.c:700-715 | +@category and -@category change exactly what the category reaches, and a denial that reaches anything clears the flag |
| AclEffects.AcceptedIff | src/acl.c:1176-1253 | an operation is accepted iff it has one of these forms; anything else changes nothing |
| AclObject.SelectorObject.SetCommandBit | src/acl.c:607-616 | the bit and the flag afterwards, out-of-range ids included |
| AclObject.SelectorObject.ResetFirstArgsForCommand | src/acl.c:963-972 | the command's first-argument list is emptied |
| AclObject.SelectorObject.ChangeSelectorPerm | src/acl.c:680-696 | a command and its subcommands change together |
| AclObject.SelectorObject.SetBitsForCategory | src/acl.c:700-715 | the walk over commands and subcommands changes exactly those of the category |
| AclObject.SelectorObject.AddAllowedFirstArg | src/acl.c:992-1018 | the argument is added unless it is already there, whatever its case |
| AclObject.SelectorObject.UpdateCommandRules | src/acl.c:665-676 | the log string becomes the old one without the replaced rules, plus the rule |
| AclObject.SelectorObject.ResetCommands | src/acl.c:1101-1114 | +@all and -@all set or clear everything and empty the log |
| AclObject.SelectorObject.SetSelector | src/acl.c:1084-1253 | the branches of the operation give the value-level result, about which the rows of `AclEffects` are, or an error and no change |
| AclObject.CommandIds.GetCommandId | src/acl.c:1577-1602 | the same id for the same name in any case, a new one otherwise, never the reserved one |
| Popcount.LanesArePops | src/bitops.c:67-152 | the three mask-and-add steps leave in each byte its number of set bits |
| Popcount.GatherIsSum | src/bitops.c:67-152 | the multiplication adds the four lanes; at most 56 each, they do not overflow the top byte |
| Popcount.BlockCount | src/bitops.c:67-152 | seven words and one multiplication count the bits of 28 bytes |
| Popcount.CountBlock | src/bitops.c:67-152 | so does the code of the loop body |
| Popcount.RedisPopcount | src/bitops.c:67-152 | alignment prefix, 28-byte loop and tail count the set bits, for every length and address |
| Bitcount.OutsideBits | src/bitops.c:1696-1716 | the bits counted under the two edge masks are exactly those outside the range |
| Bitcount.BitcountCommand | src/bitops.c:1655-1716 | the reply is the number of set bits in the requested byte or bit range, also when both edges share a byte |
| Bitpos.LoadWord | src/bitops.c:392-477 | the last word is loaded big-endian and padded with zeros |
| Bitpos.SkipWords | src/bitops.c:392-477 | the bytes and words skipped do not hold the bit |
| Bitpos.RedisBitpos | src/bitops.c:392-477 | the result is the first position of the bit in the zero-padded string, or -1, for every alignment; the panic is unreachable |
| Bitpos.SearchBits | src/bitops.c:1812-1858 | the three-part search with edge masks finds the first match inside the bit range |
| Bitpos.BitposCommand | src/bitops.c:1767-1858 | the reply is the first match in the requested range or -1, zeros assumed beyond the end only without an explicit end |
| Bitop.Lengths | src/bitops.c:1293-1320 | minlen is the least and maxlen the largest length, missing keys included |
| Bitop.StepReached | src/bitops.c:1509-1598 | one more key keeps the running output, disjunction and common bits right |
| Bitop.FinalExpected | src/bitops.c:1509-1598 | the combination after the last key is the bitwise specification of the operator |
| Bitop.SettledExpected | src/bitops.c:1509-1598 | an early exit already has the final result |
| Bitop.ByteColumn | src/bitops.c:1509-1598 | the byte loop with its exits computes the specified byte |
| Bitop.WordBlock | src/bitops.c:1360-1504 | one turn of the word loop computes the specified 32 bytes and touches no others |
| Bitop.StoreWord | src/bitops.c:1360-1504 | a stored word is its eight specified bytes |
| Bitop.BitopCommand | src/bitops.c:1293-1598 | for any number of keys of any lengths the result is as long as the longest, every bit is the operator on the zero-padded keys, and ONE is set iff exactly one key has the bit; it is refused iff the number of keys does not suit the operator |
| Bitfield.WriteValue | src/bitops.c:500-513 | what is written reads back modulo the width |
| Bitfield.WriteOutside | src/bitops.c:500-513 | no bit outside the field changes |
| Bitfield.SetUnsignedBitfield | src/bitops.c:500-513 | the in-place bit loop writes the field |
| Bitfield.GetUnsignedBitfield | src/bitops.c:520-532 | the bit loop reads the number in the field |
| Bitfield.UnsignedCheck | src/bitops.c:579-614 | overflow is reported iff the sum does not fit, and the limit is the wrapped or clamped sum |
| Bitfield.SignedCheck | src/bitops.c:616-669 | the same for signed fields of 1 to 64 bits |
| BitfieldOps.GetField | src/bitops.c:520-554 | signed and unsigned reads give the two's complement or binary value |
| BitfieldOps.SetField | src/bitops.c:500-518 | the field reads back as the value and nothing else changes |
| BitfieldOps.IncrBy | src/bitops.c:1994-2074 | the field becomes old plus increment, wrapped, clamped or left alone; the reply is the new value or nothing |
| BitfieldOps.SignedSetCheck | src/bitops.c:616-669 | for any 64-bit argument of SET the verdict and the wrapped value are right, the clamped one unless the argument is far below the type |
| BitfieldOps.SaturatingSet | src/bitops.c:624-627 | a saturating SET stores the nearest number of the type iff the argument is not far below it |
| BitfieldOps.SaturatingSetFails | src/bitops.c:624-627 | the most negative argument is stored as 127 in an i8 |
| BitfieldOps.SetOp | src/bitops.c:1994-2074 | the reply is the old value and the field the stored one, or neither |
| BitfieldOps.GetOp | src/bitops.c:2076-2109 | the nine-byte copy reads the field as if the string went on with zeros |
| BitfieldOps.WritesInside | src/bitops.c:1943-1946 | every write stays inside the grown string |
| BitfieldOps.Execute | src/bitops.c:1994-2109 | one operation and its reply |
| BitfieldOps.BitfieldCommand | src/bitops.c:1887-2120 | the result is as long as the string or, if longer, as the last byte written; every bit outside the written fields is as before or zero; each operation works on what the ones before it left |
| AdList.List.LinkNodeTail | src/adlist.c:126-137 | the links represent the old sequence of nodes plus the new one |
| AdList.List.AddNodeTail | src/adlist.c:112-120 | the same with a new node holding the value |
| AdList.List.UnlinkNode | src/adlist.c:182-196 | the links represent the sequence without that node, wherever it stood |
| AdList.List.RotateHeadToTail | src/adlist.c:357-369 | the links represent the rotated sequence |
| AdList.Iter.Next | src/adlist.c:236-248 | the cursor yields the nodes in order, in either direction, and null at the end |
| AdList.Walk | src/adlist.c:236-248 | iterating yields the values of all nodes in order |
| WaiterList.KeyWaiters.Add | src/blocked.c:415-436 | appending a client's node is appending its waiter to the list of the index, and the client gets the node its number stands for |
| WaiterList.KeyWaiters.Unlink | src/blocked.c:565-598 | unlinking through the kept pointer is removing the waiter with that number |
| WaiterList.KeyWaiters.Rotate | src/blocked.c:640-645 | rotating the pointer list is rotating the waiters of the index |
| WaiterList.KeyWaiters.First | src/blocked.c:635-647 | the client at the head of the pointer list is the first waiter of the index |
| WaiterList.RotatesKey | src/adlist.c:357-369 | the rotated list of a key is what the index puts there |
| Blocked.AddIndexOk | src/blocked.c:410-447 | adding a key to a waiting client keeps tables, lists and counts in agreement |
| Blocked.RemoveIndexOk | src/blocked.c:565-598 | so does releasing one |
| BlockedClients.StepInv | src/blocked.c:184-216 | every operation, rotation and creation or freeing of clients included, keeps index and counters right |
| BlockedClients.ReachableTwoWay | src/blocked.c:399-468 | in every reachable state a key is in a client's table iff the client stands exactly once in the key's list, at the stored node |
| BlockedClients.ReachableLists | src/blocked.c:565-598 | no waiter list is empty, and each count for missing keys is the number of waiters that asked for it |
| BlockedClients.ReachableCounters | src/blocked.c:74-87 | the counters, total and per type, are the true counts |
| BlockedExact.BlockExact | src/blocked.c:399-450 | a client that blocks waits for exactly the given keys, once each, behind everybody who waited before; no other client changes |
| BlockedExact.RemoveExact | src/blocked.c:565-598 | releasing a key takes the client, and nobody else, out of that list |
| BlockedExact.UnblockExact | src/blocked.c:184-216 | an unblocked client stands in no list, and everybody else keeps their place |
| BlockedExact.BlockStepIff | src/blocked.c:399-450 | a client blocks on keys iff it exists, is not blocked and the type waits for keys; then the counter of the type goes up by one |
| BlockedExact.UnblockStepIff | src/blocked.c:184-216 | a blocked client waits for nothing afterwards, and any other is left alone |
| BlockedExact.OtherSteps | src/blocked.c:74-87 | creating, freeing, blocking for something else than keys, and rotating |
| BlockedIndex.EntryExists | src/blocked.c:565-598 | the two assertions of releaseBlockedEntry hold |
| BlockedIndex.FlagAfter | src/blocked.c:399-450 | setting the client's flag after the loop is as good as setting it before |
| BlockedIndex.Index.BlockClient | src/blocked.c:74-87 | flags and counters of the blocked client |
| BlockedIndex.Index.BlockOnKeys | src/blocked.c:399-450 | the loop over the keys gives the value-level result, repeated keys included |
| BlockedIndex.Index.ReleaseBlockedEntry | src/blocked.c:565-598 | node unlinked, empty list and count removed, key kept or removed as asked |
| BlockedIndex.Index.UnblockWaitingData | src/blocked.c:454-468 | walking the table in any order and emptying it at the end is removing every key |
| BlockedIndex.Index.ClearFlags | src/blocked.c:208-216 | the end of unblockClient |
| BlockedIndex.Index.Unblocking | src/blocked.c:184-216 | unblockClient for every type |
| BlockedIndex.Index.UnblockingOnKey | src/blocked.c:725-740 | the type assertion holds, and index and counters stay right |
| BlockedIndex.Index.RotateHeadToTail | src/adlist.c:357-369 | the waiter list of the key is rotated |
| Serving.StepEvolves | src/blocked.c:399-468 | whatever a command does, a waiter list only loses waiters and gains new ones at its end |
| Serving.ServingOrder | src/blocked.c:620-677 | a pass makes at most as many visits as there were waiters; first visits to them precede all other visits and follow blocking order; none that still waits at the end was left out |
| WakeUp.WokenLeaves | src/blocked.c:725-740 | waking a client takes its waiter out of the key's list and changes no other client |
| WakeUp.PassWakes | src/blocked.c:620-677 | if the woken commands do nothing further, a pass visits every waiter once in order, wakes exactly those of `WokenWho`, and leaves the others as they were, in their order |
| WakeUp.WokenWho | src/blocked.c:642-668 | a list waiter is woken iff the object is a list, a sorted-set waiter iff it is a sorted set, a stream waiter iff it is a stream; one that wants to hear of any change always; a module client never by the pass |
| ReadyKeys.HandleKey | src/blocked.c:620-677 | the counted loop with its early break is that pass, about which `PassWakes`, `ServingOrder` and the rows of `Delivery` are |
| ReadyKeys.ReadyListMatches | src/blocked.c:346-390 | in every run, before a pass and after any number of its visits, no key is queued twice and the ready set is the set of queued keys |
| ReadyKeys.BegunReadyOk | src/blocked.c:346-390 | taking a key off its set first lets it be queued again while it is served |
| ReadyKeys.SignalReaches | src/blocked.c:497-552 | the counters never hide a waiter: a signal that can serve some waiter of the key makes the key ready |
| Delivery.SignalIff | src/blocked.c:497-552 | a signal queues the key, last and once, iff it is not queued, somebody waits for it and somebody is blocked in a way the signal can serve; modules may hear of it unless a list grew |
| Delivery.ModuleVisit | src/blocked.c:655-668 | a module client stays, and its module runs iff the signal was for modules and the key exists or its end is awaited |
| Delivery.VisitReblocks | src/blocked.c:635-641 | a woken client that blocks again goes behind the others, which keep their order |
| Delivery.ServeWakesIff | src/blocked.c:620-670 | a pass unblocks a client of the key iff it works on the type of the object or wants to hear of any change, and is no module client; otherwise the client is as it was |
| Delivery.SignalledClientWakes | src/blocked.c:497-670 | signal, taking the list, and serving it: a client waiting for the key with a type the signal serves is not blocked any more |
| ReadyKeys.SignalNeedsWaiter | src/blocked.c:497-552 | a key becomes ready only if somebody waits for it, and asked for deletions if it was deleted |
| ReadyKeys.ModulesHearIff | src/blocked.c:497-552 | a signal meant for modules leaves an entry that wakes them iff the key was not queued before by one that skips them |
| ReadyKeys.SecondSignalDropped | src/blocked.c:497-552 | the second of the two signals changes nothing |
| ReadyKeys.ModulesPassedOver | src/blocked.c:497-552 | a run in which a waiting module client is passed over |
| ReadyKeys.WokenClient | src/blocked.c:725-740 | a client that is woken is in no waiter list any more |
| Cuckoo.AltIdxInvolution | src/chk.c:169-171 | for a power of two the alternate of the alternate index is the index |
| Cuckoo.AltIdxTwice | src/chk.c:169-171 | for any number of buckets it keeps exactly the bits under the mask |
| Cuckoo.AltIdxInvolutionIff | src/chk.c:114-118 | it is an involution on the table iff the number of buckets is a power of two |
| Cuckoo.AltIdxNotInvolution | src/chk.c:169-171 | for six buckets it is not |
| Cuckoo.OtherBucket | src/chk.c:169-186 | an entry moved to its alternate index is in its other legal bucket |
| Cuckoo.SameHome | src/chk.c:196-236 | within a bucket equal fingerprints mean equal pairs of buckets |
| Cuckoo.TopK.FindInBucket | src/chk.c:248-281 | the first empty slot, or else the first with the least count of the bucket |
| Cuckoo.ConservedStep | src/chk.c:248-281 | putting the carried entry down and taking up the one that was there loses nothing |
| Cuckoo.TopK.Displace | src/chk.c:248-281 | the carried entry goes to its other bucket, in place of an empty entry or a least one |
| Cuckoo.TopK.Kickout | src/chk.c:248-281 | the entry goes to its other bucket iff it is a heavy hitter; within MAX_KICKS moves every surviving entry is in a legal bucket and only the slots on the path change; entries are conserved but for at most one dropped, which is no heavy hitter or the last of MAX_KICKS, and was a least one of its bucket; nothing is dropped iff the path ends in an empty slot |
| Cuckoo.TopK.TryPromoteAndKickout | src/chk.c:286-328 | the item is refused iff it is unlucky and every entry of its bucket counts more; else it takes an empty place, and lobby and other entries stay, or the place and count of a least entry, which is kicked out while the lobby entry is cleared; entries are conserved |
| Cuckoo.TopK.CheckBucket | src/chk.c:196-236 | the item's slot and the first empty slot, or their absence |
| Cuckoo.TopK.CheckHeavyEntries | src/chk.c:196-236 | the count is raised where the item stands, else it takes the first empty slot of its two buckets; nothing changes iff it is absent and both buckets are full |
| Cuckoo.HeavyIs | src/chk.c:239-241 | a heavy hitter counts one part in 125 of everything or more |
| ChkHeap.HeapifyRestores | src/chk.c:75-105 | heap order holds from the start on, the buckets are the same ones, and nothing outside the subtree moves |
| ChkHeap.ComesUp | src/chk.c:75-105 | the smaller child, the left one of equals, comes up iff it does not count more than the top |
| ChkHeap.RaisedBucket | src/chk.c:75-105 | a heap whose bucket was raised is a heap again |
| ChkHeap.HeapifyDown | src/chk.c:75-105 | the in-place loop computes that |

## Left out

- SIMD and POPCNT paths of `src/bitops.c`: intrinsics; the portable loops carry the same content.
- The RDB preamble and the RDB format of a BASE: a BASE is the list of commands whose effect it holds.
- Transactions are in `LoaderMulti`, for one file; the protocol writes and loads single commands. A DISCARD or a WATCH in a file, which the server does not write, is a plain command there.
- The AOF protocol works on values, one event per step of the main thread: no aliasing inside the server, and a crash falls between events, inside a write or between the system calls of backgroundRewriteDoneHandler. `Durable` and `Bio` go down to single accesses of shared memory.
- AofTheorems.CrashSafety: assumes of each run (the predicate `Guarded`) that flushes before a fork or SEAL empty the buffer, that a manifest write does not fail after its rename, that a short write is not taken back through a descriptor opened by a rotation, that `appendonly` is not switched on while a backup owns the directory, and that a restart finds its INCR counter and name free. The section on promises not kept names a lemma and a run for each. A crash inside an event is one in a write or in the installation of a rewrite.
- AofTheorems.CrashKeepsHistory: a state that such a run reaches.
- AofTheorems.StepInv: a step under the same assumptions.
- AofTheorems.RunInv: the same assumptions.
- AofTheorems.ListedFilesExist: the same assumptions; `AofReuse` has the exact condition at a restart and at a rotation.
- AofTheorems.SealedBackupLoads: the same assumptions.
- AofSafety.RestartInv: where the INCR counter and name are free; `AofReuse`, `AofExact.StaleIncrReplayed` and `AofInstallCrash.FirstInstallCrashIff` have the exact conditions.
- AofInvariant.FlushCore: not for a short write taken back without O_APPEND, after which the offset is not at the end; `AofHole.HoleIff` says what follows.
- AofInvariant.StartRewriteCore: under `RewriteGuard`, for which `AofExact` has the converse results.
- AofBackup.SealInv: under `SealGuard`; `AofExact.SealNeedsFlush` and `AofHole.SealOffNeedsFlush` have the exact conditions.
- AofHole.SealOffNeedsFlush: not for a hole inside a command followed by a second flush that writes part of the buffer.
- The loader of the protocol runs with `aof-load-truncated` on, with `aof-load-corrupt-tail-max-size` zero and with a truncate that succeeds (`AofLog.LOADER`); `Recovery` covers every configuration for a single file.
- `CONFIG SET appendonly` inside EXEC, upgrade from a single-file AOF, preload files, and `SELECT` records: commands are self-contained.
- AofFlush.AppendNothingLost: runs on the descriptor opened with O_APPEND; for the other kind `FlushExactIff` gives the exact condition. Endless EINTR is not a run.
- Durable.PublishedIsDurable: fsyncs that return succeed; a failed fsync and EBADF are not modelled.
- Durable.PublishedIsDurableAcrossFiles: assumes an empty buffer at a rotation and no pending close at a publication; `PublicationSafeIff` is the exact condition.
- BioWakeups.RunInv: one critical section is one step; `Bio` has the accesses inside it.
- Bio.DrainWaits: thread creation, the lazy-free callbacks and the wake-up pipe's bytes are not modelled.
- AclReplay.LogReplays: first arguments come back up to case and order, the ALLCOMMANDS flag is not compared, and tokens have no white space or quotes; the table of commands is fixed.
- AclObject.SelectorObject.SetCommandBit: the bitmap is an array of booleans, its packing into 64-bit words is not modelled.
- Key and channel patterns, passwords, users and ACL files: only command rules are modelled.
- Cuckoo.TopK.TryPromoteAndKickout: the outcome of the random test is a parameter, and the ratio of heavy entries is not computed in floating point.
- Cuckoo.TopK.CheckHeavyEntries: counts stay below the largest 64-bit number.
- ChkHeap.RaisedBucket: only for a count that does not go down; whole updates may lower one.
- Lobby decay and the public TopK commands: floating-point tables and random numbers.
- Waiter lists in the index are sequences of numbered nodes; `WaiterList` proves for one key that the pointer list of `src/adlist.c` is such a sequence, the dictionary of lists is not at pointer level.
- BlockedIndex.Index.Unblocking: the queues of WAIT, postponed and module clients, timeouts and the queue of clients to reprocess are left out.
- BlockedClients.StepInv: databases are part of the key and are not swapped; the assertion about master clients is left out.
- WakeUp.PassWakes: all visits walk the client's table in the same order; the order makes no difference to the result.
- Serving.ServingOrder: a waiter is a list node, so a client that blocks again during the pass is a new waiter.
- ReadyKeys.ReadyListMatches: whether the outer loop ends depends on the commands it runs and is not claimed.
- Memory management, logging, statistics, replies and the Windows port.
