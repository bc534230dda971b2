# A model of Redis: persistence, access rules, bit operations, slots and queues

The project models the parts of the Redis server (`redis-stable/src`) whose correctness depends on
several functions working together, and proves what they keep over every run or every input.

- **Append only file** (`aof.c`). The log is a BASE snapshot, numbered INCR files, HISTORY files that
  await deletion, and a manifest that is replaced atomically. `AofCodec`, `AofLoader` and `AofRepair`
  treat one file: encoding, loading and cutting off torn tails; `AofOutcomes` says how a load ends for
  every setting. `AofManifest` and `AofRotation` treat the manifest, and `AofLines` says which texts it is
  read from. `AofWriter` treats the buffer and the descriptor. `AofProtocol` puts them together as
  steps on a disk, and `AofFiles` says of every file what becomes of it in each step. `AofVersions` is a machine that only knows a list of dataset versions and how many of
  them are durable, and `AofRefinement` proves that every run of the steps, under three conditions, is the
  run of that machine on the same events. `AofDurability` draws the consequence: a load gives exactly the
  durable version, and what was flushed survives. `AofConditions` shows what a load gives when a
  condition is broken, and `AofFailingRuns` builds runs that break them. `AofServer` is the same protocol
  as an object with fields. `AofRewrite` and `AofArray` prove that rewriting a
  value preserves it, from the emitted text through the loader.
- **Access rules** (`acl.c`). A selector is a command bitmap, first-argument lists and a textual rule
  history that must regenerate them. Rules are read as assignments to positions, `AclReplay` proves
  that pruning never drops a rule that still decides something, `AclRebuild` proves when the printed rules
  stand for the selector, and `AclDescribe`, `AclSplit` and `AclRoundTrip` when a printed user can be
  read back. `AclGrants` says of keys, channels and commands what each operation grants, and `AclEffects`
  who can log in after any run of operations.
- **Bit operations** (`bitops.c`). Word loops, bit tricks and edge masks are proved equal to
  definitions on single bits.
- **Cuckoo heavy keeper** (`chk.c`). Two tables with lobby slots and bounded kick chains, with every
  random draw left open; `ChkCounts` says of every slot what an update makes of its count.
- **Cluster slots and routing** (`cluster.c`, `cluster.h`). Slot range arrays, hash tags and the
  redirection decision.
- **Blocked clients** (`blocked.c`) and **background jobs** (`bio.c`). Cross-linked indexes and an
  interleaving of submitters, workers and the completion reader.

State that the source changes in place is a class or an array here, and each such method is proved
against a function on values; the properties are then proved about those functions and about runs.
Bytes of texts are characters; buffers of bits are `bv8` sequences and arrays. Integer widths and wrap
around are written out where they matter.

Where the code does not keep a property, the model keeps the code and the property comes with a
failing case and its exact condition: `Sds.ReprRoundTripIff`, `AofRepair.RepairSoundIff`,
`AofWriter.StepKeepsBytes`, `AofUnits.ReloadsCleanlyIff`, `AofConditions.FlushRefinesIff`,
`AofConditions.StartRefinesIff`, `AofConditions.BufferedDataReplayedTwice`,
`AclReplay.OperationKeepsInv`, `AclRebuild.EveryRunRebuildsIff`, `AclDescribe.SelectorRoundTripIff`,
`AclRoundTrip.UserRoundTripIff`, `Routing.CacheIsTransparentIff`
and `BitfieldOps.SignedSetIsExactIff`.

Two remarks in the source disagree with its code, and the model follows the code. The signed overflow
check is said to use its wrapped increments only for values within the range, but it
compares one of them for values below the range (bitops.c:620-630). The line splitter is said to read
back what the quoting functions write, but a name whose only special character is a single quote is
written without quotes (sds.c:987-1004).

## Model

| member | source | states |
|---|---|---|
| `Decimal.AtoiOfDigits` | redis-stable/src/aof.c:1606-1630 | A run of digits followed by a non-digit is read as exactly the value of the run, whatever follows. |
| `Decimal.PrintRoundTrip` | redis-stable/src/aof.c:1362-1373 | Every natural number that is printed and followed by a non-digit is read back unchanged. |
| `Decimal.PrintWidth64` | redis-stable/src/aof.c:1357-1363 | Every `long long` prints in at most 19 digits, so the header line fits its fixed buffer. |
| `Sds.CatRepr` | redis-stable/src/sds.c:960-985 | The loop appends exactly the quoted form of the string, for every byte. |
| `Sds.SplitQuoted` | redis-stable/src/sds.c:1056-1164 | Splitting inverts quoting: any byte string that was quoted comes back as one argument, and the rest of the line is split as it would be alone. |
| `Sds.QuoteMustClose` | redis-stable/src/sds.c:1056-1164 | A quote that is not closed is an error. |
| `Sds.QuoteMustEnd` | redis-stable/src/sds.c:1056-1164 | A closing quote that is followed by anything but white space is an error. |
| `Sds.SplitSingleQuoted` | redis-stable/src/sds.c:1056-1164 | Between single quotes everything stands for itself, unless a backslash precedes the closing one. |
| `Sds.ReprRoundTripIff` | redis-stable/src/sds.c:993-1004 | A name printed with quotes only when `sdsneedsrepr` asks for them is read back if and only if it is quoted or has no single quote: the test overlooks the single quote. |
| `Sds.SplitLen` | redis-stable/src/sds.c:898-944 | The token loop returns the pieces between single spaces, empty pieces included, and nothing for the empty string. |
| `Sds.SplitOfJoin` | redis-stable/src/sds.c:898-944 | Splitting at single spaces undoes joining with single spaces, for any space-free pieces. |
| `Numbers.ReadDigits` | redis-stable/src/util.c:511-534 | The loop with its two overflow tests succeeds if and only if all characters are digits, the first is not 0 and the value fits 64 bits, and then gives the value. |
| `Numbers.ReadLongLong` | redis-stable/src/util.c:484-548 | The strict parser agrees with the mathematical reading on every string: length limit, sign, leading zero and both range ends. |
| `Numbers.ReadsPrinted` | redis-stable/src/util.c:484-548 | Every printed number up to the largest `long long` is accepted and read back. |
| `AofCodec.CatAppendOnlyGenericCommand` | redis-stable/src/aof.c:1357-1380 | The loop appends the protocol form of the argument vector, built from each argument length and its bytes. |
| `AofCodec.ReadCommandWhole` | redis-stable/src/aof.c:1581-1647 | Round trip: an encoded command followed by any bytes at all is read back as that command, leaving exactly those bytes. |
| `AofCodec.ReadCommandCut` | redis-stable/src/aof.c:1581-1647 | An encoded command cut at any byte before its end is a short read that began with bytes of a command; it is never taken for another command or for a format error. |
| `AofLoader.LoadSingleAppendOnlyFile` | redis-stable/src/aof.c:1507-1772 | The loop with its gotos, positions and MULTI bookkeeping computes the recursive loader on every file. For every file and setting it only ever shortens the file, only when it reports a truncation or a recovery, a truncation only when enabled and possible, a recovery only when enabled, possible and shorter than the limit; it reports an empty file or an RDB preamble if and only if there is one. |
| `AofLoader.LoadObeys` | redis-stable/src/aof.c:1718-1760 | The same from any point of a load, for every rest of the file. |
| `AofLoader.LoadCut` | redis-stable/src/aof.c:1581-1740 | Loading a log cut at any byte runs the whole items before the cut, and then the torn item alone decides between a clean end and an unexpected end. |
| `AofRepair.Bookkeeping` | redis-stable/src/aof.c:1660-1697 | After any whole items `valid_up_to` is the encoded length through the last command, and inside an open MULTI `valid_before_multi` is the length just before that MULTI, where the same commands had been executed. |
| `AofRepair.LoadOfCutLog` | redis-stable/src/aof.c:1581-1740 | For every cut position: what is executed is the meaning of the whole items, a torn command truncates after the last whole command, and an end inside an open MULTI rolls the file back to just before it. |
| `AofRepair.TornTailRepaired` | redis-stable/src/aof.c:1699-1740 | MULTI-free log cut anywhere: exactly the longest whole-command prefix is executed and the file is truncated to its encoded length; truncation is reported if and only if the cut was inside a command. |
| `AofRepair.MultiFreeMeaning` | redis-stable/src/aof.c:1660-1697 | Without MULTI the meaning of a log is the list of its commands, in order, and no transaction is left open. |
| `AofRepair.RepairSoundIff` | redis-stable/src/aof.c:1699-1740 | The repaired file stands for what was executed if and only if the tear is in a command outside MULTI, in an annotation inside MULTI, or there is no tear. |
| `AofRepair.AppendAfterSoundRepair` | redis-stable/src/aof.c:1507-1772 | After a sound repair the log can be appended to and reloaded: the result is the kept commands followed by the new ones. |
| `AofRepair.AppendAfterTornTransaction` | redis-stable/src/aof.c:1718-1733 | The failing family: a command torn inside MULTI leaves the MULTI in the file, and every later MULTI-free command is swallowed on reload. |
| `AofRepair.AppendAfterTornAnnotation` | redis-stable/src/aof.c:1597-1605 | The other failing family: a torn annotation outside MULTI is not cut off, and a command appended after it makes the next load fail. |
| `AofOutcomes.CutLogOutcome` | redis-stable/src/aof.c:1699-1740 | For every setting and every cut of a log: the whole items before the cut take effect; the load fails if and only if the cut tears a command or leaves a MULTI open and truncation is disabled or impossible, truncates if and only if it is enabled and possible then, and leaves the file alone unless it reports a truncation. |
| `AofOutcomes.BrokenTailOutcome` | redis-stable/src/aof.c:1742-1760 | Whole items followed by bytes that are no entry: the items take effect; the load recovers if and only if that is enabled, what goes is below the limit and the file can be truncated, and then keeps exactly the bytes through the last command; otherwise it fails and leaves the file alone. |
| `AofOutcomes.RecoveredLoadsAgain` | redis-stable/src/aof.c:1742-1760 | What a recovery leaves loads to the same commands, and without another repair if and only if no MULTI was open. |
| `AofOutcomes.UnknownCommandOutcome` | redis-stable/src/aof.c:1650-1658 | A command that is not in the table ends the load with a failure: everything before it took effect, nothing after it does, the file is left alone. |
| `AofOutcomes.TransactionMeaning` | redis-stable/src/aof.c:1660-1697 | Commands behind a MULTI only wait, in order, until an EXEC, and then all take effect; an EXEC without a MULTI changes nothing. |
| `AofOutcomes.LastCommandEnd` | redis-stable/src/aof.c:1690-1697 | With either repair enabled `valid_up_to` is the end of the last command read. |
| `AofOutcomes.StrayArgument` | redis-stable/src/aof.c:1612-1630 | Where an argument must start, anything but a dollar sign is a format error, however many arguments came before. |
| `AofOutcomes.StrayBytes` | redis-stable/src/aof.c:1605-1605 | An entry that starts with neither a star nor a hash sign is a format error. |
| `AofOutcomes.EmptyCommand` | redis-stable/src/aof.c:1606-1609 | So is a command with no arguments. |
| `AofOutcomes.AnyTwoBytes` | redis-stable/src/aof.c:1640-1646 | The two bytes behind an argument are skipped whatever they are. |
| `AofFeed.FeedAppendOnlyFile` | redis-stable/src/aof.c:1409-1448 | The buffer grows by the encoding of the command, preceded by an encoded SELECT if and only if the command has a database and it is not the selected one, which is then remembered. |
| `AofFeed.SelectText` | redis-stable/src/aof.c:1423-1432 | The hand-written SELECT text with its two length headers is the encoded SELECT command, for every database number. |
| `AofFeed.ReplayFeed` | redis-stable/src/aof.c:1409-1448 | Replaying what was fed has the effect of the fed commands, each in its own database, whatever the remembered selection and the starting database were. |
| `AofFeed.UnitIsAtomic` | redis-stable/src/aof.c:1409-1448 | What is fed for one command or one transaction executes completely at its end, and no proper prefix executes any of a transaction. |
| `AofUnits.PrefixOfUnits` | redis-stable/src/aof.c:1660-1697 | Any number of items of a log made of such units is whole units followed by items that execute nothing but SELECT. |
| `AofUnits.LoadStanding` | redis-stable/src/aof.c:1507-1772 | A log that ends outside MULTI loads completely, with status ok or empty, and the file is left alone. |
| `AofUnits.RepairPoint` | redis-stable/src/aof.c:1699-1740 | Whatever the cut, unless it tears a command inside MULTI: the repaired file ends at an item boundary outside MULTI at which everything that was executed is still executed, every later boundary was inside MULTI, and the file is untouched unless truncation is reported. |
| `AofUnits.TornInMultiCut` | redis-stable/src/aof.c:1660-1740 | A scan of the bytes of a cut log finds a command torn inside MULTI if and only if the cut is inside a command and the whole items before it leave a MULTI open. |
| `AofUnits.ReloadsCleanlyIff` | redis-stable/src/aof.c:1699-1740 | The repaired file loads again without another repair or error if and only if that scan finds none. |
| `AofManifest.AppendAofInfoFromList` | redis-stable/src/aof.c:183-194 | One line per file is appended, in list order. |
| `AofManifest.GetAofManifestAsString` | redis-stable/src/aof.c:211-229 | The text lists BASE, then history, then INCR files, each formatted with quoting where its name needs it. |
| `AofManifest.LoadManifestFromFile` | redis-stable/src/aof.c:265-395 | The line loop accepts and rejects exactly as the recursive parser does, whose meaning is `AofLines.ParseManifestIff`. |
| `AofManifest.ManifestRoundTrip` | redis-stable/src/aof.c:118-140 | Writing a manifest and reading it back restores its files and sets the two sequence counters from them. |
| `AofLines.ParseManifestIff` | redis-stable/src/aof.c:265-395 | A text is accepted if and only if it is not empty, every line can be read, at most one names a BASE and the INCR numbers strictly increase from line to line; the manifest then lists the files of each type in the order of the lines, and its counters are the numbers of the BASE and of the last INCR file. |
| `AofLines.ReadLineSound` | redis-stable/src/aof.c:300-360 | An accepted line names a file that is no path and has a number other than 0. |
| `AofRotation.ManifestObject.Dup` | redis-stable/src/aof.c:404-421 | A copy has the value of the original and is a separate object. |
| `AofRotation.ManifestObject.GetNewBaseFileNameAndMarkPreAsHistory` | redis-stable/src/aof.c:440-459 | The old BASE goes to the head of history, the new one gets the next number and the name built from it, which is returned; INCR files stay. |
| `AofRotation.ManifestObject.GetNewIncrAofName` | redis-stable/src/aof.c:468-478 | A new INCR file with the next number and the name built from it is last in the list, and its name is returned; BASE and history stay. |
| `AofRotation.ManifestObject.MarkRewrittenIncrAofAsHistory` | redis-stable/src/aof.c:506-536 | The backwards walk moves all INCR files but the last, in their order, to the front of history and keeps the last; without INCR files nothing changes. |
| `AofRotation.NewBaseOrderly` | redis-stable/src/aof.c:440-459 | A new BASE keeps the manifest orderly: names match numbers, INCR numbers strictly increase, and history holds only files older than the live ones. |
| `AofRotation.NewIncrOrderly` | redis-stable/src/aof.c:468-478 | So does a new INCR file. |
| `AofRotation.MarkRewrittenOrderly` | redis-stable/src/aof.c:506-536 | So does marking rewritten INCR files as history. |
| `AofRotation.OldIsNotLive` | redis-stable/src/aof.c:682-706 | No name in history is the name of a live file, so deleting history cannot remove what a restart loads. |
| `AofRotation.NextIncrIsFresh` | redis-stable/src/aof.c:804-868 | The INCR name about to be created is the name of no live file, so opening it truncates nothing that is live. |
| `AofRotation.NextBaseIsFresh` | redis-stable/src/aof.c:3017-3142 | The BASE name a rewrite renames to is the name of no live file. |
| `AofRotation.IncrNamesDistinct` | redis-stable/src/aof.c:468-478 | Distinct INCR files have distinct names. |
| `AofRotation.OrderlyIsStorable` | redis-stable/src/aof.c:265-395 | Every orderly manifest whose numbers fit a `long long` is accepted by the parser and comes back unchanged. |
| `AofWriter.WriteAtEndIff` | redis-stable/src/aof.c:1109-1126 | A non-empty write extends the file if and only if the write position is its end. |
| `AofWriter.StepKeepsBytes` | redis-stable/src/aof.c:1147-1321 | Every feed, postponed flush, whole, short or failed write and truncation keeps file plus buffer equal to everything fed and the size field equal to the file length; the position stays at the end if and only if no gap is left. |
| `AofWriter.WriteStays` | redis-stable/src/aof.c:1147-1321 | A write that is kept extends the file by exactly the bytes that leave the buffer when it lands at the end; one that is taken back leaves file and buffer as they were, wherever the position was. The position stays at the end unless such a step leaves a gap. |
| `AofWriter.GapCorruptsNextWrite` | redis-stable/src/aof.c:824-830 | The failing family: a successful truncation on a descriptor without O_APPEND leaves the position behind the end, and the next write does not continue the file. |
| `AofWriter.RunKeepsBytes` | redis-stable/src/aof.c:1147-1321 | Over every run without such a truncation, file followed by buffer is everything fed since the file was opened. |
| `AofWriter.AofFile.SysWrite` | redis-stable/src/aof.c:1109-1126 | One write puts the bytes at the descriptor position and leaves the rest of the file alone. |
| `AofWriter.AofFile.AofWrite` | redis-stable/src/aof.c:1109-1126 | The retry loop delivers a prefix of the data whatever mixture of short and interrupted calls it meets, and returns its length, or -1 when nothing was written. |
| `AofWriter.AofFile.Flush` | redis-stable/src/aof.c:1147-1321 | Each outcome of a flush is one step of the writer and each has its exact condition: it is postponed if and only if it is unforced under everysec with a sync in progress for which it has waited less than two seconds; otherwise the bytes that were delivered, the policy and whether the file can be truncated decide between complete, ended process, nothing, taken back and partial, and with them file, buffer and sizes. |
| `AofWriter.AofFile.WriteBuffer` | redis-stable/src/aof.c:1209-1321 | The part of a flush that writes: what reached the file stays if it is everything or the file cannot be truncated, and the buffer keeps what is not in the file. |
| `AofProtocol.LoadAppendOnlyFiles` | redis-stable/src/aof.c:1775-1898 | The loop over BASE and INCR files succeeds if and only if the BASE, when there is one, is there, and every INCR file is there and loads, the last one perhaps with a repair and all others without; no file changes but the last, which is as its own load left it. |
| `AofProtocol.LoadFilesIff` | redis-stable/src/aof.c:1775-1898 | The same of the load as a function: in particular a truncated or recovered INCR file that is not the last makes the load fail. |
| `AofFiles.EveryFileStartsInZero` | redis-stable/src/aof.c:1507-1580 | Every INCR file starts in database 0, whatever the one before it had selected. |
| `AofFiles.DelHistoryMeans` | redis-stable/src/aof.c:682-706 | For every name: a history file is gone afterwards and every other file is as before; the manifest forgets them, on disk too if it can be stored. |
| `AofFiles.DelHistoryKeepsLive` | redis-stable/src/aof.c:682-706 | So no file that a restart would load is touched. |
| `AofFiles.RewriteDoneMeans` | redis-stable/src/aof.c:3017-3142 | For every name and outcome: only the file of the new BASE can differ; after a commit it holds the snapshot of the child, the manifest names it, and the old BASE and all INCR files but the current one are history; after a failure to store the manifest it is gone and both manifests are as before. |
| `AofFiles.OpenNewIncrMeans` | redis-stable/src/aof.c:804-868 | For every name and outcome: only the new INCR file can differ, it is empty then, and it is listed and written to only when the manifest could be stored. |
| `AofFiles.CrashedMeans` | redis-stable/src/aof.c:682-868 | For every name and point of a crash: the manifest on disk is as before and only the files of the step that was under way differ. |
| `AofFiles.FilesOnStartMean` | redis-stable/src/aof.c:727-782 | For every name: a start overwrites no file but that of a first BASE, and creates an INCR file, empty, only when none is listed and the name is free. |
| `AofFiles.StartMeans` | redis-stable/src/aof.c:727-782 | A server comes up only with everything listed loaded, holding the loaded data, with nothing to write and a descriptor that appends to the last INCR file; otherwise the disk is as before. |
| `AofVersions.WroteMeans` | redis-stable/src/aof.c:1147-1321 | In the abstract machine, bytes that reach the disk make durable exactly the versions up to the first that needs more of them, and shorten the lag of the others by their number. |
| `AofVersions.StepKeepsDurable` | redis-stable/src/aof.c:1147-1321 | No event of the abstract machine changes a durable version or makes it less durable. |
| `AofRefinement.FeedRefines` | redis-stable/src/aof.c:1409-1448 | A fed unit is one new version on top of those before, and it lags by exactly the bytes then in the buffer. |
| `AofRefinement.FlushRefines` | redis-stable/src/aof.c:1147-1321 | A flush through the descriptor at its position makes durable exactly the versions whose last byte is among the bytes that stay, provided these are written at the end; a whole flush makes every version durable, and a write that is taken back changes nothing. |
| `AofRefinement.StartRewriteRefines` | redis-stable/src/aof.c:2860-2928 | Starting a rewrite does to the versions what its flush does and no more, whether that flush is whole, partial or taken back and whether opening the INCR file, storing the manifest or the fork succeeds, as long as a new INCR file is opened only with an empty buffer. |
| `AofRefinement.RewriteDoneRefines` | redis-stable/src/aof.c:3017-3177 | Installing the snapshot as the new BASE changes no version, at every point where it can fail. |
| `AofRefinement.DelHistoryRefines` | redis-stable/src/aof.c:682-706 | Deleting history files changes no version, whether or not the manifest is stored afterwards. |
| `AofRefinement.CrashRefines` | redis-stable/src/aof.c:1147-1321 | A crash in the middle of a write at the end makes durable exactly the versions that the written bytes complete; a crash in the middle of a rename or a deletion changes nothing. |
| `AofRefinement.StartRefines` | redis-stable/src/aof.c:727-782 | A start from such a disk succeeds and brings up exactly the durable version, and the newer ones are gone, unless the last file has a command torn inside MULTI. |
| `AofRefinement.FirstStart` | redis-stable/src/aof.c:727-782 | A start without a manifest creates a BASE with the empty dataset and an empty INCR file. |
| `AofRefinement.StepRefines` | redis-stable/src/aof.c:727-868 | Every step that meets three conditions is the step of the abstract machine for the same event, so it is fixed which event adds a version, which makes how many durable and which drops the others. The conditions: bytes that stay are written at the end, a new INCR file is opened with an empty buffer, and a start finds no command torn inside MULTI. `AofConditions` shows that none of them can be dropped. |
| `AofRefinement.EveryRunRefines` | redis-stable/src/aof.c:2860-3177 | Every run of feeds, flushes, rewrites, commits, deletions, crashes and restarts under these conditions is explained state by state by the run of the abstract machine on the same events. |
| `AofRefinement.LoadAnytime` | redis-stable/src/aof.c:1775-1898 | In every state of such a run in which the server is up, loading the manifest on disk gives exactly the durable version, whatever tail the file has, and the dataset in memory when the buffer is empty. |
| `AofRefinement.LoadWhenDown` | redis-stable/src/aof.c:1775-1898 | The same in every state in which the server is down, after a crash at any point. |
| `AofRefinement.LiveFilesExist` | redis-stable/src/aof.c:682-706 | In every reachable state all live files exist, and no history name is a live name. |
| `AofDurability.LoadsDurable` | redis-stable/src/aof.c:1775-1898 | In every state of every such run, up or down or before the first start, a load gives exactly the durable version. |
| `AofDurability.RunKeepsDurable` | redis-stable/src/aof.c:2860-3177 | Over every stretch of a run, what was durable stays what it was and stays durable. |
| `AofDurability.FlushedSurvives` | redis-stable/src/aof.c:1147-1321 | Everything fed before a whole flush is in what any later load gives, whatever rewrites, commits, deletions, crashes and restarts happen in between. |
| `AofDurability.StartBringsDurable` | redis-stable/src/aof.c:727-782 | A start comes up with exactly the version that was durable when the server went down. |
| `AofConditions.StepKeepsAtEnd` | redis-stable/src/aof.c:824-830 | Every step keeps the descriptor position at the end of the current file, unless a partial write is taken back on a descriptor without O_APPEND. |
| `AofConditions.CarefulRunIsSafe` | redis-stable/src/aof.c:1147-1321 | So the condition on positions holds in every run without such a step. |
| `AofConditions.HoleBreaksLoad` | redis-stable/src/aof.c:824-830 | A buffer written behind a gap leaves zero bytes in the file: the flush reports success, and the next load fails or, when a corrupt tail is tolerated, gives the version that was durable before. |
| `AofConditions.FlushRefinesIff` | redis-stable/src/aof.c:1147-1321 | A whole flush of a buffer leaves a state that stands for some list of versions if and only if the position was at the end of the file. |
| `AofConditions.GapRun` | redis-stable/src/aof.c:1147-1321 | The failing run: after a start, a rewrite, a feed, a partial write that is taken back and a whole write, memory holds the command and the buffer is empty, while a load fails or gives the empty dataset; the state stands for no list of versions. |
| `AofConditions.StartLoads` | redis-stable/src/aof.c:727-782 | A start from any disk of a run comes up with exactly what the loader executes, its file as the loader left it and a descriptor with O_APPEND. |
| `AofConditions.StartRefinesIff` | redis-stable/src/aof.c:1718-1733 | A start leaves a state that stands for some list of versions if and only if the last file has no command torn inside MULTI. |
| `AofConditions.TornStartLosesCommands` | redis-stable/src/aof.c:1718-1733 | Otherwise, for every such disk and every command fed and flushed after the start, the next load gives the dataset without that command. |
| `AofConditions.BufferedDataReplayedTwice` | redis-stable/src/aof.c:2870-2880 | The failing family: when a rewrite starts with bytes left in the buffer, loading after the rewrite runs what it reads in them on top of the dataset that already has it, and fails if it cannot read them; for whole commands it replays them once more, and with nothing left it gives the dataset. |
| `AofConditions.CounterCountedTwice` | redis-stable/src/aof.c:2870-2880 | In every run of one increment fed, its flush taken back, a rewrite that commits and a flush, memory holds 1 and the load gives 2. |
| `AofFailingRuns.GapRunExists` | redis-stable/src/aof.c:1147-1321 | For every command or transaction the first failing run exists: it is built from an empty disk. |
| `AofFailingRuns.CounterRunExists` | redis-stable/src/aof.c:2870-2880 | So does the run in which an increment is counted twice. |
| `AofServer.RedisServer.constructor` | redis-stable/src/aof.c:727-782 | The object starts in the given server state with its own manifest object. |
| `AofServer.RedisServer.Propagate` | redis-stable/src/aof.c:1409-1448 | Running and feeding a command or transaction is the feed step of the protocol. |
| `AofServer.RedisServer.FlushAppendOnlyFile` | redis-stable/src/aof.c:1147-1321 | Writing part or all of the buffer at the position of the descriptor, and cutting the file back when that is to be undone, is the flush step. |
| `AofServer.RedisServer.OpenNewIncrAofForAppend` | redis-stable/src/aof.c:804-868 | Opening the next INCR file on a copy of the manifest and installing the copy only once it is stored is the open step, for every outcome. |
| `AofServer.RedisServer.RewriteAppendOnlyFileBackground` | redis-stable/src/aof.c:2860-2928 | Flush, open and fork together are the start-rewrite step, for every outcome. |
| `AofServer.RedisServer.AofDelHistoryFiles` | redis-stable/src/aof.c:682-706 | Removing the history files one by one and storing the shorter manifest is the deletion step. |
| `AofServer.RedisServer.InstallSnapshot` | redis-stable/src/aof.c:3017-3142 | Renaming the snapshot, marking files as history on a copy of the manifest and installing the copy once it is stored is the commit step, for every outcome. |
| `AofServer.RedisServer.BackgroundRewriteDoneHandler` | redis-stable/src/aof.c:3017-3177 | The end of a rewrite is the commit step followed by the deletion step, or an undone commit. |
| `AofRewrite.RewriteBatched` | redis-stable/src/aof.c:1920-1993 | The element loop that emits a header every 64 elements emits exactly the encoded batches. |
| `AofRewrite.EmitElement` | redis-stable/src/aof.c:1926-1946 | One element extends the text: after any number of elements the text is whole batches and a header whose count is right for the elements that follow. |
| `AofRewrite.BatchDone` | redis-stable/src/aof.c:1926-1946 | When a batch has its elements, the count in the header written before them is right: header and elements are one encoded command. |
| `AofRewrite.ChunksAreFull` | redis-stable/src/aof.c:1920-1959 | Every batch but the last is full, none is empty, and together they are the elements in order. |
| `AofRewrite.RebuildList` | redis-stable/src/aof.c:1920-1959 | Running the emitted commands on an empty key rebuilds any list, in order. |
| `AofRewrite.RebuildSet` | redis-stable/src/aof.c:1963-1993 | The same for a set, whatever order it is iterated in. |
| `AofRewrite.RebuildSortedSet` | redis-stable/src/aof.c:1997-2075 | The same for a sorted set, with scores as opaque tokens. |
| `AofRewrite.RebuildHash` | redis-stable/src/aof.c:2107-2162 | The same for a hash without field expiry. |
| `AofRewrite.RewriteExpiringHash` | redis-stable/src/aof.c:2107-2162 | The text is the encoding of one HMSET for each field, followed by its expiry when it has one. |
| `AofRewrite.RebuildExpiringHash` | redis-stable/src/aof.c:2107-2162 | The commands for a hash with field expiry rebuild every field, its value and its expiry. |
| `AofRewrite.RebuildArray` | redis-stable/src/aof.c:2531-2628 | Running them on an empty key rebuilds any sparse array and its insertion index. |
| `AofArray.EmitDense` | redis-stable/src/aof.c:2561-2567 | The loop over a dense slice emits its occupied cells and no other, each under the index that its slice and offset give. |
| `AofArray.EmitSparse` | redis-stable/src/aof.c:2568-2576 | The same for the entries of a sparse slice. |
| `AofArray.EmitPlaces` | redis-stable/src/aof.c:2588-2611 | The loop over the directory skips missing slices and goes on counting across slices, so that batches run over slice borders. |
| `AofArray.RewriteArrayObject` | redis-stable/src/aof.c:2531-2628 | For both forms of the directory the text is the encoded batches of all elements, followed by the insertion index when there is one. |
| `AofArray.SlotsMean` | redis-stable/src/aof.c:2531-2628 | An element is emitted if and only if a lookup through directory and slice finds it at that index. |
| `AofArray.RebuildArrayObject` | redis-stable/src/aof.c:2531-2628 | Running the commands on an empty key rebuilds exactly the array that lookups see, with its insertion index. |
| `AofRewrite.RewrittenTextReloads` | redis-stable/src/aof.c:1507-1772 | The emitted text is read by the loader as exactly the emitted commands, and the file is left alone. |
| `AofRewrite.ReloadRebuilds` | redis-stable/src/aof.c:1507-1772 | From text to value: when commands rebuild a value on an empty key, loading their emitted text and running what the loader executed rebuilds it too. |
| `AclRules.RemoveCommandRule` | redis-stable/src/acl.c:578-620 | On every string, also one in which first arguments with spaces have blurred the rules, the in-place removal leaves what a scan from left to right leaves, the space before a removed last rule included. |
| `AclRules.RemovedIsFilter` | redis-stable/src/acl.c:578-620 | On rules without spaces that is a filter on their list: it removes exactly the rules for the same command, its subcommands or its first arguments, and no rule that merely shares a prefix. |
| `AclRules.UpdateCommandRules` | redis-stable/src/acl.c:624-632 | The new rule string is what the removal leaves with the lower-cased rule last, for every rule text. |
| `AclRules.SplitJoined` | redis-stable/src/acl.c:764-817 | Joining rules that are plain words and splitting the string as a command line gives the rules back. |
| `AclReplay.FullNameIsLowered` | redis-stable/src/server.c:3572-3614 | Whatever a text resolves to, the command or the command and subcommand joined by a bar, has that text as its full name, letter case aside. |
| `AclReplay.ReplacedIsCovered` | redis-stable/src/acl.c:578-620 | A rule that is dropped because of a new one decides only bits and first arguments that the new rule decides too. |
| `AclReplay.KeepEvaluates` | redis-stable/src/acl.c:578-620 | Dropping such rules changes the verdict at no position that the new rule leaves open. |
| `AclReplay.FutureNotCovered` | redis-stable/src/acl.c:546-557 | No rule touches the reserved bit that stands for commands added later. |
| `AclReplay.CommandOp` | redis-stable/src/acl.c:1133-1210 | A command or category operation succeeds if and only if its lower-cased form names something in the table, and then it sets exactly the positions that form denotes and retains it last, whatever its first argument is. |
| `AclReplay.OperationKeepsInv` | redis-stable/src/acl.c:1041-1216 | A successful selector operation keeps bitmap, first-argument table and rule history in agreement if and only if it puts no space into a rule; command rules leave the reserved bit alone. |
| `AclReplay.ReplayRebuilds` | redis-stable/src/acl.c:764-817 | Replaying the retained rules from "+@all" or "-@all" rebuilds the bitmap and the first arguments and reproduces the rule list itself. |
| `AclReplay.EveryRunReplays` | redis-stable/src/acl.c:764-817 | The same, rule by rule, for every sequence of operations on a new selector that put no space into a rule. |
| `AclObject.SelectorObject.constructor` | redis-stable/src/acl.c:352-369 | A new selector allows no command and no key and has no rules; channels are as the default says. |
| `AclObject.SelectorObject.SetCommandBit` | redis-stable/src/acl.c:564-573 | Setting a bit changes that bit only; clearing one also clears the all-commands flag. |
| `AclObject.SelectorObject.ChangeSelectorPerm` | redis-stable/src/acl.c:636-650 | A command takes the bits of all its subcommands along, and its own first arguments are reset. |
| `AclObject.SelectorObject.SetSubcommandsForCategory` | redis-stable/src/acl.c:658-672 | The recursive walk changes exactly the subcommands in the category. |
| `AclObject.SelectorObject.SetCommandBitsForCategory` | redis-stable/src/acl.c:658-672 | Walking the whole table changes exactly the commands and subcommands in the category. |
| `AclObject.SelectorObject.AddAllowedFirstArg` | redis-stable/src/acl.c:949-975 | The argument is added to the list of its command unless it is there already, ignoring case. |
| `AclObject.SelectorObject.UpdateRules` | redis-stable/src/acl.c:624-632 | The rule string stays the joined rule list. |
| `AclObject.SelectorObject.AddKeyPattern` | redis-stable/src/acl.c:1072-1115 | A key pattern is stored once, with its permissions merged; a malformed or redundant one is refused with its error and changes nothing. |
| `AclObject.SelectorObject.AddChannel` | redis-stable/src/acl.c:1116-1132 | The same for channels. |
| `AclObject.SelectorObject.Allow` | redis-stable/src/acl.c:1133-1196 | Allowing a command, subcommand or first argument, with its error cases. |
| `AclObject.SelectorObject.Deny` | redis-stable/src/acl.c:1197-1204 | Denying a command or subcommand, with its error cases. |
| `AclObject.SelectorObject.Category` | redis-stable/src/acl.c:1205-1210 | Allowing or denying a category, or all commands, with its error case. |
| `AclObject.SelectorObject.SetSelectorOp` | redis-stable/src/acl.c:1041-1216 | One operation, branch by branch, keeps the string and the rule list in step; a refused operation reports its error and changes nothing. |
| `AclObject.ScanPerms` | redis-stable/src/acl.c:1078-1097 | The character loop over a "%" prefix accepts the permission letters in either case and refuses anything else. |
| `AclObject.DescribeSelectorCommandRules` | redis-stable/src/acl.c:764-817 | For every bitmap and rule string, the scratch selector gives the described text or the panic exactly as splitting and replaying the string decide. |
| `AclObject.ReplayArgs` | redis-stable/src/acl.c:785-793 | The loop applies any arguments to the scratch selector until one is refused, and tells so; otherwise it leaves the replayed selector. |
| `AclObject.QuotedArgumentBreaksDescription` | redis-stable/src/acl.c:764-817 | A concrete operation with a quote in a first argument is accepted, and its rule string can no longer be split. |
| `AclRebuild.RulesRebuiltIff` | redis-stable/src/acl.c:764-817 | For every reachable rule history: the printed rules, split as a command line and replayed, are the same rules if and only if all of them are plain words, and then they give the same bits and first arguments. |
| `AclRebuild.PlainRulesDescribed` | redis-stable/src/acl.c:764-817 | Then the text is produced: neither the assertions nor the mismatch panic are reached. |
| `AclRebuild.EveryRunRebuildsIff` | redis-stable/src/acl.c:764-817 | For every sequence of operations on a new selector, without exception: the printed rules stand for the selector after every operation if and only if each accepted command operation retained a plain word. |
| `AclRebuild.SpaceBreaksRules` | redis-stable/src/acl.c:1133-1196 | Every accepted operation with a space in its first argument leaves rules that are not read back. |
| `AclRebuild.SpacedArgumentIsRefused` | redis-stable/src/acl.c:785-793 | A concrete case: the first argument "a b" is accepted, and the assertion that its rules apply fails. |
| `AclRebuild.SpacedArgumentPanics` | redis-stable/src/acl.c:801-814 | Another: the first argument "a +get" is accepted without allowing GET, its rules are read back as allowing GET, and the mismatch panic is reached. |
| `AclObject.CommandIds.constructor` | redis-stable/src/acl.c:1534-1559 | No command has an id at first. |
| `AclObject.CommandIds.GetCommandID` | redis-stable/src/acl.c:1534-1559 | Ids are distinct, a name keeps its id, letter case is ignored, and the reserved id is never given out. |
| `AclUser.SelectorOpKeepsInv` | redis-stable/src/acl.c:1041-1132 | Every selector operation keeps that all-keys and all-channels exclude stored patterns, and the wider invariant with the rule history if and only if it puts no space into a rule. |
| `AclUser.UserOpKeepsInv` | redis-stable/src/acl.c:1288-1384 | Every user operation that puts no space into a rule keeps the invariant of all selectors, and nopass excludes passwords; an operation outside parentheses that puts one in does not. What each operation does is said in `AclEffects` and `AclGrants`. |
| `AclUser.UserRunKeepsInv` | redis-stable/src/acl.c:1288-1384 | So does every sequence of user operations that put no space into a rule. |
| `AclEffects.AddsPassword` | redis-stable/src/acl.c:1311-1331 | ">" and "#" fail if and only if a given hash is malformed; otherwise the hash is stored, at the end unless it was stored before, the others stay in place, a password is required again, and flags and selectors are unchanged. |
| `AclEffects.RemovesPassword` | redis-stable/src/acl.c:1332-1353 | "<" and "!" succeed if and only if the hash is well formed and stored, with a separate error for each reason; it is then gone, every other password is there in the same order, and nothing else changes. |
| `AclEffects.FlagWords` | redis-stable/src/acl.c:1297-1310 | on, off, nopass, resetpass and the two sanitize words, in any case, change what they name and nothing else. |
| `AclEffects.ResetWords` | redis-stable/src/acl.c:1357-1376 | clearselectors drops the further selectors only; reset leaves a user equal to a new one, whatever it was. |
| `AclEffects.AddsSelector` | redis-stable/src/acl.c:1354-1384 | A parenthesised operation adds one selector behind the others, made by its inner operations, if and only if all of them succeed. |
| `AclEffects.LoginStep` | redis-stable/src/acl.c:1288-1384 | What one successful operation of any kind makes of being enabled, of needing no password and of each single password. |
| `AclEffects.UserHistory` | redis-stable/src/acl.c:1288-1384 | Over every run of operations on a new user, judged by the run alone: it is enabled, needs no password, or has a given password if and only if some operation said so and none since said otherwise. |
| `AclEffects.CheckUserCredentials` | redis-stable/src/acl.c:1445-1479 | The loop over the stored hashes lets in exactly an enabled user that needs no password or has this one. |
| `AclEffects.LoginHistory` | redis-stable/src/acl.c:1445-1479 | So for every run of operations it is exactly known who can log in with which password. |
| `AclGrants.PermsSpelled` | redis-stable/src/acl.c:1078-1097 | Permission letters are read as exactly what is spelled: R and W in any case, each at most once, at least one, then a tilde and the pattern or the end. |
| `AclGrants.KeyOpOutcome` | redis-stable/src/acl.c:1072-1115 | A key pattern is refused with EEXIST if and only if all keys are allowed, and with EINVAL if and only if it is misspelled or holds a space. |
| `AclGrants.KeyOpGrants` | redis-stable/src/acl.c:1072-1115 | What is granted afterwards is what was and, on the named pattern, what the operation spells; known patterns keep their places and a new one goes to the end. |
| `AclGrants.ChannelOpOutcome` | redis-stable/src/acl.c:1116-1132 | The same for channels, with EISDIR when all are allowed. |
| `AclGrants.KeyAndChannelWords` | redis-stable/src/acl.c:1041-1056 | allkeys, resetkeys, allchannels and resetchannels, in any case, change what they name and nothing else. |
| `AclGrants.CommandWords` | redis-stable/src/acl.c:1057-1071 | allcommands and nocommands set or clear every bit, the reserved one included, and leave no rule and no first argument. |
| `AclGrants.CommandOpOutcome` | redis-stable/src/acl.c:1133-1210 | ENOENT, ECHILD and EINVAL each if and only if the table and the text give the reason. |
| `AclGrants.LookupIff` | redis-stable/src/server.c:3572-3614 | A text is found if and only if it is, letter case aside, the full name of a command or subcommand. |
| `AclGrants.CommandOpMeans` | redis-stable/src/acl.c:636-650 | For every id: a command brings its subcommands along, a subcommand only itself, and the first arguments of the named one are forgotten. |
| `AclGrants.CategoryOpMeans` | redis-stable/src/acl.c:658-706 | For every id: it is set or cleared if and only if it is that of a command of the category, of one of its subcommands, or of a subcommand of the category; keys and channels stay. |
| `AclGrants.RuleAdded` | redis-stable/src/acl.c:578-632 | A new rule goes to the end of the history; of the earlier ones exactly those go that have its text or continue it after a bar, and the others keep their order. |
| `AclGrants.VerdictIff` | redis-stable/src/acl.c:1698-1723 | Whether a command may run is what the last rule that covers it says, or that the last rule that covers it with this first argument allows it. |
| `AclDescribe.CatPatterns` | redis-stable/src/acl.c:337-348 | Patterns are printed in order with the prefix that their permissions call for. |
| `AclDescribe.CatChannels` | redis-stable/src/acl.c:835-847 | Channels are printed in order with their prefix. |
| `AclDescribe.DescribeSelectorText` | redis-stable/src/acl.c:819-854 | The printed text is the list of describing operations joined with single spaces. |
| `AclDescribe.CatFlags` | redis-stable/src/acl.c:870-876 | Flag names are printed in table order. |
| `AclDescribe.CatPasswords` | redis-stable/src/acl.c:878-887 | Password hashes are printed in order with their prefix. |
| `AclDescribe.CatSelectors` | redis-stable/src/acl.c:889-900 | The root selector is printed plainly and every further one in parentheses. |
| `AclDescribe.DescribeUserText` | redis-stable/src/acl.c:862-907 | The text of a user is its describing operations joined with single spaces. |
| `AclDescribe.SameSelectorSameAnswers` | redis-stable/src/acl.c:1698-1723 | Selectors that agree in the restored sense give the same verdict for every command id and first argument. |
| `AclDescribe.SelectorRestored` | redis-stable/src/acl.c:819-854 | Applying the description of any reachable selector without a stored "*" pattern to a blank selector restores it. |
| `AclDescribe.StarNotRestored` | redis-stable/src/acl.c:337-348 | A stored "*" pattern with both permissions prints as the all-keys operation and never comes back as stored. |
| `AclDescribe.SelectorRoundTripIff` | redis-stable/src/acl.c:819-854 | A description restores its selector if and only if no stored pattern is "*" with both permissions. |
| `AclSplit.SplitPart` | redis-stable/src/sds.c:1056-1164 | A word that begins plainly, at the head of a command line: when the argument that comes back has no space, the rest of the line is split as it would be alone, and the argument is no longer than the word, and shorter when the word has a quote. |
| `AclSplit.SplitWeight` | redis-stable/src/sds.c:1056-1164 | For every line that splits, its arguments joined with single spaces are no longer than the line, and shorter when the line has a quote. |
| `AclSplit.OpStep` | redis-stable/src/acl.c:1041-1216 | No selector operation stores more characters than its own text. |
| `AclSplit.NotRestored` | redis-stable/src/acl.c:889-900 | So a further selector that stores a quote, or a blank in a rule, is never restored from its printed form; rules with spaces included. |
| `AclRoundTrip.OtherRestoredIff` | redis-stable/src/acl.c:889-900 | A further selector, printed in parentheses and read through the line splitter, is restored if and only if it has no stored "*" pattern with both permissions and prints as plain words. |
| `AclRoundTrip.UserRoundTripIff` | redis-stable/src/acl.c:862-907 | For every user: flags, passwords, root and further selectors are restored if and only if no selector stores that pattern and all further selectors print as plain words. |
| `AclRoundTrip.EveryUserRoundTrips` | redis-stable/src/acl.c:1288-1384 | The same for every user that a sequence of operations makes without putting a space into a rule. |
| `AclRoundTrip.QuotedPatternIsLost` | redis-stable/src/acl.c:889-900 | The failing case: a user with a key pattern that contains a quote in a further selector is accepted, and its printed form gives a user without the pattern. |
| `ChkTables.AltIsInvolutive` | redis-stable/src/chk.c:169-171 | For every power-of-two size the alternate of the alternate bucket is the bucket. |
| `ChkTables.ItemOfIsValid` | redis-stable/src/chk.c:173-186 | For every hash and power-of-two size the fingerprint is its low 16 bits, the first bucket its high half modulo the size, and the second bucket the alternate of the first. |
| `ChkInvariant.InItsBuckets` | redis-stable/src/chk.c:173-234 | A slot can hold an item if and only if it is in one of the two buckets a lookup of the item probes. |
| `ChkInvariant.FoundIffTracked` | redis-stable/src/chk.c:196-365 | The two searches find an item if and only if a live copy of it exists anywhere in the tables. |
| `ChkInvariant.KickoutKeeps` | redis-stable/src/chk.c:248-281 | However long the kick chain and whatever the heavy-hitter test says, at most one live copy of each item remains, in its buckets, and no occupied heavy entry becomes empty. |
| `ChkInvariant.PromoteKeeps` | redis-stable/src/chk.c:286-328 | Promotion from the lobby, with the kick chain it starts, keeps the same. |
| `ChkInvariant.HeavyKeeps` | redis-stable/src/chk.c:196-234 | Counting a heavy entry or taking an empty one keeps it; when neither happens both buckets are full and the item is in neither. |
| `ChkInvariant.UpdateKeeps` | redis-stable/src/chk.c:456-536 | One whole update keeps the invariant for every random draw, with the counters bounded by the total weight. |
| `ChkInvariant.PromotionFindsNoEmptyEntry` | redis-stable/src/chk.c:286-328 | The branch of promotion for an empty heavy entry is dead in every update. |
| `ChkInvariant.EveryRunKeeps` | redis-stable/src/chk.c:456-536 | Over every sequence of updates each fingerprint and bucket pair has at most one live copy, where a lookup probes, and occupied heavy entries stay occupied. |
| `ChkCounts.UpdateCounts` | redis-stable/src/chk.c:456-536 | Slot by slot over the tables before and after: a heavy item has the weight added to its own count and nothing else changes; a waiting one has it added too, and at the threshold it is promoted or held there; a new item takes the first free heavy slot, or else the first free lobby slot, with exactly its weight; with none free one lobby entry decays, and is taken over only at zero. |
| `ChkCounts.HeavyCounted` | redis-stable/src/chk.c:196-234 | A heavy item has the weight added to its old count, and no other slot changes. |
| `ChkCounts.PromoteCounted` | redis-stable/src/chk.c:286-328 | A waiting item stays if and only if the least heavy entry beside it has a larger count and the draw is lost; otherwise it takes that entry over with its count, the lobby slot is emptied, and the displaced entry starts a kick chain. |
| `ChkCounts.KickoutIsChain` | redis-stable/src/chk.c:248-281 | A kick chain is a path of moves: each displaced entry goes whole to its alternate bucket, onto the least entry there, while it is still heavy and kicks are left. |
| `ChkCounts.KickoutConserves` | redis-stable/src/chk.c:248-281 | Over a whole chain the heavy items and their counts are those before and the one put in, less at most the one lost at the end. |
| `ChkTopK.ScanBucket` | redis-stable/src/chk.c:291-307 | The loop finds the first empty heavy entry, or else the first one with the least count. |
| `ChkTopK.DecaySearch` | redis-stable/src/chk.c:399-452 | The binary search returns the least counter whose expected weight plus the given weight reaches that of the old counter. |
| `ChkTopK.TopK.constructor` | redis-stable/src/chk.c:114-147 | Empty tables satisfy the invariant. |
| `ChkTopK.TopK.ScanHeavyEntries` | redis-stable/src/chk.c:196-234 | The loops over both buckets find the first match, and the first empty entry when there is none. |
| `ChkTopK.TopK.CheckHeavyEntries` | redis-stable/src/chk.c:196-234 | In place on the tables: the matching entry is counted, or the first empty one is taken, or nothing changes; `ChkCounts.HeavyCounted` says what that does to the counts. |
| `ChkTopK.TopK.KickOut` | redis-stable/src/chk.c:248-281 | The in-place loop of at most 16 kicks is the recursive kick chain. |
| `ChkTopK.TopK.TryPromoteAndKickout` | redis-stable/src/chk.c:286-328 | In place: promotion swaps the lobby item into the least heavy entry and the loser is kicked on. |
| `ChkTopK.TopK.CheckLobbyEntries` | redis-stable/src/chk.c:331-365 | In place: the lobby entry of the item is counted and perhaps promoted; if it waits nowhere nothing changes. |
| `ChkTopK.TopK.EnterEmptyLobby` | redis-stable/src/chk.c:483-505 | In place: an item takes an empty lobby slot and is perhaps promoted at once. |
| `ChkTopK.TopK.DecayOneLobby` | redis-stable/src/chk.c:509-536 | In place: one lobby entry decays, is taken over only when it reaches zero, and is promoted when it is still large. |
| `ChkTopK.TopK.UpdateTables` | redis-stable/src/chk.c:456-536 | The whole table update keeps the invariant and the total, no occupied heavy entry becomes empty, and for every slot it is said what becomes of its count and fingerprint: exactly one of counting, taking an empty slot, waiting in a lobby, promotion with its kick chain or decay happens, with the given weight. |
| `SlotRanges.SortInPlace` | redis-stable/src/cluster.c:1898-1914 | The first n ranges are left sorted by start and are a permutation of what they were. |
| `SlotRanges.MergeInPlace` | redis-stable/src/cluster.c:1916-1923 | The in-place loop with its write index leaves the recursive merge of what was there. |
| `SlotRanges.SortAndMerge` | redis-stable/src/cluster.c:1911-1924 | Together: the merge of some sorted permutation, in the same array. |
| `SlotRanges.Validate` | redis-stable/src/cluster.c:1798-1821 | The slot-counting loop accepts exactly lists of in-range, well-formed, pairwise disjoint ranges. |
| `SlotRanges.NormalizeAndValidate` | redis-stable/src/cluster.c:1787-1822 | The whole operation in place, with its limits on the number of ranges: no or too many ranges are refused with the array untouched. |
| `SlotRanges.NormalizationIsExact` | redis-stable/src/cluster.c:1787-1822 | Whenever no inverted range adjoins another, the list is accepted if and only if its ranges are well formed, in range and pairwise disjoint; the slots stay the same and the result is canonical. |
| `SlotRanges.InvertedRangeIsMergedAway` | redis-stable/src/cluster.c:1916-1923 | Outside that condition it can fail: 5-9 with 10-7 is merged to 5-7 and accepted, although one range is inverted and slots are lost. |
| `SlotRanges.SortDecidesInverted` | redis-stable/src/cluster.c:1898-1923 | Nor can any condition on the list be exact there: for 1-3, 4-3 and 4-6 the answer is yes or no as the sort happens to order the two equal starts. |
| `SlotRanges.CanonicalIsUnique` | redis-stable/src/cluster.c:1927-1940 | Each set of slots has exactly one canonical array. |
| `SlotRanges.EqualMeansSameSlots` | redis-stable/src/cluster.c:1927-1940 | For disjoint well-formed lists in any order, merging gives equal arrays if and only if the slot sets are equal. |
| `SlotRanges.IsEqual` | redis-stable/src/cluster.c:1927-1940 | The in-place comparison answers true if and only if the merged forms are equal, which for disjoint well-formed lists means the same slots. |
| `SlotRanges.Contains` | redis-stable/src/cluster.c:1987-1992 | True if and only if some range has the slot. |
| `SlotRanges.AppendAdds` | redis-stable/src/cluster.c:1954-1984 | Appending a slot beyond all others adds exactly that slot and keeps the array canonical. |
| `SlotRanges.OwnedSlots` | redis-stable/src/cluster.c:2180-2187 | The append loop yields the canonical array of exactly the requested slots that are owned, or all of them when the client must be obeyed. |
| `SlotRanges.LocalSlots` | redis-stable/src/cluster.c:2111-2128 | The canonical array of exactly the slots that the master covers. |
| `SlotText.ToString` | redis-stable/src/cluster.c:1845-1857 | The loop that cuts off the last space prints the ranges joined with single spaces. |
| `SlotText.FromString` | redis-stable/src/cluster.c:1861-1896 | Splitting, scanning and normalising accept and reject as the reading relation says, 16-bit truncation of the numbers included. |
| `SlotText.PrintedRange` | redis-stable/src/cluster.c:1861-1896 | Two printed numbers up to the largest `long long` are read as their remainders modulo 65536. |
| `SlotText.TextRoundTrip` | redis-stable/src/cluster.c:1845-1896 | Printing any non-empty canonical array and parsing the text gives the array back. |
| `HashSlot.KeyHashSlot` | redis-stable/src/cluster.h:60-79 | For every key: if its first opening brace is closed later and not at once, what is between is hashed, and otherwise the whole key. |
| `HashSlot.PatternHashSlot` | redis-stable/src/cluster.c:36-61 | The scan infers a slot if and only if the pattern is literal, or its literal prefix has a complete non-empty tag. |
| `HashSlot.TagOfExtension` | redis-stable/src/cluster.h:60-79 | A complete tag stays the tag of every longer key. |
| `HashSlot.PatternSlotIsSound` | redis-stable/src/cluster.c:36-61 | Whenever a slot is inferred, every key that the pattern can match has that slot, for any hash function. |
| `Routing.GetNodeByQuery` | redis-stable/src/cluster.c:1197-1450 | The nested loops with their flags and counters compute the decision over all keys of all queued commands. A request that is not redirected or has no keys is served here; of every other the answer is truthful: each kind of answer is given if and only if what it says about slot, owner, migration, missing keys, write and replica holds of the hash slots of all keys. |
| `Routing.OneSlotMeans` | redis-stable/src/cluster.c:1285-1341 | The slots that the loop compares, cached or hashed, agree on a slot if and only if every key of every command hashes to it. |
| `Routing.DecideInSlot` | redis-stable/src/cluster.c:1285-1450 | For keys in one slot the flags gathered by the loops are facts about the request: some looked-up key is missing, some is present, and there is more than one key. |
| `Routing.DecideAcross` | redis-stable/src/cluster.c:1296-1341 | Keys in different slots: the request is answered as crossing or, if and only if the slot of the first key is unbound and not flagged as crossing, as unbound; never anything else, and whether or not the crossing was flagged before. |
| `Routing.DecidesTruthfully` | redis-stable/src/cluster.c:1197-1450 | ASK if and only if the slot migrates, some looked-up key is missing and none is present, and it names the node it migrates to; TRYAGAIN, the two down errors, the trimming error and MOVED each if and only if its reason holds and no earlier one does; MOVED names the owner, another node. |
| `Routing.ServedHereIsJustified` | redis-stable/src/cluster.c:1197-1450 | A keyed request is served locally only if all keys of all commands hash to one slot and one of the justifications holds: an open slot with MIGRATE, an importing slot with ASKING, a reading replica of the owner, or ownership. |
| `Routing.OwnerServesIff` | redis-stable/src/cluster.c:1390-1449 | The owner of the slot that all keys hash to serves the request if and only if one of four conditions on migration, ASKING, missing keys and trimming holds. |
| `Routing.OtherServesIff` | redis-stable/src/cluster.c:1390-1449 | In a healthy cluster a node that does not own the slot serves the request if and only if it is MIGRATE on an open slot, ASKING on an importing one without a missing key among several, or a read on a replica of the owner; otherwise TRYAGAIN or MOVED, each with its condition. |
| `Routing.ExtractSlot` | redis-stable/src/cluster.c:1145-1161 | The slot if all keys share one, a crossing if and only if some key differs from the first, nothing if and only if there are no keys. |
| `Routing.CacheIsTransparentIff` | redis-stable/src/cluster.c:1197-1450 | Cached slots give the same answer as hashing again if and only if it is not the case that the first command crosses slots and its first slot is unbound. |
| `Words.LoadedBytes` | redis-stable/src/bitops.c:1356-1378 | Every byte of a loaded word is the byte at its place in the buffer. |
| `Words.Store` | redis-stable/src/bitops.c:1374-1377 | A stored word changes its eight bytes and no other. |
| `BitopSpec.ByteResultMeans` | redis-stable/src/bitops.c:689-701 | Each bit of a byte result is what the operation says of that bit of all keys; for ONE, that exactly one key has it. |
| `Bitop.AccWord` | redis-stable/src/bitops.c:1371-1486 | One more key is folded into one word, and for ONE the bits seen twice are collected. |
| `Bitop.SettleWord` | redis-stable/src/bitops.c:1410-1491 | The last step of NOT and ONE on a word. |
| `Bitop.CombineWord` | redis-stable/src/bitops.c:1436-1469 | The last step of DIFF, DIFF1 and ANDOR on a word. |
| `Bitop.AccKey` | redis-stable/src/bitops.c:1371-1486 | One key is folded into a block of four words; nothing outside changes. |
| `Bitop.AccBlock` | redis-stable/src/bitops.c:1371-1486 | All keys after the first are folded into a block. |
| `Bitop.SettleBlock` | redis-stable/src/bitops.c:1410-1491 | After the last step every byte of the block is the specified result. |
| `Bitop.WordPath` | redis-stable/src/bitops.c:1354-1499 | The word path leaves fewer than 32 of the common bytes, and all bytes before are the specified result. |
| `Bitop.CombineAll` | redis-stable/src/bitops.c:1436-1469 | The second pass over all processed bytes finishes DIFF, DIFF1 and ANDOR. |
| `Bitop.MaskEveryStep` | redis-stable/src/bitops.c:1563-1568 | Masking the bits seen twice at every step, as the byte loop does, equals masking once at the end, as the word loop does. |
| `Bitop.TailByte` | redis-stable/src/bitops.c:1503-1592 | One byte of the tail, early exits included, is the specified result. |
| `Bitop.Lengths` | redis-stable/src/bitops.c:1283-1314 | The greatest and a common length of the keys, missing keys counting as empty. |
| `Bitop.Run` | redis-stable/src/bitops.c:1316-1592 | For every operation, number of keys and lengths, word path plus tail give a result as long as the longest key whose every byte is the specified one. |
| `Bitop.EveryBit` | redis-stable/src/bitops.c:689-701 | Every bit of that result is the operation on the zero-extended keys. |
| `Bitfield.SetUnsigned` | redis-stable/src/bitops.c:500-513 | The bit loop stores the low bits of the value in the field and leaves every other bit alone. |
| `Bitfield.GetUnsigned` | redis-stable/src/bitops.c:520-532 | The bit loop reads the value of the field. |
| `Bitfield.WriteThenRead` | redis-stable/src/bitops.c:500-532 | Reading after writing gives the value modulo two to the width, for every width and offset. |
| `Bitfield.ReadThenWrite` | redis-stable/src/bitops.c:500-532 | Writing what was read changes no bit. |
| `Bitfield.GetWindow` | redis-stable/src/bitops.c:2066-2101 | Reading from the nine-byte window equals reading the zero-extended string, for every offset and every width up to 64. |
| `BitfieldOps.UnsignedIsExact` | redis-stable/src/bitops.c:579-614 | INCRBY on u1 to u63: overflow is reported if and only if the exact sum does not fit; WRAP gives it modulo two to the width and SAT the nearer bound. |
| `BitfieldOps.UnsignedSetIsExact` | redis-stable/src/bitops.c:2048-2054 | SET on u1 to u63: overflow if and only if the argument does not fit, WRAP is right for every `int64`, and SAT sends negative arguments to the top. |
| `BitfieldOps.SignedIsExact` | redis-stable/src/bitops.c:616-669 | The same as the first for i1 to i64. |
| `BitfieldOps.SignedSetIsExactIff` | redis-stable/src/bitops.c:616-669 | SET on i1 to i64: overflow and WRAP are right for every `int64`; SAT clamps correctly if and only if the argument is not so far below that the allowed increment wraps, and then it goes to the wrong bound. |
| `BitfieldOps.LeastNumberSaturatesAtTheTop` | redis-stable/src/bitops.c:624-627 | A concrete case: SET i8 with the least 64-bit number saturates at 127. |
| `BitfieldOps.NewValue` | redis-stable/src/bitops.c:2001-2054 | The overflow check and the choice after it give what should be stored, or nothing under FAIL. |
| `BitfieldOps.Execute` | redis-stable/src/bitops.c:1987-2101 | One operation on a string with room for it: its reply, the field afterwards, that no other bit changes, and that a failed one writes nothing. |
| `BitfieldOps.GrownKeepsFields` | redis-stable/src/bitops.c:1936-1982 | Growing the string to the highest bit that any write touches changes what no field reads. |
| `BitfieldOps.RunAll` | redis-stable/src/bitops.c:1964-2102 | The whole command: the string is grown once, every operation has its effect on what the one before left, and there is one reply for each, in order. |
| `Popcount.TableCounts` | redis-stable/src/bitops.c:53-65 | Every entry of the byte table is the number of set bits of its index. |
| `Popcount.WordSteps` | redis-stable/src/bitops.c:124-137 | After the three masking steps every byte of a 32-bit word holds its own count. |
| `Popcount.MultiplyAdds` | redis-stable/src/bitops.c:138-144 | The wrapping multiplication adds four counts of at most 56 in the top byte. |
| `Popcount.SevenWords` | redis-stable/src/bitops.c:110-145 | A 28-byte round adds exactly the set bits of its 28 bytes. |
| `Popcount.RedisPopcount` | redis-stable/src/bitops.c:67-152 | The number of set bits, for every buffer, address and either form. |
| `Bitcount.ByteRange` | redis-stable/src/bitops.c:1649-1680 | Negative, clamped and bit-granular limits become bytes with bits to leave out, covering exactly the specified bit range. |
| `Bitcount.BitCount` | redis-stable/src/bitops.c:1646-1711 | BITCOUNT counts exactly the set bits in the specified range, and nothing for a backward one. |
| `Bitcount.CountBytes` | redis-stable/src/bitops.c:1690-1697 | Counting bytes counts the bits of their range. |
| `Bitcount.Edges` | redis-stable/src/bitops.c:1699-1709 | The two edge masks count exactly what the byte range has too much. |
| `Bitpos.RedisBitpos` | redis-stable/src/bitops.c:392-477 | The first matching bit for every buffer and address; -1 for a missing 1 and the length in bits for a missing 0; the final panic is unreachable. |
| `Bitpos.FirstByte` | redis-stable/src/bitops.c:1811-1824 | The masked first byte: its first match in the range, or none. |
| `Bitpos.LastByte` | redis-stable/src/bitops.c:1834-1836 | The masked last byte: its first match in the range, or none. |
| `Bitpos.Search` | redis-stable/src/bitops.c:1808-1836 | First byte, whole bytes and last byte together give the first match in the range, or tell that there is none. |
| `Bitpos.BitPos` | redis-stable/src/bitops.c:1734-1852 | BITPOS gives the least matching position in the clamped range; without one it gives -1, or the zero-padded end for a 0 when no end was given; a missing key is all zeros. |
| `BlockedIndex.BlockKeepsInv` | redis-stable/src/blocked.c:396-447 | A client that blocks has exactly its keys, repeated keys once, the given type and deletion flag, and a moment later than everyone else; no other client and no ready key changes, and all indexes agree, so it is last in the list of each of its keys. |
| `BlockedIndex.ReleaseKeepsInv` | redis-stable/src/blocked.c:544-577 | Taking a client off one key changes only that it holds the key and keeps the agreement: the list and the counter go when they become empty. |
| `BlockedIndex.FreeKeepsInv` | redis-stable/src/blocked.c:184-215 | Clearing the blocking state keeps the per-type counters equal to the blocked clients. |
| `BlockedIndex.SignalKeepsInv` | redis-stable/src/blocked.c:484-531 | Signalling queues a key at most once. |
| `BlockedIndex.SignalMeans` | redis-stable/src/blocked.c:484-531 | Said of the clients: a signal queues the key, at the end, if and only if it is not queued, some client is blocked with the type or by a module, and some client waits for the key, for a deletion one that asked for that; otherwise nothing changes, and in either case nothing else does. |
| `BlockedIndex.NoWakeUpLost` | redis-stable/src/blocked.c:484-531 | After a signal a key with a waiting client of the signalled type or of a module is queued to be served. |
| `BlockedIndex.NoDeletionLost` | redis-stable/src/blocked.c:502-511 | After the signal of a deletion so is a key with a client that waits for it to go away. |
| `BlockedIndex.DetachKeepsInv` | redis-stable/src/blocked.c:364-367 | Taking over the ready list keeps every ready key queued once. |
| `BlockedIndex.TakeHeadKeepsInv` | redis-stable/src/blocked.c:369-385 | So does taking off its first key. |
| `BlockedIndex.NokeyMeansBlocking` | redis-stable/src/blocked.c:502-511 | A key with a counter for deletion always has waiting clients. |
| `BlockedIndex.UnblockKeepsInv` | redis-stable/src/blocked.c:451-465 | Releasing all keys of a client in any order frees it and keeps the agreement. |
| `BlockedIndex.StepKeepsInv` | redis-stable/src/blocked.c:184-577 | Every block, unblock, signal and serve step keeps: holding a key iff waiting for it, blocking order, exact positive counters, per-type counters, and ready keys queued once. |
| `BlockedIndex.EveryRunKeepsInv` | redis-stable/src/blocked.c:343-688 | So does every run. |
| `BlockedIndex.AllFreeInv` | redis-stable/src/blocked.c:61-69 | A state without blocked clients satisfies it. |
| `BlockedServer.Server.constructor` | redis-stable/src/blocked.c:61-69 | The object starts without blocked clients. |
| `BlockedServer.Server.BlockForKeys` | redis-stable/src/blocked.c:396-447 | The loop over the keys, on dictionaries and lists in place, enters the client for exactly its keys with the given type and deletion flag; every other client and the ready keys are as before. |
| `BlockedServer.Server.ReleaseBlockedEntry` | redis-stable/src/blocked.c:544-577 | In place; its two assertions hold. |
| `BlockedServer.Server.UnblockClientWaitingData` | redis-stable/src/blocked.c:451-465 | In place: the client holds no key afterwards, and nothing else about any client changes. |
| `BlockedServer.Server.UnblockClient` | redis-stable/src/blocked.c:184-215 | In place: the client is free and holds no key, whatever type it was blocked with; every other client and every other waiting list is as before. |
| `BlockedServer.Server.SignalKeyAsReady` | redis-stable/src/blocked.c:484-531 | In place, with the type, deletion and already-queued tests: the key is queued if and only if some client is blocked with the type or by a module, some client waits for the key, for a deletion one that asked for that, and it was not queued before; nothing else changes. |
| `BlockedServer.Server.UnblockClientOnKey` | redis-stable/src/blocked.c:674-722 | The client leaves the waiting list of the key, its command runs again, and it ends free or blocked on exactly the new keys, at the end of the list if the key is one of them; other clients are as before. |
| `BlockedServer.Server.VisitClient` | redis-stable/src/blocked.c:606-623 | One client of the list is served if and only if its type is that of the key or it waits for the key to go away; the callback of a module client is called if and only if the key holds something or the client waits for it to go away, and moves no client; otherwise nothing changes. |
| `BlockedServer.ToServeMeans` | redis-stable/src/blocked.c:606-623 | The clients that are served for a key are exactly the waiting ones, other than of modules, that have its type or wait for it to go away, in the order of the list. |
| `BlockedServer.Server.HandleClientsBlockedOnKey` | redis-stable/src/blocked.c:590-626 | Walking the live list with a saved next node and a step limit visits exactly the clients that waited at first, each once, although served clients leave it and may join its end; exactly those whose type matches are served and exactly the module clients are tried, in blocking order, and every other client is as before. |
| `BlockedServer.Server.ServeRound` | redis-stable/src/blocked.c:357-387 | The keys that were ready are handled in the order they were signalled, each once, from the state in which the one before left the server; each serves exactly its waiting clients that match. Keys signalled meanwhile wait for the next round. |
| `BlockedServer.Server.HandleClientsBlockedOnKeys` | redis-stable/src/blocked.c:343-389 | Rounds follow each other, each on the keys signalled in the one before, until no key is ready. |
| `BioQueues.StepKeepsInv` | redis-stable/src/bio.c:181-445 | Every step of a submitter, a worker or the completion reader keeps queues, counters and history in agreement. |
| `BioQueues.EveryRunKeepsInv` | redis-stable/src/bio.c:181-445 | So does every interleaving. |
| `BioQueues.WorkOfARun` | redis-stable/src/bio.c:181-368 | In every interleaving, judged by its events alone, each worker has run exactly the first jobs submitted to it, one for each time it finished one. |
| `BioQueues.SharedWorkers` | redis-stable/src/bio.c:59-67 | Requests for callbacks share the worker of the jobs they follow, and closing a log that of syncing it; the three kinds of work have different workers. |
| `BioQueues.ProcessedInOrder` | redis-stable/src/bio.c:281-368 | What a worker has run is a prefix of what was submitted to it: every job once, in order. |
| `BioQueues.EmptyQueueMeansFinished` | redis-stable/src/bio.c:383-391 | An empty queue seen by a drain means that all jobs submitted to that worker have run and its counters are zero. |
| `BioQueues.PendingMeans` | redis-stable/src/bio.c:372-380 | The counter of a type is the number of its jobs that are queued or in hand. |
| `BioQueues.CallbackAfterEarlierJobs` | redis-stable/src/bio.c:206-227 | Each callback belongs to a request that has run, so every job submitted earlier to that worker has run before it. |
| `BioQueues.Bio.constructor` | redis-stable/src/bio.c:127-179 | Nothing is queued at first. |
| `BioQueues.Bio.SubmitJob` | redis-stable/src/bio.c:181-189 | Under the lock a job goes to the end of its worker queue and its type is counted. |
| `BioQueues.Bio.TakeJob` | redis-stable/src/bio.c:281-294 | An idle worker picks the first job, which stays queued. |
| `BioQueues.Bio.ProcessJob` | redis-stable/src/bio.c:296-360 | The job runs once; a completion request adds its callback to the list. |
| `BioQueues.Bio.RemoveJob` | redis-stable/src/bio.c:362-367 | Only after it has run the job leaves the queue and its type is uncounted; the counter was positive. |
| `BioQueues.Bio.PipeReadJobCompList` | redis-stable/src/bio.c:416-445 | All callbacks completed so far are called, in order, each once. |
| `BioQueues.Bio.PendingJobsOfType` | redis-stable/src/bio.c:372-380 | The number of queued jobs of the type. |

## Left out

- The Node.js files of the repository: they start the server and open sockets.
- Real files, fsync, fork, rename, threads and locks: they are a disk map, an atomic manifest update and interleaved steps.
- The server states in which the append only file is off or waits for its first rewrite, the upgrade from a single old file, and the limit on failing rewrites.
- RDB preambles and the contents of snapshots: a BASE holds a dataset, which is opaque.
- An error after the manifest has been renamed, and the durability that `fsynced_reploff` claims under everysec.
- AofRefinement.StepRefines: the protocol feeds no timestamp annotations (`AofRepair.RepairSoundIff` shows what a torn one does), and it is stated for steps that meet the three conditions, which `AofConditions` shows to be needed.
- AofRefinement.StartRewriteRefines: a new INCR file is opened with an empty buffer; `AofConditions.BufferedDataReplayedTwice` says what happens otherwise.
- AofConditions.FlushRefinesIff: the file ends with a whole item; behind a torn one the bytes after the hole can by accident read as other commands.
- AofLoader.LoadSingleAppendOnlyFile: numbers beyond the C types in a corrupt header, progress events and key load delays are not modelled; command effects are opaque and looked up by a table.
- AofFiles.CrashedMeans: a crash between two manifest updates; the manifest itself is replaced atomically.
- AofRepair.LoadOfCutLog: a MULTI inside a MULTI is excluded; the server never writes one.
- AofManifest.ManifestRoundTrip: file names must be storable, which excludes path separators, over-long lines and the single-quote names of `Sds.ReprRoundTripIff`.
- AofRewrite.RewriteExpiringHash: an expiry that has passed before the reload is not modelled.
- AofArray.RewriteArrayObject: indexes are unbounded rather than 64 bits wide, inline values are their text, and the element count of the array is taken to be right.
- AofRewrite.RebuildSortedSet: scores are opaque tokens; printing and reading doubles is not modelled.
- Rewriting of streams, module values, functions and rate limiters, and the loop over databases.
- AclReplay.EveryRunReplays: for operations that put no space into a rule. The code accepts first arguments with spaces; what then happens is `AclRebuild.EveryRunRebuildsIff` with its two concrete cases. Bitmaps are sets of ids.
- AclDescribe.SelectorRoundTripIff: the all-commands flag itself need not come back, only the bits and arguments it stands for; `AclDescribe.SameSelectorSameAnswers` shows that no answer differs.
- AclRoundTrip.UserRoundTripIff: users are values, while a selector in place is `AclObject.SelectorObject`; texts hold no zero bytes, at which the line splitter would stop; the describing operations of the root are given one by one rather than as a line of text.
- AclRoundTrip.EveryUserRoundTrips: for operations that put no space into a rule; with one `AclRebuild.SpaceBreaksRules` applies.
- AclGrants.VerdictIff: the command part of the check; matching the keys and channels of a request against the stored patterns is not modelled.
- AclEffects.CheckUserCredentials: for a user that exists; the hash is a parameter, and the comparison in constant time is an equality.
- The AUTH command, the ACL log, ACL files, recomputing all users after a module load, and merging of parenthesised arguments.
- The heap and the names of the heavy keeper: a returning item can lower its heap count, so heap order is not an invariant.
- ChkInvariant.EveryRunKeeps: the total weight stays below the counter limit; the heavy-hitter test, decay and promotion draws are arbitrary within their ranges.
- ChkTopK.DecaySearch: over real numbers; rounding of doubles is not modelled.
- SlotRanges.NormalizationIsExact: stated for lists in which no inverted range adjoins another, which includes all lists of well-formed ranges; with such a range the answer can be wrong (`SlotRanges.InvertedRangeIsMergedAway`), and `SlotRanges.SortDecidesInverted` shows that it is then not determined by the list.
- SlotRanges.SortInPlace: the order of ranges with the same start is left open, as the library sort leaves it.
- SlotRanges.IsEqual: the two arrays are different objects.
- SlotRanges.LocalSlots: for a cluster node with a master; without cluster mode the answer is constant.
- Error texts, replies, keyspace events and argument parsing of all commands.
- HashSlot.PatternSlotIsSound: the glob matcher is replaced by a wider relation that lets a special character match anything that follows.
- Routing.GetNodeByQuery: command flags, key extraction, slot ownership and key lookups are given by a view of the cluster.
- The SIMD forms of population count and BITOP, and the build for aligned access only.
- Popcount.RedisPopcount: the 64-bit count instruction is taken to count bits.
- BitfieldOps.RunAll: a list of operations that has been parsed, on a key that holds a string or is missing.
- BitfieldOps.UnsignedSetIsExact: a negative argument saturates at the top, because the source takes it as unsigned first.
- Time-outs, waits for replicas or shutdown, and the statistics of blocking; the request of a module to unblock its client is handled elsewhere.
- BlockedServer.Server.HandleClientsBlockedOnKeys: as many rounds as are given, because served commands may signal keys for ever; the guard against recursive calls is not modelled.
- BlockedIndex.TakeHeadKeepsInv: a key counts as taken off the list when its clients are about to be served, while the source removes the node afterwards.
- BlockedServer.Server.UnblockClientOnKey: running the command again is an arbitrary list of signals followed by blocking again or not.
- BioQueues.Bio.ProcessJob: the effect of a job is not modelled, nor are lost or spurious wake-ups, which only delay steps.
