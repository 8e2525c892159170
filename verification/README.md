# Verification of the SQLite core under WCDB

This project models nine algorithms from the SQLite and SQLCipher sources that the application
vendors, in Dafny, and proves what they promise. Each component stands in its own files.

- **ANALYZE sampling** (`Stat4Runs`, `Stat4Sampler`, `Stat4Proof`, `Stat4Rows`, `Stat4Coverage`,
  `Stat4Candidates`, `Stat4Accum`, `Stat4Analyze`, `StatText`, `Stat1Proof`, `StatDecode`): the bounded,
  one-pass STAT4 sampler as a class over arrays; its specification as functions on values; the invariant of
  half-finished samples; exactness against counts over the rows; coverage of every frequent prefix; which
  row of a run is kept; printing and reading the statistics.
- **Online backup** (`BackupPages`, `BackupFinish`, `BackupProtocol`, `BackupHeader`, `BackupProgress`,
  `BackupFailures`, `BackupObject`): byte arithmetic between page sizes, the step machine, all interleavings
  with commits and restarts, the header of the committed file, how far a step gets, what happens when a call
  is BUSY or LOCKED, and the linked list of registered backups.
- **Bitvec** (`BitvecHash`, `Bitvec`, `BitvecTest`): one set as bitmap, probed hash or tree, with
  promotion in place, and the interpreter of its self-test.
- **Btree mutexes** (`BtMutexProtocol`, `BtMutexOps`, `BtMutex`): the locking protocol as steps of any
  number of connections, what a call of it does to mutexes, and the routines over the objects, which do the
  same to mutexes while other threads interfere.
- **ALTER RENAME** (`RenameEdit`): token lists and the right-to-left edit of the text.
- **Parser engine** (`ParserTables`, `ParserProof`, `ParserMachine`, `ParserComplete`, `ParserEngine`,
  `ParserExample`): shift-reduce parsing over any tables; sound where they fit a grammar, complete where they
  cover one.
- **Schema building** (`WithoutRowid`, `DestroyTable`, `Affinity`, `AttachArray`): index column lists,
  destruction order, type affinity, the array of open databases.
- **sqlite3_complete** (`Complete`, `CompleteText`): scanner and automaton, and what they mean for the
  characters of a text.

`Division`, `Integers`, `Names` and `Wrappers` hold facts about division, integer widths, names
compared without regard to case, and optional values. Where the source changes state in place, a class
or an array is changed in place here, and its methods are proved equal to functions on values; the laws
are then lemmas about those functions and about runs of them.

Outside calls are parameters: result codes of page and lock calls, file opening, the random numbers
of the self-test, and the characters that `IdChar` accepts (the set `ids` or `idChars`). The pending
byte is 0x40000000. Pointers are eight bytes wide, so a Bitvec has 3968 bits, 124 hash slots or 62
sub-bitvecs. Allocation succeeds.

Parser tables are arbitrary; `ParserTables.Fits` says when they fit a grammar. It is a condition on
single table entries: each state has a list of what the top of the stack may hold, and each shift,
goto and reduction must agree with the lists of the states it joins. The item sets of an LR generator
give such lists. `ParserComplete.Covers` says when tables cover a grammar: item sets of rules under way,
each with the token that follows it, are closed, and wherever an item can go on the tables go on with it.
Since the SQL grammar is ambiguous as written and is settled by precedence and by fallback tokens, the
grammar covered may be finer than that of the parser: it may use a rule several times, for phrases of
different kinds, and say at each place which tokens stand there and how they are read.

## Model

| member | source | states |
|---|---|---|
| Stat4Rows.SamplesDescribeRows | StudyWCDB/Pods/WCDBOptimizedSQLCipher/src/analyze.c:556-797 | After pushing any strictly sorted rows and closing the runs, each retained sample's anEq, anLt and anDLt are the number of rows equal to its row, of rows below it and of distinct values below it, for every prefix length; samples are in index order and never more than mxSample. |
| Stat4Coverage.FrequentPrefixesSampled | StudyWCDB/Pods/WCDBOptimizedSQLCipher/src/analyze.c:556-797 | The sampler misses nothing frequent: for every row and every proper prefix of its columns, after the runs are closed, some retained sample has that prefix, or the array is full and every non-periodic sample is kept for a prefix that at least as many rows share. |
| Stat4Coverage.StatPushCovers | StudyWCDB/Pods/WCDBOptimizedSQLCipher/src/analyze.c:729-797 | One stat_push keeps that promise for every run that has ended. |
| Stat4Coverage.PushOneCovers | StudyWCDB/Pods/WCDBOptimizedSQLCipher/src/analyze.c:656-664 | An offer, refused, blocked, upgrading or appending, covers the run that ends and uncovers no other, also when it evicts a sample. |
| Stat4Coverage.TakeCovers | StudyWCDB/Pods/WCDBOptimizedSQLCipher/src/analyze.c:781-786 | A periodic sample that evicts another leaves every finished run covered. |
| Stat4Proof.AllExact | StudyWCDB/Pods/WCDBOptimizedSQLCipher/src/analyze.c:556-797 | The same on change positions: exact counts, order, iMin a least preferred non-periodic sample when the array is full, and at most a third of the samples periodic. |
| Stat4Proof.StatPushKeeps | StudyWCDB/Pods/WCDBOptimizedSQLCipher/src/analyze.c:729-797 | One stat_push keeps the whole invariant: half-finished samples carry a zero exactly where they share a prefix with the current row, candidates are the best rows of the runs under way, and a periodic sample is added exactly when the row count crosses a multiple. |
| Stat4Proof.PushPreviousCloses | StudyWCDB/Pods/WCDBOptimizedSQLCipher/src/analyze.c:653-683 | Offering the candidates and filling in zeros completes exactly the runs that end at the changed column, and leaves no zero at or right of it. |
| Stat4Proof.PushOneKeeps | StudyWCDB/Pods/WCDBOptimizedSQLCipher/src/analyze.c:656-664 | Offering one candidate keeps the invariant whether it is refused, upgrades a sharer or evicts the least preferred sample. |
| Stat4Proof.OfferAsserts | StudyWCDB/Pods/WCDBOptimizedSQLCipher/src/analyze.c:556-643 | The asserts of sampleInsert for an offered candidate: its count is positive, every non-periodic sharer was kept for a later column and is worse, a sample that is added comes after the last one, and a full array has a minimum. |
| Stat4Proof.PeriodicAsserts | StudyWCDB/Pods/WCDBOptimizedSQLCipher/src/analyze.c:616-643 | The asserts of sampleInsert for a periodic sample: it comes after the last one, and a full array has a minimum. |
| Stat4Proof.TakeKeeps | StudyWCDB/Pods/WCDBOptimizedSQLCipher/src/analyze.c:775-786 | A periodic sample of the current row enters with all but its last counter open. |
| Stat4Proof.UpdateKeeps | StudyWCDB/Pods/WCDBOptimizedSQLCipher/src/analyze.c:788-794 | The candidates again lie in the runs under way, with exact counters; which row of a run each of them is, Stat4Candidates says. |
| Stat4Candidates.StatPushPrefers | StudyWCDB/Pods/WCDBOptimizedSQLCipher/src/analyze.c:729-797 | One stat_push keeps the candidate of each column but the last a row of the run under way that no other row of that run, as it stood when it was current, is preferred to. |
| Stat4Candidates.CandidatesPreferred | StudyWCDB/Pods/WCDBOptimizedSQLCipher/src/analyze.c:729-797 | So it is after any pushes from a fresh accumulator. |
| Stat4Candidates.OfferedIsPreferred | StudyWCDB/Pods/WCDBOptimizedSQLCipher/src/analyze.c:653-664 | When a run ends, the row offered for it is one of its rows that none of the others is preferred to, with the length of the run as its count. |
| Stat4Candidates.PreferenceMeans | StudyWCDB/Pods/WCDBOptimizedSQLCipher/src/analyze.c:505-550 | Preference spelled out: the count of the run a sample is kept for decides, then the smaller column, then the counts right of the column one after the other, then the hash. |
| Stat4Proof.FirstPush | StudyWCDB/Pods/WCDBOptimizedSQLCipher/src/analyze.c:747-750 | The invariant holds after the first row, from a fresh accumulator. |
| Stat4Proof.PushedStep | StudyWCDB/Pods/WCDBOptimizedSQLCipher/src/analyze.c:729-797 | Over any run of pushes, not more than announced to stat_init, the invariant holds and the periodic samples number the multiples crossed so far. |
| Stat4Rows.RunCounts | StudyWCDB/Pods/WCDBOptimizedSQLCipher/src/analyze.c:273-299 | What the counters count: the length of a run and its start are the number of rows with the same prefix and of rows with a smaller one. |
| Stat4Rows.DistinctCounts | StudyWCDB/Pods/WCDBOptimizedSQLCipher/src/analyze.c:273-299 | The number of runs before a row is the number of distinct smaller prefixes. |
| Stat4Sampler.PreferenceOrder | StudyWCDB/Pods/WCDBOptimizedSQLCipher/src/analyze.c:505-550 | sampleIsBetter is a strict preference: asymmetric, and its refusal is transitive. |
| Stat4Sampler.FindMinFinds | StudyWCDB/Pods/WCDBOptimizedSQLCipher/src/analyze.c:631-643 | The scan for iMin finds a non-periodic sample to which none is less preferred, whenever there is a non-periodic sample. |
| Stat4Sampler.FindSharerFinds | StudyWCDB/Pods/WCDBOptimizedSQLCipher/src/analyze.c:584-602 | The scan for sharers stops at a periodic sharer and otherwise returns a most preferred one, or none when nobody shares the prefix. |
| Stat4Sampler.InsertReady | StudyWCDB/Pods/WCDBOptimizedSQLCipher/src/analyze.c:556-643 | An insert never overfills the array and leaves a non-periodic sample at iMin when it is full, given room for one more periodic sample. |
| Stat4Accum.Stat4Accum.constructor | StudyWCDB/Pods/WCDBOptimizedSQLCipher/src/analyze.c:399-480 | A fresh accumulator: constants, the sampling interval, and candidate i watching column i. |
| Stat4Accum.Stat4Accum.SampleIsBetterPost | StudyWCDB/Pods/WCDBOptimizedSQLCipher/src/analyze.c:505-519 | The in-place comparison loop decides by the first differing count and then by the hash. |
| Stat4Accum.Stat4Accum.SampleIsBetter | StudyWCDB/Pods/WCDBOptimizedSQLCipher/src/analyze.c:529-550 | The method agrees with the preference relation. |
| Stat4Accum.Stat4Accum.SampleInsert | StudyWCDB/Pods/WCDBOptimizedSQLCipher/src/analyze.c:556-643 | Array, counters and iMin after an insert are those of the specification whose invariants are proved. |
| Stat4Accum.Stat4Accum.FindNewMin | StudyWCDB/Pods/WCDBOptimizedSQLCipher/src/analyze.c:631-643 | The loop over a[] sets iMin to the specified minimum. |
| Stat4Accum.Stat4Accum.SamplePushPrevious | StudyWCDB/Pods/WCDBOptimizedSQLCipher/src/analyze.c:653-683 | Both loops together have the specified effect on a[], aBest[], iMin and nMaxEqZero. |
| Stat4Accum.Stat4Accum.StatPush | StudyWCDB/Pods/WCDBOptimizedSQLCipher/src/analyze.c:729-797 | One push of the object is one push of the specification. |
| Stat4Accum.Stat4Accum.StatGetRowid | StudyWCDB/Pods/WCDBOptimizedSQLCipher/src/analyze.c:894-908 | The first request closes all runs; then samples are handed out in order. |
| Stat4Accum.Stat4Accum.StatGetCounts | StudyWCDB/Pods/WCDBOptimizedSQLCipher/src/analyze.c:909-921 | One kind of counter of the sample at iGet for each request; asking for nDLt moves on. |
| Stat4Analyze.Analyze | StudyWCDB/Pods/WCDBOptimizedSQLCipher/src/analyze.c:1126-1291 | The sqlite_stat4 part of ANALYZE for one index, from stat_init over the pushes of all its rows to the requests for the samples: at most 24 entries come out, in index order, each with the exact counts of a row of the index, and no prefix of a row is missing unless 24 samples are kept, all but the periodic ones for prefixes at least as frequent. |
| Stat4Analyze.AnalyzeIndex | StudyWCDB/Pods/WCDBOptimizedSQLCipher/src/analyze.c:1126-1291 | Both parts for an index that is not empty: besides, the texts stored in the columns neq, nlt and ndlt of sqlite_stat4 read back as the counters of each entry, and the sqlite_stat1 text reads back as the number of rows and, for each number of key columns, the rows per distinct prefix rounded up. |
| Stat4Analyze.PushRows | StudyWCDB/Pods/WCDBOptimizedSQLCipher/src/analyze.c:1145-1241 | Comparing neighbouring rows column by column and pushing each brings the object to the specified state. |
| Stat4Analyze.ReadBack | StudyWCDB/Pods/WCDBOptimizedSQLCipher/src/analyze.c:1262-1291 | The requests for row key, nEq, nLt and nDLt hand out every sample once, in order. |
| StatText.StatGetStat1 | StudyWCDB/Pods/WCDBOptimizedSQLCipher/src/analyze.c:878-893 | Prints the row count and the estimates, separated by single spaces, inside (nKeyCol+1)*25 bytes. |
| StatText.StatGetCounts | StudyWCDB/Pods/WCDBOptimizedSQLCipher/src/analyze.c:927-939 | Prints the counters with the last space replaced by the terminator, inside nCol*25 bytes. |
| StatDecode.DecodeIntArray | StudyWCDB/Pods/WCDBOptimizedSQLCipher/src/analyze.c:1455-1511 | Reads at most nOut numbers, skipping one space after each, stores them or their logarithms, and stops at the end of the text; the words that follow set the index flags. |
| StatDecode.IndexFlags.ReadFlags | StudyWCDB/Pods/WCDBOptimizedSQLCipher/src/analyze.c:1494-1510 | The flags are set exactly when one of the words begins with their name, and the size is the one given last. |
| StatText.DecodeJoin | StudyWCDB/Pods/WCDBOptimizedSQLCipher/src/analyze.c:1472-1488 | Reading a printed list gives the list back. |
| StatText.EstimateIsCeiling | StudyWCDB/Pods/WCDBOptimizedSQLCipher/src/analyze.c:870-888 | (K+D-1)/D is the least number of rows per distinct value that covers all rows. |
| Stat1Proof.Stat1OfRows | StudyWCDB/Pods/WCDBOptimizedSQLCipher/src/analyze.c:846-893 | In terms of the rows: the numbers read back are the row count and its quotients by the numbers of distinct prefixes of the rows, rounded up. |
| Stat4Rows.DistinctInAll | StudyWCDB/Pods/WCDBOptimizedSQLCipher/src/analyze.c:865-886 | The number of runs over the whole index is the number of distinct prefixes of its rows. |
| Stat1Proof.Stat1RoundTrip | StudyWCDB/Pods/WCDBOptimizedSQLCipher/src/analyze.c:878-893 | For every non-empty accumulator the printed stat1 text reads back as nRow followed by the rounded-up quotients, each at least 1 and none larger than the one before. |
| BackupFinish.FinalBytes | StudyWCDB/Pods/WCDBOptimizedSQLCipher/src/backup.c:503-585 | For all page sizes, once every page is copied the committed file has at most the source's size and equals the source at every byte past the 100-byte header and off the source's pending page, also where it has to be rewritten after the pending byte. |
| BackupFinish.TruncateAsserts | StudyWCDB/Pods/WCDBOptimizedSQLCipher/src/backup.c:516-548 | nDestTruncate is positive and, when the destination pages are larger, covers the source or stops right before the destination's pending page. |
| BackupPages.OnePageBytes | StudyWCDB/Pods/WCDBOptimizedSQLCipher/src/backup.c:290-333 | A successful backupOnePage writes exactly the bytes of the source page (the size field changed on page 1), skips those on the destination's pending page, and changes nothing else. |
| BackupPages.OnePageKeeps | StudyWCDB/Pods/WCDBOptimizedSQLCipher/src/backup.c:290-333 | Copying one page keeps the copies of all others. |
| BackupProtocol.StepKeeps | StudyWCDB/Pods/WCDBOptimizedSQLCipher/src/backup.c:371-620 | A step keeps the invariant (every non-pending source page below iNext has its copy, and a live backup with iNext>1 is attached) under the weakest condition on the results of its calls: whatever fails with BUSY or LOCKED is not reached or does no harm. |
| BackupProtocol.DoneIsComplete | StudyWCDB/Pods/WCDBOptimizedSQLCipher/src/backup.c:461-605 | A step that returns DONE has committed a file with every byte of the source. |
| BackupProgress.CommittedOnlyWhenDone | StudyWCDB/Pods/WCDBOptimizedSQLCipher/src/backup.c:461-605 | Until the step that reports DONE the file stays as it was, whatever fails. |
| BackupProgress.StepProgress | StudyWCDB/Pods/WCDBOptimizedSQLCipher/src/backup.c:444-502 | A step in which no call fails, between page sizes that go together, raises iNext by nPage or by the number of pages left, whichever is less (a negative nPage asks for all), returns DONE exactly when none is left then, and is attached otherwise. |
| BackupProgress.StepsFinish | StudyWCDB/Pods/WCDBOptimizedSQLCipher/src/backup.c:444-502 | Called again and again with nPage other than 0, such steps finish: each returns DONE or leaves fewer pages. |
| BackupHeader.StepHead | StudyWCDB/Pods/WCDBOptimizedSQLCipher/src/backup.c:371-620 | A step keeps, and its first page brings, the source's header in the destination of a live backup, the bytes that the finishing calls patch aside, on the condition of StepKeeps. |
| BackupHeader.CommitHead | StudyWCDB/Pods/WCDBOptimizedSQLCipher/src/backup.c:713-737 | A commit that reports its changed pages, page 1 among them when the number of pages changes, keeps the header of every backup. |
| BackupHeader.RunKeepsHeads | StudyWCDB/Pods/WCDBOptimizedSQLCipher/src/backup.c:371-759 | So it is over every interleaving of starts, steps, commits, restarts and finishes in which commits report a change of size. |
| BackupHeader.DoneHeader | StudyWCDB/Pods/WCDBOptimizedSQLCipher/src/backup.c:471-502 | The header of a file that a step returning DONE has committed: bytes 40 to 43 are the schema cookie noted when the destination was locked, plus one, and differ from it; bytes 18 and 19 are 2 in WAL mode; bytes 28 to 31 are the number of pages of the source; every other byte is the source's. |
| BackupHeader.CookieNoted | StudyWCDB/Pods/WCDBOptimizedSQLCipher/src/backup.c:421-427 | The cookie noted is the number in bytes 40 to 43 of the destination at the step that locks it, and no step notes another one afterwards. |
| BackupHeader.CookieStays | StudyWCDB/Pods/WCDBOptimizedSQLCipher/src/backup.c:371-759 | Nor does any other event of a run. |
| BackupProtocol.CommitKeeps | StudyWCDB/Pods/WCDBOptimizedSQLCipher/src/backup.c:713-737 | A commit that reports its changed pages leaves every registered backup matching the new source. |
| BackupProtocol.UnregisteredKeeps | StudyWCDB/Pods/WCDBOptimizedSQLCipher/src/backup.c:359-366 | An unregistered live backup has copied nothing, so a commit cannot invalidate it. |
| BackupProtocol.RestartKeeps | StudyWCDB/Pods/WCDBOptimizedSQLCipher/src/backup.c:742-759 | A restart makes up for any unreported change of the source: the invariant holds again for whatever the source has become. |
| BackupFailures.UnreportedChange | StudyWCDB/Pods/WCDBOptimizedSQLCipher/src/backup.c:742-759 | Without it a backup that has copied the changed page reports DONE with what the source held before. |
| BackupProtocol.FatalIsFrozen | StudyWCDB/Pods/WCDBOptimizedSQLCipher/src/backup.c:238-240 | Once a backup is DONE or has failed for good, no event but its finish changes anything of it except iNext. |
| BackupProtocol.EventOk | StudyWCDB/Pods/WCDBOptimizedSQLCipher/src/backup.c:371-759 | Whatever its calls return, an event leaves sizes right and a destination locked before the first copy, so that any further event is defined. |
| BackupProtocol.RunKeeps | StudyWCDB/Pods/WCDBOptimizedSQLCipher/src/backup.c:371-759 | Over every interleaving of starts, steps, commits, restarts and finishes of any number of backups, where at a restart the source may have become anything and have any page size, the invariant holds for each, from an initial state that satisfies it and for results of calls as in StepKeeps. |
| BackupProtocol.DoneForGood | StudyWCDB/Pods/WCDBOptimizedSQLCipher/src/backup.c:371-759 | From the step of any run that returns DONE until the backup is finished, its file equals the source as it was at that step, whatever other steps, commits and unreported changes with restarts follow and whatever they return. |
| BackupFailures.KeptExactlyWhenFailuresAreForGood | StudyWCDB/Pods/WCDBOptimizedSQLCipher/src/backup.c:444-502 | The exact condition: a step keeps the invariant of every backup of every source if and only if it ends before the copy loop, or both hold: every page, the source's pending page aside, that is BUSY or LOCKED when read or written lies on the destination's pending page and comes after another page that fails; and the finishing calls are not BUSY or LOCKED unless page 1 fails. |
| BackupFailures.SkippedPage | StudyWCDB/Pods/WCDBOptimizedSQLCipher/src/backup.c:444-456 | iNext moves on after a failed page: if reading or writing any other page is BUSY or LOCKED, there is a backup that skips it and reports DONE with a wrong byte as soon as all calls succeed. |
| BackupFailures.StoppedUnregistered | StudyWCDB/Pods/WCDBOptimizedSQLCipher/src/backup.c:444-466 | A backup whose first step stops at a BUSY page, the first that fails, has moved iNext on and is not attached. |
| BackupFailures.UnregisteredAtEnd | StudyWCDB/Pods/WCDBOptimizedSQLCipher/src/backup.c:459-502 | A backup that copies everything in its first step and finds the finishing calls BUSY stays live and is never attached. |
| BackupFailures.MissedCommit | StudyWCDB/Pods/WCDBOptimizedSQLCipher/src/backup.c:459-502 | Such a backup is not told of the next commit and reports DONE with the bytes from before it. |
| BackupObject.BackupHandle.CopyPage | StudyWCDB/Pods/WCDBOptimizedSQLCipher/src/backup.c:247-336 | The method with its page loop computes the specified destination and result code. |
| BackupObject.BackupHandle.Step | StudyWCDB/Pods/WCDBOptimizedSQLCipher/src/backup.c:371-620 | The object after a step is the specified one, and it joins the source's list exactly when it becomes attached. |
| BackupObject.BackupHandle.CompleteBackup | StudyWCDB/Pods/WCDBOptimizedSQLCipher/src/backup.c:475-605 | The finishing calls one by one: what each of them leaves in the destination when it or a later one fails, and the committed file when none does. |
| BackupObject.BackupHandle.WriteExtraPages | StudyWCDB/Pods/WCDBOptimizedSQLCipher/src/backup.c:568-583 | The loop over the pages after the pending byte writes each of them at its offset. |
| BackupObject.SourcePager.Attach | StudyWCDB/Pods/WCDBOptimizedSQLCipher/src/backup.c:359-366 | The new backup comes first in the list, which stays well linked. |
| BackupObject.SourcePager.BackupUpdate | StudyWCDB/Pods/WCDBOptimizedSQLCipher/src/backup.c:713-740 | Every backup of the list gets the changed page if it has already copied it; list and order stay. |
| BackupObject.SourcePager.BackupRestart | StudyWCDB/Pods/WCDBOptimizedSQLCipher/src/backup.c:753-759 | Every backup of the list starts again from page 1 and keeps the rest. |
| BackupObject.SourcePager.Detach | StudyWCDB/Pods/WCDBOptimizedSQLCipher/src/backup.c:640-648 | finish unlinks its own backup, wherever it stands, and no other. |
| BitvecForms.Bitvec.constructor | StudyWCDB/Pods/WCDBOptimizedSQLCipher/src/bitvec.c:115-123 | A new bitvec is the empty set. |
| BitvecForms.Bitvec.Test | StudyWCDB/Pods/WCDBOptimizedSQLCipher/src/bitvec.c:130-155 | Membership, in bitmap, hash and tree form, for every u32 argument including 0 and those beyond the size. |
| BitvecForms.Bitvec.Set | StudyWCDB/Pods/WCDBOptimizedSQLCipher/src/bitvec.c:169-232 | Adds exactly the given number to the set, through a promotion in the middle as well. |
| BitvecForms.Bitvec.Split | StudyWCDB/Pods/WCDBOptimizedSQLCipher/src/bitvec.c:213-227 | Rehashing into sub-bitvecs keeps the set, adds the new number, and terminates because the divisor is smaller than the size. |
| BitvecForms.Bitvec.Clear | StudyWCDB/Pods/WCDBOptimizedSQLCipher/src/bitvec.c:240-272 | Removes exactly the given number; the caller's buffer is the only other thing written. |
| BitvecHash.ProbeMiss | StudyWCDB/Pods/WCDBOptimizedSQLCipher/src/bitvec.c:143-150 | An empty slot at the end of a probe means the value is absent. |
| BitvecHash.ProbeStore | StudyWCDB/Pods/WCDBOptimizedSQLCipher/src/bitvec.c:191-231 | Storing at the end of a probe keeps every stored value reachable from its home slot, adds one value and counts it. |
| BitvecHash.EmptySlotExists | StudyWCDB/Pods/WCDBOptimizedSQLCipher/src/bitvec.c:145-150 | A table with fewer values than slots has an empty slot, so every probe ends. |
| BitvecHash.HashRebuild | StudyWCDB/Pods/WCDBOptimizedSQLCipher/src/bitvec.c:255-270 | Clearing by rebuilding the table removes one value and keeps the others reachable and counted. |
| BitvecHash.HashLookup | StudyWCDB/Pods/WCDBOptimizedSQLCipher/src/bitvec.c:143-150 | The probe loop terminates and tells membership. |
| BitvecForms.BinRestUnique | StudyWCDB/Pods/WCDBOptimizedSQLCipher/src/bitvec.c:134-137 | Bin and rest determine the number. |
| BitvecTest.BuiltinTest | StudyWCDB/Pods/WCDBOptimizedSQLCipher/src/bitvec.c:337-410 | The self-test returns 0 for every well-formed program without opcode 5, and otherwise the first number on which the two sets differ. |
| BitvecTest.NoFaultNoDrift | StudyWCDB/Pods/WCDBOptimizedSQLCipher/src/bitvec.c:337-410 | Without opcode 5 the plain array and the bitvec stay the same set. |
| BtMutexProtocol.StepKeeps | StudyWCDB/Pods/WCDBOptimizedSQLCipher/src/btmutex.c:27-152 | Every step of every connection keeps: a handle is locked exactly when its connection owns the mutex, exactly when the protocol says so, and BtShared.db names the owner. |
| BtMutexProtocol.BetweenCalls | StudyWCDB/Pods/WCDBOptimizedSQLCipher/src/btmutex.c:71-97 | In every reachable state, for a connection between calls: locked iff wanted iff the mutex is owned, and then BtShared.db is the connection. |
| BtMutexProtocol.EnterEstablishes | StudyWCDB/Pods/WCDBOptimizedSQLCipher/src/btmutex.c:71-137 | However other connections interfere, when sqlite3BtreeEnter returns the count of its Btree alone has grown by one, and exactly the wanted Btrees are held. |
| BtMutexProtocol.LeaveUndoesEnter | StudyWCDB/Pods/WCDBOptimizedSQLCipher/src/btmutex.c:143-152 | Leaving after entering restores the connection's record and the mutexes it owns. |
| BtMutexProtocol.AssertionsHold | StudyWCDB/Pods/WCDBOptimizedSQLCipher/src/btmutex.c:27-90 | The assertions of lockBtreeMutex, unlockBtreeMutex and sqlite3BtreeEnter hold in every reachable state. |
| BtMutexProtocol.StuckMeansNoStep | StudyWCDB/Pods/WCDBOptimizedSQLCipher/src/btmutex.c:27-35 | Stuck, in what follows, means exactly: inside a call and without a possible step. |
| BtMutexProtocol.HoldsOnlySmaller | StudyWCDB/Pods/WCDBOptimizedSQLCipher/src/btmutex.c:105-137 | A connection waiting for a mutex owns only mutexes of smaller address. |
| BtMutexProtocol.WaitChainEnds | StudyWCDB/Pods/WCDBOptimizedSQLCipher/src/btmutex.c:105-137 | Following who waits for whom always ends at a connection that is not stuck. |
| BtMutexProtocol.NoDeadlock | StudyWCDB/Pods/WCDBOptimizedSQLCipher/src/btmutex.c:105-137 | No reachable state has a set of connections stuck on one another, for any number of connections. |
| BtMutexProtocol.CallsEnd | StudyWCDB/Pods/WCDBOptimizedSQLCipher/src/btmutex.c:105-137 | Each step inside a call brings its end nearer. |
| BtMutexOps.CallDoes | StudyWCDB/Pods/WCDBOptimizedSQLCipher/src/btmutex.c:71-137 | In every run of the protocol and with any interference, what a call of sqlite3BtreeEnter does to mutexes is EnterOps of the connection's record before it: nothing if the handle is locked; else a try; and if that fails, giving up every mutex held behind it in the list, waiting for its own, and taking back every one wanted, in the order of the list. |
| BtMutex.Btree.LockBtreeMutex | StudyWCDB/Pods/WCDBOptimizedSQLCipher/src/btmutex.c:27-35 | Waits for the mutex, which is allowed only while no mutex of a larger address is held, and takes it, BtShared.db and locked together, whatever other threads did to mutexes this one does not own. |
| BtMutex.Btree.TryBtreeMutex | StudyWCDB/Pods/WCDBOptimizedSQLCipher/src/btmutex.c:112-116 | Takes them without waiting, or leaves them as they are when another thread has the mutex. |
| BtMutex.Btree.UnlockBtreeMutex | StudyWCDB/Pods/WCDBOptimizedSQLCipher/src/btmutex.c:41-50 | Gives the mutex back. |
| BtMutex.BtreeLockCarefully | StudyWCDB/Pods/WCDBOptimizedSQLCipher/src/btmutex.c:105-137 | The try and both list loops together leave every handle locked exactly when wanted, and what they do to mutexes is EnterOps, the call of the protocol; no mutex is waited for while a later one is held. |
| BtMutex.BtreeEnter | StudyWCDB/Pods/WCDBOptimizedSQLCipher/src/btmutex.c:71-97 | One more want for this handle only; all handles settled again; what is done to mutexes is a call of the protocol from the connection's record; nothing for a private handle. |
| BtMutex.BtreeLeave | StudyWCDB/Pods/WCDBOptimizedSQLCipher/src/btmutex.c:143-152 | One want less; the mutex is given up with the last, and nothing else is done to mutexes. |
| BtMutex.BtreeEnterAll | StudyWCDB/Pods/WCDBOptimizedSQLCipher/src/btmutex.c:186-202 | Each sharable handle is wanted once more for each place it has among the open databases, and noSharedCache is set only when none is sharable. |
| BtMutex.BtreeLeaveAll | StudyWCDB/Pods/WCDBOptimizedSQLCipher/src/btmutex.c:203-214 | Each is wanted that many times less. |
| BtMutex.HoldsAllMutexes | StudyWCDB/Pods/WCDBOptimizedSQLCipher/src/btmutex.c:223-238 | True exactly when the connection mutex is held and every open sharable database is wanted and owned. |
| BtMutex.AllHeld | StudyWCDB/Pods/WCDBOptimizedSQLCipher/src/btmutex.c:186-238 | What sqlite3BtreeEnterAll leaves is what sqlite3BtreeHoldsAllMutexes asks for. |
| BtMutex.WithAllMutexes | StudyWCDB/Pods/WCDBOptimizedSQLCipher/src/btmutex.c:186-214 | Enter-all followed by leave-all restores every count. |
| RenameEdit.EditSql | StudyWCDB/Pods/WCDBOptimizedSQLCipher/src/alter.c:997-1071 | For tokens inside the text that do not overlap, in any list order, the result is the text with all of them replaced at once; every write stays inside nSql + nList*nQuot + 1 bytes. |
| RenameEdit.OneMore | StudyWCDB/Pods/WCDBOptimizedSQLCipher/src/alter.c:1037-1061 | Replacing the rightmost token left gives the text with one more token replaced. |
| RenameEdit.EditOne | StudyWCDB/Pods/WCDBOptimizedSQLCipher/src/alter.c:1037-1063 | One round in the buffer: room is made or closed up, the new text goes in, the terminator follows, and there is room for the rest. |
| RenameEdit.ColumnTokenNext | StudyWCDB/Pods/WCDBOptimizedSQLCipher/src/alter.c:852-864 | Takes the token that starts furthest right out of the list and no other. |
| RenameEdit.RenameCtx.TokenFind | StudyWCDB/Pods/WCDBOptimizedSQLCipher/src/alter.c:775-788 | Moves the first token made from the element from the parse's list to the head of this one and counts it, or changes nothing. |
| RenameEdit.Parse.TokenMap | StudyWCDB/Pods/WCDBOptimizedSQLCipher/src/alter.c:688-701 | Prepends one token and returns the element. |
| RenameEdit.Splice | StudyWCDB/Pods/WCDBOptimizedSQLCipher/src/alter.c:1052-1061 | memmove, terminator and memcpy together exchange n characters for the new text. |
| RenameEdit.DequoteUndoesQuote | StudyWCDB/Pods/WCDBOptimizedSQLCipher/src/util.c:245-266 | A name between quotes of any of the four kinds, closing quotes in it doubled, reads back as the name. |
| RenameEdit.ReadsBack | StudyWCDB/Pods/WCDBOptimizedSQLCipher/src/alter.c:1012-1049 | What is put in the place of a token reads as the new name, bare or quoted, whenever quotes were asked for or the name does not begin with one. |
| RenameEdit.RenameToItself | StudyWCDB/Pods/WCDBOptimizedSQLCipher/src/alter.c:997-1071 | Renaming to the name that the tokens already spell, bare or in double quotes, leaves the text as it is: bare tokens stay bare and quoted ones quoted. |
| RenameEdit.Dequote | StudyWCDB/Pods/WCDBOptimizedSQLCipher/src/util.c:245-266 | Rewriting in place leaves exactly what the token quotes, or an unquoted token as it was. |
| ParserTables.FindShiftAction | StudyWCDB/Pods/WCDBOptimizedSQLCipher/parse.c:2127-2190 | The lookup loop ends after at most one fallback and finds the token's own entry, else its fallback's, else the wildcard's, else the default. |
| ParserTables.ReadingChosen | StudyWCDB/Pods/WCDBOptimizedSQLCipher/parse.c:2127-2190 | A token is read in some way exactly when some way to read it has an entry in the state, and of those it is itself before its fallback and its fallback before the wildcard. |
| ParserProof.ActionMeans | StudyWCDB/Pods/WCDBOptimizedSQLCipher/parse.c:2127-2190 | For tables that fit a grammar, the action found is an error, a reduction whose right-hand side is on the stack, or a shift of the token as it was read. |
| ParserProof.ReduceKeeps | StudyWCDB/Pods/WCDBOptimizedSQLCipher/parse.c:5021-5038 | The goto after a reduction exists and is no error or shift-reduce; the stack is again as its states promise and stands for the same tokens. |
| ParserProof.ShiftKeeps | StudyWCDB/Pods/WCDBOptimizedSQLCipher/parse.c:2270-2307 | A shift puts the token on the stack as a leaf read as itself, its fallback or the wildcard. |
| ParserProof.AcceptMeans | StudyWCDB/Pods/WCDBOptimizedSQLCipher/parse.c:5183-5186 | An accepting state on top means that the whole stack is one derivation of the start symbol. |
| ParserEngine.Parser.YyShift | StudyWCDB/Pods/WCDBOptimizedSQLCipher/parse.c:2270-2307 | Inside the 100 entries a shift is the move that the tables say, and its turn ends Shifted; on a full stack it empties the stack. |
| ParserEngine.Parser.YyReduce | StudyWCDB/Pods/WCDBOptimizedSQLCipher/parse.c:3101-3127 | A reduction is the move that the tables say, the stack pointer stays inside the stack, an empty rule on a full stack empties it, and the tokens stood for are kept. |
| ParserEngine.Parser.StackOverflow | StudyWCDB/Pods/WCDBOptimizedSQLCipher/parse.c:2228-2249 | Pops everything. |
| ParserEngine.Parser.Turn | StudyWCDB/Pods/WCDBOptimizedSQLCipher/parse.c:5171-5289 | One turn of the main loop: what shift, accept, error, overflow and another turn each mean for the tokens on the stack and for the entry of the tables. It rejects only on an error entry, overflows only when the move needs place 100, accepts only on the accept action, and otherwise makes the move of the tables. |
| ParserMachine.ShiftingShifts | StudyWCDB/Pods/WCDBOptimizedSQLCipher/parse.c:5171-5182 | With room on the stack a turn ends Shifted exactly when the entry for the token in the state on top shifts, as a shift or as a shift-reduce. |
| ParserEngine.Parser.Feed | StudyWCDB/Pods/WCDBOptimizedSQLCipher/parse.c:5135-5289 | A call for one token, for all tables that fit and any number of turns: its turns but the last are reductions inside the stack, and the last one is as Turn says. |
| ParserEngine.Parse | StudyWCDB/Pods/WCDBOptimizedSQLCipher/src/tokenize.c:597-654 | Sound: if the parser accepts, the tokens shifted before the accepting call derive the start symbol. Complete: if the tables cover a finer grammar that derives the tokens, and the turns are more than the nodes of the derivation, the parser accepts all of them when the derivation fits the stack, and overflows when it does not; it never rejects them. |
| ParserComplete.WalkInput | StudyWCDB/Pods/WCDBOptimizedSQLCipher/parse.c:5135-5289 | For tables that cover a finer grammar, all moves of the parse of a derivable input: their number, the greatest height of the stack, and the derivation itself as the tree on the stack at the end. |
| ParserComplete.WalkPart | StudyWCDB/Pods/WCDBOptimizedSQLCipher/parse.c:5171-5289 | From any stack in whose top state an item has a part at its dot, the parser follows any derivation of that part, whatever else is being parsed around it, and the item moves on. |
| ParserComplete.StopsRight | StudyWCDB/Pods/WCDBOptimizedSQLCipher/parse.c:5171-5289 | A parse of a derivable input can stop in one way only: accepted if the stack is large enough and overflowed if not. |
| ParserComplete.OneMeaning | StudyWCDB/Pods/WCDBOptimizedSQLCipher/parse.c:5135-5289 | Where the tables cover the finer grammar, no tokens have two derivations with different trees of the parser's own rules. |
| ParserComplete.DerivedIsMeant | StudyWCDB/Pods/WCDBOptimizedSQLCipher/parse.c:5021-5038 | When the grammar needs no refining, every derivation of it is what completeness speaks of. |
| ParserExample.ParseSemicolon | StudyWCDB/Pods/WCDBOptimizedSQLCipher/parse.c:5135-5289 | The conditions can be met: tables of full size that fit a one-rule grammar and cover it, and the parser accepts its one input. |
| ParserTables.YieldJoin | StudyWCDB/Pods/WCDBOptimizedSQLCipher/parse.c:5021-5038 | The tokens of a stack are those of its parts. |
| WithoutRowid.ConvertToWithoutRowidTable | StudyWCDB/Pods/WCDBOptimizedSQLCipher/src/build.c:1809-1898 | The primary key's columns are the first occurrences of its key and then all other columns of the table; every other index has its key and then the columns of the primary key it lacks; nColumn is exact for each. It gives up exactly when the key of an INTEGER PRIMARY KEY conflicts with an equivalent index. |
| WithoutRowid.MakeKey | StudyWCDB/Pods/WCDBOptimizedSQLCipher/src/build.c:1809-1827 | The key of an INTEGER PRIMARY KEY table: the first index for the same constraint is promoted where it stands, and otherwise a new index with the key's conflict handling and collation enters the list, which stays ordered with REPLACE last. The conflict handling of all other indexes stays. |
| WithoutRowid.AddKey | StudyWCDB/Pods/WCDBOptimizedSQLCipher/src/build.c:1812-1824 | The new index has the key's own conflict handling and collation and comes in at its place. |
| WithoutRowid.Promote | StudyWCDB/Pods/WCDBOptimizedSQLCipher/src/build.c:3453-3469 | Of two equivalent constraints explicit conflict handling wins over the default, and two different explicit ones are an error. |
| WithoutRowid.PlaceFor | StudyWCDB/Pods/WCDBOptimizedSQLCipher/src/build.c:3582-3600 | A new index goes in front of those that replace on conflict and behind the others if it replaces itself, and in front of all if it does not. |
| WithoutRowid.PrimaryKeyCovers | StudyWCDB/Pods/WCDBOptimizedSQLCipher/src/build.c:1882-1898 | Those columns are every column of the table exactly once. |
| WithoutRowid.OtherIndexFindsRows | StudyWCDB/Pods/WCDBOptimizedSQLCipher/src/build.c:1859-1880 | Every other index keeps its key in front and holds the whole primary key, adding nothing it had. |
| WithoutRowid.DedupOrder | StudyWCDB/Pods/WCDBOptimizedSQLCipher/src/build.c:1830-1837 | The columns kept are in the order of their first occurrences. |
| WithoutRowid.MissingOrder | StudyWCDB/Pods/WCDBOptimizedSQLCipher/src/build.c:1859-1898 | The columns added are in the order of the list they come from. |
| WithoutRowid.Index.RemoveRepeated | StudyWCDB/Pods/WCDBOptimizedSQLCipher/src/build.c:1830-1837 | In-place compaction leaves the first occurrences in order and lowers nColumn by the number removed. |
| WithoutRowid.Index.AppendKey | StudyWCDB/Pods/WCDBOptimizedSQLCipher/src/build.c:1859-1880 | Counting and filling agree: the added columns are those of the primary key missing from the key. |
| WithoutRowid.Index.CoverTable | StudyWCDB/Pods/WCDBOptimizedSQLCipher/src/build.c:1884-1898 | The remaining columns are appended in table order, and nColumn is the number of columns of the table. |
| WithoutRowid.Index.Resize | StudyWCDB/Pods/WCDBOptimizedSQLCipher/src/build.c:1673-1692 | The stored columns are kept and there is room for N. |
| WithoutRowid.HasColumn | StudyWCDB/Pods/WCDBOptimizedSQLCipher/src/build.c:1725-1728 | Membership among the first nCol entries. |
| DestroyTable.DestroyTable | StudyWCDB/Pods/WCDBOptimizedSQLCipher/src/build.c:2508-2551 | Destroys each distinct non-zero root of the table and its indexes exactly once, in strictly decreasing order, and terminates. |
| DestroyTable.DropDestroysTheTable | StudyWCDB/Pods/WCDBOptimizedSQLCipher/src/build.c:2508-2551 | With auto-vacuum moving the largest root into each freed place, no root still to be destroyed moves, and exactly the table's own b-trees are gone. |
| DestroyTable.SafeOrders | StudyWCDB/Pods/WCDBOptimizedSQLCipher/src/build.c:2509-2524 | An order of distinct roots never moves a pending root, whatever the database, if and only if it is largest first. |
| DestroyTable.AscendingFails | StudyWCDB/Pods/WCDBOptimizedSQLCipher/src/build.c:2515-2523 | The case the code warns of: 4 before 5. |
| DestroyTable.RootPageMoved | StudyWCDB/Pods/WCDBOptimizedSQLCipher/src/build.c:2449-2470 | All objects at the old root, dropped ones included, move to the new one, and the schema still knows where each surviving b-tree is. |
| Affinity.AffinityType | StudyWCDB/Pods/WCDBOptimizedSQLCipher/src/build.c:1201-1236 | For every type name the 32-bit rolling hash scan gives the documented answer: INT, else CHAR, CLOB or TEXT, else BLOB, else REAL, FLOA or DOUB, else NUMERIC, ignoring case. |
| Affinity.HashIsLastFour | StudyWCDB/Pods/WCDBOptimizedSQLCipher/src/build.c:1207-1208 | The hash is the last four letters, whatever came before. |
| Affinity.FourLetters | StudyWCDB/Pods/WCDBOptimizedSQLCipher/src/build.c:1209-1229 | A comparison with a four-letter constant succeeds exactly when the text read so far ends in that word. |
| AttachArray.Connection.Attach | StudyWCDB/Pods/WCDBOptimizedSQLCipher/src/attach.c:113-159 | The list grows by one entry at the end exactly when all checks and the opening succeed; otherwise it is as before, also after unwinding. |
| AttachArray.AttachMeans | StudyWCDB/Pods/WCDBOptimizedSQLCipher/src/attach.c:113-159 | An ATTACH succeeds if and only if fewer than limit databases are attached, no database has the name and every call succeeds; then the list has the new database at its end and the name finds it, and otherwise the list is as before. |
| AttachArray.AttachAll | StudyWCDB/Pods/WCDBOptimizedSQLCipher/src/attach.c:113-159 | As many databases of different free names as the limit leaves room for can be attached, one after the other, and all are there afterwards. |
| AttachArray.Connection.Unwind | StudyWCDB/Pods/WCDBOptimizedSQLCipher/src/attach.c:249-259 | Closing the new entry, collapsing and resetting nDb gives the old list back. |
| AttachArray.Connection.Detach | StudyWCDB/Pods/WCDBOptimizedSQLCipher/src/attach.c:290-331 | Takes out the open database of that name if it is neither main nor temp nor locked; closed entries are passed over. |
| AttachArray.Connection.Collapse | StudyWCDB/Pods/WCDBOptimizedSQLCipher/src/build.c:499-519 | Keeps the first two entries and the open ones after them, in order. |
| Names.StrICmp | StudyWCDB/Pods/WCDBOptimizedSQLCipher/src/util.c:302-313 | Zero exactly when the names agree ignoring case. |
| AttachArray.NoSuchMeans | StudyWCDB/Pods/WCDBOptimizedSQLCipher/src/attach.c:304-313 | Detach finds nothing exactly when no open database has the name. |
| AttachArray.DetachRemoves | StudyWCDB/Pods/WCDBOptimizedSQLCipher/src/attach.c:290-331 | A detach that succeeds removes the database of that name and nothing else and keeps the order. |
| AttachArray.DetachUndoesAttach | StudyWCDB/Pods/WCDBOptimizedSQLCipher/src/attach.c:113-326 | Detaching what was just attached, in any case of letters, gives the list back. |
| AttachArray.RunKeeps | StudyWCDB/Pods/WCDBOptimizedSQLCipher/src/attach.c:113-331 | Over every run of attaches and detaches: main and temp stay put, all others are open, names stay distinct ignoring case, and the limit is kept. |
| AttachArray.ClosedEntryWouldBreakUnwind | StudyWCDB/Pods/WCDBOptimizedSQLCipher/src/attach.c:249-259 | Why the invariant is needed: with a closed entry in the list, nDb would be reset to one entry too many. |
| Complete.SqliteComplete | StudyWCDB/Pods/WCDBOptimizedSQLCipher/src/complete.c:104-265 | The loop returns whether the scan ends between tokens or in a line comment with the automaton in START. |
| Complete.NextToken | StudyWCDB/Pods/WCDBOptimizedSQLCipher/src/complete.c:153-260 | The scanner loops find the specified token and its end. |
| Complete.TriggerState | StudyWCDB/Pods/WCDBOptimizedSQLCipher/src/complete.c:112-123 | Inside a trigger definition the state is exactly how far SEMI END SEMI has come, white space ignored. |
| Complete.LeavesTriggerOnlyAtEnd | StudyWCDB/Pods/WCDBOptimizedSQLCipher/src/complete.c:112-123 | The first return to START is at the token that completes SEMI END SEMI and at no other. |
| Complete.CompleteTrigger | StudyWCDB/Pods/WCDBOptimizedSQLCipher/src/complete.c:104-265 | For every text: if some of its tokens lead into a trigger definition and it is complete, SEMI END SEMI follows them. |
| Complete.CompleteWithoutTriggers | StudyWCDB/Pods/WCDBOptimizedSQLCipher/src/complete.c:44-80 | The documented rule: a text in which no trigger definition begins is complete if and only if it ends outside strings and block comments and its last token, white space and comments aside, is a semicolon. |
| Complete.TriggerBegins | StudyWCDB/Pods/WCDBOptimizedSQLCipher/src/complete.c:71-83 | A trigger definition begins exactly at TRIGGER after CREATE and any number of TEMPs, at the start of a statement or after EXPLAIN and words that are no keywords. |
| Complete.OutsideState | StudyWCDB/Pods/WCDBOptimizedSQLCipher/src/complete.c:60-75 | Outside trigger definitions the state is the kind of the statement under way. |
| Complete.CompleteTogether | StudyWCDB/Pods/WCDBOptimizedSQLCipher/src/complete.c:104-265 | Two complete texts joined by a line end are complete. |
| Complete.CompleteTogetherExactly | StudyWCDB/Pods/WCDBOptimizedSQLCipher/src/complete.c:104-265 | After a complete first text, the two are complete together if and only if the second is complete or has no token but white space. |
| Complete.CompleteDirectly | StudyWCDB/Pods/WCDBOptimizedSQLCipher/src/complete.c:104-265 | Without a line end in between: behind a complete text, t is complete with it if and only if what follows is complete or has no token but white space, where what follows is t, or, if the first text leaves a line comment open, what comes after the first line end of t. |
| Complete.CompleteUnlessComment | StudyWCDB/Pods/WCDBOptimizedSQLCipher/src/complete.c:104-265 | So two complete texts are complete together unless the first ends in a line comment. |
| Complete.LineEndNeeded | StudyWCDB/Pods/WCDBOptimizedSQLCipher/src/complete.c:170-179 | Without the line end it fails, because a line comment at the end swallows part of the second text. |
| CompleteText.CompleteMeans | StudyWCDB/Pods/WCDBOptimizedSQLCipher/src/complete.c:104-265 | A text is complete exactly when it falls into pieces (blanks, semicolons, block and line comments, quoted texts, words, other characters), with at most an unfinished line comment behind them, whose meanings lead the automaton to START. |
| CompleteText.LexPiece | StudyWCDB/Pods/WCDBOptimizedSQLCipher/src/complete.c:153-260 | In front of what keeps its distance the scanner takes exactly the piece and gives it its meaning: white space for both kinds of comments, no keyword for quoted texts, the keyword for a word. |
| CompleteText.Pieces | StudyWCDB/Pods/WCDBOptimizedSQLCipher/src/complete.c:153-260 | Every text falls into such pieces, with an open comment or quote behind them or nothing. |
| CompleteText.ScanPieces | StudyWCDB/Pods/WCDBOptimizedSQLCipher/src/complete.c:153-260 | The tokens of a text are the meanings of its pieces, and the scan fails exactly at an open quote or block comment. |
| CompleteText.WordMeans | StudyWCDB/Pods/WCDBOptimizedSQLCipher/src/complete.c:196-258 | A word is the token of a keyword exactly when it is that keyword in upper, lower or mixed case. |
| CompleteText.Exchange | StudyWCDB/Pods/WCDBOptimizedSQLCipher/src/complete.c:104-265 | A piece may be exchanged for another of the same meaning wherever what stands next to it keeps its distance. |
| CompleteText.CommentIsBlank | StudyWCDB/Pods/WCDBOptimizedSQLCipher/src/complete.c:158-179 | So a block comment, or a line comment with its line end, may be exchanged for a blank between any two pieces. |
| CompleteText.QuotesHide | StudyWCDB/Pods/WCDBOptimizedSQLCipher/src/complete.c:180-195 | What stands inside quotes of any of the four kinds does not matter, semicolons included. |
| CompleteText.WordsCount | StudyWCDB/Pods/WCDBOptimizedSQLCipher/src/complete.c:196-258 | A keyword may be written in any case, and any word that is no keyword may stand for any other. |
| CompleteText.TriggerNeedsItsEnd | StudyWCDB/Pods/WCDBOptimizedSQLCipher/src/complete.c:71-123 | CREATE TRIGGER, words that are no keywords and a semicolon are complete with END and a semicolon behind them, and not with the semicolon alone. |

## Left out

- Semantic actions of grammar rules, generated tables, virtual machine code, virtual tables,
  authorization, codec keys, out-of-memory paths and the file system: they rest on code not shown here.
- The Swift code of the application: user interface and thin wrappers.
- Stat4Accum: the counters are unbounded here (tRowcnt is 32 bits wide, or 64), a sample is a value, so that
  the reuse of its three count buffers on eviction is not captured, and index columns compare as integers.
- StatDecode.DecodeIntArray: sqlite3LogEst and sqlite3Atoi are parameters.
- Stat4Analyze.AnalyzeIndex: fewer rows than tRowcnt can count, since the counters do not wrap around here.
- Stat4Analyze.Analyze: NULLs and collations, the shortcut for a one-column UNIQUE index, and entries whose
  table row has vanished are not modelled.
- BackupHeader.RunKeepsHeads: that a commit which changes the number of pages reports page 1, where it is
  stored, is assumed.
- BackupProtocol: sqlite3_backup_init's checks, reserved bytes per page, sqlite3BtreeCopyFile and the
  remaining-pages counter, which wraps when the source has shrunk, are not modelled; the pager and file
  calls between the last header change and the end of the commit return one result code, and none of
  them leaves a trace in the committed file when it fails.
- BackupProtocol.RunKeeps: that backupUpdate never finds a destination page BUSY or LOCKED is assumed,
  since the source asserts it.
- BackupProtocol.StepKeeps: bytes on the destination's own pending page count only once the backup is done,
  because until then they are nowhere in the destination's page cache.
- BackupObject.BackupHandle.CopyPage: a difference in reserved bytes between the two databases. That a
  codec forbids another page size is covered: fixedSize stands for it as well.
- BitvecForms.Bitvec: the union of the three forms is three arrays, and the loops that descend in Set and
  Clear are recursive calls; a failed allocation is not modelled. The comment on the size of the hash says
  125 slots; with eight-byte pointers the code has 124, and lets a table without collisions fill up to 123.
- BtMutex.Btree.LockBtreeMutex: a blocking sqlite3_mutex_enter ends with the mutex taken; that it does end is
  BtMutexProtocol.NoDeadlock. The method Meanwhile, which stands for what other threads do, does nothing, but
  only what it promises is used. The pNext links do not change during these routines and are constant fields.
- BtMutexProtocol: releasing the mutex and clearing locked, which only the owner reads, are one step.
- RenameEdit.ColumnTokenNext: its comment says that repeated calls return the tokens in the order in which
  they are encountered; the code returns them from right to left, which the edit relies on.
- ParserEngine.Parser.Feed: a turn limit stands in for termination, since tables that fit may still reduce for
  ever; an error discards the token and the parser goes on, as the build configures it.
- WithoutRowid: azColl and aSortOrder, which the code does not compact along with aiColumn, NOT NULL marks,
  root pages and covering flags.
- ParserEngine.Parse: where the tables fit but do not cover a grammar, acceptance is tied to the tokens
  shifted, not to all tokens given, since such tables may accept on a token other than the end of the input.
- ParserComplete.Covers: that the shipped tables cover a given finer grammar is not checked here; it is a
  condition on single entries and on the tokens that a phrase can begin with.
- Affinity.AffinityType: the estimate of the field size.
- AttachArray.Connection.Attach: reopening as an in-memory database, and schema contents; everything after the
  file is open is one result code.
- Complete: the UTF-16 entry point and the EBCDIC and no-trigger builds.
