# A verified model of the crash-safe chain log and its neighbours

The main subject is the keyed hash-chained log of `src/verel/_chainlog.py`: a live file, a head ledger, an index
of archived ids and archive segments. An append announces itself in the ledger, writes a batch and commits; an
archive writes a segment, index lines, the ledger and last the live log; a crash can stop either after any byte.
The model states every state the four files pass through, and proves what is left after any run of appends,
archives, repairs, crashes and failed writes.

How it is built:

* `Symbols`, `Bytes`, `Chain`: hashes and MACs are free constructors, so two are equal exactly when they were
  computed from the same things. A file is a sequence of bytes, each of which knows the line it belongs to, so a
  piece parses exactly when it is a whole line.
* `Files`, `Index`, `Protocol`: what readers conclude from the files, and every state a writer takes them through,
  completed, stopped or rolled back.
* `Account`: what a disk stands for (records archived, moving, kept, announced and torn). `Holds` says that a disk is
  exactly that. `Reading`, `Checks`, `Search`, `Books`, `Writing`, `Archiving`, `Repairing` and `Runs` show that every
  operation leads from one such disk to another.
* `Recovery`, `Mending`, `Completion`, `Conservation`, `Decided`, `Batches`, `Soundness`, `Refusal`, `Guards`: the main
  results, stated over every run from an empty directory, or over arbitrary bytes. `Limits` has the concrete runs for
  their exceptions.
* `Scan`, `Cache`, `Outcomes`, `Log`: the class `ChainLog`, whose methods read and rewrite the files in loops and are
  proved equal to the functions above, with the id-to-offset cache of append-if-absent.

The smaller subjects are modules of their own: `Sign` (the signing payload), `Transport` (connection admission),
`Sweep` and `Waivers` (two parts of the configuration rules), `Mutants` and `MutationRun` (mutation testing), and
`Canon`, `Actuator` and `Netconf` (comparing configurations and applying one).

Some guarantees hold only under a condition, which the model states exactly:

* `repair` finishes an interrupted archive, but if the live log ended in a complete record without its newline when the
  archive began, the record outlives the archive with nothing that announces it, and the log is refused by both checks
  and by `repair` after any further run (`Recovery.ArchiveRecovers`, `Limits.LeftoverForGood`, `Limits.TornUnderArchive`).
* `repair` of the only batch of an empty log leaves a bare newline, which verifies but to which nothing can be appended
  after any further run (`Mending.RepairExactly`, `Limits.BareNewline`).
* `repair` looks back MAX_TAIL_SCAN bytes, which is less than a batch of MAX_BATCH records of the largest size; a batch
  it cannot see stays interrupted for good (`Mending.RepairExactly`, `Limits.LostSight`, `Limits.RefusedForGood`).
* `repair` says it refuses anything that is not exactly an interrupted write. Its commit step compares the last hash
  alone, and its roll-forward of an archive checks the segment but nothing of the records it keeps: on bytes no writer
  left, either can report success on a log that does not verify. What it removes is bounded for all bytes
  (`Refusal.CommitSound`, `Limits.MissingFirst`, `Soundness.RollForward`, `Limits.EditedUnderArchive`,
  `Soundness.RepairRemoves`).
* `archived_has` says a deleted index is reported, but the report needs a live anchor: with live log and index both
  deleted every archived id reads as never archived, although the ledger lists the archives (`Decided.LookupSound`,
  `Limits.DeletedIndex`).
* `act` confirms what it read back, but a confirm timer that runs out before the read-back lets it verify the old
  configuration, if that one would pass as the desired one, and then commit the edit (`Netconf.LastingIsOldOrVerified`,
  `Netconf.TimerOvertakes`). The documentation says the change reverts unless it is confirmed after a check that passed.
* `act` says rolled back when the confirming commit raises, which is wrong if that commit took effect all the same
  (`Netconf.RolledBackIs`).
* `act` gives the lock back except when the confirming commit raises: then the candidate stays locked
  (`Netconf.CleansUp`).
* `generate_mutants` makes one mutant for a cap below one; its documentation says up to `cap` (`Mutants.GenerateMutants`,
  `Mutants.CapOfZeroMakesOne`).

`dafny verify dfyconfig.toml` checks the whole project.

## Model

| member | source | states |
|---|---|---|
| Bytes.PrefixOfRender | src/verel/_chainlog.py:786-788 | A write of whole lines stopped after any byte has left the first few lines complete and a beginning of the next one, and nothing else. |
| Chain.LinkedIsBuilt | src/verel/_chainlog.py:444-455 | A record list passes the link, hash and MAC checks if and only if it is the list the writer would have made of its bodies; its tip is then their chain head. |
| Chain.HeadInjective | src/verel/_chainlog.py:93-95 | The head of a chain determines the start of the chain and every record in it: equal heads of equally long chains mean equal chains. |
| Index.IndexRoundTrip | src/verel/_chainlog.py:160-195 | An index written for some ids, with further chained lines and a torn tail after them, reads back for its own limit as exactly those digests, their chain MAC and the offset where they end. |
| Index.IndexExtends | src/verel/_chainlog.py:150-158 | Index lines appended after a whole index make the index of the concatenated ids, with the same chain MAC. |
| Index.IndexTamper | src/verel/_chainlog.py:160-195 | Whatever bytes the index holds: if it reads back at a limit with the chain MAC of some ids, exactly those ids count; no line can be edited, removed, repeated or moved. |
| Index.IndexReads | src/verel/_chainlog.py:160-195 | An index reads back at a limit if and only if its non-blank lines are, from the first to the last, the chained lines of some ids, enough of them; then exactly the first ids up to the limit count. |
| Books.FoldKeeps | src/verel/_chainlog.py:1036-1042 | Up to MAX_SEGMENT_ENTRIES archives keep their own entries; beyond, the newest half stay as they are under one unnamed entry for the rest, which keeps the total and what every remaining entry commits to. |
| Books.BooksAdd | src/verel/_chainlog.py:1032-1042 | One more archive, entered and folded: entries still commit to everything archived up to their end, and every segment follows the one before. |
| Checks.FullCheck | src/verel/_chainlog.py:444-477 | The full check accepts exactly the logs with no archive half way whose records end where the ledger says, committed or announced, and returns the live records. |
| Checks.FastCheck | src/verel/_chainlog.py:543-594 | Reading only the first and the last line, the tail check accepts exactly those logs, a bare newline excepted, and names the head and total of the whole chain. |
| Checks.MendHolds | src/verel/_chainlog.py:714-746 | Mending a torn tail turns a complete record without its newline into a record and removes anything shorter; nothing else on disk changes its meaning. |
| Search.FindsSurvivors | src/verel/_chainlog.py:679-712 | The bounded search returns exactly the records after the ledger head when there are any and they lie inside the window, and nothing otherwise. |
| Writing.WriteStatesHold | src/verel/_chainlog.py:759-792 | Every state of an append (announced, after each byte, committed) is one the account describes: nothing written, a part of the announced batch, or all of it committed. |
| Writing.FailedWriteStatesHold | src/verel/_chainlog.py:793-801 | Every state of an append that raises and rolls back is described too, and the last one is the log it started from. |
| Archiving.PlanHolds | src/verel/_chainlog.py:954-1043 | On a log that checks, an archive computes the segment, index lines, ledger and live log for exactly the oldest records and the rest. |
| Archiving.ArchiveStatesHold | src/verel/_chainlog.py:984-1048 | At every state of an archive the log is as it was, or the ledger is ahead of the live log by exactly the moved records, or all of it is done. |
| Archiving.RollbackStatesHold | src/verel/_chainlog.py:1049-1074 | Every state of the rollback of an archive stands for the unchanged log. |
| Repairing.FinishIs | src/verel/_chainlog.py:632-677 | An interrupted archive is finished exactly when one is half way, and the live log written is the one a completed archive leaves. |
| Repairing.ResolveIs | src/verel/_chainlog.py:609-628 | What repair decides about an announced write: commit when all of it is there, cut when a visible part is, refuse otherwise. |
| Repairing.RepairIs | src/verel/_chainlog.py:596-630 | The result and the final log of repair on every mended log, and that every state on the way is one an account describes. |
| Runs.StepHolds | src/verel/_chainlog.py:596-1075 | Any operation that completes, stops dead or raises at any point leads from a described disk to a described disk, and adds nothing but what was announced or admitted. |
| Runs.RunHolds | src/verel/_chainlog.py:596-1075 | Over any run the committed history and the list of archives only grow at their ends. |
| Recovery.FastEqualsFull | src/verel/_chainlog.py:543-594 | On every disk a run can produce, after its torn tail is mended, the tail check and the full check accept the same logs with the same head and total; the one exception is a bare newline. |
| Recovery.AppendRecovers | src/verel/_chainlog.py:714-801 | Wherever an append of n records is cut short, the mended log is what was there and the first k of them, and both checks accept it if and only if k is 0 or n. |
| Recovery.OneRecordRecovers | src/verel/_chainlog.py:807-817 | An append of one record recovers by itself from a crash at any byte. |
| Recovery.ArchiveRecovers | src/verel/_chainlog.py:946-1048 | At every crash point of an archive the live log still verifies unchanged, or the archive is complete, or repair succeeds; it rolls forward to exactly the completed archive if and only if the live log did not end in a complete record without its newline. |
| Mending.RepairExactly | src/verel/_chainlog.py:596-630 | For e of n announced records in the log, repair succeeds if and only if e = n or the search sees them: it commits all or removes exactly e, keeps the committed records and restores a log that the full check accepts, and the tail check too if and only if not (nothing was committed and e < n); with none there it refuses a log that checks already. |
| Mending.AppendRollsBack | src/verel/_chainlog.py:793-801 | An append that raised leaves the bytes it found, a ledger with nothing announced, and a log that reads the same in both checks. |
| Mending.ArchiveRollsBack | src/verel/_chainlog.py:1049-1074 | An archive that raised before the live log was replaced leaves the log, the ledger and the segments it found. |
| Completion.AppendCompletes | src/verel/_chainlog.py:759-792 | An append that ran to its end added exactly its records, chained on, after those that were there; the ledger commits to them with nothing outstanding and nothing else changed. |
| Completion.ArchiveCompletes | src/verel/_chainlog.py:946-1048 | An archive that ran to its end: the segment holds the oldest records anchored as before, the live log the others anchored at the last one moved; the ledger has one more entry, with its name, head and count; head and total are unchanged, and an id counts as archived exactly if it did before or belongs to a moved record. |
| Completion.RollbackKeepsIds | src/verel/_chainlog.py:1049-1074 | A rolled back archive changes no answer about archived ids. |
| Conservation.Conserved | src/verel/_chainlog.py:759-1048 | In every reachable state the segment files in order and then the live records are one unbroken chain from GENESIS; the ledger commits to an initial part of it by count and head, and to all of it when the log verifies with no write outstanding. |
| Conservation.NothingLost | src/verel/_chainlog.py:596-1075 | Whatever run follows, every record that was committed stays in the chain, in its place and unchanged, and the segments made so far stay the first ones. |
| Conservation.AnchorIsArchive | src/verel/_chainlog.py:461-471 | In every state that verifies the anchor is the head of the newest archive entry and the sum of all entries, folded ones included. |
| Soundness.TamperEvident | src/verel/_chainlog.py:444-477 | Whatever bytes are put in place of the live log of a reachable disk: if the full check accepts them they hold exactly the committed records or exactly those and the announced ones. |
| Soundness.SameHeadSameRecords | src/verel/_chainlog.py:444-477 | Of two logs that verify and end in the same head the shorter is the end of the longer; of the same length they are equal. |
| Refusal.SearchSound | src/verel/_chainlog.py:679-712 | Whatever bytes are in the file, the records the search returns are the last ones of the log and chain on from the head it was given. |
| Refusal.RepairSound | src/verel/_chainlog.py:618-628 | The cut. Whatever bytes are in the live log: when resolving an announced write drops records, they are the last ones, chain on from the ledger head and have exactly the first announced hashes but not all; everything else parses as before, and verifies if and only if the whole log was one chain from its anchor, of as many records as are committed and dropped. |
| Refusal.CommitSound | src/verel/_chainlog.py:613-617 | The commit. Whatever bytes are in the live log: when resolving an announced write commits it, the log verifies afterwards if and only if it is one chain from its anchor of the announced length, which is to say if and only if it verified before; the code compares the last hash alone. |
| Soundness.RollForward | src/verel/_chainlog.py:641-677 | The roll-forward. Whatever bytes are in the live log and the segment: the new live log is anchored at the end of the archive and holds the old records but the first ones, whose hashes are those in the segment; it verifies if and only if the kept records chain on from there to where the ledger ends, which the code does not check. |
| Soundness.RepairRemoves | src/verel/_chainlog.py:596-677 | All steps of repair together. Whatever bytes are in the live log and the segments: what a successful repair leaves is a middle part of the records; it removed from the start only what an archive half way moved, with the hashes in its segment, and from the end as many as it says, chained on from the ledger head and with the first announced hashes. |
| Soundness.FinishSound | src/verel/_chainlog.py:632-677 | Whatever bytes are put in place of the live log and the segments of a reachable disk: when an archive is rolled forward, the segment relied on parses to exactly what was archived into it; what the live log then holds is RollForward. |
| Guards.TailEvident | src/verel/_chainlog.py:543-594 | Whatever bytes are put in place of the live log of a reachable disk: if the tail check accepts them, the first line counts exactly what was archived, and the last line is byte for byte the last committed record or the last announced one, or no record is there and the anchor is all that was committed. |
| Guards.EditedTailRefused | src/verel/_chainlog.py:560-570 | Whatever else is on disk, a log whose last line is a record with a wrong hash or a wrong MAC is refused by the tail check and by every append. |
| Guards.ForgedAnchorRefused | src/verel/_chainlog.py:265-306 | Whatever else is on disk, an anchor without the MAC of its head and count is refused by the parser, the tail check and the lookup of archived ids. |
| Guards.ForgedLedgerRefused | src/verel/_chainlog.py:308-337 | Whatever else is on disk, with a ledger whose MAC is not that of its contents both checks and repair refuse, and no operation does more than mend the torn tail. |
| Guards.DeletedLedgerRefused | src/verel/_chainlog.py:444-477 | Without its ledger only an empty log verifies, the tail check accepts only a log that ends in no record and counts none, and repair refuses. |
| Guards.MendSound | src/verel/_chainlog.py:714-746 | Whatever bytes are there, mending keeps every finished line; an unfinished one becomes a line exactly when it is all of a record or anchor with the right hash and MAC, and goes when it is anything else no longer than a line. |
| Guards.SegmentsStay | src/verel/_chainlog.py:946-1075 | Whatever is on disk, no operation, completed, stopped or rolled back, changes or removes a segment that was there. |
| Guards.IndexChecked | src/verel/_chainlog.py:994-1006 | Whatever bytes are put in place of the index of a reachable disk, or with it deleted, an archive leaves everything as it was, or the index reads back, from its first line, as the ids of what was archived. |
| Guards.IndexEnds | src/verel/_chainlog.py:160-195 | The offset an index reads back with is where its last line that counts ends: up to it are exactly that many lines, blank ones between them aside. |
| Guards.ArchiveReturns | src/verel/_chainlog.py:946-984 | What an archive answers and when it does anything at all, by the number asked for, the full check, the records there are and the name. |
| Batches.WritesWhen | src/verel/_chainlog.py:759-783 | A write goes ahead exactly when there is something to write, it is within MAX_BATCH and MAX_RECORDS, and every record fits its line. |
| Batches.AppendReturns | src/verel/_chainlog.py:807-817 | After any run an append is refused with the error the tail check or the size gives and leaves the mended log, or the record is the next line of the file and the last verified record, and the answer is the offset of that line. |
| Batches.BatchDecides | src/verel/_chainlog.py:932-944 | After any run the callback of a batch is asked on exactly the verified records: a rejected batch, a log that does not verify and a batch that does not fit leave the mended log and say so; else exactly the records it asked for were added. |
| Batches.LiveOnce | src/verel/_chainlog.py:932-944 | In any run of append-if-absent, archives, repairs and batches whose callback asks for no id it was shown and for none twice, no two live records share an id whenever the log verifies. |
| Decided.ArchivedHasIs | src/verel/_chainlog.py:214-249 | The archived-id lookup answers yes exactly for ids of archived records, whatever orphan or torn lines follow in the index, and refuses while an archive is half way. |
| Decided.LookupSound | src/verel/_chainlog.py:214-249 | Whatever bytes are put in place of the live log and the index, an answer about an archived id is wrong if and only if the index is missing and the id was archived; without index and live log every id reads as never archived, whatever the ledger says. |
| Decided.AdmitsIfAbsent | src/verel/_chainlog.py:882-930 | Append-if-absent refuses an id exactly when a record of the history, live or archived, has it. |
| Decided.DecidedStays | src/verel/_chainlog.py:882-930 | Once an append-if-absent of an id completed, no run of any operations, crashes, archives and repairs makes another one admissible. |
| Decided.DecidedOnce | src/verel/_chainlog.py:882-1075 | In a run that admits records only by append-if-absent no two live records share an id and none has an archived one. |
| Decided.EachIdOnce | src/verel/_chainlog.py:882-1075 | In such a run no two committed records of the whole chain, segments included, share an id, and in a state that verifies no two records of it at all. |
| Limits.RefusedForGood | src/verel/_chainlog.py:596-1075 | After any run: a log, its torn tail mended, that both the tail check and repair refuse is left as it is by every further run of any operations. |
| Limits.OneRepairDecides | src/verel/_chainlog.py:543-630 | After any run, a log with its torn tail mended is accepted by the tail check, or is after one repair, or no further run changes it after that repair. |
| Limits.LeftoverForGood | src/verel/_chainlog.py:632-677 | After any run whose live log ends in a complete record without its newline: an archive stopped before the replacement and then repair, which reports success, leave a log that neither check accepts and that no further run changes. |
| Limits.BareNewline | src/verel/_chainlog.py:625-627 | A concrete run: repairing the only batch of an empty log leaves a bare newline, which verifies, which every append refuses and which no further run changes. |
| Limits.LostSight | src/verel/_chainlog.py:684-692 | A concrete run: forty large records of an interrupted batch exceed the search window; no check accepts the log, repair refuses it and no further run changes it. |
| Limits.TornUnderArchive | src/verel/_chainlog.py:632-677 | A concrete run: a record stopped before its newline, an archive stopped before the replacement, and repair, which reports success and leaves a log no check accepts and no further run changes. |
| Limits.MissingFirst | src/verel/_chainlog.py:613-617 | A reachable ledger that announces two records over a live log with the second alone: repair reports success and commits a total of two, though what is there does not begin the announced write, and the log does not verify. |
| Limits.EditedUnderArchive | src/verel/_chainlog.py:632-677 | On every log with an archive half way and further records: with another body in the first of those, repair reports success, keeps the edited record and leaves a log that does not verify. |
| Limits.EditedKept | src/verel/_chainlog.py:632-677 | A concrete run that reaches such a log. |
| Limits.DeletedIndex | src/verel/_chainlog.py:214-229 | A concrete run of one record and one archive: with live log and index deleted the archived id reads as never archived, although the ledger lists the archive. |
| Scan.WindowLastPiece | src/verel/_chainlog.py:524-541 | A window that shows a newline before the last line shows all of that line. |
| Scan.OffsetsAreFirst | src/verel/_chainlog.py:837-852 | The offset map holds for every id the start of the first line whose record has it, and no id that no line has. |
| Scan.KeysAreIds | src/verel/_chainlog.py:837-852 | The ids with an offset are exactly the ids of the parsed records. |
| Scan.LineFound | src/verel/_chainlog.py:840-843 | From the start of a line the newline search gives its end, and the bytes between are the line. |
| Cache.CachedLine | src/verel/_chainlog.py:864-880 | Reading one line at a cached offset gives the first verified record with that id, for lines no longer than a reader takes. |
| Cache.LineChecked | src/verel/_chainlog.py:864-880 | Whatever bytes are in the file and whatever offset the cache says, the record handed back stands there byte for byte, with the right hash and MAC and the id asked for. |
| Cache.CacheGrows | src/verel/_chainlog.py:923-927 | After an append the cached offsets with the new one added are what a full scan of the new file finds, and the file verifies. |
| Log.ChainLog.constructor | src/verel/_chainlog.py:129-140 | An empty directory is a log in order. |
| Log.ChainLog.Reopen | src/verel/_chainlog.py:129-140 | A new process on the files a crash left starts with an empty cache, and is in order if the files are. |
| Log.ChainLog.Parse | src/verel/_chainlog.py:275-306 | The line loop computes the parse of the file: anchor on the first line only, blank lines skipped, an unterminated last line ignored. |
| Log.ChainLog.VerifyFiles | src/verel/_chainlog.py:444-477 | The record loop and the ledger comparison compute the full check. |
| Log.ChainLog.LastLine | src/verel/_chainlog.py:524-541 | Growing a window from the end finds the last non-blank line. |
| Log.ChainLog.Tail | src/verel/_chainlog.py:543-594 | The two reads and the comparisons compute the tail check; what it then guarantees is TailEvident and FastCheck. |
| Log.ChainLog.RecordsAfter | src/verel/_chainlog.py:679-712 | The four loops of the bounded search. |
| Log.ChainLog.RepairTornTail | src/verel/_chainlog.py:714-746 | Looking only at a window, the torn-tail rule for the whole file. |
| Log.ChainLog.WriteRecords | src/verel/_chainlog.py:759-801 | Announce, write byte by byte, commit; or with a fault cut back and withdraw: the files pass through exactly the states of the protocol. |
| Log.ChainLog.Append | src/verel/_chainlog.py:807-817 | The states and the result of append, and that a log in order stays in order. |
| Log.ChainLog.AppendBatch | src/verel/_chainlog.py:932-944 | The states and the result of a batch; what it is decided from is BatchDecides. |
| Log.ChainLog.IdsState | src/verel/_chainlog.py:160-195 | The index loop: digests, chain MAC and offset of the lines that count. |
| Log.ChainLog.ArchivedHas | src/verel/_chainlog.py:214-249 | The lookup of an archived id. |
| Log.ChainLog.LiveIds | src/verel/_chainlog.py:819-862 | The ids returned are exactly those of the verified records, cached or not; on a log that ends in a newline the offsets are trusted and are those of a full scan. |
| Log.ChainLog.ScanLines | src/verel/_chainlog.py:837-854 | The scan succeeds on a verified log exactly when it ends in a newline, and then finds the first line of every id. |
| Log.ChainLog.LineAt | src/verel/_chainlog.py:864-880 | One line read back and checked on its own. |
| Log.ChainLog.CheckDuplicate | src/verel/_chainlog.py:899-922 | Whether an id was seen, live or archived, and for a live one the first record that has it. |
| Log.ChainLog.AppendIfAbsent | src/verel/_chainlog.py:882-930 | The states and the result of append-if-absent with its cache, the record handed back for a duplicate, and that the cache afterwards is a full scan of the new file. |
| Log.ChainLog.FinishArchive | src/verel/_chainlog.py:632-677 | Rolling an archive forward. |
| Log.ChainLog.Repair | src/verel/_chainlog.py:596-630 | The states and the result of repair. |
| Log.ChainLog.ResolveWrite | src/verel/_chainlog.py:604-628 | The part of repair after the torn tail. |
| Log.ChainLog.IdLines | src/verel/_chainlog.py:150-158 | The loop that chains index lines. |
| Log.ChainLog.IdsEnd | src/verel/_chainlog.py:994-1006 | Where the index ends that counts. |
| Log.ChainLog.ArchiveFirst | src/verel/_chainlog.py:946-1075 | The states and the result of an archive, and of its rollback when any of its writes raises. |
| Log.ChainLog.MoveRecords | src/verel/_chainlog.py:984-1075 | The segment and the index check; a segment whose ids cannot be indexed, or whose writing raised, is taken back. |
| Log.ChainLog.MoveRest | src/verel/_chainlog.py:1003-1075 | The index lines, the ledger and last the live log; a fault before the last takes back the ledger, the lines and the segment, in that order. |
| Sign.RoundTrip | src/verel/_sign.py:17-19 | A parser that never searches content for a boundary reads every tuple of fields back from its payload. |
| Sign.Injective | src/verel/_sign.py:17-19 | Equal payloads come from equal tuples, whatever digits, colons and commas the fields hold. |
| Sign.Concatenates | src/verel/_sign.py:17-19 | The payload of concatenated tuples is the concatenation of the payloads. |
| Transport.StepKeeps | src/verel/transport.py:137-185 | Every atomic step any thread can take keeps free plus held slots constant and every share count equal to its holders and within the limit; a slot is given back only when one is out. |
| Transport.AdmissionSafe | src/verel/transport.py:111-185 | The same over all interleavings of accept and worker threads, and when no connection is left the counters are the initial ones. |
| Transport.RunMore | src/verel/transport.py:137-185 | A run is its steps one after the other, leaving out those that are not enabled. |
| Transport.NoFalseDrop | src/verel/transport.py:160-162 | No connection is dropped for want of a slot while fewer than the limit are held. |
| Transport.NoFalseRefusal | src/verel/transport.py:137-144 | After any interleaving an address is refused exactly when as many connections of it as the limit hold a share. |
| Transport.Server.constructor | src/verel/transport.py:111-127 | A new server has all slots free and no share taken. |
| Transport.Server.Acquire | src/verel/transport.py:160-162 | A slot is taken exactly when one is free. |
| Transport.Server.Release | src/verel/transport.py:165-185 | A slot goes back and the semaphore stays within its bound. |
| Transport.Server.AdmitIp | src/verel/transport.py:137-144 | A share is granted exactly while the address holds fewer than its limit. |
| Transport.Server.ReleaseIp | src/verel/transport.py:146-154 | The share goes back; an address that holds none is forgotten. |
| Transport.Server.ProcessRequest | src/verel/transport.py:156-173 | Handed to a worker exactly when a slot and a share are free and the thread starts; else nothing has changed. |
| Transport.Server.FinishRequest | src/verel/transport.py:175-185 | A finished request gives back exactly one slot and one share. |
| Sweep.SweepIsPairs | src/verel/ci/telecom_cfg.py:364-378 | On pools of one IP version sorted by start, the sweep that tracks only the furthest end reports something if and only if some two pools conflict, the agreement of equal subnets for one DNN excepted. |
| Sweep.ConflictIs | src/verel/ci/telecom_cfg.py:367-376 | Two pools conflict exactly when some address is in both, unless they name the same subnet for the same DNN. |
| Sweep.SessionsConflict | src/verel/ci/telecom_cfg.py:358-366 | Some two pools conflict exactly when two of the sessions, one after the other in the list, have subnets that are there and parse to conflicting networks; all others are skipped. |
| Sweep.SweptIsConflict | src/verel/ci/telecom_cfg.py:367-376 | Whatever the sweep reports is a pair of pools that conflict. |
| Sweep.SweepGroup | src/verel/ci/telecom_cfg.py:366-378 | The loop with its active interval computes the sweep. |
| Sweep.FindOverlaps | src/verel/ci/telecom_cfg.py:358-378 | Over both versions and any sessions, unparsable subnets skipped: something is reported if and only if some two pools conflict, and only such pairs are. |
| Waivers.MatchIssue | src/verel/ci/telecom_cfg.py:655-666 | A finding matches a selector exactly when every item of it does. |
| Waivers.ByRule | src/verel/ci/telecom_cfg.py:673 | A rule id stands for the waivers of the last rule that has it. |
| Waivers.ApplyWaivers | src/verel/ci/telecom_cfg.py:669-706 | The findings come first, in order, each unchanged or lowered in severity and confidence by the first unexpired waiver of its rule that matches; then the notices. |
| Waivers.NothingDropped | src/verel/ci/telecom_cfg.py:679-695 | Of a finding, waived or not, the place, the rule, the message, every other detail and how severe it was can be read off the output, and of a waived one which waiver and until when. |
| Waivers.WaivedWhen | src/verel/ci/telecom_cfg.py:655-695 | A finding is waived if and only if some waiver that has not expired, of the last rule with the id the finding gives, asks for nothing the finding does not answer: locator patterns, and details up to case. |
| Waivers.NoticeWhen | src/verel/ci/telecom_cfg.py:697-705 | A waiver of a rule is reported as stale if no finding of the rule answers it, as expired if one does and it has expired, and else not at all. |
| Waivers.WaiversInOrder | src/verel/ci/telecom_cfg.py:697-705 | Notices are looked for rule by rule and waiver by waiver, none left out. |
| Waivers.SuppressesOrExpired | src/verel/ci/telecom_cfg.py:679-705 | A waiver of the rule of a finding that matches it suppresses it, or is reported as expired and never as stale. |
| Waivers.OneNoticeEach | src/verel/ci/telecom_cfg.py:697-705 | There is exactly one notice for every waiver that matches nothing, which says stale, or that matches and is expired, which says expired. |
| Waivers.GateIsUnwaived | src/verel/ci/telecom_cfg.py:669-742 | Of the findings after waivers, the notices and, with no active rule, the warning that nothing was verified: the verdict is FAIL if and only if some error or critical finding was not waived, and PASS if and only if some rule is active, every finding above INFO was waived and no waiver is stale, or expired and matching. |
| Waivers.Grade | src/verel/ci/telecom_cfg.py:733-742 | The loops over the reported findings give that verdict, and every finding is in the report, in order, unchanged or lowered. |
| Mutants.FindSites | src/verel/ci/mutation.py:54-61 | The queue of the walk finds the sites in breadth-first order. |
| Mutants.SitesInTree | src/verel/ci/mutation.py:38-61 | Every site is a node of the tree, of that kind and on that line. |
| Mutants.AllSites | src/verel/ci/mutation.py:38-61 | Every mutable node of the tree is a site, and no node is one twice. |
| Mutants.SitesAndMutants | src/verel/ci/mutation.py:38-85 | Which nodes can be mutated, and that every mutation but that of a return keeps the operands and the line. |
| Mutants.CompareNegates | src/verel/ci/mutation.py:25-26 | The mutant of a comparison is its negation. |
| Mutants.BinaryInverts | src/verel/ci/mutation.py:27 | The mutant of an arithmetic operation is its inverse. |
| Mutants.MutantDiffersOnce | src/verel/ci/mutation.py:64-85 | A mutant is a different tree and differs from the source at exactly its one site. |
| Mutants.MutantRestores | src/verel/ci/mutation.py:64-85 | Except for returns, applying the mutation again restores the source. |
| Mutants.SwapKeepsSites | src/verel/ci/mutation.py:54-85 | Except for returns, a mutant has the same sites in the same order, of the same kinds and on the same lines. |
| Mutants.GenerateMutants | src/verel/ci/mutation.py:92-114 | One mutant for each of the first sites on the wanted lines, in walk order; at most cap of them if and only if cap is at least one, or it is zero and no site is wanted. |
| Mutants.CapOfZeroMakesOne | src/verel/ci/mutation.py:92-114 | A concrete module of which a cap of zero makes one mutant. |
| Mutants.MutantsAreSingle | src/verel/ci/mutation.py:92-114 | Every generated mutant is a single change on a wanted line. |
| MutationRun.JobsInOrder | src/verel/ci/mutation.py:152-180 | What there is to run: target by target, nothing for one that names no module inside the repository, else its mutants in order. |
| MutationRun.MutantsForAre | src/verel/ci/mutation.py:92-114 | The mutants of a module are those of the first wanted sites in walk order, all of them if the cap allows it. |
| MutationRun.Runner.RunMutant | src/verel/ci/mutation.py:171-179 | The suite runs on exactly one mutated file; cut at its timeout it does not count as passing, and the mutant counts as run. |
| MutationRun.Runner.RunTarget | src/verel/ci/mutation.py:167-189 | One target: its mutants are run in order, all of them unless the suite raised or no further timeout fits the budget; the text is back even when the suite raises. |
| MutationRun.Runner.RunMutation | src/verel/ci/mutation.py:135-190 | After a green baseline the runs are of a first part of all mutants of all targets, in order, and of all of them unless the suite raised or no further timeout fits the budget; the survivors are exactly those the suite passed on. It raises exactly when the last run did. Every file is restored however it ends, and a red baseline writes nothing. |
| MutationRun.EndsInTime | src/verel/ci/mutation.py:117-180 | If the timeout fits the budget, every run ends within the budget from entry, but for the time it took to write the mutant after the budget was looked at. |
| Canon.NormAtIs | src/verel/ci/telecom_actuator.py:75-89 | Normalizing raises exactly when the nesting, dropped values aside, exceeds the bound, and else gives the normal form. |
| Canon.CanonCompares | src/verel/ci/telecom_actuator.py:92-93 | Within the bound two values compare equal if and only if they are equal up to loc keys and the order of set-like lists at every depth; lists under _order keys keep their order. |
| Canon.KeysMatter | src/verel/ci/telecom_actuator.py:75-89 | Values under a loc key never count, the order of a list counts exactly under keys that end in _order, and any other value counts. |
| Canon.NormIdempotent | src/verel/ci/telecom_actuator.py:75-89 | Normalizing twice is normalizing once, and never deepens a value. |
| Actuator.CellFieldsSame | src/verel/ci/telecom_actuator.py:100-115 | Two cells have the same twelve compared fields if and only if they are the same in service: lists in any order, JSON attributes up to loc keys and the order of set-like lists; the comparison raises if and only if one is nested too deeply. |
| Actuator.NfFieldsSame | src/verel/ci/telecom_actuator.py:118-135 | The same of network functions: PLMNs, slices, served areas and endpoints in any order, replicas, and all other attributes; it raises also on a served area that is no mapping and on codes of one PLMN that cannot be compared. |
| Actuator.ApprovalIff | src/verel/ci/telecom_actuator.py:138-154 | Classifying raises nothing and finds nothing if and only if for every cell there the desired list has one of that name, and for every network function one of that kind and name, the same in service; of several the last counts. |
| Actuator.DistinctKept | src/verel/ci/telecom_actuator.py:138-154 | When no two have the same name, or kind and name, that is every object there. |
| Actuator.MatchesIff | src/verel/ci/telecom_actuator.py:161-170 | The fields agree both ways if and only if the same holds of the lists in both directions: each running object has a desired one, the same in service, and each desired one a running one; and that is symmetric. |
| Actuator.Critical | src/verel/ci/telecom_actuator.py:111-115 | The loop over the fields of two objects lists exactly those that differ. |
| Actuator.ClassifyObjects | src/verel/ci/telecom_actuator.py:142-153 | The loops over names list exactly the removed objects and the changed fields of those in both, unless a comparison raises. |
| Actuator.ClassifyChange | src/verel/ci/telecom_actuator.py:138-154 | The reasons are those of cells and network functions, later ones replacing earlier ones of the same name; there are none exactly when everything there is kept. |
| Actuator.RemovedNamed | src/verel/ci/telecom_actuator.py:142-151 | Every cell without a namesake in the desired list, and every network function without one of its kind and name, is listed as removed, under that name. |
| Actuator.PlanAction | src/verel/ci/telecom_actuator.py:191-197 | A change needs no approval if and only if every object of the current lists stays, the same in service; one that cannot be compared needs it. |
| Actuator.MatchesDesired | src/verel/ci/telecom_actuator.py:161-170 | The mismatch list holds what is removed or changed in either direction, raising when a comparison does; it is empty if and only if the fields of all objects agree both ways, and an empty running model never matches one with objects. |
| Netconf.VerifiedIs | src/verel/ci/telecom_actuator.py:249-268 | What passes the read-back parses, grades other than FAIL and has the same objects as the desired model, each the same in service. |
| Netconf.VerifyRunning | src/verel/ci/telecom_actuator.py:249-268 | Verification succeeds exactly when the running configuration was read, parses, grades other than FAIL and matches. |
| Netconf.MakePlan | src/verel/ci/telecom_actuator.py:184-201 | The plan binds the grade, the edit with its digest, the desired model if both configurations parse, and the class of the change; there is none exactly when grading raised. |
| Netconf.Act | src/verel/ci/telecom_actuator.py:203-247 | Whatever any call does, the calls sent and the result are one of the listed sequences. |
| Netconf.EveryGuard | src/verel/ci/telecom_actuator.py:210-219 | Whatever the session does, if anything but the lock was sent, then the payload is not empty and has the bound digest, there is a desired model that did not grade FAIL, and an irreversible change was approved. |
| Netconf.UnapprovedKeepsAll | src/verel/ci/telecom_actuator.py:184-219 | From planning on: if anything but the lock was sent without approval, both configurations parsed and every object of the current one stays, the same in service. |
| Netconf.SucceedsWhen | src/verel/ci/telecom_actuator.py:203-247 | Success exactly when every guard passes, no call up to the confirming commit raised, and what was running at the read-back verified. |
| Netconf.PlannedSucceeds | src/verel/ci/telecom_actuator.py:184-247 | The same from planning on, on the two configurations and the edit alone. |
| Netconf.CleansUp | src/verel/ci/telecom_actuator.py:225-247 | An edit that was not confirmed was followed by a discard, and the lock is given back last unless the confirming commit raised. |
| Netconf.OnlyBoundEdits | src/verel/ci/telecom_actuator.py:210-226 | Only a payload with the bound digest is ever sent, after every guard; a refusal that was not rolled back sent no edit. |
| Netconf.OneVerifiedCommit | src/verel/ci/telecom_actuator.py:225-242 | The permanent commit is sent at most once, and only right after a confirmed commit whose running configuration was read back and verified. |
| Netconf.WithoutCommitOldLasts | src/verel/ci/telecom_actuator.py:232-246 | Without a permanent commit the old configuration is the one that lasts. |
| Netconf.LastingIsOldOrVerified | src/verel/ci/telecom_actuator.py:203-247 | With no other writer the lasting configuration is the old one or a verified one, except in exactly these sessions: every guard passes, the first four calls go through, the confirm timer runs out before the read-back, the commit takes effect, the old configuration verifies as the desired one, and the edit changes it to one that does not. |
| Netconf.RolledBackIs | src/verel/ci/telecom_actuator.py:229-247 | A result that says rolled back is wrong of the lasting configuration in exactly these sessions: every guard passes, the first four calls go through, what is running then verifies, and the confirming commit raises although it took effect and the edit changes something. |
| Netconf.OldOrVerifiedUnlessAlready | src/verel/ci/telecom_actuator.py:203-247 | If the old configuration does not itself verify as the desired one, the lasting one is old or verified under every session behaviour. |
| Netconf.TimerOvertakes | src/verel/ci/telecom_actuator.py:231-242 | A concrete session in which it does. |

## Left out

- Cryptography: hashes and MACs are injective symbols; the 16 digit truncation of id digests and of index MACs is not modelled.
- File sizes: the reader's caps on files, lines and line counts, except the window of the search and the limits in the torn-tail rule.
- Text: one character is one byte, blank means empty, and a record is always written back as the same bytes; a record that was re-serialized with the same hash is not modelled.
- Widths: records are a fixed frame and their two texts, anchors and index lines have fixed widths; only the window theorems depend on the numbers.
- Locks, fsync modes, temporary names, symbolic links and file modes: taking the lock, appending and atomic replacement are primitives.
- Double faults: a rollback that itself fails.
- The verified-records cache and the archived-digests cache, which depend on file timestamps; the id cache compares file contents where the code compares a fingerprint.
- Logs without an id field, `expect_head`, and reading a log without its lock.
- Errors: every corruption is one error; which exception a missing file or an archive entry of no records raises is not told apart.
- Log.ChainLog.AppendIfAbsent: that the log stays in order and the cache a full scan is stated for logs in order, which every run and every crash leaves; states and result are stated for any files.
- Log.ChainLog.ScanLines: a line mentions a record's hash when it decodes to a record with it.
- Refusal.RepairSound: stated for files that end in a newline, as the torn-tail rule leaves all but those whose last piece is longer than any line.
- Soundness.RepairRemoves: the same files.
- Transport.Server.ProcessRequest: one thread at a time; interleavings are the state machine of `Transport.AdmissionSafe`.
- Transport.Server.constructor: a limit below one is excluded, where the code raises.
- Sweep.FindOverlaps: parsing subnets is a parameter whose networks have a first and a last address; the DNN and size parts of the rule are left out as easy.
- Waivers.ApplyWaivers: glob matching, lower case and date formats are parameters; JSON encoding of the detail is a map.
- Mutants.GenerateMutants: trees are values, so a mutation makes a new tree where the code changes a fresh parse in place; parsing, unparsing and labels are left out.
- MutationRun.Runner.RunMutation: suite runs and writes take time, parsing and generating do not; the suite does not write the targets; path checks are a parameter.
- Canon.CanonCompares: writing JSON is an injective parameter and comparing what is written a total order; values the encoder turns into text by default are scalars.
- Actuator.NfFieldsSame: which codes can be compared and the order of plain strings and pairs are parameters; sorting raises when two different codes of one PLMN cannot be compared; powers are exact.
- Netconf.Act: parsing and grading are parameters that may raise.
- Netconf.MakePlan: the configurations are texts; reading them from the repository is not part of this model.
- The rest of the repository: rule tables, parsers, gateways, TLS contexts, servers, command lines and agents.
