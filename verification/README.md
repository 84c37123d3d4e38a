# Verification of the inventory service and its Redis core

A Dafny model of the parts of this repository whose correctness is hardest to see: the
stock ledger of the inventory service (`controller/product.controller.js`) and, of the
bundled Redis 7.2.3, the append-only file, ACL selectors, blocked clients, CRC64, bit
operations, background jobs, the linked list and CONFIG REWRITE. `dafny verify
dfyconfig.toml` checks all of it.

| module | models | main results |
|---|---|---|
| `AofManifest`, `AofManifestText`, `AofRewrite`, `AofRewriteEffects` | manifest, its bytes, background rewrite, crashes and restarts | `CrashSafety`, `RewriteTakesEffect`, `TextRoundTrip` |
| `AofCodec`, `AofLoad` | RESP encoder, recovering loader | `RoundTrip`, `PrefixLoads`, `AppendAfterRecovery` |
| `AofFlush` | flushing under partial writes | `Session`, `Aof.Flush` |
| `Acl`, `AclRules`, `AclSelector`, `AclEffects`, `AclQuotes` | permission bitmap and rule string | `RecomputeRebuilds`, `DescriptionSetsBack`, `ReservedBit`, `RemoveCommandRule`, `SetSelector` |
| `Blocked` | two-way index, ready keys, serving pass | `HandleClientsBlockedOnKeys`, `NobodyForgotten`, `HandleClientsBlockedOnKey`, `Server.Valid` |
| `Crc64`, `Gf2` | slice-by-8, the shift register, polynomial remainders | `Compute`, `CrcIsRemainder`, `Chaining` |
| `Bits`, `Bitfield`, `Swar`, `BitCount`, `BitPos`, `BitOp` | bit operations | `IncrBy`, `Set`, `Get`, `Bitcount`, `BitposRange`, `Bitop` |
| `Bio` | background jobs, interleaved | `RunsOnceInOrder`, `CountersTrue`, `DrainReturnsDone`, `NoLostWakeup` |
| `AdList` | doubly linked list | every operation against sequences, `Sweep` |
| `ConfigRewrite` | line reuse | `RewriteConfig` |
| `Sds`, `Decimal`, `Wrappers` | splitting and quoting of arguments, numerals, options | `Sdssplitargs`, `SplitRepr` |
| `StockLedger` | intake, sales, reversals | `Run`, `Conservation` |

State that the source updates in place is a class or an array with methods proved against
specification functions. The rewrite protocol and the background jobs are state machines
over their steps, with a crash or another thread possible between any two. The AOF manifest
is a value because the source edits a duplicate and swaps it in. Machine integers are
written out where their width matters: 64-bit wrap-around in the bitfield checks, 32-bit
words in the population count, the 1024-bit command bitmap.

## Where the code does not do what one would expect

In each case the model follows the code, and the exact condition is proved.

- Loading an AOF that was cut inside a command of an open transaction cuts the file back to
  the last whole command and leaves its MULTI in place. What is appended later is queued
  behind that MULTI at the next load: dropped, or, if a transaction is among it, run together
  with the half-written one (`AofLoad.AppendAfterRecovery`, `AofLoad.QueuedEffects`,
  `AofLoad.AppendLost`). A cut between two commands of the transaction is handled.
- A manifest whose file names have a single quote, and nothing else to escape, is printed
  without quotes and then not read back, because `sdsneedsrepr` does not look for what
  `sdssplitargs` takes for a quote. `appendfilename` decides (`AofManifestText.TextRoundTrip`,
  `AofManifestText.NamesQuotable`, `AofManifestText.OneSingleQuote`).
- An ACL operation may hold a quote in a first argument. Its rules then do not come back from
  `sdssplitargs`, or come back changed, although the source asserts that they do
  (`Acl.RecomputeRebuilds`, `Acl.QuoteBreaksRules`). The check in
  `ACLDescribeSelectorCommandRules` compares bitmaps only and does not see all of these
  (`AclQuotes.DescribeFails`, `AclQuotes.QuotesPass`).
- The worker of background jobs and those who drain it share one condition variable. With two
  threads that drain at once its wake-up can go to one of them (`Bio.TwoDrainersSleep`). The
  server drains from its main thread only, and then none is lost (`Bio.NoLostWakeup`).
- An INCR file made by `openNewIncrAofForAppend` is not opened with O_APPEND. A short write
  that ftruncate undoes leaves the file offset behind the end of the file, and the next
  write leaves a gap (`AofFlush.Session`, `AofFlush.CourseEnds`, `AofFlush.Gap`).
- BITFIELD SET with OVERFLOW SAT stores the greatest instead of the least value for
  arguments below max - (2^63 - 1), and for negative arguments of an unsigned field
  (`Bitfield.SignedSet`, `Bitfield.UnsignedSet`, `Bitfield.SetSaturatesToTheWrongEnd`,
  `Bitfield.NegativeSaturatesAtTheTop`).
- A sale of a negative quantity of a product whose batches are all empty is recorded without
  moving stock (`StockLedger.DrawTakes`, `StockLedger.NegativeSaleLost`).
- `recordSales` replies when it meets an empty batch and goes on. At the second one the reply
  throws and the sale is rolled back, though there may be stock for it behind
  (`StockLedger.Ledger.Sell`, `StockLedger.TwoEmptyBatches`).
- Deleting a sale under another product puts its stock into that product
  (`StockLedger.Conservation`, `StockLedger.DeletedUnderAnother`). It is refused after a sale
  that emptied the last two or more batches at once, because a Lasts document is written only
  when the product had a single batch (`StockLedger.NoLastsForTwo`).
- The comment on `handleClientsBlockedOnKeys` says that clients waiting for another type are
  moved to the other end of the queue. The code leaves them where they are
  (`Blocked.Server.HandleClientsBlockedOnKey`).
- The comment on `rewriteConfigRewriteLine` says that a forced line is appended if the option
  has old lines. The code appends it if there are none left, and otherwise reuses the first.
- The `$sort` by expiry date in `recordSales` sorts product documents, so batches are drawn
  in the order in which they are stored.

## Model

| member | source | states |
|---|---|---|
| AofRewrite.CrashSafety | redis/redis-7.2.3/src/aof.c:2425-2493 | Main result. After any run of writes, flushes, rewrite steps, child success or failure, history deletion, crashes and restarts, loading what the manifest on disk names gives exactly the flushed dataset, and the server can always start |
| AofRewriteEffects.RewriteTakesEffect | redis/redis-7.2.3/src/aof.c:2582-2690 | Main result. A rewrite whose calls succeed, with anything but a crash and the death of the child between the fork and the end: the manifest on disk then has as live files exactly a base, which holds the dataset as it was at the fork, and the INCR file opened at the fork, both under numbers that no manifest on disk has had; every file that was live before is in the history |
| AofRewriteEffects.RewriteCleansUp | redis/redis-7.2.3/src/aof.c:668-693 | When the history has been deleted and the manifest persisted, none of the files that were live before is in the directory, and the two live files are as they were |
| AofRewriteEffects.HistoryDeleted | redis/redis-7.2.3/src/aof.c:668-693 | Deleting the history removes exactly its files, and the manifest on disk lists none and the same live files |
| AofRewriteEffects.RewriteFails | redis/redis-7.2.3/src/aof.c:790-853 | A rewrite that fails at any call, or in the child, leaves the server running with its dataset, without a child and with the manifest on disk as it was; the base of a rewrite that could not be persisted is unlinked |
| AofRewriteEffects.NeverUsed | redis/redis-7.2.3/src/aof.c:427-465 | The names of the next base and INCR file are in no manifest that was on disk before, because the numbers on disk only grow |
| AofRewriteEffects.FlushedWrite | redis/redis-7.2.3/src/aof.c:1320-1356 | The effect of a command is in memory at once, and recovered from disk after the next flush |
| AofRewriteEffects.Restarts | redis/redis-7.2.3/src/aof.c:713-768 | After a crash at any time a new process loads the flushed dataset, opens its files and runs |
| AofRewrite.EventKeeps | redis/redis-7.2.3/src/aof.c:2582-2707 | Every enabled event keeps the invariant that ties disk, manifest, buffer, open file and program counter together |
| AofRewrite.RecoverFlushed | redis/redis-7.2.3/src/aof.c:232-252 | In every state of the invariant, whatever the program counter, reading the manifest and loading its files gives the flushed dataset |
| AofRewrite.WriteKeeps | redis/redis-7.2.3/src/aof.c:1320-1359 | A write, fed with a SELECT only when the database changes, leaves a buffer that still completes the file to the dataset in memory |
| AofRewrite.FedExecutes | redis/redis-7.2.3/src/aof.c:1320-1359 | Replaying what was fed does what the command did, in its database |
| AofRewrite.FlushKeeps | redis/redis-7.2.3/src/aof.c:1064-1266 | A complete flush empties the buffer, and the files now replay to the dataset in memory |
| AofRewrite.LastIncrOnce | redis/redis-7.2.3/src/aof.c:473-485 | The file that a flush appends to is not read anywhere else in a load |
| AofRewrite.RewriteBeginKeeps | redis/redis-7.2.3/src/aof.c:790-853 | Flushing, forgetting the selected database and creating the next INCR file keep the invariant, also when open fails |
| AofRewrite.NewIncrNotLive | redis/redis-7.2.3/src/aof.c:455-464 | The name of the next INCR file is not that of a live file, so truncating it loses nothing |
| AofRewrite.EmptyIncrMatches | redis/redis-7.2.3/src/aof.c:790-853 | A manifest with one more, empty INCR file loads to the same dataset |
| AofRewrite.RewritePersistKeeps | redis/redis-7.2.3/src/aof.c:790-853 | Persisting the manifest with the new INCR file, or failing to, keeps the invariant |
| AofRewrite.RewriteForkKeeps | redis/redis-7.2.3/src/aof.c:2425-2493 | At the fork the child sees the dataset of all files before the INCR file just opened |
| AofRewrite.ChildDoneKeeps | redis/redis-7.2.3/src/aof.c:2582-2707 | Renaming the rewritten base over a name that is not live keeps the invariant, whether or not rename succeeds |
| AofRewrite.RewrittenMatches | redis/redis-7.2.3/src/aof.c:2582-2707 | The new base followed by the last INCR file loads to what the old base and all INCR files load to |
| AofRewrite.RewrittenTidy | redis/redis-7.2.3/src/aof.c:492-522 | After the rewrite every history entry is an older BASE or an INCR before the live ones |
| AofRewrite.DonePersistKeeps | redis/redis-7.2.3/src/aof.c:2582-2707 | Committing the rewritten manifest, or undoing the rename when that fails, keeps the invariant |
| AofRewrite.HistoryNotLive | redis/redis-7.2.3/src/aof.c:668-692 | No HISTORY name is the name of a live file |
| AofRewrite.DeleteOneKeeps | redis/redis-7.2.3/src/aof.c:668-692 | Unlinking one history file keeps the invariant, although the manifest on disk still lists it |
| AofRewrite.DeletePersistKeeps | redis/redis-7.2.3/src/aof.c:668-692 | Persisting the manifest without history, or failing to, keeps the invariant |
| AofRewrite.BootKeeps | redis/redis-7.2.3/src/aof.c:1649-1772 | A restart from any reachable disk succeeds |
| AofRewrite.BootMakeBaseKeeps | redis/redis-7.2.3/src/aof.c:713-768 | A first base made at start holds the dataset |
| AofRewrite.BootOpenIncrKeeps | redis/redis-7.2.3/src/aof.c:713-768 | Opening the last INCR file, or creating the first, keeps the invariant |
| AofRewrite.BootPersistKeeps | redis/redis-7.2.3/src/aof.c:713-768 | The manifest written at start names files that load to the dataset; if it cannot be written the server stops with the disk still good |
| AofRewrite.LoadLast | redis/redis-7.2.3/src/aof.c:1649-1772 | Loading all files is loading all but the last INCR, then that one |
| AofRewrite.DifferentNames | redis/redis-7.2.3/src/aof.c:427-464 | File names with different kinds or sequence numbers differ |
| AofManifest.RoundTrip | redis/redis-7.2.3/src/aof.c:192-220 | On the words of the lines: loading the printed form of any non-empty well-formed manifest gives back its base, history and INCR lists, with the counters of the files it names |
| AofManifest.ParseFormat | redis/redis-7.2.3/src/aof.c:121-134 | The words of a printed line are parsed back to its entry |
| AofManifest.PathRefused | redis/redis-7.2.3/src/aof.c:316-323 | A name with a slash or backslash is refused |
| AofManifestText.TextRoundTrip | redis/redis-7.2.3/src/aof.c:192-220 | Main result. On the bytes of the file: the printed form of any non-empty well-formed manifest is read back as it was if and only if every line fits the read buffer and no file name has a single quote without also having something that sdsneedsrepr looks for |
| AofManifestText.NamesQuotable | redis/redis-7.2.3/src/aof.c:427-464 | The names made for BASE and INCR files meet that condition exactly if appendfilename does |
| AofManifestText.OneSingleQuote | redis/redis-7.2.3/src/aof.c:121-134 | The failing case: a line whose file name has one single quote, and nothing to escape, is refused as badly formatted |
| AofManifestText.LoadManifestFromFile | redis/redis-7.2.3/src/aof.c:256-382 | The loop over fgets, with comments, too long lines, trimming, splitting and its early exits, is the recursive loader that the round trip is about |
| AofManifestText.LoadedInOrder | redis/redis-7.2.3/src/aof.c:256-382 | Whatever the file says, an accepted manifest has positive, strictly increasing INCR sequence numbers, none above the counter |
| AofManifestText.AofInfoFormat | redis/redis-7.2.3/src/aof.c:121-134 | The line of an entry, with its name quoted if sdsneedsrepr says so, is appended to the buffer |
| AofManifestText.GetAofManifestAsString | redis/redis-7.2.3/src/aof.c:192-220 | The printed lines of BASE, HISTORY and INCR, in this order |
| AofManifestText.LoadReadable | redis/redis-7.2.3/src/aof.c:256-382 | Lines that fit, with such names, load to the entries they were printed from |
| AofManifestText.LoadedQuotable | redis/redis-7.2.3/src/aof.c:256-382 | If any other printed lines load at all, no line was too long and no such name is in the result |
| AofManifestText.QuotableLine | redis/redis-7.2.3/src/aof.c:121-134 | One printed line with such a name is parsed back to its entry |
| AofManifestText.UnquotableLine | redis/redis-7.2.3/src/aof.c:121-134 | One with any other name gives an error or a name without the quote |
| AofManifestText.LongLine | redis/redis-7.2.3/src/aof.c:292-299 | A printed line longer than the buffer is refused as too long |
| AofManifest.PlaceEntries | redis/redis-7.2.3/src/aof.c:192-220 | Entries in the printed order, BASE, HISTORY, INCR, are accepted and filed where they came from |
| AofManifest.MarkRewrittenIncrAofAsHistory | redis/redis-7.2.3/src/aof.c:492-522 | The loop from the tail moves all INCR files but the last (all of them if no file is open) in front of the history, in order, marked as history |
| AofManifest.NewBaseKeepsOrder | redis/redis-7.2.3/src/aof.c:427-446 | A new base keeps the manifest well formed and its counters right |
| AofManifest.NewIncrKeepsOrder | redis/redis-7.2.3/src/aof.c:455-464 | A new INCR file keeps the sequence numbers strictly increasing and bounded by the counter |
| AofManifest.MarkRewrittenKeepsOrder | redis/redis-7.2.3/src/aof.c:492-522 | Marking rewritten files keeps the manifest well formed and in order |
| AofManifest.IncrNameInjective | redis/redis-7.2.3/src/aof.c:455-464 | Two INCR names of one AOF are equal only for equal sequence numbers |
| AofManifest.BaseNameInjective | redis/redis-7.2.3/src/aof.c:427-446 | Two BASE names of one AOF are equal only for equal sequence numbers, whatever their suffixes |
| AofManifest.BaseIsNotIncr | redis/redis-7.2.3/src/aof.c:427-464 | A BASE name is never an INCR name |
| Decimal.AtoiPrint | redis/redis-7.2.3/src/aof.c:121-134 | Reading a printed number back, up to the first character that is not a digit, gives the number |
| Sds.Sdssplitargs | redis/redis-7.2.3/src/sds.c:1006-1114 | The nested loops over blanks, bare text and both kinds of quotes compute the recursive splitter, which has no result for quotes that do not balance or are not followed by a blank |
| Sds.SplitSize | redis/redis-7.2.3/src/sds.c:1006-1114 | With one separator each the arguments are never longer than the line, and shorter if it has a quote |
| Sds.SplitWithoutQuotes | redis/redis-7.2.3/src/sds.c:1006-1114 | A line without quotes always splits, into words without blanks and quotes |
| Sds.SplitDrops | redis/redis-7.2.3/src/sds.c:1006-1114 | Without double quotes and backslashes in the line no argument has a single quote |
| Sds.SplitRepr | redis/redis-7.2.3/src/sds.c:910-934 | Whatever its bytes, a string printed by sdscatrepr is read by sdssplitargs as the first argument |
| Sds.SplitWord | redis/redis-7.2.3/src/sds.c:1006-1114 | So is a word without blanks and quotes |
| Sds.CharacterClasses | redis/redis-7.2.3/src/sds.c:958-990 | Lower case, hexadecimal digits and printable characters at the ends of their ranges |
| Sds.QuotedBack | redis/redis-7.2.3/src/sds.c:910-934 | Every escape is undone: reading the escaped string up to the closing quote gives the string |
| Sds.Sdscatrepr | redis/redis-7.2.3/src/sds.c:910-934 | The loop appends the quoted and escaped string |
| Sds.Sdsneedsrepr | redis/redis-7.2.3/src/sds.c:943-954 | True exactly if some character is a backslash, a double quote, a blank or not printable |
| Sds.Sdstrim | redis/redis-7.2.3/src/sds.c:733-746 | The two loops cut off the blanks, and NUL bytes, at both ends |
| AofCodec.CatAppendOnlyGenericCommand | redis/redis-7.2.3/src/aof.c:1268-1291 | The loop appends the RESP encoding of the command to the buffer |
| AofCodec.CommandBack | redis/redis-7.2.3/src/aof.c:1485-1535 | Whatever follows, an encoded command with binary-safe arguments is read back, and exactly its bytes are consumed |
| AofCodec.CommandCut | redis/redis-7.2.3/src/aof.c:1485-1535 | Any proper prefix of an encoded command is a short read, and an empty one a clean end of file; none is taken for another command or a format error |
| AofCodec.DamagedCommand | redis/redis-7.2.3/src/aof.c:1507-1517 | Where an argument should start and there is none, the read is a format error |
| AofCodec.DamagedStart | redis/redis-7.2.3/src/aof.c:1492-1493 | So it is where a command should start and there is neither one nor an annotation |
| AofCodec.NulCount | redis/redis-7.2.3/src/aof.c:1494-1494 | A count that starts with a NUL byte is a format error and no short read |
| AofCodec.EncodedGet | redis/redis-7.2.3/src/aof.c:1268-1297 | The bytes of one command |
| AofCodec.LineBack | redis/redis-7.2.3/src/aof.c:1485-1535 | A tag, a numeral and CRLF are read back whole within the read buffer |
| AofCodec.ShortNumeral | redis/redis-7.2.3/src/aof.c:1268-1291 | Counts and lengths of C types print in lines that fit the read buffer |
| AofCodec.ReadOne | redis/redis-7.2.3/src/aof.c:1485-1535 | The reading part of the loop is the reader that the lemmas are about |
| AofCodec.ReadArguments | redis/redis-7.2.3/src/aof.c:1500-1535 | The inner loop over the arguments, with its short reads, format errors and lengths that cannot be allocated, is the recursive reader |
| AofLoad.LoadSingleAppendOnlyFile | redis/redis-7.2.3/src/aof.c:1395-1646 | The loading loop, with MULTI, EXEC, unknown commands and the ways out, is the recursive loader |
| AofLoad.RealCodec | redis/redis-7.2.3/src/aof.c:1268-1291 | The encoder and the reader satisfy the one hypothesis of the lemmas below |
| AofLoad.RoundTrip | redis/redis-7.2.3/src/aof.c:1485-1587 | Loading the encoding of any commands without transactions runs exactly these commands, in order |
| AofLoad.LoadsEffects | redis/redis-7.2.3/src/aof.c:1485-1587 | A file whose transactions are all finished loads with the effects of its commands: those outside of transactions, and those queued when EXEC comes |
| AofLoad.EffectsAre | redis/redis-7.2.3/src/aof.c:1545-1563 | The states of the loader over any commands, from any state, give these effects; EXEC is never queued |
| AofLoad.FileRoundTrip | redis/redis-7.2.3/src/aof.c:1485-1587 | The same for the encoder and the reader of the source, with the plain round trip as a special case |
| AofLoad.LoadWholeFile | redis/redis-7.2.3/src/aof.c:1485-1587 | A whole file, with transactions, ends as the states of its commands say |
| AofLoad.PrefixLoads | redis/redis-7.2.3/src/aof.c:1594-1625 | A file cut anywhere: exactly the whole commands are processed, and unless the cut falls between two commands the file is cut back to the end of the last whole one |
| AofLoad.StrictPrefix | redis/redis-7.2.3/src/aof.c:1601-1632 | With aof-load-truncated off a cut file loads if and only if the cut is between two commands and outside of a transaction |
| AofLoad.UnknownFails | redis/redis-7.2.3/src/aof.c:1395-1640 | A command that the server does not know stops the load |
| AofLoad.DamagedFails | redis/redis-7.2.3/src/aof.c:1492-1517 | A file that is damaged, and not just cut short, does not load, whatever aof-load-truncated says |
| AofLoad.AnnotationLoads | redis/redis-7.2.3/src/aof.c:1492-1492 | An annotation between two commands changes nothing |
| AofLoad.TransactionRuns | redis/redis-7.2.3/src/aof.c:1395-1640 | A transaction takes effect as a whole, in its place |
| AofLoad.FilePrefixLoads | redis/redis-7.2.3/src/aof.c:1594-1625 | The same for the encoder and the reader of the source |
| AofLoad.PlainPrefixLoads | redis/redis-7.2.3/src/aof.c:1594-1625 | Without transactions exactly the whole commands of the prefix take effect, and the truncation offset is the end of the last one |
| AofLoad.OpenMultiTruncates | redis/redis-7.2.3/src/aof.c:1578-1625 | A clean end of file inside an open MULTI cuts the file back to just before that MULTI, and nothing of the transaction takes effect |
| AofLoad.AppendAfterRecovery | redis/redis-7.2.3/src/aof.c:1594-1625 | Any commands appended after the recovery of a cut file, transactions among them, have at the next load the effects that they have by themselves, if and only if the cut did not fall inside a command of an open transaction, or what is appended is one transaction that is never finished |
| AofLoad.FileAppendAfterRecovery | redis/redis-7.2.3/src/aof.c:1594-1625 | The same for the encoder and the reader of the source |
| AofLoad.QueuedEffects | redis/redis-7.2.3/src/aof.c:1545-1563 | What happens otherwise: behind an open transaction all is dropped if no EXEC is appended, and else runs up to it together with what the transaction had queued |
| AofLoad.QueuedDiffers | redis/redis-7.2.3/src/aof.c:1545-1563 | These effects are never the ones that the commands have by themselves, unless they have none |
| AofLoad.AppendLost | redis/redis-7.2.3/src/aof.c:1594-1625 | The failing case: a MULTI and the first byte of the next command; the MULTI stays in the file, and what is appended behind it is lost |
| AofFlush.Aof.Flush | redis/redis-7.2.3/src/aof.c:1064-1266 | File and buffer together are all bytes fed, and the recorded sizes are right, if and only if the write went to the end of the file or none of it stayed there; it says exactly what is in the file afterwards, also after an exit or a gap, and when the server exits, and what is put off, undone and synced; under appendfsync always the buffer is empty and synced or the server exits |
| AofFlush.Session | redis/redis-7.2.3/src/aof.c:1064-1266 | Main result. Over any feeds and flushes, with any system call results: the session exits, or makes a gap, at exactly the flush where Course ends, and the file then is what had been flushed of all bytes fed and what this flush left there, behind the zeros of the gap; otherwise file and buffer are what the file held followed by all bytes fed, and the buffer is as long as Course says |
| AofFlush.CourseEnds | redis/redis-7.2.3/src/aof.c:1064-1266 | Exits happen under appendfsync always only; gaps never there, never with O_APPEND, and only after a short write that was undone |
| AofFlush.AlwaysDurable | redis/redis-7.2.3/src/aof.c:1234-1266 | Main result. Under appendfsync always, if fsync is not left out during rewrites, after every flush that the server survives all bytes fed so far are in the file and synced |
| AofFlush.EverySecWrites | redis/redis-7.2.3/src/aof.c:1094-1117 | Under everysec a flush writes everything if it is forced, if no fsync runs, or two seconds after the first one that was put off |
| AofFlush.FlushMeans | redis/redis-7.2.3/src/aof.c:1064-1266 | By the results of the system calls: exactly when a flush exits, when it makes a gap, when it is put off, and what it leaves in the buffer |
| AofFlush.TotalStopped | redis/redis-7.2.3/src/aof.c:1026-1043 | A write stops at the first call that fails before everything is taken: it returns what was taken before, or -1 for nothing |
| AofFlush.TotalComplete | redis/redis-7.2.3/src/aof.c:1026-1043 | Without such a call it returns the whole length |
| AofFlush.Aof.Happens | redis/redis-7.2.3/src/aof.c:1064-1266 | One feed or flush ends as the specification says, and keeps file and buffer together equal to all bytes fed unless there is a gap; what an exit or a gap leaves in the file is exact |
| AofFlush.Aof.FlushNow | redis/redis-7.2.3/src/aof.c:1129-1266 | The write and the fsync behind it, once the write is not put off: exits exactly under appendfsync always if the write is not complete or the fsync fails; what is in the file then, and how far the offset is behind its end, is exact |
| AofFlush.Aof.FlushEmpty | redis/redis-7.2.3/src/aof.c:1069-1092 | With nothing to write an fsync is still made if one is due, and its failure exits exactly under appendfsync always |
| AofFlush.Gap | redis/redis-7.2.3/src/aof.c:790-853 | The failing case for a file opened without O_APPEND: a short write undone by ftruncate, then a complete one, leave bytes nobody wrote |
| AofFlush.Aof.WriteOut | redis/redis-7.2.3/src/aof.c:1129-1232 | After a complete, short, undone or failed write, an exit included, the file is what it was and the prefix of the buffer that stays, behind zeros if the offset was behind its end; the buffer keeps the rest |
| AofFlush.Aof.AofWrite | redis/redis-7.2.3/src/aof.c:1026-1043 | Over interrupted, short and failing writes, a prefix of the buffer of the returned length is written, and -1 means none |
| AofFlush.Aof.WriteSome | redis/redis-7.2.3/src/aof.c:1026-1043 | One more write of the loop: what has reached the file is a longer prefix of the buffer |
| AofFlush.LandedMore | redis/redis-7.2.3/src/aof.c:1026-1043 | Two writes one after the other, at the end of the file or behind it, leave what one write of both would |
| AofFlush.Aof.Postpone | redis/redis-7.2.3/src/aof.c:1094-1117 | A flush is put off exactly under everysec, unforced, during an fsync, and for less than two seconds |
| AofFlush.Aof.TryFsync | redis/redis-7.2.3/src/aof.c:1234-1266 | The fsync offset only grows and never passes the size of the file; the server exits exactly if the fsync of appendfsync always fails |
| AofFlush.Aof.OpenNew | redis/redis-7.2.3/src/aof.c:790-853 | A new file without O_APPEND starts empty, with the offset at its end |
| AofFlush.Aof.OpenOnServerStart | redis/redis-7.2.3/src/aof.c:713-768 | The last file is opened again in append mode with its size recorded |
| AofFlush.Aof.Feed | redis/redis-7.2.3/src/aof.c:1352-1356 | Feeding keeps file and buffer together equal to all bytes fed |
| Acl.RecomputeRebuilds | redis/redis-7.2.3/src/acl.c:647-680 | Main result. After any operations without spaces on commands, categories, first arguments and all commands, splitting command_rules with sdssplitargs and replaying them from +@all or -@all is accepted and rebuilds the bitmap bit for bit, the rules themselves and every list of first arguments, if and only if no rule holds a quote, a tab or a line end |
| Acl.QuoteBreaksRules | redis/redis-7.2.3/src/acl.c:647-680 | The failing case: the first argument of +get, a bar and a double quote is accepted, and then the rules do not split, which the source asserts they do |
| Acl.DescriptionSetsBack | redis/redis-7.2.3/src/acl.c:733-786 | The description of a selector, split at its spaces and given back word by word, sets any selector to the described one; split by sdssplitargs it does so if and only if no rule holds a quote, a tab or a line end, and then the check that the source makes on it succeeds |
| AclQuotes.DescribeFails | redis/redis-7.2.3/src/acl.c:733-786 | The check on a fake selector fails exactly if recomputing the selector from its rules would fail or would change its bitmap |
| AclQuotes.QuoteFails | redis/redis-7.2.3/src/acl.c:733-786 | It fails after the first argument of +get, a bar and a double quote |
| AclQuotes.QuotesPass | redis/redis-7.2.3/src/acl.c:733-786 | It passes after a first argument in double quotes, although the description then sets another one |
| Acl.ReservedBit | redis/redis-7.2.3/src/acl.c:527-529 | After any run the reserved bit is set exactly if the last of its +@all and -@all operations was a +@all |
| Acl.RunKeeps | redis/redis-7.2.3/src/acl.c:1010-1180 | Any sequence of operations, accepted or refused, keeps bitmap, first arguments and rules in agreement |
| Acl.ApplyKeeps | redis/redis-7.2.3/src/acl.c:1010-1180 | Every accepted operation keeps them in agreement |
| Acl.ChangeKeeps | redis/redis-7.2.3/src/acl.c:596-604 | A new rule, with the rules it covers dropped, replays to the changed bitmap and first arguments and leaves the reserved bit alone |
| Acl.UpdateReplays | redis/redis-7.2.3/src/acl.c:596-604 | Replaying the updated rules does what replaying the old ones and then the change does |
| Acl.CoveredOverrides | redis/redis-7.2.3/src/acl.c:550-592 | A rule is dropped only for one that overwrites all that it did |
| Acl.DroppedAgrees | redis/redis-7.2.3/src/acl.c:550-592 | Leaving out overridden rules, with others in between, makes only a difference that the new rule wipes out |
| Acl.DroppedKeeps | redis/redis-7.2.3/src/acl.c:550-592 | The rules left are in order, and none of them is covered by the new one |
| Acl.DroppedTokens | redis/redis-7.2.3/src/acl.c:550-592 | The text that the removal leaves holds the rules that are not covered |
| Acl.Reparse | redis/redis-7.2.3/src/acl.c:1010-1180 | Every rule that command_rules can hold is accepted again, as that very rule |
| Acl.ParseValid | redis/redis-7.2.3/src/acl.c:1010-1180 | Whatever is accepted goes into command_rules as a rule that can be accepted again |
| Acl.ReplayTokens | redis/redis-7.2.3/src/acl.c:647-680 | Setting the rules one by one from the base is replaying their effects, and the rules come out as they went in |
| Acl.RulesFromOps | redis/redis-7.2.3/src/acl.c:596-604 | The rules that accepted operations leave are together no longer than the operations, and free of quotes, tabs and line ends if these are |
| Acl.RebuildsConsistent | redis/redis-7.2.3/src/acl.c:647-680 | The same as the main result for any selector whose rules and bitmap agree |
| AclRules.RemoveCommandRule | redis/redis-7.2.3/src/acl.c:550-592 | On every space-joined list of rules the in-place loop ends and leaves exactly the rules that are neither the new rule nor a subcommand (bar) extension of it, joined by single spaces without one at the end |
| AclRules.Turn | redis/redis-7.2.3/src/acl.c:550-592 | One turn drops the rule at the cursor with its separator, or steps over it |
| AclRules.Matches | redis/redis-7.2.3/src/acl.c:576-579 | The comparison accepts exactly the new rule and its subcommand (bar) extensions |
| AclRules.RuleEnd | redis/redis-7.2.3/src/acl.c:562-568 | The end of a rule is the next space, or the end of the string |
| AclRules.Memmove | redis/redis-7.2.3/src/acl.c:580-583 | Moving the tail down keeps what is before it |
| AclRules.WithoutMember | redis/redis-7.2.3/src/acl.c:550-592 | The rules left are exactly those given that the new rule does not cover |
| AclRules.SplitJoin | redis/redis-7.2.3/src/acl.c:657-660 | Splitting the joined rules with sdssplitargs gives the rules if and only if none of them has a quote, a tab or a line end |
| AclRules.SplitLoses | redis/redis-7.2.3/src/sds.c:1006-1114 | Otherwise, if they split at all, the arguments are together shorter than the rules, or all free of such characters |
| AclSelector.CommandIds.GetCommandID | redis/redis-7.2.3/src/acl.c:1501-1526 | The same name in any case gets the same ID, a new name one never given before, and never the reserved bit |
| AclSelector.SelectorObject.SetSelector | redis/redis-7.2.3/src/acl.c:1010-1180 | Accepts exactly what the specification accepts and changes rules, bitmap and first arguments as it says; and, told by the command table alone: which operations are accepted, and which bit of the bitmap each sets or clears or leaves |
| AclEffects.CommandSet | redis/redis-7.2.3/src/acl.c:608-622 | An accepted +name sets the bits of the command and of all its subcommands, -name clears them, every other bit is as it was, and the list of first arguments of the command is dropped |
| AclEffects.SubcommandSet | redis/redis-7.2.3/src/acl.c:1138-1146 | A rule with a subcommand changes the bit of that subcommand alone |
| AclEffects.FirstArgumentSet | redis/redis-7.2.3/src/acl.c:1147-1156 | A rule with a first argument changes no bit and adds the argument to the list of that command |
| AclEffects.CategorySet | redis/redis-7.2.3/src/acl.c:629-642 | A category changes the bits of its commands with their subcommands, and of its subcommands, and no others |
| AclEffects.AllSet | redis/redis-7.2.3/src/acl.c:1027-1041 | All bits or none, no first arguments and no rules |
| AclEffects.AcceptedIs | redis/redis-7.2.3/src/acl.c:1010-1180 | An operation is accepted if and only if it has one of these forms |
| AclEffects.RulesSet | redis/redis-7.2.3/src/acl.c:596-604 | An accepted rule is stored once and last; rules of the same name, or of that name with a bar and more, go, and all others stay in order |
| AclSelector.SelectorObject.RecomputeCommandBits | redis/redis-7.2.3/src/acl.c:647-680 | The imperative recomputation does what its specification does, failed assertions included; bitmap, rules and first arguments come out as they were if and only if no rule holds a quote, a tab or a line end |
| AclQuotes.WithoutBackslash | redis/redis-7.2.3/src/acl.c:647-680 | Its hypothesis holds of every reachable selector whose rules have no backslash: an argument that quotes make of several rules is refused |
| AclQuotes.SpaceRefused | redis/redis-7.2.3/src/acl.c:1010-1180 | An operation with a space before its last bar is refused |
| AclQuotes.SplitTame | redis/redis-7.2.3/src/sds.c:1006-1114 | Without backslashes, and with a bar between every space and the quotes behind it, every argument is free of spaces or has a bar behind a space |
| AclSelector.SelectorObject.constructor | redis/redis-7.2.3/src/acl.c:314-331 | A new selector allows nothing |
| AclSelector.SelectorObject.GetCommandBit | redis/redis-7.2.3/src/acl.c:518-522 | An ID beyond the bitmap reads as not allowed |
| AclSelector.SelectorObject.SetCommandBit | redis/redis-7.2.3/src/acl.c:536-545 | Exactly the bit of the ID has the value, if it is below 1024; the ALLCOMMANDS flag goes when a bit is cleared |
| AclSelector.SelectorObject.ResetFirstArgsForCommand | redis/redis-7.2.3/src/acl.c:891-898 | Exactly the list of that command is dropped |
| AclSelector.SelectorObject.AddAllowedFirstArg | redis/redis-7.2.3/src/acl.c:918-944 | Up to case the argument is added to the list of that command, and no other list changes |
| AclSelector.SelectorObject.ChangePerm | redis/redis-7.2.3/src/acl.c:608-621 | A command with its subcommands is allowed or denied, and exactly the argument list of the command is dropped |
| AclSelector.SelectorObject.SetBitsForCategory | redis/redis-7.2.3/src/acl.c:629-642 | Exactly the commands and subcommands of the category change |
| AclSelector.SelectorObject.SetCommandForCategory | redis/redis-7.2.3/src/acl.c:629-642 | One command with its subcommands, wherever the category is set |
| AclSelector.SelectorObject.SetSubsForCategory | redis/redis-7.2.3/src/acl.c:629-642 | The subcommands of one command that are in the category |
| AclSelector.SelectorObject.UpdateCommandRules | redis/redis-7.2.3/src/acl.c:596-604 | The rule text becomes the rules not covered by the new one, then the new one in lower case |
| AclSelector.SelectorObject.SetAllCommands | redis/redis-7.2.3/src/acl.c:1027-1040 | All bits, with the reserved one, or none; no argument lists and no rules |
| AclSelector.SelectorObject.SetCategory | redis/redis-7.2.3/src/acl.c:682-691 | An unknown category is refused and changes nothing; a known one has its effect and its rule |
| AclSelector.SelectorObject.Deny | redis/redis-7.2.3/src/acl.c:1161-1168 | The '-' branch refuses unknown commands and has the effect of its rule |
| AclSelector.SelectorObject.Allow | redis/redis-7.2.3/src/acl.c:1097-1160 | The '+' branch allows a command, a subcommand or a first argument, or refuses, as the specification does |
| Blocked.Server.BlockForKeys | redis/redis-7.2.3/src/blocked.c:368-415 | The client joins the end of the queue of each of its keys once; both sides of the index, the no-key counts and the global counters stay exact |
| Blocked.Server.UnblockClient | redis/redis-7.2.3/src/blocked.c:184-224 | The client leaves every queue it was in, no queue is left empty, all counts stay exact, and it is put once on the list of unblocked clients if asked |
| Blocked.Server.ReleaseBlockedEntry | redis/redis-7.2.3/src/blocked.c:512-545 | One client leaves one queue; an empty queue and a zero no-key count are removed |
| Blocked.Server.UnblockWaitingData | redis/redis-7.2.3/src/blocked.c:419-433 | The client leaves all of its queues and its key dict is empty |
| Blocked.Server.BlockClient | redis/redis-7.2.3/src/blocked.c:88-99 | The counters stay equal to the numbers of blocked clients, in all and by type |
| Blocked.Server.BlockForOther | redis/redis-7.2.3/src/blocked.c:597-630 | Blocking without keys keeps the index and the counters exact |
| Blocked.Server.AddClient | redis/redis-7.2.3/src/blocked.c:75-83 | A new client is in no queue and in no count |
| Blocked.Server.QueueForReprocessing | redis/redis-7.2.3/src/blocked.c:173-180 | A client is on the list of unblocked clients once if it is flagged, else not at all |
| Blocked.Server.SignalKeyAsReady | redis/redis-7.2.3/src/blocked.c:452-499 | A key is pending afterwards exactly if it was, or if some client waits for the type or a module and some client, on deletion a flagged one, waits for the key; new ones come last and none is pending twice |
| Blocked.Server.AnyoneToWake | redis/redis-7.2.3/src/blocked.c:452-482 | The quick returns by the counters and the two dicts decide exactly that |
| Blocked.Server.UnblockClientOnKey | redis/redis-7.2.3/src/blocked.c:636-675 | The client leaves all of its queues and runs again; its state, the lists of ready keys and of unblocked clients are exact, and the queues are as they were but for the client, which stands at the end of those it blocks on again |
| Blocked.Server.Serve | redis/redis-7.2.3/src/blocked.c:573-591 | One visit is one turn: nothing changes for a client that does not match, and one that is served is unblocked and runs again |
| Blocked.Server.HandleClientsBlockedOnKey | redis/redis-7.2.3/src/blocked.c:558-594 | Main result. Exactly the clients that waited when the pass began are visited, once each, in the order they blocked, even if every one blocks again, and from the state before to the state after there is one turn for each; those not served keep their order, in front of those that blocked again |
| Blocked.WhoIsServed | redis/redis-7.2.3/src/blocked.c:573-591 | Main result. A client waiting for a list, sorted set or stream is answered if the value is of that type, or whatever it is if the client wants to know when the key is gone: it is then in no queue but those its command blocked on again; any other client is as it was and still in the queue |
| Blocked.QueueAfter | redis/redis-7.2.3/src/blocked.c:558-594 | After a pass the queue holds those not answered, in their order, and behind them those that blocked on the key again |
| Blocked.ListedAfter | redis/redis-7.2.3/src/blocked.c:636-675 | The clients that go on are listed once, in the order of the visits: those answered that did not block again, are no modules and were not listed |
| Blocked.WakesIs | redis/redis-7.2.3/src/blocked.c:452-482 | Whom a signal is for, by the types of values |
| Blocked.OnlySignalled | redis/redis-7.2.3/src/blocked.c:452-499 | A key becomes pending only by a signal for it, and only if a client waits for it |
| Blocked.TurnQueue | redis/redis-7.2.3/src/blocked.c:573-591 | In the queue a client that does not match keeps its place, one that is served leaves, and one that blocks again is last |
| Blocked.PassKeeps | redis/redis-7.2.3/src/blocked.c:558-594 | What any pass leaves of the queue, and that it touches nobody whom it does not visit and takes no key from the list of ready keys |
| Blocked.Server.HandleReadyKeys | redis/redis-7.2.3/src/blocked.c:330-357 | One round handles each pending key once, in the order of the signals, with a pass for each that begins where the one before it ended; apart from clients that an earlier key had already got to, exactly those that waited for the key when the round began are visited for it, once each and in the order they blocked; clients not visited are untouched and keep their places in every queue |
| Blocked.Server.HandleClientsBlockedOnKeys | redis/redis-7.2.3/src/blocked.c:316-357 | Main result. Any number of rounds, up to the last one if there is a last, from the state before to the state after: each begins where the one before it ended and handles the keys pending then |
| Blocked.NobodyForgotten | redis/redis-7.2.3/src/blocked.c:316-357 | Main result. No wake-up is lost: if a client that is served at any time of any round, for the first time or again, signals a key, whoever else waits for it at that time and is meant by the signal is visited later in the pass, later in the round or in the next round; without a next round they still wait and the key is pending |
| Blocked.NobodyWaitsLonger | redis/redis-7.2.3/src/blocked.c:316-357 | Whoever waits when a round begins for a key pending then is visited in that round |
| Blocked.StaysPending | redis/redis-7.2.3/src/blocked.c:340-352 | Whoever waits for a pending key and is not visited in the rest of the round waits when it ends, with the key pending for the next; if the round has still to handle the key, they are visited |
| Blocked.TurnWakes | redis/redis-7.2.3/src/blocked.c:636-675 | The signals of a client that is served make their keys pending if anyone else waits whom they are for |
| Blocked.RoundVisits | redis/redis-7.2.3/src/blocked.c:330-357 | Whom a round visits, in terms of the queues when it began |
| Blocked.NobodySkipped | redis/redis-7.2.3/src/blocked.c:330-357 | So whoever waited for a key that is handled has been visited when its turn is over |
| Blocked.KeptMoved | redis/redis-7.2.3/src/blocked.c:636-675 | A client that is served moves nobody else in any queue |
| Blocked.KeptBoth | redis/redis-7.2.3/src/blocked.c:330-357 | Nor do any number of them |
| Blocked.CountsMove | redis/redis-7.2.3/src/blocked.c:88-99 | One client blocking or unblocking moves the counts by one |
| Blocked.LinkedNokey | redis/redis-7.2.3/src/blocked.c:392-406 | One more client in a queue is one more on the no-key count exactly if it is flagged |
| Blocked.UnlinkedNokey | redis/redis-7.2.3/src/blocked.c:524-541 | One client less in a queue is one less on the count exactly if it is flagged; with the last client the count goes |
| Blocked.NextInPass | redis/redis-7.2.3/src/blocked.c:569-574 | The saved iterator points to the next client of the pass, whatever happens to this one |
| Blocked.PassStep | redis/redis-7.2.3/src/blocked.c:569-591 | After a visit, the queue is what is left of the visited clients, then those not yet visited, then those that blocked again |
| Crc64.Compute | redis/redis-7.2.3/src/crc64.c:121-123 | Main result. For every buffer, alignment, byte order and starting value the table-driven CRC is the bit-at-a-time register started from the reflected value, and the remainder of the message polynomial |
| Crc64.CrcIsRemainder | redis/redis-7.2.3/src/crc64.c:88-111 | Over the field of two elements: the CRC is the one remainder of the message times x^64, with the starting value added in front, by x^64 plus the polynomial |
| Crc64.RegisterDivides | redis/redis-7.2.3/src/crc64.c:94-104 | After any bits the register is the remainder of what has gone through it |
| Gf2.DivideStep | redis/redis-7.2.3/src/crc64.c:94-104 | Clocking one bit is one step of long division |
| Gf2.RemainderUnique | redis/redis-7.2.3/src/crc64.c:88-111 | Division by a monic polynomial has one remainder |
| Crc64.Native | redis/redis-7.2.3/src/crcspeed.c:253-259 | The same for any polynomial, on little- and big-endian machines |
| Crc64.Chaining | redis/redis-7.2.3/src/crc64.c:121-123 | A buffer in two pieces, the second started from the result of the first, gives the CRC of the whole |
| Crc64.CrcspeedLittle | redis/redis-7.2.3/src/crcspeed.c:112-144 | The byte, word and byte loops together run the reflected register over the buffer, whatever its address |
| Crc64.CrcspeedBig | redis/redis-7.2.3/src/crcspeed.c:183-213 | The same with byte-reversed tables and loads |
| Crc64.SliceBy8 | redis/redis-7.2.3/src/crcspeed.c:123-135 | The exclusive or of eight table rows clocks all 64 bits of a word |
| Crc64.BigSliceBy8 | redis/redis-7.2.3/src/crcspeed.c:193-205 | The same on the byte-reversed word |
| Crc64.ByteStep | redis/redis-7.2.3/src/crcspeed.c:117-120 | One look-up in row 0 clocks one byte |
| Crc64.BigByteStep | redis/redis-7.2.3/src/crcspeed.c:188-191 | The same on the byte-reversed register |
| Crc64.LittleInit | redis/redis-7.2.3/src/crcspeed.c:33-50 | Row k of the table holds, for every byte, what k + 1 bytes of zero bits make of it in the reflected register |
| Crc64.BigInit | redis/redis-7.2.3/src/crcspeed.c:87-95 | The big-endian table is the little-endian one with every entry byte-reversed |
| Crc64.NextRow | redis/redis-7.2.3/src/crcspeed.c:42-49 | A row is the row above with one more byte of zero bits |
| Crc64.FirstRow | redis/redis-7.2.3/src/crcspeed.c:36-40 | Row 0 is the bit-at-a-time CRC of a single byte |
| Crc64.NativeInit | redis/redis-7.2.3/src/crcspeed.c:270-275 | The table fits the byte order of the machine |
| Crc64.Init | redis/redis-7.2.3/src/crc64.c:116-118 | The same for the polynomial of the source |
| Crc64.CrcBitwise | redis/redis-7.2.3/src/crc64.c:88-111 | The nested loops clock the message bits, least significant first, and reflect the register |
| Crc64.CrcReflect | redis/redis-7.2.3/src/crc64.c:69-78 | The low bits in the opposite order |
| Crc64.Rev8Byte | redis/redis-7.2.3/src/crcspeed.c:71-83 | Byte k of the reversed word is byte 7 - k |
| Crc64.FeedBits | redis/redis-7.2.3/src/crc64.c:94-104 | Feeding up to 64 message bits is one exclusive or, then as many zero bits, seen through reflection |
| Crc64.ClockLinear | redis/redis-7.2.3/src/crcspeed.c:33-50 | Clocking zero bits is linear over exclusive or |
| Crc64.ClockShift | redis/redis-7.2.3/src/crcspeed.c:33-50 | While its low bits are clear the register only moves down |
| Crc64.RunIsReference | redis/redis-7.2.3/src/crc64.c:88-111 | The byte-wise reflected register is the bit-at-a-time register, for every buffer |
| Bitfield.IncrBy | redis/redis-7.2.3/src/bitops.c:1136-1216 | For every width of the type parser, every offset and every 64-bit increment: WRAP stores the value in range congruent to the sum modulo 2^bits, SAT the clamp, FAIL writes nothing exactly when the sum is out of range; the reply is what is stored and no other bit changes |
| Bitfield.Set | redis/redis-7.2.3/src/bitops.c:1136-1216 | SET replies with the previous value and changes no other bit; values in range and WRAP store as above; SAT stores the clamp if and only if the argument is not below max - (2^63 - 1), or for an unsigned field not negative |
| Bitfield.Get | redis/redis-7.2.3/src/bitops.c:1217-1249 | GET through the nine-byte copy reads the field of the string followed by zeros for ever |
| Bitfield.UnsignedIncrement | redis/redis-7.2.3/src/bitops.c:288-323 | The unsigned overflow check is right for every stored value, increment, width and mode |
| Bitfield.SignedIncrement | redis/redis-7.2.3/src/bitops.c:325-378 | The signed overflow check is right for every stored value, increment, width and mode, although its intermediate values wrap |
| Bitfield.UnsignedSet | redis/redis-7.2.3/src/bitops.c:288-323 | The check of a SET argument is exact about the range; saturation of an argument is the clamp if and only if it is not negative |
| Bitfield.SignedSet | redis/redis-7.2.3/src/bitops.c:325-378 | The same, signed; saturation is the clamp if and only if the argument is at least max - (2^63 - 1) |
| Bitfield.SetSaturatesToTheWrongEnd | redis/redis-7.2.3/src/bitops.c:325-378 | A SET argument that saturates to 127 where -128 is nearest |
| Bitfield.NegativeSaturatesAtTheTop | redis/redis-7.2.3/src/bitops.c:288-323 | SET of -1 in an unsigned byte saturates to 255 where 0 is nearest |
| Bitfield.SetUnsigned | redis/redis-7.2.3/src/bitops.c:209-222 | Exactly the bits of the field become the low bits of the value |
| Bitfield.GetUnsigned | redis/redis-7.2.3/src/bitops.c:229-241 | The number spelt by the bits of the field |
| Bitfield.GetSigned | redis/redis-7.2.3/src/bitops.c:243-263 | The two's complement number spelt by the bits of the field |
| Bitfield.SetField | redis/redis-7.2.3/src/bitops.c:209-227 | A value that fits is the field afterwards, and no other bit changes |
| Bitfield.SetThenGet | redis/redis-7.2.3/src/bitops.c:209-241 | Reading back a field gives the written value modulo 2^bits |
| Bitfield.SetElsewhere | redis/redis-7.2.3/src/bitops.c:209-222 | Fields that do not overlap the written one keep their values |
| Bitfield.StoredValue | redis/redis-7.2.3/src/bitops.c:243-263 | A number that fits is the field that its low bits spell |
| BitCount.Popcount | redis/redis-7.2.3/src/bitops.c:40-92 | The number of ones of the string, for every length and address |
| BitCount.Block | redis/redis-7.2.3/src/bitops.c:54-87 | The 28-byte SWAR turn counts the ones of its bytes |
| BitCount.Bitcount | redis/redis-7.2.3/src/bitops.c:796-874 | BITCOUNT is the number of one bits that the arguments select: an index is selected if it is not before the start and not behind the end, -k being the k-th from the end, a start or end before the string the first index; two negative arguments in the wrong order select nothing |
| BitCount.ClipSelects | redis/redis-7.2.3/src/bitops.c:833-838 | The clipped range holds exactly the selected indices |
| BitCount.WholeRange | redis/redis-7.2.3/src/bitops.c:833-838 | 0 to -1 selects everything, and -k to -k the k-th index from the end |
| BitCount.CountIs | redis/redis-7.2.3/src/bitops.c:815-880 | The count of a bit range is the size of the set of its one bits |
| BitCount.CountEdges | redis/redis-7.2.3/src/bitops.c:838-871 | Whole bytes less the ones that the edge masks cut off are the ones of the bit range |
| BitCount.InRange | redis/redis-7.2.3/src/bitops.c:838-871 | The ones of a bit range by whole bytes and the two edges |
| BitCount.EdgesOnes | redis/redis-7.2.3/src/bitops.c:838-871 | What the two edge masks cut off |
| Swar.LanesCount | redis/redis-7.2.3/src/bitops.c:66-86 | After the three folding lines each byte lane holds the ones of that byte, so that together they are the ones of the word |
| Swar.TopByte | redis/redis-7.2.3/src/bitops.c:80-86 | The multiplication leaves the sum of the four lanes in the top byte, up to the largest sum of seven words |
| BitPos.Bitpos | redis/redis-7.2.3/src/bitops.c:101-186 | For every string and address, the first bit of the wanted value; if there is none, -1 for a one and the length for a zero |
| BitPos.BitposRange | redis/redis-7.2.3/src/bitops.c:877-1003 | BITPOS with an explicit range is the first selected bit with the value, or -1 if there is none |
| BitPos.BitposFrom | redis/redis-7.2.3/src/bitops.c:877-1003 | Without an end the first such bit from the start on; if there is none, -1 for a one, and for a zero the position behind the string if the start is in it |
| BitPos.SearchRange | redis/redis-7.2.3/src/bitops.c:958-1001 | First byte, bytes in between and last byte with their masks find the first match of the bit range, or -1 |
| BitPos.SearchFirst | redis/redis-7.2.3/src/bitops.c:961-974 | The first byte with the bits outside of the range blanked out |
| BitPos.SearchRest | redis/redis-7.2.3/src/bitops.c:975-1001 | From a byte boundary on, after nothing was found before it |
| BitPos.SkipWords | redis/redis-7.2.3/src/bitops.c:132-142 | Nothing is skipped that holds the bit |
| BitPos.LoadWord | redis/redis-7.2.3/src/bitops.c:144-159 | The last bytes as a big-endian word padded with zeros |
| BitPos.ScanWord | redis/redis-7.2.3/src/bitops.c:168-180 | The scan from the top stops at the first match and cannot run off the word |
| BitOp.Bitop | redis/redis-7.2.3/src/bitops.c:607-793 | For every operation, key count and set of lengths, missing keys included, the result has the greatest length and each byte is the operation on the zero-padded sources |
| BitOp.FoldMeans | redis/redis-7.2.3/src/bitops.c:643-771 | A result bit of AND, OR or XOR is on exactly if all, one or an odd number of the source bits are |
| BitOp.FastPath | redis/redis-7.2.3/src/bitops.c:678-743 | The word-parallel part agrees with the bytewise operation on all that it covers |
| BitOp.ApplyLane | redis/redis-7.2.3/src/bitops.c:693-742 | A word operation is eight byte operations |
| BitOp.SlowByte | redis/redis-7.2.3/src/bitops.c:746-770 | The byte loop with its early exits computes the whole fold |
| BitOp.Settled | redis/redis-7.2.3/src/bitops.c:753-767 | After an early exit no further source would change the byte |
| BitOp.Lengths | redis/redis-7.2.3/src/bitops.c:643-670 | The greatest length is reached by a source, and every source has the least one |
| Bio.RunsOnceInOrder | redis/redis-7.2.3/src/bio.c:205-300 | Under every interleaving the executed jobs are a prefix of the submitted ones, so each runs at most once and in order, and the queue is the rest (and the last one run until it is deleted) |
| Bio.CountersTrue | redis/redis-7.2.3/src/bio.c:303-311 | Whenever the mutex is free or a thread reads under it, a type counter is the number of jobs of that type in the queue |
| Bio.DrainReturnsDone | redis/redis-7.2.3/src/bio.c:314-322 | Drain returns only when every job submitted so far has been run |
| Bio.NoLostWakeup | redis/redis-7.2.3/src/bio.c:152-160 | Under every interleaving and every choice of whom a signal wakes, as long as no two threads drain at the same time: the worker never sleeps with work in its queue, and a draining thread never with the queue empty, whenever the mutex is free |
| Bio.TwoDrainersSleep | redis/redis-7.2.3/src/bio.c:314-322 | The failing case: a run with two draining threads after which everybody sleeps, with a job in the queue |
| Bio.AwakeSignal | redis/redis-7.2.3/src/bio.c:152-160 | With at most one draining thread a signal wakes the only thread that waits |
| Bio.OffsetNeverDecreases | redis/redis-7.2.3/src/bio.c:259-277 | fsynced_reploff_pending never decreases if the submitted offsets do not |
| Bio.OffsetOfLastSync | redis/redis-7.2.3/src/bio.c:258-278 | The pending offset is that of the last job whose fsync succeeded |
| Bio.OffsetWithoutSync | redis/redis-7.2.3/src/bio.c:258-278 | Without such a job it is what it was |
| Bio.RunKeeps | redis/redis-7.2.3/src/bio.c:152-160 | Every step of every thread keeps mutual exclusion, order and counters |
| Bio.Reachable | redis/redis-7.2.3/src/bio.c:119-150 | All of that holds in every reachable state |
| AdList.List.LinkNodeHead | redis/redis-7.2.3/src/adlist.c:103-114 | The sequence gets the node in front; head, tail, length and both link directions stay consistent |
| AdList.List.LinkNodeTail | redis/redis-7.2.3/src/adlist.c:136-147 | The sequence gets the node at the end |
| AdList.List.AddNodeHead | redis/redis-7.2.3/src/adlist.c:89-98 | A fresh node with the value is in front |
| AdList.List.AddNodeTail | redis/redis-7.2.3/src/adlist.c:122-131 | A fresh node with the value is at the end |
| AdList.List.InsertNode | redis/redis-7.2.3/src/adlist.c:149-176 | A fresh node stands before or after the given one, at the ends too |
| AdList.List.UnlinkNode | redis/redis-7.2.3/src/adlist.c:192-206 | The sequence loses exactly that node, whose links are cleared |
| AdList.List.RotateTailToHead | redis/redis-7.2.3/src/adlist.c:361-373 | The last node comes first |
| AdList.List.RotateHeadToTail | redis/redis-7.2.3/src/adlist.c:376-388 | The first node comes last |
| AdList.List.Join | redis/redis-7.2.3/src/adlist.c:392-408 | The other list is appended and left empty, whichever of them is empty |
| AdList.List.Index | redis/redis-7.2.3/src/adlist.c:346-358 | The node at a position counted from either end, or null |
| AdList.List.SearchKey | redis/redis-7.2.3/src/adlist.c:321-339 | The first node that matches, or null if none does |
| AdList.List.Dup | redis/redis-7.2.3/src/adlist.c:276-310 | A fresh list with the duplicated values in order, or null exactly if one cannot be duplicated |
| AdList.List.Sweep | redis/redis-7.2.3/src/adlist.c:241-266 | An iteration in either direction that deletes nodes just returned is given every original node once, in the order of the direction, and leaves exactly the others, in order |
| AdList.Iter.ListNext | redis/redis-7.2.3/src/adlist.c:255-266 | The node behind the current one is saved before the current one is given out |
| ConfigRewrite.RewriteConfig | redis/redis-7.2.3/src/config.c:1747-1789 | Main result. From the bytes of any old file to those of the new one, for any calls, marks without a line among them: line i of the old file is the line asked for in its turn if it belongs to a requested option that asked for so many, empty if it belongs to one that did not, and otherwise as it was read; behind them are the forced lines that found no old one, in the order of the calls, behind the signature unless the file had it; of empty lines in a row the first is left |
| ConfigRewrite.RewriteState.RewriteLine | redis/redis-7.2.3/src/config.c:1231-1265 | A line takes the place of the first old line left to the option, is appended behind the signature if forced, and is dropped otherwise |
| ConfigRewrite.OthersKept | redis/redis-7.2.3/src/config.c:1747-1789 | Comments and the lines of options that are not requested keep their text and position |
| ConfigRewrite.OwnLines | redis/redis-7.2.3/src/config.c:1231-1265 | The k-th old line of a requested option holds the k-th line asked for, or nothing if there is none |
| ConfigRewrite.TakenInOrder | redis/redis-7.2.3/src/config.c:1231-1265 | The old lines of an option followed by those appended for it are exactly the lines taken for it, in the order of the calls |
| ConfigRewrite.LeftIs | redis/redis-7.2.3/src/config.c:1231-1265 | The old lines left to an option are its lines that were not reused |
| ConfigRewrite.OldLinesRank | redis/redis-7.2.3/src/config.c:1087-1101 | The k-th line recorded for an option is the one with k of its lines before it |
| ConfigRewrite.RewriteState.MarkAsProcessed | redis/redis-7.2.3/src/config.c:1107-1111 | The option is processed, and nothing else changes |
| ConfigRewrite.RewriteState.BlankOrphans | redis/redis-7.2.3/src/config.c:1624-1649 | The loops blank exactly the lines left to processed options |
| ConfigRewrite.RewriteState.constructor | redis/redis-7.2.3/src/config.c:1075-1084 | A state without lines and options |
| ConfigRewrite.GetContent | redis/redis-7.2.3/src/config.c:1598-1614 | The lines, each with a line end, without the second and later of empty lines in a row |
| ConfigRewrite.SqueezedKeeps | redis/redis-7.2.3/src/config.c:1598-1614 | No line that is not empty is lost, the order stays, and no two empty ones follow each other |
| ConfigRewrite.ReadBack | redis/redis-7.2.3/src/config.c:1138-1143 | The next rewrite reads the lines that this one wrote, and an empty one behind them |
| ConfigRewrite.CaseIgnored | redis/redis-7.2.3/src/config.c:1032-1050 | A sentinel directive belongs to the option with the same two words, in whatever case |
| ConfigRewrite.FirstWordOwns | redis/redis-7.2.3/src/config.c:1155-1205 | A line belongs to the option of its first word, in whatever case, or to the one of which that is an alias |
| ConfigRewrite.ConfigurationKept | redis/redis-7.2.3/src/config.c:1155-1205 | So a line that starts with the name of a configuration stays as it is and is recorded for it |
| ConfigRewrite.RewriteState.RemoveOrphaned | redis/redis-7.2.3/src/config.c:1624-1649 | Exactly the old lines left to processed options become empty |
| ConfigRewrite.RewriteState.ReadOldFile | redis/redis-7.2.3/src/config.c:1118-1213 | Over any lines: every line, trimmed, keeps its place, blank lines and comments as they are, lines that do not split or are unknown commented out, and each directive belongs to its option, by alias, ignoring case and with sentinel directives apart |
| ConfigRewrite.RewriteState.ReadLine | redis/redis-7.2.3/src/config.c:1143-1208 | One line is appended and, if it is a directive, recorded for its option, ignoring case |
| StockLedger.Run | controller/product.controller.js:421-790 | Main result. Any run of intake, sales, sale deletions and deletion of all sales, with any quantities and any product in a deletion, leaves exactly the books of the specification; for every product stock plus recorded sales is what was taken in, lost and moved; without negative quantities and with deletions under the own product it is what was taken in, and no batch is negative |
| StockLedger.Conservation | controller/product.controller.js:421-790 | For every run and product: stock plus recorded sales is the sum of what each request takes in, loses (a negative sale of batches that are all empty) or moves (a deletion under another product) |
| StockLedger.OrderlyConserves | controller/product.controller.js:421-790 | Nothing is lost or moved and no batch or sale is negative if no quantity is and sales are deleted under their own product |
| StockLedger.NextBalances | controller/product.controller.js:421-790 | One request, accepted or refused, changes stock plus sales of each product by exactly that |
| StockLedger.SaleBalances | controller/product.controller.js:481-790 | A sale moves its quantity from the stock of its product into the sales, unless it is lost, and leaves the stock of other products alone |
| StockLedger.DeletionBalances | controller/product.controller.js:1375-1430 | A deletion takes the sale away from its product and puts the stock into the product given |
| StockLedger.AllBalances | controller/product.controller.js:1763-1793 | Deleting all sales puts back what was sold of every product |
| StockLedger.RunRecords | controller/product.controller.js:744-775 | After any run each recorded sale has aQuantity = bQuantity - quantity, or is negative and left the stock as it was |
| StockLedger.DrawTakes | controller/product.controller.js:589-742 | For every quantity up to the stock exactly that quantity is taken if and only if it is not negative or some batch is not empty; batches do not become negative |
| StockLedger.DrawShape | controller/product.controller.js:589-742 | A prefix of the batches is emptied, at most one more is reduced, and the others are left alone; a negative quantity makes the first batch that is not empty larger |
| StockLedger.DrawnOf | controller/product.controller.js:589-742 | In the store the batches of the product are what the draw leaves of each, in order, without those that were emptied |
| StockLedger.DrawnOthers | controller/product.controller.js:589-742 | Batches of other products are all there, in order |
| StockLedger.DrawnStock | controller/product.controller.js:589-742 | The stock of the product after a sale is the sum of what the draw leaves |
| StockLedger.DrawnIds | controller/product.controller.js:589-742 | Ids stay unique and none is new, and no batch becomes negative |
| StockLedger.NegativeSaleLost | controller/product.controller.js:589-742 | A negative quantity asked of one empty batch is recorded without effect |
| StockLedger.TwoEmptyBatches | controller/product.controller.js:700-822 | The failing cases: behind two empty batches there is stock for the sale, and it is rolled back; a negative sale of two empty batches is rolled back and not lost |
| StockLedger.NothingMet | controller/product.controller.js:589-742 | Without empty batches no sale is rolled back for them |
| StockLedger.DeletedUnderAnother | controller/product.controller.js:1375-1430 | The failing case: a sale deleted under another product puts its stock there |
| StockLedger.NoLastsForTwo | controller/product.controller.js:600-690 | The failing case: a sale that empties the last two batches at once leaves no Lasts document, and cannot be deleted |
| StockLedger.Ledger.Sell | controller/product.controller.js:481-790 | Accepted exactly if the product has a batch, there are enough pieces, quantity times units per bulk for a sale in bulks, and fewer than two empty batches are met; the sale then records the pieces, the stock falls by them, and other products are left alone; otherwise nothing changes |
| StockLedger.SaleOutcome | controller/product.controller.js:481-790 | The same of the specification, for every request |
| StockLedger.MetIs | controller/product.controller.js:700-742 | The empty batches that count are those before which every batch that is not empty is sold out |
| StockLedger.BoxesOfTwelve | controller/product.controller.js:484-488 | Two boxes of twelve out of thirty pieces leave six |
| StockLedger.Ledger.DrawDown | controller/product.controller.js:589-742 | The loop with its break computes the draw, by deletions and updates by id in the store and in the local list, and throws exactly at the second empty batch met |
| StockLedger.SellingStep | controller/product.controller.js:589-742 | Deleting or updating the next batch of the product by its id in the store is the next step of the draw |
| StockLedger.HalfwayStep | controller/product.controller.js:589-742 | One batch skipped, emptied or reduced in the local list, or the second reply |
| StockLedger.Ledger.TakeIn | controller/product.controller.js:212-269 | One new batch of any quantity at the end of the store |
| StockLedger.Ledger.DeleteSale | controller/product.controller.js:1375-1430 | Accepted exactly if the sale exists and the product given has a batch or a Lasts document; the first batch, or one made from the document, gets its quantity |
| StockLedger.DeletionOutcome | controller/product.controller.js:1375-1430 | Accepted exactly if there is such a sale and the product given has a batch or a Lasts document; the sale goes, and the first batch of the product, or a new one, has its quantity more |
| StockLedger.Ledger.DeleteAllSales | controller/product.controller.js:1763-1793 | Accepted exactly if every sale finds a batch of its product; each first batch gets the quantities of the sales, one after the other |
| StockLedger.AllOutcome | controller/product.controller.js:1763-1793 | All sales go exactly if every product sold has a batch, and each product gets back what was sold of it |
| StockLedger.Serve | controller/product.controller.js:421-790 | One request has exactly the effect of the specification |

## Left out

- Express routing, authentication, mail, uploads, PDF, Mongo and Joi wiring: input, output and thin wrappers.
- editInventory, deleteInventory and concurrent sessions of the ledger: they change the totals by design or read outside of the transaction.
- Prices, costs and the contents of Lasts documents: only quantities, and whether a product has such a document.
- Replies of the service, but for the one that recordSales sends at an empty batch.
- Floating-point rounding in the ledger: quantities are real numbers.
- AOF states OFF and WAIT_REWRITE, RDB preambles, timestamp annotations, directory fsync failure and the upgrade of an old single-file AOF.
- AofRewrite.CrashSafety: a flush writes the whole buffer and a manifest is persisted completely or not at all; partial writes are in AofFlush.
- AofManifest.RoundTrip: on words; the bytes are in AofManifestText.TextRoundTrip. AofRewrite uses the words, which is to say that appendfilename and the length of lines meet the condition of the latter.
- AofManifest.ParseFormat: on words, like the round trip above.
- Acl.RecomputeRebuilds: operations without spaces, as they come from a split command line or file; one with a space in it is stored as several rules.
- AclSelector.SelectorObject.RecomputeCommandBits: not for rules with a backslash escape in quotes that makes a space or a NUL byte in an argument that is then accepted.
- Key and channel patterns, passwords, users and command checking of ACLs.
- AclSelector.SelectorObject.SetCommandBit: the bitmap is an array of bits instead of 64-bit words.
- Blocked.Server.HandleClientsBlockedOnKeys: takes the number of rounds that are made at most, since the loop goes on as long as serving signals further keys and need not end.
- Blocked.Server.UnblockClientOnKey: re-running a command touches only the registration of its own client and signals keys; module clients are visited but what the module does then, signals included, is left out, and they leave their queues later, outside of the pass.
- The timeout table, replicas waiting for acknowledgements, the list of postponed clients and pausing.
- BITFIELD argument parsing, BITOP key lookup and type errors, growth of the string before a write, replies and keyspace events.
- BitCount.Popcount: the table bitsinbyte is given by its meaning, the number of ones of each byte.
- AdList: free callbacks and reference counts.
- Bio.RunsOnceInOrder: one worker; the three workers share nothing but the offset. What jobs do beyond the offset, thread creation and killing are left out.
- ConfigRewrite.RewriteConfig: the table of configurations is a parameter, and so are the lines that are asked for; formatting of values and overwriting of the file are left out.
- rax, dict, the event loop, networking, cluster and replication code: sequences, sets and maps stand for the containers.
