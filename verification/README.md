# Verified models of Redis durability, access rules, bitmaps and blocking

This project models the C code of the vendored Redis tree whose correctness is hardest
to see from the source, and proves what that code is for:

- **Append-only file (`aof.c`)**: the multi-file rewrite protocol with crashes between
  any two disk effects and inside a record, the manifest and its loader, the command log and its replaying
  loader, the chunked dataset rewriter, and the recovery from short writes.
- **ACL selectors (`acl.c`)**: the bitmap and the compacted textual history of rules.
- **Bitmaps (`bitops.c`)**: BITOP, BITCOUNT, BITPOS and BITFIELD.
- **Blocked clients (`blocked.c`)**: the tables of clients waiting for keys.
- **Background workers (`bio.c`)**: queues, locks, draining and completions.
- **Linked list (`adlist.c`)** and **event merging (`ae_kqueue.c`)**.

Objects that the source updates in place are classes whose methods are proved against
specification functions; the properties over whole runs are lemmas about those functions.
The rewrite protocol and the background workers are state machines over their atomic
steps. A `string` is a sequence of bytes throughout.

## Files

| files | contents |
|---|---|
| `aof_protocol.dfy`, `aof_records.dfy`, `aof_manifest.dfy` | rewrite protocol; its records as bytes; manifest mutators, printer, loader |
| `aof_log.dfy`, `aof_rewrite.dfy`, `aof_flush.dfy` | log encoder and loader; dataset rewriter; buffer flushing |
| `acl_rules.dfy`, `acl_text.dfy`, `acl_selector.dfy`, `acl.dfy` | meaning of rules and compaction; rule strings; parsing; the selector object |
| `bitops_*.dfy`, `bits.dfy`, `words.dfy`, `arith.dfy` | bitmap commands and their bit arithmetic |
| `blocked_index.dfy`, `blocked.dfy` | waiter tables; blocking, serving, unblocking |
| `bio.dfy`, `adlist.dfy`, `ae_kqueue.dfy` | workers; linked list; event merging |
| `sds.dfy`, `decimal.dfy`, `base.dfy` | quoting and splitting; decimal numbers; options |

## Assumptions

- The configured file name is one the configuration accepts: bytes without path
  separators.
- Persisting the manifest is atomic: on an error the manifest on disk is unchanged. The
  forced flush at the start of a rewrite drains the buffer. The append-only file stays on.
- What a command does to the dataset is a parameter of the rewrite protocol, and a BASE
  file is its effect on an empty server; `AofRewrite` and `AofLog` prove that effect for
  BASE files written as commands.
- The ACL command table is fixed: lower-case names without bars, unique per level, and
  unique identifiers below the bitmap size that avoid the reserved bit, as
  `GetCommandID` hands them out. ACL operations are free of whitespace and quotes.
- Write results, fsync results, object types found under keys and what a re-executed
  command does are parameters of the operations that depend on them.

## Where the code does not do what one expects

- A file name with a single quote and nothing else that needs quoting is printed bare in
  the manifest, and the loader refuses the text; so it does with a line of more than 1024
  bytes (`AofManifest.RoundTrip` gives the exact condition, `AofManifest.QuoteExample` an
  input). With such a name the server runs, but it can never be started again
  (`AofProtocol.EveryRunRecovers`, `AofProtocol.NeverStarts`).
- INCR files opened by a rewrite are opened without append. After a short write was
  truncated away, the next write leaves a hole there (`AofFlush.GapArises`,
  `AofFlush.HoleExample`). `AofFlush.RunExact` says for every run whether bytes are lost:
  exactly when, on such a descriptor, a byte other than zero is counted as written after
  a short write was truncated away.
- BITFIELD SET with saturation stores the maximum for values far below the range
  (`BitField.SetSaturates`).
- A cut inside a command within an open MULTI leaves the valid offset inside the
  transaction (`AofLog.LoadCut`). The commands run are right, but the file left behind is
  cut once more by the next load (`AofLog.ReloadCut`, `AofLog.SecondLoad`); the third load
  is clean (`AofLog.ThirdLoad`). Commands logged in between stand inside the open
  transaction and are lost; `AofLog.WrittenAfterCut` gives the exact condition, and
  `AofLog.TornTransaction` an input.
- Retained ACL rules are lower case, so first arguments are rebuilt up to case, which is
  how they are compared.
- The all-commands flag is not part of what describing a selector rebuilds:
  `Acl.SelectorObject.DescribeCommandRules` says when the rebuilt selector has it, and
  `Acl.FlagIsNotRebuilt` shows a selector without the flag that is rebuilt with it.

## Model

| member | source | states |
|---|---|---|
| AofProtocol.EveryRunRecovers | local-redis/redis-stable/src/aof.c:2652-2720 | For every accepted file name and every run, from an empty directory on, of first starts, writes, flushes, rewrite starts, failed opens, forks, renames and persists, child failures, shutdowns, restarts and crashes between any two disk effects or inside a record: the manifest text on disk parses if and only if the name survives being printed and every line is within the limit; then the files it names exist, and loading BASE then INCR gives exactly the dataset after the flushed writes; a running server holds that plus its buffer; before the first manifest there is no server and nothing was written |
| AofProtocol.StepKeeps | local-redis/redis-stable/src/aof.c:2809-2934 | Every step of the protocol keeps the invariant tying disk, memory and the forked snapshot together |
| AofProtocol.RunKeeps | local-redis/redis-stable/src/aof.c:2652-2720 | The invariant holds in every reachable state |
| AofProtocol.LogGrows | local-redis/redis-stable/src/aof.c:1237-1321 | No later step takes a flushed write back |
| AofProtocol.ReplayChained | local-redis/redis-stable/src/aof.c:1409-1448 | Loading a file from database 0 runs every record in the database it was executed in, because of the SELECT in front of it |
| AofProtocol.StartKeeps | local-redis/redis-stable/src/aof.c:2664-2671 | Starting a rewrite forgets the selected database and drains the buffer into the old INCR file |
| AofProtocol.CreateIncrKeeps | local-redis/redis-stable/src/aof.c:804-828 | Creating and truncating the next INCR file touches no file a crash would load |
| AofProtocol.PersistIncrKeeps | local-redis/redis-stable/src/aof.c:830-860 | Persisting the manifest with one more, empty INCR file does not change what would be loaded |
| AofProtocol.ForkKeeps | local-redis/redis-stable/src/aof.c:2688-2717 | The snapshot taken at the fork, followed by the current INCR file, is the dataset after the flushed writes; a failed fork leaves a loadable state |
| AofProtocol.RenameKeeps | local-redis/redis-stable/src/aof.c:2826-2850 | Renaming the child's file to the next BASE name touches no file a crash would load |
| AofProtocol.PersistBaseKeeps | local-redis/redis-stable/src/aof.c:2887-2908 | Switching the manifest to the new BASE and the current INCR file keeps what would be loaded |
| AofProtocol.UndoKeeps | local-redis/redis-stable/src/aof.c:2891-2902 | Unlinking the new BASE after a failed persist touches no file a crash would load |
| AofProtocol.UnlinkKeeps | local-redis/redis-stable/src/aof.c:682-706 | Deleting history files one by one, with a crash possible in between, never deletes a live file |
| AofProtocol.CleanKeeps | local-redis/redis-stable/src/aof.c:702-705 | A failed persist after deleting history is harmless |
| AofProtocol.RestartKeeps | local-redis/redis-stable/src/aof.c:1823-1881 | A start, which parses the manifest text, is possible exactly under that condition, and with truncated loading on if the last file is torn; it recovers the dataset after the flushed writes, leaves no torn record, continues on the last INCR file without its end offset and goes on to delete history files |
| AofProtocol.WhenStartable | local-redis/redis-stable/src/aof.c:1823-1881 | In every reachable state: when a server that is down can be started, with truncated loading on or off |
| AofProtocol.TornKeeps | local-redis/redis-stable/src/aof.c:1237-1262 | A crash inside a record changes nothing of what would be loaded |
| AofProtocol.ShutdownKeeps | local-redis/redis-stable/src/aof.c:872-883 | Persisting the end offset at shutdown, or failing to, changes nothing of what would be loaded |
| AofProtocol.ResetKeeps | local-redis/redis-stable/src/aof.c:888-912 | Forgetting the end offset at start does neither; if it cannot be persisted the process exits |
| AofProtocol.FirstKeeps | local-redis/redis-stable/src/aof.c:727-781 | The first start ends in a consistent state whatever earlier first starts left behind |
| AofRecords.TornFile | local-redis/redis-stable/src/aof.c:1697-1732 | The bytes of a file cut inside its last record: the loader runs exactly the records in front, each in its database, and the file it leaves loads cleanly |
| AofRecords.WholeFile | local-redis/redis-stable/src/aof.c:1581-1700 | The bytes of whole records load without error, and running what was loaded is the replay of the records |
| AofProtocol.TextParses | local-redis/redis-stable/src/aof.c:211-229 | The text on disk gives back the manifest it was printed from, or is refused |
| AofProtocol.NeverStarts | local-redis/redis-stable/src/aof.c:118-140 | With a name that does not survive being printed, a server once down stays down whatever is tried |
| AofProtocol.HistoryIsDead | local-redis/redis-stable/src/aof.c:440-536 | Names of history files differ from the names of all live files |
| AofProtocol.BaseIsFresh | local-redis/redis-stable/src/aof.c:440-459 | A BASE name with another number is no live file's name |
| AofProtocol.IncrIsFresh | local-redis/redis-stable/src/aof.c:468-478 | An INCR name with another number is no live file's name |
| AofProtocol.RecoverNewBase | local-redis/redis-stable/src/aof.c:2809-2934 | Snapshot plus the INCR file opened before the fork is all that needs loading |
| AofProtocol.AppendToCurrent | local-redis/redis-stable/src/aof.c:1237-1321 | Appending records to the file being written executes them at the end of the recovery |
| AofManifest.RoundTrip | local-redis/redis-stable/src/aof.c:265-395 | For every non-empty manifest built by the mutators: the loader reads the printed text back as the same base, history and INCR lists with the same offsets if and only if the configured file name is printed in quotes or holds no single quote and every line is within 1024 bytes; it never reads anything else |
| AofManifest.BuiltWellFormed | local-redis/redis-stable/src/aof.c:440-536 | Whatever the mutators do, INCR numbers are positive and strictly increasing and every entry keeps its type and name |
| AofManifest.Loads | local-redis/redis-stable/src/aof.c:211-229 | The direction of the round trip that succeeds, for every well-formed manifest |
| AofManifest.DoesNotLoad | local-redis/redis-stable/src/aof.c:118-140 | With a bare single quote in the file name the first line is refused, as too long or as badly formatted |
| AofManifest.LoadsExactly | local-redis/redis-stable/src/aof.c:265-395 | Every well-formed manifest is read back or refused, and exactly when which |
| AofManifest.LongLineRefused | local-redis/redis-stable/src/aof.c:286-306 | One line beyond the limit anywhere makes the whole text refused |
| AofManifest.QuoteExample | local-redis/redis-stable/src/config.c:2379-2389 | The name it's is accepted by the configuration, its manifest lines are short, and the text is refused |
| AofManifest.ReadLineOf | local-redis/redis-stable/src/aof.c:285-345 | One printed line is read back as the same entry |
| AofManifest.LineText | local-redis/redis-stable/src/aof.c:118-140 | The words of a line are printed in the format of the manifest |
| AofManifest.AofInfoFormat | local-redis/redis-stable/src/aof.c:118-140 | Appends the line of one file |
| AofManifest.AppendAofInfoFromList | local-redis/redis-stable/src/aof.c:183-194 | Appends the lines of a list in order |
| AofManifest.GetAofManifestAsString | local-redis/redis-stable/src/aof.c:211-229 | Base first, then history, then INCR files |
| AofManifest.AofLoadManifestFromFile | local-redis/redis-stable/src/aof.c:265-395 | The loading loop computes the line-by-line definition with all its fatal errors: empty file, long line, bad format, path names, second base, non-monotonic numbers, unknown type |
| AofManifest.LoadInfo | local-redis/redis-stable/src/aof.c:316-345 | Reads the key and value pairs of a line, keys in any case and order |
| AofManifest.AofManifestObject.GetNewBaseFileNameAndMarkPreAsHistory | local-redis/redis-stable/src/aof.c:440-459 | New BASE with the next number; the previous one becomes the newest history entry |
| AofManifest.AofManifestObject.GetNewIncrAofName | local-redis/redis-stable/src/aof.c:468-478 | Appends an INCR file with the next number and its start offset |
| AofManifest.AofManifestObject.GetLastIncrAofName | local-redis/redis-stable/src/aof.c:487-499 | The last INCR file, created only if there is none |
| AofManifest.AofManifestObject.MarkRewrittenIncrAofAsHistory | local-redis/redis-stable/src/aof.c:506-536 | Walking from the tail, moves all INCR files but the one being written to the front of the history in order |
| AofManifest.AofManifestObject.AofDelHistoryFiles | local-redis/redis-stable/src/aof.c:682-706 | Unlinks the history files in order, empties the history and marks the manifest dirty unless persisted; nothing when automatic deletion is switched off |
| AofManifest.AofManifestObject.UpdateCurIncrAofEndOffset | local-redis/redis-stable/src/aof.c:872-883 | Sets the end offset of the last INCR file only |
| Sds.SplitJoin | local-redis/redis-stable/src/sds.c:1047-1155 | Splitting a printed line gives back its words, quoted or bare, whatever bytes they hold |
| Sds.TokenRepr | local-redis/redis-stable/src/sds.c:951-975 | Reading a quoted word undoes every escape |
| Sds.QuotesVanish | local-redis/redis-stable/src/sds.c:1099-1133 | Without backslashes and double quotes no single quote reaches a token |
| Sds.SingleQuoteLost | local-redis/redis-stable/src/sds.c:984-995 | A bare word with a single quote is never read back as itself |
| Sds.QuoteInside | local-redis/redis-stable/src/sds.c:1099-1133 | A bare word with a single quote before its last character makes splitting fail |
| AofLog.FedLogReplays | local-redis/redis-stable/src/aof.c:1409-1448 | For any sequence of fed commands, MULTI and EXEC included, starting with no database selected and under any settings: the bytes load without error exactly if every transaction is closed, and the replay runs exactly the fed commands, up to the MULTI that stays open if there is one, without the MULTI and EXEC around transactions, in order, each in the database it was fed with, also when its SELECT was queued |
| AofLog.ReplayPlacement | local-redis/redis-stable/src/aof.c:1409-1448 | The SELECTs, queued or not, make every command run where it is meant to |
| AofLog.MeantPlaces | local-redis/redis-stable/src/aof.c:1409-1448 | What is meant: each fed command once, in order, in its own database |
| AofLog.RunUnwrapped | local-redis/redis-stable/src/aof.c:1660-1695 | Over any log, what was run followed by what is queued are all commands in order without the brackets of transactions |
| AofLog.ReadEncoded | local-redis/redis-stable/src/aof.c:1604-1655 | Parsing an encoded command gives back its arguments, binary-safe, whatever follows it |
| AofLog.CutCommand | local-redis/redis-stable/src/aof.c:1597-1655 | Every proper non-empty prefix of an encoded command is a read error at the end of the file, never a shorter command |
| AofLog.LoadCut | local-redis/redis-stable/src/aof.c:1697-1732 | Under any settings, loading a log cut at any non-zero byte runs exactly the commands wholly inside the cut, with the valid offset at their end, or before the last MULTI when the cut is on a command boundary of an open transaction |
| AofLog.ReloadCut | local-redis/redis-stable/src/aof.c:1697-1732 | Under any settings, what the second load of a cut log gives: if the first one cut the file, the same commands, cleanly exactly if no transaction is open behind the commands left, and otherwise cut back to the last MULTI; else the same result |
| AofLog.SecondLoad | local-redis/redis-stable/src/aof.c:1697-1732 | Without nested MULTI and under any settings, exactly when the second load is clean: if files are cut, unless the cut was inside a command of an open transaction |
| AofLog.ThirdLoad | local-redis/redis-stable/src/aof.c:1697-1732 | Without nested MULTI all three loads run the same commands, and if files are cut the third is clean |
| AofLog.WrittenAfterCut | local-redis/redis-stable/src/aof.c:1697-1732 | Commands logged behind the file that a first load cut are run by the next load if and only if the cut was not inside a command of an open transaction, or there are none |
| AofLog.TornTransaction | local-redis/redis-stable/src/aof.c:1697-1732 | MULTI and one byte more: the file the first load leaves is cut again by the second, and a SET logged in between is lost |
| AofLog.LoadWhole | local-redis/redis-stable/src/aof.c:1581-1700 | An uncut log, transactions included, loads completely under any settings, or is rolled back to its last MULTI if it ends inside a transaction |
| AofLog.RunTransaction | local-redis/redis-stable/src/aof.c:1660-1695 | A MULTI .. EXEC block runs its commands in order |
| AofLog.CatAppendOnlyGenericCommand | local-redis/redis-stable/src/aof.c:1357-1380 | Appends the RESP array of bulk strings |
| AofLog.LoadArgs | local-redis/redis-stable/src/aof.c:1618-1655 | The argument loop computes the recursive reading |
| AofLog.LoadSingleAppendOnlyFile | local-redis/redis-stable/src/aof.c:1581-1772 | The loading loop computes the definition of loading, for all texts and settings, including truncation, bad format and the offset bookkeeping |
| AofLog.Feeder.FeedAppendOnlyFile | local-redis/redis-stable/src/aof.c:1409-1448 | Appends SELECT only when the database changes, then the command |
| AofLog.Feeder.FeedAll | local-redis/redis-stable/src/aof.c:1409-1448 | The buffer after feeding a sequence of commands |
| AofRewrite.RewriteReplays | local-redis/redis-stable/src/aof.c:2480-2563 | Replaying the rewriter's commands on an empty server rebuilds exactly the same keys, values and expiry times in every database |
| AofRewrite.RewrittenFileLoads | local-redis/redis-stable/src/aof.c:2480-2563 | The rewritten file loads without error under any settings, and running what was loaded rebuilds the databases |
| AofRewrite.FirstChunk | local-redis/redis-stable/src/aof.c:1928-1948 | At every chunk boundary the header counts exactly the arguments that follow it |
| AofRewrite.RewriteItems | local-redis/redis-stable/src/aof.c:1920-2162 | The counting loop writes the chunked variadic commands, for every number of elements |
| AofRewrite.RewriteObject | local-redis/redis-stable/src/aof.c:2440-2476 | Writes the commands of one key and its expiry |
| AofRewrite.RewriteAppendOnlyFileRio | local-redis/redis-stable/src/aof.c:2480-2563 | Writes SELECT and the keys of every non-empty database |
| AofRewrite.ReplayChunks | local-redis/redis-stable/src/aof.c:1920-1959 | Replaying the chunks of an object adds up its elements in order |
| AofRewrite.ReplayKey | local-redis/redis-stable/src/aof.c:2440-2476 | Replaying the commands of a key stores its value and expiry and nothing else |
| AofRewrite.ChunksFit | local-redis/redis-stable/src/aof.c:1928-1948 | No command exceeds 2 + 2 * 64 arguments, and every command is within the loader's limits |
| AofFlush.RunKeepsBytes | local-redis/redis-stable/src/aof.c:1147-1355 | For every run of feeds and flushes with arbitrary interrupted, short and failed writes, truncations and fsyncs, on a descriptor that appends or when no short write is truncated away: the counted part of the file followed by the buffer is what was there plus all bytes fed; only policy always exits |
| AofFlush.RunExact | local-redis/redis-stable/src/aof.c:824-827 | For every run from a file just opened: the bytes are kept if and only if the descriptor appends or no byte other than zero is counted as written after the first short write that was truncated away |
| AofFlush.RunConserves | local-redis/redis-stable/src/aof.c:1237-1321 | In every run, with or without a gap, the buffer holds exactly the bytes not yet counted and what was counted is never changed |
| AofFlush.FlushIs | local-redis/redis-stable/src/aof.c:1147-1355 | How many bytes a flush counts, decided by its inputs; the file, its position and the buffer afterwards |
| AofFlush.FlushKeepsBytes | local-redis/redis-stable/src/aof.c:1237-1321 | One flush keeps these bytes in every branch but the truncation of a short write on a descriptor that does not append |
| AofFlush.GapArises | local-redis/redis-stable/src/aof.c:1263-1277 | On a descriptor that does not append, exactly the truncation of a short write separates file position and end of file |
| AofFlush.GapLosesBytes | local-redis/redis-stable/src/aof.c:1263-1315 | With a gap of any history, a flush keeps the bytes exactly if those it counts, known beforehand, are zeros; the gap stays |
| AofFlush.GapRun | local-redis/redis-stable/src/aof.c:1263-1315 | From a gap on, a run keeps the bytes exactly if it counts only zeros |
| AofFlush.WrongStays | local-redis/redis-stable/src/aof.c:1263-1315 | A byte stored wrongly is never repaired by later flushes |
| AofFlush.HoleExample | local-redis/redis-stable/src/aof.c:824-827 | A concrete run on a descriptor opened without append that leaves a zero byte in the log |
| AofFlush.AlwaysDurable | local-redis/redis-stable/src/aof.c:1330-1347 | Under policy always a flush that returns has written and synced everything, on any descriptor |
| AofFlush.Server.AofWrite | local-redis/redis-stable/src/aof.c:1109-1126 | Retries until done or failed; the bytes written are the prefix the attempts allowed |
| AofFlush.Server.FlushAppendOnlyFile | local-redis/redis-stable/src/aof.c:1147-1355 | Computes the flush, including postponing, write errors and fsync |
| AofFlush.Server.AfterAofWrite | local-redis/redis-stable/src/aof.c:1237-1321 | Success, short write with and without truncation, write error, and exit under always |
| Acl.SelectorObject.DescribeCommandRules | local-redis/redis-stable/src/acl.c:760-813 | Never panics: the selector rebuilt from +@all or -@all and the retained rules has the same bitmap, first arguments and retained rules; every retained rule is accepted; the text returned; and the rebuilt selector has the all-commands flag exactly if the reserved bit is set and no retained rule takes commands away, in particular if the described one has it |
| Acl.FlagIsNotRebuilt | local-redis/redis-stable/src/acl.c:560-569 | For every command: +@all, taking it away and giving it back loses the flag, and describing the selector rebuilds one with it |
| AclRules.DescriptionRebuilds | local-redis/redis-stable/src/acl.c:760-813 | After any sequence of operations, the start chosen by the reserved bit followed by the compacted rules gives exactly the permissions |
| AclRules.CompactionSound | local-redis/redis-stable/src/acl.c:574-628 | Adding a rule to the compacted history has the effect of adding it to the full history |
| AclRules.CompactAlike | local-redis/redis-stable/src/acl.c:574-616 | Dropping the rules a new rule covers changes only what the new rule decides |
| AclRules.CoversMeans | local-redis/redis-stable/src/acl.c:596-612 | The textual match holds exactly for the same rule and for rules below a whole command |
| AclRules.SetKeeps | local-redis/redis-stable/src/acl.c:1037-1212 | Every operation keeps permissions and history equivalent and the history compact |
| AclRules.FutureUntouched | local-redis/redis-stable/src/acl.c:1546-1553 | No rule touches the reserved bit |
| AclRules.ReplayIsIdentity | local-redis/redis-stable/src/acl.c:785-792 | Replaying the rules leaves the same retained rules |
| AclText.RemoveCommandRule | local-redis/redis-stable/src/acl.c:574-616 | The in-place removal on the rule string leaves exactly the tokens that do not match, separated by single spaces, in order |
| AclSelector.RemainingIsCompact | local-redis/redis-stable/src/acl.c:574-628 | Removing tokens from the text is compacting the history |
| AclSelector.ParseToken | local-redis/redis-stable/src/acl.c:1129-1212 | Parsing the text of a retained rule gives that rule |
| AclSelector.SplitRules | local-redis/redis-stable/src/acl.c:785-788 | Splitting the rule string gives its rules |
| AclSelector.LookupSub | local-redis/redis-stable/src/server.c:3483-3499 | The lookup finds a subcommand by its full name |
| AclSelector.ParsedOk | local-redis/redis-stable/src/acl.c:1037-1212 | What is parsed names existing commands, categories or a plain first argument |
| Acl.SelectorObject.SetSelector | local-redis/redis-stable/src/acl.c:1037-1212 | Applies exactly the parsed operation, or nothing on an error, and keeps the selector consistent |
| Acl.SelectorObject.UpdateCommandRules | local-redis/redis-stable/src/acl.c:620-628 | The rule string after removing what the new rule covers and appending it |
| Acl.SelectorObject.ChangePerm | local-redis/redis-stable/src/acl.c:632-646 | Sets or clears the bits of a command and its subcommands and forgets the command's first arguments |
| Acl.SelectorObject.SetCommandBit | local-redis/redis-stable/src/acl.c:560-569 | Changes one bit; exactly clearing one also clears the all-commands flag |
| Acl.SelectorObject.SetCommandBitsForCategory | local-redis/redis-stable/src/acl.c:654-668 | The two-level loop is one assignment over all members of the category and subcommands of members |
| Acl.SelectorObject.AddAllowedFirstArg | local-redis/redis-stable/src/acl.c:945-971 | Adds a first argument unless it is there in any case |
| Acl.SelectorObject.ResetFirstArgsForCommand | local-redis/redis-stable/src/acl.c:918-925 | Forgets the first arguments of one command only |
| Acl.CommandIds.GetCommandID | local-redis/redis-stable/src/acl.c:1530-1555 | Same name, same identifier; different names, different identifiers; never the reserved bit |
| BitOp.BitopCommand | local-redis/redis-stable/src/bitops.c:1080-1455 | For all eight operations and any keys, every bit of the result follows the per-bit definition over zero-padded inputs; its length is that of the longest key; arity errors |
| BitOp.Compute | local-redis/redis-stable/src/bitops.c:1189-1433 | Word path and byte tail together give the per-bit definition |
| BitOp.FastPath | local-redis/redis-stable/src/bitops.c:1189-1340 | The four-words-at-a-time path is right for every byte it covers |
| BitOp.OneChunk | local-redis/redis-stable/src/bitops.c:1311-1338 | Parity with repeated bits masked once at the end means set in exactly one key |
| BitOp.FoldChunk | local-redis/redis-stable/src/bitops.c:1212-1310 | Folding the keys into 32 bytes |
| BitOp.TailByte | local-redis/redis-stable/src/bitops.c:1344-1433 | The early exit never changes the byte, and ONE masked at every key means set in exactly one key |
| BitOp.ResultFromCount | local-redis/redis-stable/src/bitops.c:687-699 | Each operation is decided by the number of keys with the bit set and the first key |
| Popcount.RedisPopcount | local-redis/redis-stable/src/bitops.c:65-150 | Equals the number of set bits for every buffer, alignment and length |
| Popcount.Block28Counts | local-redis/redis-stable/src/bitops.c:108-144 | The 28-byte word-parallel block counts its bits |
| Popcount.AccumulateLanes | local-redis/redis-stable/src/bitops.c:136-142 | Seven words never carry from one byte lane into the next |
| Popcount.HorizontalSum | local-redis/redis-stable/src/bitops.c:136-142 | The multiplication leaves the sum of the lanes, at most 224, in the top byte |
| Popcount.EdgesSubtracted | local-redis/redis-stable/src/bitops.c:1540-1550 | Whole bytes minus the masked edges are the bits of the range, also within one byte |
| Popcount.BitcountCommand | local-redis/redis-stable/src/bitops.c:1487-1551 | BITCOUNT is the number of set bits in the clamped range |
| Popcount.CountMasked | local-redis/redis-stable/src/bitops.c:1534-1551 | Counts whole bytes and takes back the bits the edge masks exclude |
| BitRange.Normalize | local-redis/redis-stable/src/bitops.c:1484-1527 | Negative indexes, clamping and edge masks describe exactly the bit range |
| BitPos.RedisBitpos | local-redis/redis-stable/src/bitops.c:390-475 | The least matching index over the zero-padded bitmap, -1 only for a missing one |
| BitPos.ScanWord | local-redis/redis-stable/src/bitops.c:455-475 | The final scan always finds its bit, so the panic is not reached |
| BitPos.SearchRange | local-redis/redis-stable/src/bitops.c:1646-1690 | The three-part search over edges and middle finds the least match in the range |
| BitPos.BitposCommand | local-redis/redis-stable/src/bitops.c:1598-1692 | The least match in the range, -1 when there is none, and 8 times the length only for a zero without explicit end |
| BitField.SetUnsignedBitfield | local-redis/redis-stable/src/bitops.c:498-511 | Writes the field and leaves every other bit unchanged |
| BitField.GetUnsignedBitfield | local-redis/redis-stable/src/bitops.c:518-530 | Reads the value of the field |
| BitField.ReadAfterWrite | local-redis/redis-stable/src/bitops.c:498-530 | A field reads back as the written value modulo its width |
| BitField.OtherFieldUnchanged | local-redis/redis-stable/src/bitops.c:498-511 | A field that does not overlap the written one is unchanged |
| BitField.WriteUnique | local-redis/redis-stable/src/bitops.c:498-511 | The effect of a write is unique |
| BitField.GetSignedBitfield | local-redis/redis-stable/src/bitops.c:532-552 | Two's complement reading of the field |
| BitField.SetSignedBitfield | local-redis/redis-stable/src/bitops.c:513-516 | Writes the low bits of a signed value |
| BitField.SignedRoundTrip | local-redis/redis-stable/src/bitops.c:532-552 | An in-range signed value reads back as itself |
| BitField.UnsignedExact | local-redis/redis-stable/src/bitops.c:577-612 | Overflow is reported exactly when the mathematical sum leaves the range, with the wrapped value or the nearer endpoint |
| BitField.SignedExact | local-redis/redis-stable/src/bitops.c:614-667 | The same for signed fields of up to 64 bits |
| BitField.SignedUnique | local-redis/redis-stable/src/bitops.c:646-667 | The wrapped value is the only one in range congruent to the sum |
| BitField.SetChecksRange | local-redis/redis-stable/src/bitops.c:1854-1880 | SET notices every out-of-range value |
| BitField.SetSaturates | local-redis/redis-stable/src/bitops.c:614-667 | SET with saturation stores the nearer endpoint exactly when the distance from the maximum fits in 64 bits |
| BitField.SetSaturatesUpwards | local-redis/redis-stable/src/bitops.c:622-640 | A concrete value far below the range that is stored as the maximum |
| BitField.OutcomeInRange | local-redis/redis-stable/src/bitops.c:1842-1908 | The outcome of every operation fits its field |
| BitField.StepStores | local-redis/redis-stable/src/bitops.c:1842-1908 | After a successful operation the field holds its outcome |
| BitField.ExecuteWrite | local-redis/redis-stable/src/bitops.c:1842-1908 | SET and INCRBY on the string in place; FAIL leaves it unchanged |
| BitField.ExecuteGet | local-redis/redis-stable/src/bitops.c:1909-1942 | The nine-byte buffered read equals a direct read of the zero-padded string |
| BitField.GrowKeepsBits | local-redis/redis-stable/src/bitops.c:782-807 | Growing does not change the zero-padded contents |
| BitField.BitfieldGeneric | local-redis/redis-stable/src/bitops.c:1777-1942 | The operation list runs in order inside the grown string; each operation sees its predecessors |
| BitField.FailuresKeepContents | local-redis/redis-stable/src/bitops.c:1842-1908 | A list whose writes all fail leaves the contents as they were |
| BlockedIndex.ExactlyOnce | local-redis/redis-stable/src/blocked.c:388-439 | In a consistent index a client is in the waiter list of a key exactly once if the key is in its own table, at the stored node, and not at all otherwise |
| BlockedIndex.JoinKeeps | local-redis/redis-stable/src/blocked.c:399-431 | Joining a list keeps all three tables consistent, including the no-key counts |
| BlockedIndex.LeaveKeeps | local-redis/redis-stable/src/blocked.c:536-569 | Leaving a list keeps them consistent: no empty list, no zero count |
| Blocked.LeaveWaiting | local-redis/redis-stable/src/blocked.c:536-569 | Leaving takes the client out of the list and keeps the order of the others |
| Blocked.Server.BlockForKeys | local-redis/redis-stable/src/blocked.c:388-439 | The client goes to the end of the list of each of its keys once; nothing else changes |
| Blocked.Server.ReleaseBlockedEntry | local-redis/redis-stable/src/blocked.c:536-569 | Unlinks the node and maintains both key tables; its assertions hold |
| Blocked.Server.UnblockClientWaitingData | local-redis/redis-stable/src/blocked.c:443-457 | The client leaves the lists of all its keys |
| Blocked.Server.UnblockClient | local-redis/redis-stable/src/blocked.c:184-215 | Leaves all lists, resets the blocking state, keeps the per-type counters exact, queues at most once |
| Blocked.Server.QueueForReprocessing | local-redis/redis-stable/src/blocked.c:173-180 | A client is never queued twice |
| Blocked.Server.UnblockClientOnTimeout | local-redis/redis-stable/src/blocked.c:738-748 | The same on timeout, with the pending command dropped; nothing for a module client that is already on its way |
| Blocked.Server.UnblockClientOnError | local-redis/redis-stable/src/blocked.c:750-759 | Leaves all lists, drops the pending command and is queued |
| Blocked.Server.SignalKeyAsReady | local-redis/redis-stable/src/blocked.c:476-523 | A key with a waiting client of the type, or a module client, is ready afterwards, once; for a deleted key if the client asked for it |
| Blocked.NoLostSignal | local-redis/redis-stable/src/blocked.c:476-523 | The quick returns never miss a waiting client |
| Blocked.Server.UnblockClientOnKey | local-redis/redis-stable/src/blocked.c:666-708 | Leaves all lists before its command runs again, and may come back at their ends |
| Blocked.Server.HandleClientsBlockedOnKey | local-redis/redis-stable/src/blocked.c:582-618 | Every client waiting at the start is visited exactly once, first come first, even if some block again; afterwards the list holds those the visit was not meant for, in their order, followed by served clients that blocked again |
| Blocked.Server.ServeReadyKeys | local-redis/redis-stable/src/blocked.c:355-376 | One pass handles every ready key once, in order; for each one, the waiters its visits are not meant for keep their order, followed by served clients that blocked again |
| Blocked.Server.HandleClientsBlockedOnKeys | local-redis/redis-stable/src/blocked.c:335-379 | All tables stay consistent through any number of passes, which stop only when no key is ready |
| Bio.EveryRun | local-redis/redis-stable/src/bio.c:281-368 | Over every interleaving of workers, submitters, drainers and the main thread: jobs are processed once and in submission order, the deleted node is the list head, counters equal queued plus in-flight jobs, a finished drain has seen every earlier job finished, completions arrive once and in order |
| Bio.StepKeeps | local-redis/redis-stable/src/bio.c:281-368 | Every step under or outside the locks keeps the invariant |
| Bio.DeleteKeeps | local-redis/redis-stable/src/bio.c:360-367 | After taking the lock again the node deleted is still the head of the list |
| Bio.AddKeeps | local-redis/redis-stable/src/bio.c:181-189 | Submitting appends the job and counts it |
| Bio.ThreadStep | local-redis/redis-stable/src/bio.c:383-391 | Taking and giving back locks in submit and drain keeps the invariant, in particular what a drain has seen |
| Bio.ReadKeeps | local-redis/redis-stable/src/bio.c:416-445 | Handing over the completion list loses and repeats nothing |
| Adlist.List.LinkNodeHead | local-redis/redis-stable/src/adlist.c:90-101 | The node becomes the first of the sequence |
| Adlist.List.LinkNodeTail | local-redis/redis-stable/src/adlist.c:123-134 | The node becomes the last of the sequence |
| Adlist.List.AddNodeHead | local-redis/redis-stable/src/adlist.c:76-85 | A new first value |
| Adlist.List.AddNodeTail | local-redis/redis-stable/src/adlist.c:109-118 | A new last value |
| Adlist.List.InsertNode | local-redis/redis-stable/src/adlist.c:136-163 | A new value right before or behind a node |
| Adlist.List.UnlinkNode | local-redis/redis-stable/src/adlist.c:179-193 | The sequence without the node, which keeps no links |
| Adlist.List.DelNode | local-redis/redis-stable/src/adlist.c:169-174 | The values without the one of the node |
| Adlist.List.RotateTailToHead | local-redis/redis-stable/src/adlist.c:339-351 | The last node becomes the first |
| Adlist.List.RotateHeadToTail | local-redis/redis-stable/src/adlist.c:354-366 | The first node becomes the last |
| Adlist.List.Join | local-redis/redis-stable/src/adlist.c:370-386 | Appends all nodes of the other list, which becomes empty |
| Adlist.List.Index | local-redis/redis-stable/src/adlist.c:324-336 | The node at an index, from the tail when negative, null outside |
| Adlist.SweepForward | local-redis/redis-stable/src/adlist.c:233-244 | A forward iteration that deletes the current node at arbitrary steps visits each original node exactly once, in order |
| Adlist.SweepBackward | local-redis/redis-stable/src/adlist.c:233-244 | The same from the tail |
| Adlist.SearchKey | local-redis/redis-stable/src/adlist.c:299-318 | The first matching node, or none |
| Adlist.Dup | local-redis/redis-stable/src/adlist.c:254-285 | A fresh list with the copied values in order |
| Kqueue.MergeEvents | local-redis/redis-stable/src/ae_kqueue.c:149-173 | From an all-zero table, reports the merged events and leaves the table all zero |
| Kqueue.MergedIsExact | local-redis/redis-stable/src/ae_kqueue.c:149-173 | Each descriptor with an event is reported, with the union of its masks, in first-occurrence order, and nothing else |
| Kqueue.ReportedOnce | local-redis/redis-stable/src/ae_kqueue.c:149-173 | No descriptor is reported twice |
| Kqueue.AddEventMask | local-redis/redis-stable/src/ae_kqueue.c:54-56 | Sets bits of one descriptor and never disturbs the other three of its byte |
| Kqueue.ResetEventMask | local-redis/redis-stable/src/ae_kqueue.c:58-60 | Clears one descriptor only |

## Left out

- AofProtocol.StartKeeps: assumes that the forced flush drains the buffer; with a buffer left over the new INCR file would repeat writes that are in the snapshot.
- AofProtocol.EveryRunRecovers: a crash loses process memory and may cut the record being written, not bytes written before; loss of unsynced pages by the operating system is not modelled. A record is one command outside transactions; what a cut inside a transaction does is stated by AofLog.WrittenAfterCut. A torn record that keeps its whole SELECT counts as gone (AofRecords.TornFile).
- AofRewrite.RewriteReplays: a sorted set score is the text it is printed as; streams, modules, functions, field expiry and timestamps are not modelled.
- AofLog.LoadSingleAppendOnlyFile: files with an RDB preamble are not modelled and annotations are skipped; which commands exist, and which are MULTI and EXEC, is a parameter.
- AofLog.FedLogReplays: feeds are not SELECT commands themselves, which the server does not propagate.
- AofManifest.AofLoadManifestFromFile: sequence numbers and offsets are read without the limits of 64-bit integers.
- AofFlush.RunKeepsBytes: covers the runs that keep the bytes; RunExact covers all runs.
- AclText.RemoveCommandRule: the string is a value that is rebuilt at each removal, not a buffer with a length field behind it.
- Acl.SelectorObject.SetCommandBit: the bitmap is an array of flags; its packing into 64-bit words is not modelled.
- Acl.SelectorObject.SetSelector: operations on keys and channels are recognised but their own effect and errors are not modelled.
- Blocked.Server.HandleClientsBlockedOnKey: clients blocked by modules are visited, but whether the module unblocks them is left to the module; executing a command again may block the client again and signal keys, and does not remove other clients.
- Blocked.Server.HandleClientsBlockedOnKeys: that the passes come to an end is not claimed, since served commands may keep making keys ready.
- Blocked.Server.BlockForKeys: the wake-on-deletion flag is stored before the loop over the keys instead of behind it; the loop does not read it. Timeouts, statistics and reference counts are not modelled.
- Bio.EveryRun: safety only; that waiting threads are woken is not claimed. The work of a job is one step, and the completion list's own lock makes its two critical sections single steps.
- BitOp.FastPath: the portable word path; the AVX2, AVX512 and NEON variants are not modelled.
- Popcount.RedisPopcount: the hardware instruction is modelled as counting its eight bytes.
- Adlist.List.DelNode: freeing nodes and values has no counterpart.
- Waiting for a rewrite to switch the append-only file on, upgrading old files, and limiting rewrite retries.
- ACL passwords, key and channel patterns, users, files and the ACL log.
- Argument parsing of the bitmap commands, SETBIT and GETBIT.
- The JavaScript and TypeScript game, and the system-call layers of the event loop.
