# A verified model of miniobserv's stateful cores

This project models, in Dafny, the parts of the miniobserv agent, server and TypeScript SDK that keep
state over time, and proves what holds over every run of them. `dafny verify dfyconfig.toml` checks it.

| modules | what they model |
|---|---|
| `LogText`, `LogModel` | line splitting, the bounded line scanner, blank lines, clipping, entry and batch acceptance, chunking |
| `Logtail` | the log tailer as a class over its `offsets` and `files` maps, one method per Go method |
| `TailRace` | the tailer's reads racing with a writer that appends between stat and scan |
| `TailCuts` | lines that arrive in pieces because a read saw the file's size inside them |
| `TailRotation`, `RotationScans`, `RotationDelivery` | one tailed path through appends, rotations, truncations and the events that follow them: what is scanned, and what is delivered how often |
| `Acceptance` | which tailer output the server accepts |
| `LogQuery`, `IntOrder`, `PageWalk`, `TextMatch` | the log query builder, its meaning on a table, keyset pagination over a changing table, the text filter |
| `RuleKey`, `Alerting` | alert keys, evaluation passes, transitions and notifications |
| `Hosts` | the host tracker: heartbeats, scans, statuses, host-down callbacks |
| `Pipeline` | the agent's collector and sender around a bounded channel |
| `Backoff` | both retry loops and both backoff formulas |
| `Network` | interface counter deltas in 64-bit arithmetic |
| `TokenCache` | the SDK's cached token |

How to read it. Code that updates state is a class whose methods are proved equal to a specification
function of the old state (`EventSpec`, `Observe`, `Beat`, `Mark`, `Next`, `Page`), and the results
over whole runs are lemmas about those functions. Goroutines become step machines: every interleaving
is a sequence of enabled steps, and the class methods are shown to take exactly those steps.
Text that the tailer reads is a sequence of bytes. Times and sizes are unbounded integers, `float64`
quantities are reals, and 64-bit counters use explicit wrapping arithmetic. What the operating system,
the database, the clock and the network answer are parameters: the sizes and bytes a read sees,
the outcome of each send, the rows of the table, the answers to metric queries, the random draws.

## Where the code does not do what is said of it

- **First wait of log batches.** `internal/agent/sender/sender.go:30` calls Base the starting wait; the log
  sender starts at twice Base, one doubling ahead of the metric sender (`Backoff.LogRunsOneAhead`).
- **Capped waits.** The table at `docs/internals.md:346-354` lets jitter raise a capped wait of 60 s up to
  75 s. The cap is applied again after the jitter, so no wait exceeds Max (`Backoff.WaitBounds`).
- **`ILIKE substring`** (`internal/server/storage/logs.go:25`). The filter is a substring search exactly
  for texts without `%`, `_` and `\` (`TextMatch.TextFilterIsSubstringIff`).
- **Counter falls** (`internal/agent/collector/network.go:19-20` says negative deltas are clamped). A fall
  is clamped exactly when it is at most 2^63; a larger one counts as a wrap and is reported
  (`Network.FallIsClampedIff`).
- **Shutdown.** `docs/internals.md:321` says that closing the channel lets the sender drain it. The sender
  returns at the first failed send after cancellation, and batches then stay queued
  (`Pipeline.DrainedIff`, `Pipeline.ShutdownMayLeaveBatches`).
- **Appends between stat and scan** are delivered by that read, and again by the next one, since the
  offset moves to the size seen first. Exactly once holds if and only if no message races a read that
  another one follows (`TailRace.DeliveredExactlyOnceIff`, `TailRace.RacedLinesTwice`).
- **A size seen inside a line** has the line delivered in pieces. That does no harm exactly when no
  piece holds text, or just one does and its clipped text is that of the line
  (`TailCuts.DeliveredDespiteCutsIff`, `TailCuts.HarmlessIff`): as when only the line end is missing, but never when two
  pieces hold text.
- **A long line.** The scanner gives up at a line of 65536 bytes or more, but the offset moves on all the
  same. `TailRace.GapFreeIff` and `RotationScans.NothingLostIff` say over all runs when bytes are skipped,
  `LogText.ScanLosesNothingIff` when a scan loses a message.
- **Rotation before everything is read.** The open file is still read until a rename or create event is
  handled; what it holds beyond the last size seen then is lost, and nothing else
  (`RotationScans.LostBehindLastSizeIff`).
- **Truncation that keeps a part.** `internal/agent/logtail/tailer.go:62-63` says that content from before
  startup is never read. After a truncation below the offset the file is read from byte 0, and what
  was kept is read (`RotationScans.StartupReadIff`, `RotationDelivery.StartupLineA`) or read again
  (`RotationDelivery.LinesDeliveredTwice`). `RotationDelivery.DeliveryAcrossRotations` gives the exact condition.
- **A late rename or create event**, handled when the new file was already read, has it read and
  delivered again (`RotationDelivery.StartsOverIff`, `RotationDelivery.ReopenedAndRead`).
- **Clipping after the blank test.** A line whose first 4096 bytes are white space, with text behind them,
  becomes a blank message, and the server rejects its whole batch (`Acceptance.AcceptedIff`,
  `Acceptance.ClippedBlankLineExists`).
- **Reopening that fails** after a create event keeps the old offset, so the next read may skip the
  beginning of the new file (`TailRotation.FailedReopenKeepsOffset`). A truncated file that has grown
  back to the old offset is not noticed (`TailRotation.ShrinkSeenIff`).
- **Alert keys.** The evaluation window is not in the key, and a rule for all hosts has the keys of rules
  for each. So two rules with valid names can share a key and announce firing and resolved in one pass
  (`Alerting.SharedKeyInOnePass`). A slash in one metric name could also make rules of different hosts
  share a key (`RuleKey.SlashInNameCollides`), but no metric with such a name is accepted
  (`internal/model/metric.go:10-20`), so that the evaluator never has data for it.

## Model

| member | source | states |
|---|---|---|
| LogText.LinesRoundTrip | internal/agent/logtail/tailer.go:165-171 | splitting into lines loses no byte: the lines with their terminators put back are the text, its last line closed |
| LogText.LinesAreWithoutNewlines | internal/agent/logtail/tailer.go:165-171 | no line holds a terminator |
| LogText.UnlinesInjective | internal/agent/logtail/tailer.go:165-171 | two lists of texts without terminators that re-terminate alike are equal, so the round trip determines the splitting |
| LogText.LinesConcat | internal/agent/logtail/tailer.go:157-171 | text that ends with a line end can be split separately from what follows it |
| LogText.LinesConcatIff | internal/agent/logtail/tailer.go:157-171 | splitting two pieces separately gives the lines of the whole exactly when the cut is at a line end or nothing follows it |
| LogText.LinesCutInside | internal/agent/logtail/tailer.go:157-171 | a cut inside a line makes exactly one line more |
| LogText.Clip | internal/agent/logtail/tailer.go:175-177 | a message is the line's first 4096 bytes, the whole line if it is no longer |
| LogText.ScanNextMeans | internal/agent/logtail/tailer.go:164-171 | a token is the text up to the first line end, without that end and one carriage return, the rest is what follows; the scan stops only on no data or on 65536 bytes without a newline |
| LogText.TokenOfLine | internal/agent/logtail/tailer.go:165-171 | the token of a line ended by carriage return and newline, or by a newline, is the line, and the rest is what follows |
| LogText.AsciiSpaces | internal/agent/logtail/tailer.go:172-174 | of the ASCII characters exactly tab, line feed, vertical tab, form feed, carriage return and blank are white space |
| LogText.FittingPrefix | internal/agent/logtail/tailer.go:164-170 | the lines scanned are those before the first one of 65536 bytes or more |
| LogText.ScanMessagesStep | internal/agent/logtail/tailer.go:170-184 | taking tokens one at a time, as the scan loop does, yields the messages of the lines that fit the buffer |
| LogText.ScanMessagesConcat | internal/agent/logtail/tailer.go:170-184 | with short lines, scanning in two goes from a line end delivers what one scan would |
| LogText.ShortLinesFitIff | internal/agent/logtail/tailer.go:164-166 | every line fits the 65536-byte buffer exactly when no 65536 bytes in a row lack a newline |
| LogText.ScanLosesNothingIff | internal/agent/logtail/tailer.go:164-188 | a scan delivers all messages exactly when the over-long line and all lines behind it are blank |
| LogText.TakenAtLeastIff | internal/agent/logtail/tailer.go:164-171 | the scanner gets through the first n bytes exactly when no line of 65536 bytes or more starts in them |
| LogText.TakenIsIff | internal/agent/logtail/tailer.go:164-171 | it stops at n exactly when n is the first place where the data ends or such a line starts |
| LogText.TakenLines | internal/agent/logtail/tailer.go:164-171 | the bytes it takes hold exactly the lines before the first one of 65536 bytes or more |
| LogText.TakenMessages | internal/agent/logtail/tailer.go:164-185 | a scan delivers the messages of the lines in the bytes it took |
| LogText.LinesJoin | internal/agent/logtail/tailer.go:157-171 | a line that is continued is joined with the first line of what continues it, all other lines stay |
| LogModel.ValidateEntry | internal/model/log.go:42-56 | an entry is accepted exactly with non-blank host and message, a time, and a known level |
| LogModel.FirstBadEntry | internal/model/log.go:69-73 | none exactly if all entries are acceptable, else the first that is not, with its fault |
| LogModel.ValidateBatch | internal/model/log.go:59-75 | a batch is accepted exactly with a host and 1 to 1000 acceptable entries; an entry complaint names the first bad one |
| LogModel.ChunksPartition | internal/agent/logtail/tailer.go:193-202 | chunking is an ordered partition into ceil(n/1000) non-empty pieces, all but the last of 1000 |
| LogModel.ChunkAt | internal/agent/logtail/tailer.go:197-202 | the k-th chunk is the slice from 1000k |
| Logtail.Tailer.constructor | internal/agent/logtail/tailer.go:40-48 | no path is open and every offset is 0 |
| Logtail.Tailer.OpenAndSeekEof | internal/agent/logtail/tailer.go:64-77 | a successful open records the file and its present size, so that the next read delivers nothing from before and everything behind; a failed one changes nothing; other paths are untouched |
| Logtail.Tailer.ClosePath | internal/agent/logtail/tailer.go:218-223 | the file is forgotten, its offset and all other paths kept |
| Logtail.Tailer.ReadNewLines | internal/agent/logtail/tailer.go:129-190 | new state for every answer of the system: no file, failed stat, shrunk file, nothing new, failed seek, new bytes; the entries' messages are the read's, in order, each entry with the tailer's host, the path, the clock and the message's level |
| Logtail.Tailer.ScanAll | internal/agent/logtail/tailer.go:165-185 | the scan loop builds one entry per message of the scanned bytes, in order, with the tailer's host, the path, the clock and the message's level |
| Logtail.Tailer.SendChunked | internal/agent/logtail/tailer.go:193-210 | the chunks are handed over in order; only a cancelled send stops the rest, a rejected one does not |
| Logtail.Tailer.HandleEvent | internal/agent/logtail/tailer.go:104-125 | new state and handed batches of every event with every set of flags; the handed messages are a prefix of those the event's read delivers, all of them if no send is cancelled, in batches of 1 to 1000 entries with the tailer's host, the path, the clock and the message's level; other paths are untouched |
| Logtail.HandedMessages | internal/agent/logtail/tailer.go:193-210 | messages reach the sender in order: a prefix of the read's, all of them if no send is cancelled |
| Logtail.OtherEventsAreIdle | internal/agent/logtail/tailer.go:104-125 | an event with none of the flags write, rename, remove and create changes nothing and delivers nothing |
| Logtail.FailedStatIsHarmless | internal/agent/logtail/tailer.go:141-145 | a read whose stat fails delivers nothing, and the next one delivers what it would have delivered without it |
| Logtail.FailedSeekIsHarmless | internal/agent/logtail/tailer.go:149-160 | so does one whose seek fails, unless it saw a shrunk file: then the next read starts at byte 0 |
| Logtail.EntriesOfBatches | internal/agent/logtail/tailer.go:202-202 | making batches of chunks keeps every entry, in order |
| Acceptance.EntriesValidIff | internal/agent/logtail/tailer.go:178-184 | the entries made of messages are acceptable exactly when host and clock are set and no message is blank |
| Logtail.HandedEntries | internal/agent/logtail/tailer.go:193-210 | the handed entries are an ordered prefix of the read ones, and all of them exactly when no send but the last is cancelled |
| Acceptance.BlankMessageIff | internal/agent/logtail/tailer.go:170-184 | a blank message comes out of a read exactly when some non-blank line clips to a blank one |
| Acceptance.AcceptedIff | internal/agent/logtail/tailer.go:170-210 | the server accepts every batch of a read exactly when there is nothing to send, or host and clock are set and no scanned line clips to a blank one |
| Acceptance.ClippedBlankLineExists | internal/agent/logtail/tailer.go:172-177 | a line of 4096 blanks and one letter passes the blank test and clips to a blank message |
| TailRace.RunOfReads | internal/agent/logtail/tailer.go:104-109 | a racing run is made of write events: the messages they deliver and the offsets they leave are those of the run |
| TailRace.RangesFollow | internal/agent/logtail/tailer.go:141-189 | however appends race the reads, each read begins at the size its predecessor saw, and none goes back |
| TailRace.GapFreeIff | internal/agent/logtail/tailer.go:141-189 | every byte up to the last size is scanned exactly when no over-long line starts in what some read still had to cover |
| TailRace.GapFree | internal/agent/logtail/tailer.go:141-189 | with lines that fit the scanner, no byte up to the last size is skipped, and each read starts inside or right behind the previous one's range |
| TailRace.TextsAreRanges | internal/agent/logtail/tailer.go:157-170 | what a read takes is exactly its byte range of the final file, which ends where the scanner stops |
| TailRace.DeliveredFromTexts | internal/agent/logtail/tailer.go:170-189 | a run delivers the messages in the bytes its reads took, read by read |
| TailRace.EachByteOnceIff | internal/agent/logtail/tailer.go:141-189 | the scanned ranges tile what was appended, as far as reads have come, exactly when every scan but the last ends at the size its read saw and the last comes at least that far |
| TailRace.EverythingIsAppended | internal/agent/logtail/tailer.go:141-189 | with lines that fit, reads have come to the end of all that was ever appended, unless the last one found nothing new and something was appended after its stat |
| TailRace.BytesExactlyOnceIff | internal/agent/logtail/tailer.go:141-189 | with lines that fit the scanner, the scanned bytes are the appended bytes, as far as reads have come, once and in order, exactly when no append races a read that another one follows |
| TailRace.DeliveryAccount | internal/agent/logtail/tailer.go:129-190 | for every interleaving with sizes at line ends, what is delivered is each appended message once, as far as reads have come, plus a second time the messages that raced a read and that the next one finds again |
| TailRace.DeliveredExactlyOnceIff | internal/agent/logtail/tailer.go:129-190 | the appended lines' messages are delivered once and in order exactly when no message races a read that another one follows |
| TailRace.RacedLinesTwice | internal/agent/logtail/tailer.go:187-188 | lines appended between stat and scan come again with the next read |
| TailRace.CutLineDelivered | internal/agent/logtail/tailer.go:146-188 | a plain line of which stat saw only a part, with text on both sides of the cut, is delivered as two messages |
| TailCuts.DeliveredDespiteCutsIff | internal/agent/logtail/tailer.go:129-190 | over every run in which nothing races a read that another one follows, wherever the sizes fall, the appended lines' messages are delivered once and in order exactly when, of the pieces in which the reads bring each line, none holds text or just one does and reads like the line |
| TailCuts.HarmlessIff | internal/agent/logtail/tailer.go:170-184 | a line in any number of pieces is delivered like the whole exactly when no piece holds text, or just one does and its clipped text is that of the line |
| TailCuts.CutHarmlessIff | internal/agent/logtail/tailer.go:170-184 | a cut in two does no harm exactly when both parts are blank, or one is and the other, clipped, reads like the whole |
| TailCuts.PiecesDeliverNoLess | internal/agent/logtail/tailer.go:170-184 | pieces of a line never deliver fewer messages than the line |
| TailCuts.TwoCutsMakeUp | internal/agent/logtail/tailer.go:172-177 | two cuts that each do harm can together do none, so the condition is about whole lines |
| TailRotation.StepKeepsInv | internal/agent/logtail/tailer.go:104-125 | what append, rotation, truncation and each handled event keep: where the offset and the open file stand, and that no scan passes what it can have read |
| TailRotation.LateWriteIsIdle | internal/agent/logtail/tailer.go:141-155 | a late write event for a renamed file that was read to its end reads and delivers nothing |
| RotationScans.NothingLostIff | internal/agent/logtail/tailer.go:104-190 | over every run with any number of rotations and truncations and any races, every appended byte that the offset has passed was scanned, exactly when no read that moves beyond what was scanned meets an over-long line below the size it saw |
| RotationScans.LostBehindLastSizeIff | internal/agent/logtail/tailer.go:104-190 | files may be rotated, truncated or reopened with any part unread: if every read gets through, a new byte of a generation is scanned exactly when it lies below the end of some scan of it, without races exactly when it lies below the last size seen there |
| RotationScans.StartupReadIff | internal/agent/logtail/tailer.go:62-77 | over every run, a byte from before startup is scanned exactly when some read begins at byte 0 of a file that still starts with such bytes, its first line fitting the scanner |
| RotationScans.OldBytesLeftIff | internal/agent/logtail/tailer.go:148-151 | a file still starts with bytes from before startup exactly when truncations alone led to it and each kept something |
| RotationDelivery.StartsOverIff | internal/agent/logtail/tailer.go:104-151 | after which steps the next read starts over: a truncation that kept something, a rename or create event after the new file's first read; a read ends it |
| RotationDelivery.StepDelivers | internal/agent/logtail/tailer.go:104-190 | every step without races or cut lines delivers what it finds that is not new, and its new messages once |
| RotationDelivery.DeliveryAcrossRotations | internal/agent/logtail/tailer.go:104-190 | over every such run, with files read to their ends or not, the delivered messages are those of all appended lines that a read has seen, each once, plus those of lines that reads find besides: read before, or there before startup; so each comes once and in order exactly when those are all blank, and all that was appended was seen exactly when every generation was read to its end |
| RotationDelivery.EveryLineOnceAcrossRotations | internal/agent/logtail/tailer.go:104-190 | if truncations keep nothing and rename and create events precede the new file's first read, every appended line that is seen is delivered once and in order, and nothing from before startup |
| RotationDelivery.StartupLineA | internal/agent/logtail/tailer.go:62-77 | of a file that held two lines at startup, the first one is delivered if a truncation keeps it |
| RotationDelivery.LinesDeliveredTwice | internal/agent/logtail/tailer.go:148-151 | lines that were read and are kept by a truncation are delivered twice |
| RotationDelivery.ReopenedAndRead | internal/agent/logtail/tailer.go:110-120 | a create or rename event handled after the new file was read has all of it delivered again |
| TailRotation.ShrinkSeenIff | internal/agent/logtail/tailer.go:148-151 | a file replaced in place is scanned from the start exactly when it is smaller than the offset or the offset is 0 |
| TailRotation.FailedReopenKeepsOffset | internal/agent/logtail/tailer.go:113-118 | a create whose reopening fails leaves the old offset; the new file is read in full exactly when that offset is 0 or behind its end |
| LogQuery.LogQueryParams.Validate | internal/server/storage/logs.go:31-44 | rejected exactly for an unknown level; afterwards 1 to 1000 is the limit, a valid limit and all else unchanged |
| LogQuery.Builder.Add | internal/server/storage/logs.go:91-98 | each added condition's placeholder denotes the value appended with it |
| LogQuery.AddColumnFilters | internal/server/storage/logs.go:100-105 | host and level conditions, each exactly if it is set |
| LogQuery.AddTimeFilters | internal/server/storage/logs.go:106-111 | bounds on the time, each exactly if it is set |
| LogQuery.Compile | internal/server/storage/logs.go:90-128 | for every combination of filters, on every row the compiled conditions with their arguments mean what the parameters ask for, and the limit placeholder denotes Limit+1 |
| LogQuery.CompiledSelects | internal/server/storage/logs.go:100-117 | what a compiled query selects, spelled out filter by filter, an absent filter selecting everything |
| LogQuery.FiltersMean | internal/server/storage/logs.go:100-117 | the chosen filters together pass a row exactly when it matches the parameters and lies before the cursor |
| LogQuery.ExecuteMeans | internal/server/storage/logs.go:128-146 | running any such compiled query yields the first Limit+1 rows of the directly filtered table in descending id |
| LogQuery.Collect | internal/server/storage/logs.go:136-146 | all rows in order, or an error if a row cannot be scanned or the iteration fails |
| LogQuery.Query | internal/server/storage/logs.go:89-155 | the page and cursor of the direct definition, or an error with no rows and cursor 0, and exactly when each happens |
| PageWalk.PageFacts | internal/server/storage/logs.go:89-155 | a page holds rows of the table that were asked for, in descending id, at most Limit; a cursor means a full page and is its last id |
| PageWalk.PageOrLater | internal/server/storage/logs.go:115-117 | a wanted row is on the page or lies below the cursor |
| PageWalk.NextCursorIff | internal/server/storage/logs.go:148-154 | the cursor is 0 exactly when every wanted row is on the page |
| PageWalk.PageThenRest | internal/server/storage/logs.go:119-154 | a page followed by what the cursor asks for is all that was wanted, and a cursor means something is left |
| PageWalk.WalkDecreases | internal/server/storage/logs.go:115-154 | over any table changing between pages, ids strictly decrease across the whole walk, so no row comes twice, and every row was asked for |
| PageWalk.WalkMissesNothing | internal/server/storage/logs.go:115-154 | over any such table, a wanted row that stays throughout the walk is on one of its pages |
| PageWalk.WalkFixedTable | internal/server/storage/logs.go:119-154 | on an unchanged table the pages joined are the whole filtered table, and all but the last are full |
| TextMatch.PlainIsSubstring | internal/server/storage/logs.go:112-114 | the pattern built from a text without special characters matches exactly the messages containing it |
| TextMatch.SpecialIsNotSubstring | internal/server/storage/logs.go:112-114 | for any other text, a message that matches without containing it |
| TextMatch.TextFilterIsSubstringIff | internal/server/storage/logs.go:25 | the text filter is the case-insensitive substring search it is said to be exactly for texts without `%`, `_` and backslash |
| TextMatch.PlainQuerySelects | internal/server/storage/logs.go:112-114 | a query with a plain text as its only filter selects exactly the rows whose message contains it, up to case |
| RuleKey.SameKeyIff | internal/server/alerting/alerting.go:111-113 | two rules share a key exactly when host/name, operator and threshold agree |
| RuleKey.KeyDeterminesRule | internal/server/alerting/alerting.go:109-113 | for names without a slash the key determines host, name, operator and threshold, whatever the hosts |
| RuleKey.SlashInNameCollides | internal/server/alerting/alerting.go:109-113 | a slash in one name lets rules of different hosts share a key |
| Alerting.SharedKeyInOnePass | internal/server/alerting/alerting.go:193-279 | two rules that share a key, one crossing its threshold and one not, announce firing and resolved in one pass |
| Alerting.Evaluator.Mean | internal/server/alerting/alerting.go:215-220 | the loop computes the average of the points |
| Alerting.AverageScales | internal/server/alerting/alerting.go:215-220 | the average times the number of points is their sum, and compares with any number as the sum does with its multiple |
| Alerting.SumConcat | internal/server/alerting/alerting.go:216-219 | the sum of points is additive |
| Alerting.Evaluator.NotifyAll | internal/server/alerting/alerting.go:299-308 | one event for every notifier, and nothing else changes |
| Alerting.EachNotifierIsTold | internal/server/alerting/alerting.go:304-307 | at all times each notifier was handed exactly the events, each once and in order |
| Alerting.Evaluator.EvaluateHost | internal/server/alerting/alerting.go:196-279 | no data changes nothing; otherwise the key's alert is replaced and a transition from or to firing announced |
| Alerting.Evaluator.EvaluateRule | internal/server/alerting/alerting.go:193-281 | a rule's evaluations on its hosts, in order, skipping those without data; none if the hosts are unknown |
| Alerting.Evaluator.Evaluate | internal/server/alerting/alerting.go:191-282 | a pass folds the evaluations that had data into the memory, in rule then host order |
| Alerting.PassDecides | internal/server/alerting/alerting.go:191-246 | after a pass the last data found under a key, in rule then host order, decide its state: all above the threshold of a `>` rule or all below that of a `<` rule, and it is firing; none, or an average at the threshold, and it is not; remembered are that rule for that host, the average and the time |
| Alerting.EventsTellOfObservations | internal/server/alerting/alerting.go:248-279 | every event carries the rule, value and time of an evaluation, and is a firing one exactly if that evaluation's state is firing |
| Alerting.KeysAreIndependent | internal/server/alerting/alerting.go:230-279 | a key's events and remembered alert depend on its own evaluations only, also when rules share the key |
| Alerting.EventsAlternate | internal/server/alerting/alerting.go:248-279 | per key, events alternate from firing on, and the stored state is firing exactly when the last event was |
| Alerting.FiringBalance | internal/server/alerting/alerting.go:248-279 | per key, firing events outnumber resolved ones by one while the stored state is firing, else they are equal |
| Alerting.PassFrame | internal/server/alerting/alerting.go:191-282 | after a pass a key remembers its last evaluation with data, or is unchanged with no new event; no key disappears |
| Alerting.NoDataNoChange | internal/server/alerting/alerting.go:204-213 | a key whose queries all failed or returned no points keeps its alert and gets no event |
| Alerting.OverlapKeepsEvents | internal/server/alerting/alerting.go:230-279 | when swaps and notifications of passes interleave, the memory is the fold in lock order and the notified and pending events are exactly its events |
| Hosts.SortSorts | internal/server/storage/hosts.go:102-102 | sorting by host gives a strictly sorted permutation |
| Hosts.LessIff | internal/server/storage/hosts.go:102-102 | the order of names is ascending: at the first difference the smaller character, or the shorter name, comes first |
| Hosts.HostTracker.Heartbeat | internal/server/storage/hosts.go:52-60 | the host's time becomes the present one and it is no longer marked; other hosts, and all of them for an empty name, are as before |
| Hosts.HostTracker.StatusMeans | internal/server/storage/hosts.go:63-88 | a known host is down from age downAfter on, stale from staleAfter on before that, else ok; an unknown one is down |
| Hosts.HostTracker.All | internal/server/storage/hosts.go:92-104 | strictly sorted by host, one status for every known host, by the age of its last heartbeat, equal to what asking for it alone gives |
| Hosts.HostTracker.MarkDown | internal/server/storage/hosts.go:127-138 | marks exactly the old unmarked hosts, whatever the order the map is walked in, and lists each once |
| Hosts.HostTracker.Scan | internal/server/storage/hosts.go:126-145 | the same, and calls back once for each newly marked host if there is a callback |
| Hosts.StepKeepsInv | internal/server/storage/hosts.go:52-145 | what heartbeats, marking and callbacks in any interleaving keep |
| Hosts.CallbacksBounded | internal/server/storage/hosts.go:124-145 | in every interleaving callbacks for a host never exceed its markings, nor those its heartbeats, and each marking was at age downAfter or more |
| Hosts.MarkingsNeedHeartbeat | internal/server/storage/hosts.go:50-60 | without a heartbeat of it in between, a host is marked at most once |
| Hosts.RunKeepsDownOld | internal/server/storage/hosts.go:52-138 | while scan times do not go back, every marked host's age at the last scan stays at downAfter or more |
| Hosts.DownSetExact | internal/server/storage/hosts.go:126-138 | right after a scan, if scan times never go back, the marked hosts are exactly those of age downAfter or more |
| Hosts.RunRemembers | internal/server/storage/hosts.go:52-60 | over every run, the time remembered for a host is that of its last heartbeat |
| Hosts.ScanByHeartbeats | internal/server/storage/hosts.go:126-145 | in every run, a scan less than downAfter after a host's last heartbeat does not mark it or have it called back, nor one of a host without heartbeats; after a later scan it is marked |
| Hosts.DownSetByHeartbeats | internal/server/storage/hosts.go:126-138 | with scan times that never go back, the marked hosts after a scan are exactly those whose last heartbeat is downAfter old or more |
| Hosts.MarkedIsClassifiedDown | internal/server/storage/hosts.go:63-73 | at all such times a marked host is known and classified down |
| Pipeline.Agent.constructor | internal/agent/agent.go:42-54 | the channel has the size asked for if that is positive, else 10 |
| Pipeline.Agent.CollectTick | internal/agent/agent.go:82-96 | no metrics, no batch; otherwise the batch is queued, or dropped exactly when the channel is full |
| Pipeline.Agent.FinishCollecting | internal/agent/agent.go:61-65 | the collector's end closes the channel |
| Pipeline.Agent.NextBatch | internal/agent/agent.go:101-101 | the sender takes the oldest queued batch, or ends on a closed empty channel |
| Pipeline.Agent.AfterSend | internal/agent/agent.go:102-107 | a failed send ends the sender exactly after cancellation |
| Pipeline.TickDropsIffFull | internal/agent/agent.go:91-95 | the newest batch and no other is dropped, exactly when the queue is at capacity |
| Pipeline.CollectedAreOffered | internal/agent/agent.go:82-96 | over every run, what is collected is one batch for each tick with metrics, under the host's name and in order |
| Pipeline.AcknowledgedIffSent | internal/agent/agent.go:100-109 | over every run, the i-th batch handed over is acknowledged exactly if the i-th send succeeds |
| Pipeline.StepKeepsInv | internal/agent/agent.go:57-109 | what every collector, channel, sender and cancellation step keeps |
| Pipeline.HandedIsFifoPrefix | internal/agent/agent.go:75-109 | in every reachable state the batches handed to the sender, followed by the queue, are the accepted ones in order, within capacity, and the first ones are never dropped |
| Pipeline.Conservation | internal/agent/agent.go:57-109 | in every reachable state each collected batch is acknowledged, failed, abandoned, in flight, queued or dropped, once |
| Pipeline.ClosedIsFinal | internal/agent/agent.go:61-65 | nothing is collected or sent on the channel after it is closed |
| Pipeline.LeavesEarlyIff | internal/agent/agent.go:102-105 | the sender leaves early exactly when some send fails at a moment when the context is cancelled |
| Pipeline.DrainedIff | internal/agent/agent.go:100-109 | when both loops have returned, everything accepted was handed over and settled exactly when no send failed after the cancellation; else the last batch handed over was abandoned and the queue is left |
| Pipeline.ShutdownMayLeaveBatches | internal/agent/agent.go:100-109 | a run that ends with a batch still queued |
| Backoff.WaitBounds | internal/agent/sender/sender.go:42-53 | every wait is between 0 and Max, and at most (1+Jitter)·Base·2^(attempt-1) |
| Backoff.FirstWaits | internal/agent/sender/sender.go:42-53 | in the middle of the jitter and below the cap the metric sender's first waits are 0, Base, 2 Base and 4 Base, the log sender's 0, 2 Base and 4 Base |
| Backoff.TotalWaitBounds | internal/agent/sender/sender.go:118-122 | the total wait before attempt n is at most n·Max and at most (1+Jitter)·Base·(2^n-1) |
| Backoff.WaitsGrow | internal/agent/sender/sender.go:46-51 | with Jitter up to 1/3 and no cap in the way, waits never shrink, whatever the draws |
| Backoff.JitterLimitIff | internal/agent/sender/sender.go:46-48 | before truncation to nanoseconds, 1/3 is exactly the jitter up to which the stretched waits never shrink for any draws |
| Backoff.WaitsNeverShrinkIff | internal/agent/sender/sender.go:42-53 | the waits themselves never shrink for any draws exactly when the untruncated supremum of the shorter one is at most the truncated minimum of the next one plus one |
| Backoff.LogRunsOneAhead | internal/agent/logtail/sender.go:95-106 | from the first retry on, the log sender waits what the metric sender would one attempt later |
| Backoff.LogTotal | internal/agent/logtail/sender.go:63-67 | so its total wait is the metric sender's one attempt later, less the first wait |
| Backoff.LogWaitsHaveNoJitter | internal/agent/logtail/sender.go:41-41 | with the log sender's fixed draw the wait is the doubled base, capped, without jitter |
| Backoff.Send | internal/agent/sender/sender.go:112-150 | verdict, number of tries and total wait: every earlier try was inconclusive and the last one decided; uninterrupted, the first response with a status in 200-299 or 400-499 decides and no other ends the loop |
| Backoff.SendLogs | internal/agent/logtail/sender.go:58-91 | the same for log batches, with the log sender's waits |
| Backoff.VerdictByResponses | internal/agent/sender/sender.go:140-149 | uninterrupted, delivered if the first status in 200-299 or 400-499 is in 200-299, rejected with that code if it is not, after as many tries as its position; still trying if there is none |
| Backoff.VerdictMeans | internal/agent/sender/sender.go:118-149 | each verdict says what ended the loop at its last attempt: a cancellation during a sleep, a request that could not be built, or the status; and nothing of the kind came before |
| Backoff.ResolvesUnique | internal/agent/sender/sender.go:118-149 | that description leaves one verdict, number of tries and wait |
| Backoff.SendersAgree | internal/agent/logtail/sender.go:57-91 | given the same responses and no cancellation, both senders reach the same verdict after the same number of tries |
| Network.DeltaIsDistance | internal/agent/collector/network.go:82-89 | the signed 64-bit subtraction with its clamp gives the distance modulo 2^64 when that is below 2^63, else 0 |
| Network.NetworkCollector.Collect | internal/agent/collector/network.go:46-101 | a failed read keeps the snapshot; a successful one remembers exactly the listed interfaces that are not lo and, if some are asked for, are among those, each with its last entry; the first read reports nothing, later ones each interface present in both, both directions, once, and never lo |
| Network.FilteredNames | internal/agent/collector/network.go:54-64 | which interfaces a read keeps |
| Network.FilteredStats | internal/agent/collector/network.go:63-63 | of several entries with one name the last counts |
| Network.NetworkCollector.Report | internal/agent/collector/network.go:73-96 | exactly two metrics for each interface in both snapshots, whatever the order the map is walked in |
| Network.Telescopes | internal/agent/collector/network.go:46-101 | over any run in which the interface stays, reported plus clamped distances add up to last minus first modulo 2^64; a failed read loses nothing |
| Network.TrafficIsExact | internal/agent/collector/network.go:46-101 | if less than 2^63 bytes pass between successful reads of an interface's counters, what is reported for it adds up to the true traffic, across any number of counter wraps and failed reads |
| Network.CollectedTraffic | internal/agent/collector/network.go:46-101 | over any run of reads given as lists of counters, the metrics reported for an interface other than lo that is asked for, if any are, add up to exactly the bytes that passed, received or sent |
| Network.FallIsClampedIff | internal/agent/collector/network.go:19-20 | a counter that falls is reported as 0 exactly when it falls by at most 2^63 |
| TokenCache.Client.GetToken | sdk/js/src/client.ts:30-38 | the returned token is the cached one and has more than 300 seconds left; a new one, minted without a token or from 300 seconds before the stored expiry on, expires 86400 seconds after its minting, and the stored expiry stays at or below the token's own |
| TokenCache.ReturnedTokensLive | sdk/js/src/client.ts:30-38 | over every run each returned token has more than 300 seconds left when checked |
| TokenCache.MintsAreSpaced | sdk/js/src/client.ts:33-36 | over every run successive mints are at least 86100 seconds apart |
| TokenCache.MintsAreFew | sdk/js/src/client.ts:33-36 | calls within T seconds mint at most 1 + T/86100 tokens |

## Left out

- Which events the kernel delivers and when, and watching a path again after a create event: event sequences are given.
- File system failures other than failed open, stat and seek; a read error in the middle of a scan ends a scan early and is not modelled.
- NewTailer's loop over paths, Tailer.Run's select loop and closing everything at exit: they only call the modelled methods.
- The regular expressions of ParseLevel: any function from messages to the four levels stands for them.
- HTTP requests, tokens in headers, JSON, HMAC and base64: a request is an outcome, a token its expiry.
- PostgreSQL: the log table is a finite map from ids to rows, a query a list of conditions with numbered placeholders and a limit. The rendering of that list as SQL text is not modelled, nor transactions, time zones or time resolution.
- ILIKE under locales whose case folding changes the length of a text: folding maps characters one to one.
- LogQuery.Query: requires a limit of at least 1, which `Validate` establishes and the dashboard's clamp (internal/server/dashboard/dashboard.go:169-177) does too.
- PageWalk.WalkDecreases: one table state per page, as a single SELECT statement sees it. Rows have the key they are stored under as id, and ids of the rows behind a cursor are positive.
- Floating-point rounding, infinities, NaN and negative zero in means, thresholds and backoff: reals are used.
- RuleKey.SameKeyIff: `%g` is any printer that gives the two thresholds different, slash-free texts if they differ.
- Overflow of durations beyond 292 years, and of the exponent in math.Pow.
- Backoff.Send: the endless retry loop is followed for any finite number of attempts, with `StillTrying` as the verdict if none of them decides.
- The conversion of metric values to float64, which is inexact above 2^53, and the prevAt field, which nothing reads.
- Nil receivers of HostTracker and Evaluator, which return defaults.
- Hosts.HostTracker.All: reads the clock once per snapshot, where the code reads it once per host.
- The order in which notifier goroutines run: the evaluator's list of pairs of notifier and event is in the order they are started, and where passes overlap only which events were handed over is tracked.
- Pipeline.Agent.CollectTick: the goroutines' loops are the step sequences of the machine, and each method takes one step of it; the Go runtime's scheduling is any interleaving.
- RotationScans.NothingLostIff: a truncation is of the open file, below the offset, and the file is read before it has grown back to the old offset; ShrinkSeenIff says when a truncation shows. Writers append to the file at the path only, not to a renamed one. A byte counts as scanned if it is in its own generation of the file.
- RotationDelivery.DeliveryAcrossRotations: concerns runs without races, with sizes and truncations at line ends and lines that fit the scanner; TailRace and TailCuts say what races and cut lines do.
- TailCuts.DeliveredDespiteCutsIff: concerns files whose lines fit the scanner, and runs without repeated races; how a race and a cut in the same line combine is not stated.
- ParseRules, ActiveAlerts, NotifyHostDown, alert webhooks, metric validation and storage, CPU, memory and disk collectors, configuration, Prometheus output, dashboard and SDK request plumbing: each is a single straight-line or finite computation and keeps no state between calls.
