# EzyShield, modelled and proved in Dafny

EzyShield watches log lines, counts events per IP address in sliding windows, asks rules and optionally an AI provider for
verdicts, and bans addresses. This project models the parts of it that carry state, arithmetic or interleavings, in the form
the Go code has (classes with fields where methods update fields, loops where there are loops, step systems where
goroutines interleave), and proves what each is for.

`dafny verify dfyconfig.toml` checks everything.

| file | what it models |
|---|---|
| `Net.dfy`, `Bytes.dfy`, `Text.dfy`, `Options.dfy` | addresses as `net/netip` compares them; bytes; searching text; optional values |
| `BucketTime.dfy` | truncation of times to overflow buckets, the choice of the bucket width |
| `Ledger.dfy` | what the aggregator stands for: the list of events received per address and the fate of each |
| `Aggregator.dfy`, `AggregatorRuns.dfy`, `SlotRuns.dfy` | the aggregator itself: capped sample, overflow slots, lazy trimming, LRU cap; every method refines the ledger; the cap over whole runs of calls; runs that take as many slots as there can be |
| `RuleTest.dfy` | the dry run of a rule over hourly counts and its report |
| `TailForwarder.dfy` | the Docker log forwarder: producer, forwarder, consumer and cancellation under every interleaving |
| `DockerMux.dfy` | the Docker log stream demultiplexer and the line assembler |
| `EnvFile.dfy` | the `.env` parser, updater, printer and the writers that must not lose a secret |
| `Sanitize.dfy` | the terminal sanitizer: UTF-8 and control sequences, byte by byte |
| `Disk.dfy`, `Commit.dfy`, `Update.dfy` | files whose every operation can fail or be the last; the two-file commit; the self-update |
| `Budget.dfy`, `BudgetSteps.dfy` | the daily token budget, run alone and with concurrent calls |
| `AIChain.dfy` | the failover chain: sorting by priority, building, asking |
| `Verdicts.dfy`, `VerdictCache.dfy` | bounding a model's verdicts, the behaviour cache, and the daemon's round trip through both |

## How the main results fit together

*Aggregator.* A `Ledger` is the list of events an address received since it was last forgotten, with the set of positions
now in the raw sample, in a live overflow slot, or gone. `Aggregator.Valid` says that every tracked address stores exactly
what the ledger of its own history of operations says, and every method extends that history. `EveryRunMeansItsEvents` then
says of every run, with events in order, that a query is a stateless function of the list of events: the last `maxSamp`
events one by one, older ones by whole buckets. From it follow the bounded under-count, exactness on bucket boundaries, and
the invisibility of flushes. Soundness and monotonicity need no order of events.

*Crash states.* `Disk` checks a ghost property of the files after every single operation, so a proof that `kept` still holds
at the end is a proof about every state a crash can leave between operations.

*Pipelines.* The verdict loops are each equal to one `Collect`; `CollectTwice` fuses them, so that what a provider returns is a
function of each single result of the model.

*Plain terms.* The definitions that the laws go through are tied to plain terms: totals to events, kinds and classifier
counters (`Ledger.TallyCounts`), spending to the two token columns (`Budget.SpentIsInputAndOutput`), an entry of `.env` to the
characters of its line (`EnvFile.EntryIsRead`), a detection to counts on the time line (`RuleTest.FiresWhenCrossing`), a
sanitized text to its characters, escape sequences and stray bytes (`Sanitize.CharacterIsKept` and those beside it), a log
line to LF, CR and the maximum (`DockerMux.LineIsCut`), and an update to its two names, paths and digests
(`Update.RunUpdate`).

## Where the code does less than its documentation says

Each of these is a theorem here, with the exact condition under which the documented property does hold.

- *An event can be counted with nothing to show.* `internal/aggregate/aggregate.go:249-251` and
  `docs/internal/INVARIANTS.md:121` say that a count is never positive with an empty sample. With events out of order it can be:
  `Ledger.CountWithoutSample` gives the run, `Ledger.CountHasSampleIff` the exact condition (no overflow slot starts after all
  raw entries), `Ledger.CountHasSample` shows that events in order meet it.
- *A budget breach can be notified twice on one day.* `internal/ai/budget.go:28-29` promises exactly once per day under
  concurrent use. The clock is read before the lock is taken, so a call that read the day before midnight can set the noted
  day back: `BudgetSteps.MidnightNotifiesTwice` is such a run. `BudgetSteps.OncePerDayIffSettled` says of every day that
  begins after a run without a double notification that it is safe, however the run goes on that day, exactly when no call
  waits for the lock with an earlier day at that moment.
- *A verdict on an allowlisted address need not have score 0.* `internal/ai/anthropic.go:320-322` zeroes them, but a verdict
  replayed from the cache was judged for another address and is not clamped again: `VerdictCache.ReplayReachesAllowlisted` is
  a stored verdict that is replayed with its score of 90. The contract of `VerdictCache.Consult` has the exact condition: on
  an allowlisted address every verdict is zeroed exactly when no entry of the signature is live or every verdict in it has
  score and TTL 0.
- *A failed placeholder write can lose other secrets.* `cmd/ezyshield/init_cdn.go:1270-1272` says that the shared `.env` must
  never be left truncated; `ensureEnvPlaceholders` writes it in place (`cmd/ezyshield/init_noninteractive.go:861`).
  `EnvFile.TruncationLosesASecret` loses one. `EnvFile.ReadAfterCut` and the contract of
  `EnvFile.EnvStore.EnsurePlaceholders` say exactly which keys survive a cut: those whose first entry is written up to the
  last character of its value that is not a space. A write that fails before the file is truncated loses nothing.
- *Allowlisted addresses can be dropped from a rule test's sample.* `cmd/ezyshield/ruletest.go:459-460` says they never are;
  `RuleTest.AllowlistedShown` proves that it holds exactly when at most ten of them fire, and that otherwise ten are shown.
  `RuleTest.ElevenAllowlisted` simulates rows of eleven addresses and drops one of them.
- *The cap on tracked addresses can be exceeded.* When the address seen least recently is the invalid zero address nothing is
  evicted (`internal/aggregate/aggregate.go:307`): `AggregatorRuns.ZeroAddressExceedsTheCap` does it with two calls. The
  contract of `Aggregator.Aggregator.Add` has the condition on the state before the call: the cap holds when some tracked
  address is seen before the zero address or the latter is not tracked, and is exceeded by one when the zero address alone
  is least; in a tie the order of the map decides. `AggregatorRuns.CapHolds` shows that runs on valid addresses keep it.
- *An address can have one overflow slot more than documented.* `internal/aggregate/aggregate.go:47-48` says at most 720 for
  windows of a minute and an hour, and `internal/aggregate/aggregate.go:161-164` at most `maxWindow/Bucket()`. Trimming keeps
  a slot that starts exactly at the cutoff, so `SlotRuns.FillEverySlot` gets 721 with 722 events in order, and
  `SlotRuns.SlotBoundIsReached` does the same for every width. `Aggregator.Aggregator.SpaceBound` has the exact condition:
  the documented number is exceeded, by one, exactly when one bucket start more than that falls into the window that ends
  with the last event, and every one of these buckets holds an evicted event.
- *A rewrite of `.env` can lose a line.* A line with an empty key, such as `=x`, is printed as a blank line, or dropped when it
  is the last one without a newline: `EnvFile.EmptyKeyIsLost`. `EnvFile.RewriteKeepsLines` proves that nothing else is lost.
- *An opening code fence is stripped without a closing one.* `internal/ai/verdict.go:99-103` says the text is then returned as
  is: `Verdicts.OpeningFenceAlone` is an input for which it is not, `Verdicts.UnchangedIff` the exact condition.
- *A long suggested TTL can change sign.* Seconds are multiplied into 64-bit nanoseconds
  (`internal/ai/anthropic.go:314`): `Verdicts.TtlIsExactIff` gives the limits, `Verdicts.LongSuggestionTurnsNegative` an input past
  them. The cap at the maximum TTL holds all the same.

## Model

| member | source | states |
|---|---|---|
| BucketTime.SlotHolds | internal/aggregate/aggregate.go:219 | a slot key is a bucket boundary, and the bucket that starts there holds the time it was computed from |
| BucketTime.SlotRespectsBoundary | internal/aggregate/aggregate.go:290-292 | no bucket boundary falls strictly inside a bucket: an event lies after a boundary exactly when its slot does |
| BucketTime.SlotMonotone | internal/aggregate/aggregate.go:219 | earlier events have earlier slots |
| BucketTime.YearOneIsBeforeTheEpoch | internal/aggregate/aggregate.go:219 | buckets are counted from the first day of year 1, as Truncate does: the offset is that many days before the Unix epoch |
| BucketTime.Extremes | internal/aggregate/aggregate.go:109-117 | the longest and the shortest of the windows |
| BucketTime.BucketWidth | internal/aggregate/aggregate.go:118-124 | whole seconds between 1 s and 1 min; twelve fit in the shortest window whenever twelve seconds do, and no wider such width fits |
| Ledger.CountsOnlyTheWindow | internal/aggregate/aggregate.go:314-323 | in any order of event times: only in-window events are counted, each once, so no count ever exceeds the truth |
| Ledger.LongerWindowCountsMore | internal/aggregate/aggregate.go:324-377 | a longer window counts at least as much of every kind |
| Ledger.ArriveKeepsConsistent | internal/aggregate/aggregate.go:192-245 | an arriving event keeps: sample at most the cap, everything gone older than the horizon, sample full or nothing in the horizon before it |
| Ledger.FlushKeepsConsistent | internal/aggregate/aggregate.go:395-408 | so does a flush, at any cutoff |
| Ledger.CountedIsReference | internal/aggregate/aggregate.go:312-323 | with events in order the state counts exactly what a stateless definition on the list of events counts |
| Ledger.MissesOnlyStraddling | internal/aggregate/aggregate.go:41-48 | what a query counts and the capped events in the one bucket its cutoff cuts add up to the whole window; those events lie within one bucket width of the cutoff |
| Ledger.ExactOnBoundary | internal/aggregate/aggregate.go:316-320 | nothing is missed when the cutoff is a bucket boundary or the cap never took an event |
| Ledger.SampleIsNewest | internal/aggregate/aggregate.go:62-66 | with events in order the sample is the last min(cap, in-window) events, in arrival order |
| Ledger.CountHasSample | internal/aggregate/aggregate.go:247-251 | with events in order a query that counts something shows something |
| Ledger.CountHasSampleIff | internal/aggregate/aggregate.go:247-285 | in any order: every query that counts shows exactly when no overflow slot starts after all the raw entries |
| Ledger.CountWithoutSample | internal/aggregate/aggregate.go:247-251 | a run of two events, the later one first, after which a query counts one event and shows none |
| Ledger.FlushIsInvisible | internal/aggregate/aggregate.go:392-408 | with events in order a flush changes no query whose window starts at or after the flush cutoff |
| Ledger.RunIsConsistent | internal/aggregate/aggregate.go:192-285 | every run of events, flushes and resets keeps the invariant, whatever the order of event times |
| Ledger.EveryRunMeansItsEvents | internal/aggregate/aggregate.go:77-90 | over every run, with events in order, count, kinds and sample of a query it still answers for depend only on the list of events received |
| Ledger.TallyCounts | internal/aggregate/aggregate.go:229-232 | totals over picked events: as many events as picked, and per kind one for each event of that kind and one for each of its classifier counters |
| Ledger.WithinTheCap | internal/aggregate/aggregate.go:41-48 | while no more events came than the sample holds, a query means exactly the events not older than its cutoff |
| Ledger.PresentIsAnswerable | internal/aggregate/aggregate.go:392-408 | queries up to the longest window are answerable when no event lies in the future and no flush went past that window |
| Aggregator.Aggregator.constructor | internal/aggregate/aggregate.go:102-152 | an empty aggregator in which every configured window holds twelve buckets, unless the bucket is one second |
| Aggregator.IpBucket.TrimBefore | internal/aggregate/aggregate.go:247-285 | exactly the leading old entries and the old slots go; the early exit on the cached minimum gives what the full scan would, and the minimum stays the least key |
| Aggregator.IpBucket.ScanSlots | internal/aggregate/aggregate.go:270-284 | whatever the order of the map, exactly the slots from the cutoff on are left, and the minimum is their least key |
| Aggregator.IpBucket.CountEvicted | internal/aggregate/aggregate.go:218-233 | one evicted event is added to its slot and to no other, and the minimum stays the least key |
| Aggregator.IpBucket.FoldOldest | internal/aggregate/aggregate.go:214-239 | the surplus oldest entries move to the slots: each event is in one place before and after |
| Aggregator.IpBucket.Record | internal/aggregate/aggregate.go:207-239 | recording an event takes the bucket of one ledger to the bucket of the ledger with that event |
| Aggregator.IpBucket.SumRaw | internal/aggregate/aggregate.go:338-358 | counts and sample over the raw entries in the window |
| Aggregator.IpBucket.SumSlots | internal/aggregate/aggregate.go:359-367 | whatever the order of the map, the slots add exactly the live events whose whole bucket is in the window |
| Aggregator.Aggregator.Add | internal/aggregate/aggregate.go:188-245 | the event joins its address's history and no other changes; over the cap the address seen least recently is forgotten; the cap holds when the zero address is not among the least recently seen and is exceeded by one when it alone is |
| Aggregator.Aggregator.EvictLRU | internal/aggregate/aggregate.go:294-310 | picks an address no other was seen before, and forgets it when it is valid |
| Aggregator.Aggregator.Aggregate | internal/aggregate/aggregate.go:312-377 | never more than the events in the window, in any order; with events in order and an answerable cutoff, the stateless meaning of the events received: their number, per kind the events of that kind and the counters of that name, and the sample |
| Aggregator.Aggregator.Reset | internal/aggregate/aggregate.go:379-390 | the address is forgotten, all others untouched |
| Aggregator.Aggregator.Flush | internal/aggregate/aggregate.go:392-408 | in any map order, and cut short at any address, each address reached is trimmed once and every other untouched |
| Aggregator.Aggregator.SpaceBound | internal/aggregate/aggregate.go:82-90 | at most the cap of raw events per address; with events in order at most one slot more than the longest window holds whole buckets, and that many exactly when that many buckets start inside the window and each holds an evicted event (provided the window is at least one bucket long) |
| AggregatorRuns.CapHolds | internal/aggregate/aggregate.go:145-152 | over any sequence of Add, Flush and Reset with valid addresses the number of tracked addresses never exceeds the cap: the states from the first to the last are returned, each made from the one before by what its call does |
| AggregatorRuns.ZeroAddressExceedsTheCap | internal/aggregate/aggregate.go:294-310 | two calls of Add, both in the histories, after which two addresses are tracked under a cap of one |
| AggregatorRuns.AddThenAsk | internal/aggregate/aggregate.go:188-245 | one event added and asked for counts one, under its kind and each counter of the classifier, and is the sample; outside the window it is nothing |
| SlotRuns.SlotBoundIsReached | internal/aggregate/aggregate.go:161-164 | for every bucket width and every number n of buckets in the longest window there is a run in order after which the slots number n + 1 |
| SlotRuns.FillEverySlot | internal/aggregate/aggregate.go:41-48 | with windows of a minute and an hour, 722 calls of Add after which an address has 721 slots |
| RuleTest.DetectsIsCrossing | cmd/ezyshield/ruletest.go:170-174 | with a positive threshold a detection is exactly a crossing: below it before the hour, at it with the hour |
| RuleTest.FiresWhenCrossing | cmd/ezyshield/ruletest.go:170-174 | on the time line: the rule fires in an hour exactly when the address has a row there, its counts over the hours of the window before were below the threshold, and with that hour they reach it |
| RuleTest.QueryOrderIsGrouped | internal/store/ruletest.go:41 | rows grouped by address and hour and ordered by both, as the query returns them, are rows this holds for |
| RuleTest.DetectionsAscend | cmd/ezyshield/ruletest.go:164-168 | the detections of an address come in the order of time, each once |
| RuleTest.SimulateIp | cmd/ezyshield/ruletest.go:179-204 | the two-pointer sum and the fired flag give exactly the stateless detections of the address, in order, and its event total |
| RuleTest.GroupExpected | cmd/ezyshield/ruletest.go:206-212 | looking only at an address's own rows gives what looking at all rows gives |
| RuleTest.FirstsCover | cmd/ezyshield/ruletest.go:206-212 | the groups cover every address of the rows, each once |
| RuleTest.SimulateRule | cmd/ezyshield/ruletest.go:170-214 | one outcome per address in order of appearance, each the stateless one, and the event totals add up to all counts |
| RuleTest.StableSortIsStable | cmd/ezyshield/ruletest.go:461-466 | sorted, of the same length, and ties keep the same elements in the same order |
| RuleTest.MakeReport | cmd/ezyshield/ruletest.go:439-471 | totals, per-day counts and allowlisted hits are those of all detections; the sample is the sorted list cut at the cap |
| RuleTest.SampleIsTop | cmd/ezyshield/ruletest.go:459-470 | the sample is ten entries at most, allowlisted first and then by falling detections, and every entry left out would come after all of them |
| RuleTest.EntriesAre | cmd/ezyshield/ruletest.go:439-452 | an entry is an address with detections, with their number, its events and its allowlist layer |
| RuleTest.HitsAddUp | cmd/ezyshield/ruletest.go:443 | the total is the sum of the detections of the entries |
| RuleTest.OnDayCounts | cmd/ezyshield/ruletest.go:453-456 | a detection counts for the UTC day whose midnights it lies between |
| RuleTest.AllowlistedShown | cmd/ezyshield/ruletest.go:459-470 | the sample shows every allowlisted address that fires exactly when there are at most ten, and ten of them when there are more |
| RuleTest.ElevenAllowlisted | cmd/ezyshield/ruletest.go:459-470 | rows of eleven different allowlisted addresses, all of which fire, and a sample that shows ten |
| TailForwarder.RunKeepsInv | internal/collector/docker.go:279-341 | in every reachable state: sent lines are the taken ones followed by the channel's, emitted lines are the mapped delivered ones |
| TailForwarder.EmittedIsPrefix | internal/collector/docker.go:300-318 | under every interleaving the consumer has seen a prefix of the mapped producer lines, at most one taken line short |
| TailForwarder.EmittedLine | internal/collector/docker.go:300-306 | an emitted line has the label of the forwarder, the time of the producer, and the unwrapped text up to its last newlines |
| TailForwarder.ReturnsProducersError | internal/collector/docker.go:326-337 | what is returned after draining is the error the producer reported, and otherwise none |
| TailForwarder.NothingLostWithoutCancel | internal/collector/docker.go:326-337 | a run that returns without cancellation heard the producer's end and delivered every line |
| TailForwarder.LosesAtMostOne | internal/collector/docker.go:294-318 | at its return at most the last taken line is undelivered, and only after cancellation |
| TailForwarder.ReadyConsumerLosesNothing | internal/collector/docker.go:297-299 | while the consumer stays ready no taken line is lost, cancelled or not |
| TailForwarder.LineGoesThrough | internal/collector/docker.go:297-299 | a run in which a line goes through and the error of the producer is returned |
| TailForwarder.CancelLosesOne | internal/collector/docker.go:294-296 | a run in which cancellation loses the one line that was taken |
| TailForwarder.WaitsOnlyUncancelled | internal/collector/docker.go:294-296 | exactly when the forwarder cannot move: returned, or uncancelled and waiting for consumer or producer |
| TailForwarder.AnyReadyCase | internal/collector/docker.go:307-340 | at its selects the forwarder may take any ready case |
| TailForwarder.StepsAreBounded | internal/collector/docker.go:320-341 | once the producer is silent the forwarder takes boundedly many steps, whatever the others do |
| DockerMux.StepsConcat | internal/collector/lines.go:43-73 | feeding respects concatenation: how a stream is chopped into chunks does not matter |
| DockerMux.DeliversLines | internal/collector/lines.go:27-33 | a whole stream delivers its newline-terminated lines, capped and stripped of CR, up to the callback's stop |
| DockerMux.UntilIsPrefix | internal/collector/lines.go:67-69 | lines are delivered in order up to and including the first on which the callback asks to stop |
| DockerMux.LineIsCut | internal/collector/lines.go:43-73 | a line ends at LF or CR LF and is delivered without either; what is over the maximum is cut off; bytes without LF are no line |
| DockerMux.LineAssembler.Feed | internal/collector/lines.go:43-73 | the segment loop does to the buffer and the callback exactly what feeding byte by byte does |
| DockerMux.DecodeEncode | internal/collector/dockermux.go:32-36 | decoding undoes encoding for all stream types, padding bytes and frame lengths, empty ones included, and hands back any incomplete tail |
| DockerMux.EncodeDecode | internal/collector/dockermux.go:49-77 | every byte string is the encoding of its decoded frames followed by the undecoded tail |
| DockerMux.HeaderSize | internal/collector/dockermux.go:34-37 | the payload length is the big-endian number in bytes 4 to 7, and the payload follows the header |
| DockerMux.Demux | internal/collector/dockermux.go:44-78 | feeds the payloads of a prefix of the frames, all unless cancelled or stopped, and ends with the right error: clean on a short header, an error on a short payload or an oversized frame |
| DockerMux.DemuxEncoded | internal/collector/dockermux.go:25-43 | reading any encoded stream, however its payload is cut into frames, delivers the lines of the payload |
| EnvFile.LoadLines | cmd/ezyshield/init_cdn.go:1314-1332 | the loop reads the lines that Parse means |
| EnvFile.RenderLines | cmd/ezyshield/init_cdn.go:1347-1374 | the loop prints the text that Render means, with a header only when no line is a comment |
| EnvFile.ParseRender | cmd/ezyshield/init_cdn.go:1314-1374 | reading a printed well-formed list gives the list back, blank lines at the end included, with the header when it had no comment |
| EnvFile.RewriteIdempotent | cmd/ezyshield/init_cdn.go:1327-1331 | on every text a second rewrite changes nothing |
| EnvFile.RewriteKeepsContent | cmd/ezyshield/init_cdn.go:1365-1372 | a rewrite keeps every parsed line exactly when none has an empty key and a value |
| EnvFile.RewriteKeepsLines | cmd/ezyshield/init_cdn.go:1314-1372 | a rewrite prints every line of the text, up to the spaces around keys, exactly when no line has an empty key |
| EnvFile.EmptyKeyIsLost | cmd/ezyshield/init_cdn.go:1325-1368 | the line `=x` is rewritten as a blank line, and as none when no newline follows it |
| EnvFile.ReadAfterCut | cmd/ezyshield/init_noninteractive.go:860-863 | when the new text is cut anywhere, a key reads as in the whole text exactly when its first entry is there up to the last non-space of its value |
| EnvFile.ReadIsLookup | cmd/ezyshield/init.go:1244-1270 | the scanner that reads one value and the parser that reads all lines agree on every text and key |
| EnvFile.EntryIsRead | cmd/ezyshield/init.go:1255-1269 | a line `name = value`, with any blanks, tabs and carriage returns around name and value, reads as that name with that value, by either reader |
| EnvFile.FirstEntryDecides | cmd/ezyshield/init.go:1255-1269 | the first entry of a name gives its value, and a line of another name does not matter |
| EnvFile.HashIsComment | cmd/ezyshield/init.go:1257-1259 | a line that starts with a hash sign after its blanks holds no value |
| EnvFile.UpsertLine | cmd/ezyshield/init_cdn.go:1335-1345 | the loop computes Upsert, whose effect on lookups is LookupUpsert |
| EnvFile.LookupUpsert | cmd/ezyshield/init_cdn.go:1335-1345 | the key has the new value, every other key the old one |
| EnvFile.ReadAfterWrite | cmd/ezyshield/init.go:1175-1190 | after load, upsert and print, the file reads the trimmed new value for the key and the old one for every other |
| EnvFile.PlainValueIsKept | cmd/ezyshield/init.go:1175-1205 | a value of visible characters is read as it was written, under any plain name |
| EnvFile.ReadAfterFill | cmd/ezyshield/init_noninteractive.go:830-860 | after placeholders, no real value has changed, every requested name reads non-empty and every other key as before |
| EnvFile.ScanFor | cmd/ezyshield/init.go:1255-1269 | the scan finds the first line of the key |
| EnvFile.ValueFromLines | cmd/ezyshield/init_noninteractive.go:870-878 | the trimmed value of the first line of the key |
| EnvFile.EnvStore.WriteContent | cmd/ezyshield/init.go:1175-1205 | the key takes the value and every other key keeps its own; a failed write leaves the file as it was |
| EnvFile.EnvStore.WriteOrKeep | cmd/ezyshield/init.go:1140-1173 | without a token a real value is kept untouched; otherwise token or placeholder is written and nothing else changes |
| EnvFile.EnvStore.EnsurePlaceholders | cmd/ezyshield/init_noninteractive.go:830-868 | touches the file exactly when a requested name has no value; afterwards every requested name has one, and every value that was not empty is the same; after a write cut half-way it says which keys still read as they should, and an open that fails changes nothing |
| EnvFile.SecondRunFindsNothing | cmd/ezyshield/init_noninteractive.go:830-856 | on every text: after the placeholders are filled in no requested name is without a value, so filling them in again changes nothing |
| EnvFile.TruncationLosesASecret | cmd/ezyshield/init_noninteractive.go:861 | filling in a placeholder for one name, cut before its first character, loses the value of another |
| Sanitize.EncodeDecoded | cmd/ezyshield/sanitize.go:30-47 | writing a decoded rune gives back the bytes it was read from |
| Sanitize.DecodeEncoded | cmd/ezyshield/sanitize.go:30 | reading an encoded scalar gives it back whatever follows |
| Sanitize.KnownEncodings | cmd/ezyshield/sanitize.go:45 | the one-, two-, three- and four-byte examples of section 7 of RFC 3629 |
| Sanitize.EscapeSeqLen | cmd/ezyshield/sanitize.go:55-92 | terminates inside the input, where the sequence ends |
| Sanitize.SanitizeField | cmd/ezyshield/sanitize.go:24-53 | the index loop writes the encoding of the first max kept runes, with an ellipsis exactly when there are more |
| Sanitize.OutputIsSafe | cmd/ezyshield/sanitize.go:10-23 | on arbitrary bytes: well-formed UTF-8, no C0, DEL or C1 rune, at most max runes and an ellipsis |
| Sanitize.OutputIsSubsequence | cmd/ezyshield/sanitize.go:10-23 | but for the ellipsis the output is a byte subsequence of the input |
| Sanitize.Idempotent | cmd/ezyshield/sanitize.go:24-53 | sanitizing twice with the same cap is sanitizing once, truncated or not |
| Sanitize.PrintableUnchanged | cmd/ezyshield/sanitize.go:24-53 | printable text within the cap comes out as it went in |
| Sanitize.CharacterIsKept | cmd/ezyshield/sanitize.go:36-47 | every character from the blank to the tilde and from U+00A0 on is kept |
| Sanitize.ControlVanishes | cmd/ezyshield/sanitize.go:31-39 | every other character goes, alone, or as an escape character with its sequence |
| Sanitize.StrayByteVanishes | cmd/ezyshield/sanitize.go:31-39 | a byte that starts no character goes alone |
| Sanitize.CsiVanishes | cmd/ezyshield/sanitize.go:58-60 | a control sequence vanishes whole and takes nothing after it |
| Sanitize.BrokenCsiVanishes | cmd/ezyshield/sanitize.go:68-78 | a control sequence that is broken off or cut off takes its parameters, and what broke it stays |
| Sanitize.EscapeVanishes | cmd/ezyshield/sanitize.go:89-91 | an escape character with any other byte takes that byte and no more |
| Sanitize.OscVanishes | cmd/ezyshield/sanitize.go:61 | so does an operating system command, ended by BEL or by ESC and a backslash |
| Sanitize.UnendedOscTakesAll | cmd/ezyshield/sanitize.go:79-88 | an operating system command that never ends takes everything |
| Commit.StageTempFile | cmd/ezyshield/init_noninteractive.go:906-930 | success leaves one new file with the data; failure at any operation leaves everything as it was, and no temporary file when removals work |
| Commit.SafeMeans | cmd/ezyshield/init_noninteractive.go:880-886 | in a safe state a destination that is not as it was is wholly new, the second only with the first, and every other file is as it was |
| Commit.CommitTwoFiles | cmd/ezyshield/init_noninteractive.go:880-904 | in every state a crash can leave, each destination is wholly old or wholly new and the second new only after the first; an error up to the first rename leaves both as they were, a later one the second, and no temporary file when removals work; when no operation fails it succeeds |
| Update.VerifyChecksumsSig | cmd/ezyshield/update.go:353-409 | passes without the opt-out only on a verified signature; a rejected one never passes |
| Update.DownloadVerified | internal/update/install.go:28-77 | a file is handed on only if its digest is the one asked for; otherwise nothing is left |
| Update.AtomicReplace | internal/update/install.go:79-92 | the final path holds its old or its whole new content |
| Update.SafeMeans | cmd/ezyshield/update.go:289-343 | in a safe state each binary is wholly old or wholly the verified new one, a later one new only after the earlier ones, none new unless all were verified |
| Update.StageAll | cmd/ezyshield/update.go:289-330 | phase 1 touches no install path; success means every binary matched its digest and ran |
| Update.InstallAll | cmd/ezyshield/update.go:332-343 | phase 2 passes only through safe states, and success installs all |
| Update.Install | cmd/ezyshield/update.go:284-347 | every state the update may be cut in is safe; after an error no temporary file is left when removals work; it succeeds when no operation fails and every binary matches its digest and runs |
| Update.UpgradedIff | cmd/ezyshield/update.go:284-287 | the safe states of an update are the ones named by its two names, paths and digests |
| Update.RunUpdate | cmd/ezyshield/update.go:255-347 | a rejected signature stops before any binary is downloaded, opt-out or not; without the opt-out downloads imply a verified signature; in every state the command may be cut in each path is old or holds its own download, none is new unless both downloads have the digests of the checksums file and run, and the enforcer only after main; success means each path holds its own; it succeeds when the signature is accepted, the binaries are good and no operation fails |
| Budget.SpentIsInputAndOutput | internal/ai/budget.go:69 | what is spent is the input and the output tokens of the rows since the day began, and nothing of earlier days |
| Budget.RecordedAddress | internal/ai/budget.go:94-99 | usage is filed under the unmapped address, and under none for an invalid one |
| Budget.Budget.Current | internal/ai/budget.go:59-78 | the limit less the day's input and output tokens, never below zero, and zero exactly when a positive limit is reached; no limit never asks the store |
| Budget.Budget.Exceeded | internal/ai/budget.go:80-88 | true exactly when a positive limit is reached by the day's input and output tokens |
| Budget.Budget.NoteExceededToday | internal/ai/budget.go:118-134 | true unless the last day noted is this one, which it then is |
| Budget.Budget.Consume | internal/ai/budget.go:90-117 | a call alone adds exactly its input and output tokens to the day's, under its own provider, and notifies just when the limit is reached and the last day noted is another |
| BudgetSteps.Alone | internal/ai/budget.go:90-134 | the interleaved call, run without others, ends as the sequential one |
| BudgetSteps.GateAlone | internal/daemon/daemon.go:1194-1202 | the gate of the daemon, run without others, notes a breach exactly when a limit is set and reached and the day was not noted |
| BudgetSteps.AnyStoreCallMayFail | internal/ai/budget.go:100-111 | a call may fail at either store call |
| BudgetSteps.NotifiesOncePerDay | internal/ai/budget.go:28-30 | in every interleaving in which no call holds the day before while it waits for the lock, no day is notified twice |
| BudgetSteps.MidnightNotifiesTwice | internal/ai/budget.go:125-134 | a run of three calls that notifies one day twice |
| BudgetSteps.OncePerDayIffSettled | internal/ai/budget.go:125-134 | after any run without a double notification, the day that begins stays safe for every continuation exactly when no call waits with an earlier day |
| BudgetSteps.ExactlyOneNotifies | internal/ai/budget.go:90-117 | within a day, once all calls are done and none failed, exactly one of them has notified if the limit was reached and none otherwise |
| BudgetSteps.NewIsQuiescent | internal/ai/budget.go:48-57 | a new budget below its limit is where such a day may begin |
| AIChain.BudgetNamesDiffer | cmd/ezyshield/run.go:731-734 | budget names are equal only for the same name and position, whatever the providers are called |
| AIChain.BudgetNameReads | cmd/ezyshield/run.go:731-734 | a budget name is the name, a hyphen and the position in decimal |
| AIChain.SortByPriority | cmd/ezyshield/run.go:699-706 | the in-place sort leaves every config entry once, by rising priority number and, on a tie, by config position |
| AIChain.BuildAIChain | cmd/ezyshield/run.go:690-742 | fails exactly when no provider can be constructed; otherwise the chain holds the constructible ones in sorted order, each with its own budget and limit |
| AIChain.ChainIsOrdered | cmd/ezyshield/run.go:699-737 | entries come in priority order and no two share a budget name |
| AIChain.ChainIsComplete | cmd/ezyshield/run.go:708-735 | every constructible config entry is in the chain |
| AIChain.ChainBudgets | cmd/ezyshield/run.go:728-735 | an entry is the provider of its config entry, with the budget of its own name and its own limit, or the common limit when it sets none |
| AIChain.EndsIff | internal/ai/chain.go:49-61 | an entry is tried exactly when its budget could be checked and the day's tokens are below its limit, and ends the chain unless its provider fails |
| AIChain.HintIs | internal/ai/chain.go:64-73 | the hint a provider gets is what is left of its own limit, or nothing when that cannot be read |
| AIChain.ChainProvider.Analyze | internal/ai/chain.go:38-114 | the first entry in budget that does not fail decides; only its budget is charged, exactly its usage; the only error is cancellation |
| AIChain.WinnerPays | internal/ai/chain.go:89-105 | the reply has what the winner answered and used; its budget, and no other, is charged just that, for the first address of the batch |
| AIChain.Failover | cmd/ezyshield/run.go:690-742 | from configuration to answer: the entries are the chain of the configured providers with their own budgets, and the winner is the least by priority and config position among the constructible providers that are in budget and do not fail |
| Verdicts.TtlIsExactIff | internal/ai/anthropic.go:314 | a suggested TTL, of either sign, survives the conversion exactly up to 9223372036 seconds |
| Verdicts.LongSuggestionTurnsNegative | internal/ai/anthropic.go:314 | one second more comes out negative |
| Verdicts.Wrap64IsTwosComplement | internal/ai/anthropic.go:314 | beyond 64 bits the conversion keeps the value modulo 2 to the 64th, in range |
| Verdicts.BoundToBatch | internal/ai/verdict.go:42-70 | keeps exactly the verdicts on addresses of the batch, in order, in the batch's form of the address |
| Verdicts.CanonicalIsLast | internal/ai/verdict.go:55-58 | of several forms of an address in the batch the last is answered |
| Verdicts.MappedIsObserved | internal/ai/verdict.go:48-61 | a mapped form of a batch address is that address, and no other address is |
| Verdicts.Clamp | internal/ai/anthropic.go:320-343 | the nested loops do to each verdict what the policy says of it alone |
| Verdicts.CollectTwice | internal/ai/anthropic.go:121-123 | two filtering loops in a row are one |
| Verdicts.CollectConcat | internal/ai/anthropic.go:296-317 | such a loop keeps the order and loses and doubles nothing: on two batches in a row it does what it does on each |
| Verdicts.JudgedIsBounded | internal/ai/anthropic.go:290-343 | a result is judged exactly when its address parses and is in the batch; an allowlisted address is zeroed and marked; otherwise the verdict is the model's own, with a score below 0 or above 100 taken to that end and a TTL above the maximum cut to it |
| Verdicts.Answer | internal/ai/anthropic.go:85-124 | a provider's whole answer is its results judged one by one, all bounded |
| Verdicts.FenceVanishes | internal/ai/verdict.go:72-128 | whatever hint and blanks a code fence carries, the payload comes out as it went in; a text without a fence is left alone |
| Verdicts.UnchangedIff | internal/ai/verdict.go:99-128 | a text comes back unchanged exactly when it does not open with a fence line |
| Verdicts.OpeningFenceAlone | internal/ai/verdict.go:99-128 | a text with an opening fence only is stripped of it |
| Verdicts.OpenFenceVanishes | internal/ai/verdict.go:99-128 | what follows an opening fence without a closing one comes out without that fence and without blanks at its end |
| VerdictCache.LatestIsLast | internal/ai/cache.go:78-108 | the entry of a signature is that of the last Set that had an unclamped verdict |
| VerdictCache.ReplayedWereStored | internal/ai/cache.go:46-52 | a replay is never empty or clamped, is on the asking address, and was stored within one TTL |
| VerdictCache.ReplayIff | internal/ai/cache.go:66-69 | a lookup answers exactly while the latest storing Set of the signature is within its TTL |
| VerdictCache.ReplayIsWhole | internal/ai/cache.go:70-75 | when none of the stored verdicts was clamped the answer is all of them, in order, re-targeted and otherwise unchanged |
| VerdictCache.ClampedIff | internal/ai/verdict.go:22-26 | a verdict is clamped exactly when its source ends with the mark |
| VerdictCache.Cache.Get | internal/ai/cache.go:45-76 | exactly the replay of the history of Sets, in a slice of the caller's own |
| VerdictCache.Cache.Set | internal/ai/cache.go:78-112 | the call joins the history; what is stored is a slice of the cache's own |
| VerdictCache.Cache.Evict | internal/ai/cache.go:114-124 | exactly the expired entries go, and no lookup changes, even with a stale clock |
| VerdictCache.Consult | internal/daemon/daemon.go:1228-1289 | fresh or replayed, every verdict is on the consulted address, in range and within the maximum TTL; on an allowlisted address all are zeroed exactly when nothing but zero could be replayed; nothing clamped is ever replayed; what is stored keeps this true |
| VerdictCache.ReplayReachesAllowlisted | internal/ai/cache.go:70-75 | what a fresh consultation stores with a score of 90 is replayed with that score on an allowlisted address of the same signature |

## Left out

- Aggregator: the kind counters of a slot are a multiset, which is a map from kind to count with absent kinds reading 0; an overflow slot is a value in the map, not a pointer; `entries` is a sequence, so the growth of its backing array is not modelled.
- Aggregator: `WithClassifier` and `WithMaxIPs` are parameters of the constructor; calling them later is not modelled, nor the getters `Len`, `Entries`, `Windows`, `MaxWindow` and `Bucket`.
- Times are unbounded integers of nanoseconds: saturation of `time.Time` and the monotonic clock reading are not modelled.
- Locks of the aggregator and the cache: each method is atomic. Only the budget and the tail forwarder are step systems.
- RuleTest.SimulateRule: counts are natural numbers, and the rows of an address stand together in time order, as `EventCountsByHour` returns them.
- RuleTest.MakeReport: `check` stands for parsing and unmapping the address and asking the two allowlists; warnings, JSON and rendering are not modelled.
- TailForwarder: the file tailer is any producer of finitely many lines; the JSON unwrapping of a line is an uninterpreted function; path validation is left out.
- DockerMux.Demux: the reader yields a finite byte string and then ends or fails; buffering inside `bufio` is not modelled.
- EnvFile: text is a sequence of characters, so invalid UTF-8 in the file is not modelled, nor are the scanner's token limit, read errors other than a missing file, file modes and ownership beyond their failure.
- EnvFile.ReadAfterWrite: names are names of environment variables and a value is one line, as the prompts that make them deliver (`cmd/ezyshield/init_token.go:30-60`); a value with a newline would print as two lines.
- EnvFile.UpsertLine: works on a sequence; that the slice passed in is updated in place is not captured.
- Sanitize: only the sanitizer; where it is called is not modelled.
- Commit.CommitTwoFiles: crash states are those between operations; a torn rename, directory syncs and file modes are not modelled.
- Update.RunUpdate: starts at the downloaded checksums; release lookup, version comparison, prompts, and an error of the terminal output after a finished install are left out. The digest, the signature check and the test run are oracles.
- BudgetSteps: the store is the sum of what was recorded since the day began; its time stamp and its insertion, and the reading of the day and of the sum, are one step each.
- Budget.Budget.NoteExceededToday: notification texts and log lines are left out.
- AIChain.BuildAIChain: which config entries can be constructed, and what `mergeProviderCfg` makes of them, is a parameter; the inner loop of the sort is a method of its own.
- AIChain.ChainProvider.Analyze: all budgets of a chain share one store, as `buildAIChain` makes them; what a provider answers and which store calls fail are parameters, and the day is the same throughout one call.
- Verdicts.Answer: HTTP, retries and JSON decoding are left out: it starts at the decoded results; the other two providers have the same three loops. A rules fallback, which production does not set, is left out.
- Verdicts.FenceVanishes: the whitespace trimming before the fence is stripped is left out.
- VerdictCache: the key is the pair of window and kinds, of which the hash is taken to be injective; a nil and an empty kind map are not told apart; the evidence lines of a verdict, which AI verdicts do not carry, are left out.
- Prompts, wizards, doctor checks, rendering, edge and firewall calls, the store's SQL, the decision engine, the strike ladder, digest tallies and the bot verifier: each would be an oracle or add only easy members.
