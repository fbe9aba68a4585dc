# Hekma engine: verified core algorithms

A Dafny model of the self-contained algorithms and protocols of the Hekma engine and of its
configuration, rendering and logging scripts, with machine-checked proofs of what they are for.
Check everything with `dafny verify dfyconfig.toml`.

## What is modelled

**SHA-256** (`Sha256*.dfy`). `Sha256Standard` is FIPS 180-4 for whole bytes, written as the standard
is: pad the message, parse it, fold the compression of section 6.2.2. `Sha256` is the engine's code:
an array that `compress` updates in place, eight rotating variables, and a digest that never builds
the padded message. The code is proved to compute the standard's function, the padding to be section
5.1.1's on bits, the constants to be the roots of the first primes, "abc" to have its published
digest, and a digest collision to give a collision of the compression function.

**Crash-safe replacement** (`TempNames.dfy`, `AtomicWrite*.dfy`). Any number of processes and threads
replace files by temp, write, sync, mode and rename; steps interleave, any may fail, a process may
die between any two. `Apply` is one step; the theorems are about every run. `AtomicWriteCode` is the
sequential code, and each of its calls is a run of the machine.

**Layered configuration** (`Config*.dfy`). The recursive table merge, the keyed array merge with its
index map, and layering as a fold.

**Calendar and timestamps** (`Calendar.dfy`, `Rfc3339*.dfy`, `Decimals.dfy`). The division tricks of
`civil_from_days` in 64-bit unsigned arithmetic, against the Gregorian calendar stepped one day at a
time; RFC 3339 text, its reading back, and its order.

**Shutdown drain** (`Drain*.dfy`). Two passes and a roll-up against an engine that answers each call
as an adversary likes (`World`).

**Performance gates** (`PerfGate.dfy`, `PerfExact.dfy`). Sorting, nearest-rank percentiles, the worst kind and the
gates, on real numbers.

**Memory log** (`Memlog*.dfy`). The log's text form, its parser and printer, and its commands over
every run.

**Publishing a generation** (`Publish*.dfy`). Staging, rename and cleanup by any number of publishers
whose steps interleave, fail or never happen.

**Torn-tail reading** (`TornLog.dfy`, `TornExact.dfy`, `TornBytes.dfy`). The reader of an append-only log whose writer
may be halfway through a line, on characters and on UTF-8 bytes (RFC 3629).

**Manifest validation** (`Urls.dfy`, `Sections.dfy`, `ExitCodes.dfy`, `PathConfinement.dfy`). Which
probe URLs, sections, exit codes and paths a manifest may declare.

`Common.dfy` holds what several modules share.

## What the proofs found

- **A target named like a temporary file can be torn.** The write promise holds exactly when no target
  is named as the temporary path of a target (`AtomicWriteExact.AtomicIffSeparate`).
- **Layering depends on grouping**, exactly when `ConfigAlgebra.GroupingFree` fails: a layer puts a
  scalar between two containers that do not merge to the second (`ConfigFold.MaskedTableReappears`),
  or an array keyed by `id` meets an empty one, which does not hold it to its mode, after a merge has
  left only items that also carry `code` (`ConfigArrays.RepeatedIdsChangeMode`). Arrays that are not
  empty may be grouped at will, however often they repeat an `id`.
- **The drain skips an instance that was restarted between its own stop and the second snapshot**; it
  stays alive though every stop works, and the roll-up names it. `DrainResults.CompleteIff` says
  exactly when a drain is complete; `DrainResults.RestartedInstanceSurvives` is such a run.
- **Timestamps sort as text exactly up to year 10000** (`Rfc3339Order.TextOrderExactly`).
- **A label with a line break breaks the memory log's history**: an append adds exactly its entry
  exactly when its label is on one line (`MemlogHistory.AppendGrows`).
- **A key can forge entries and overwrite fields.** A set adds entries exactly when one line of its key
  is the fence and a later one starts an entry (`MemlogSet.SetKeepsEntries`,
  `MemlogSet.FenceInKeyForgesEntry`). It leaves all other fields of all logs alone exactly when no line
  of its key, up to the first colon, names one of them (`MemlogSet.KeepsOthersExactly`); setting
  `a:b` overwrites `a` (`MemlogSet.ColonInKeyOverwrites`).
- **A reused staging name can publish half a generation.** After its rename a publisher still removes
  whatever has its staging name; when that is another generation's new directory, what is left of it
  is published and reported as a success. That can happen with any two jobs
  (`PublishTorn.ReusedNamePublishesHalf`); making a directory is harmless exactly when no publisher of
  another generation still owns its name or the maker's generation is there already
  (`PublishTorn.HarmlessExactly`). So publishers of one generation are safe whatever the names
  (`PublishResults.OneGenerationIsOrderly`).
- **A log cut inside a character reads as empty**, since reading it as text fails and failure counts as
  absence (`TornBytes.TornByteExact`).
- **An entry cannot always be told from its label.** Without kind or writer, a text that starts with a
  parenthesis reads as if that were its label, and may be the same line as an entry with that label
  (`MemlogEntries.EntryReadsBack`, `MemlogEntries.LabelInText`).
- **The URL grammar is not RFC 3986's**: a port may start with a plus sign and may not be empty
  (section 3.2.3; `Urls.PortExactly`), and an IPv4 literal may stand in brackets (section 3.2.2). `Urls.WellFormed` says
  exactly what is admitted.
- `sha256.rs:28-29` calls its constants fractional parts of square roots; section 4.2.2 of FIPS 180-4
  defines them by cube roots, and cube roots are what they are (`Sha256Constants.RoundConstants`).

## Model

| member | source | states |
|---|---|---|
| Sha256.FillSchedule | crates/hekma-engine/src/sha256.rs:83-95 | the in-place schedule loop, with the processor's rotations and its order of additions, equals the standard's recurrence |
| Sha256.RotateVariables | crates/hekma-engine/src/sha256.rs:97-116 | one turn of the eight-variable loop is one round of section 6.2.2 |
| Sha256.CompressInPlace | crates/hekma-engine/src/sha256.rs:82-125 | the array becomes the standard's compression of its old contents with the block |
| Sha256.PadTail | crates/hekma-engine/src/sha256.rs:51-61 | for every message, its whole blocks and the one or two tail blocks are the padded message |
| Sha256.CompressWholeBlocks | crates/hekma-engine/src/sha256.rs:47-50 | the state after the whole blocks is their hash |
| Sha256.CompressTail | crates/hekma-engine/src/sha256.rs:51-61 | with a reused buffer, the state becomes the hash extended by the tail blocks |
| Sha256.CompressSums | crates/hekma-engine/src/sha256.rs:117-124 | adding each variable to its word of state, the other way round, is the standard's last step |
| Sha256.DigestStreaming | crates/hekma-engine/src/sha256.rs:42-69 | the streamed digest is the standard's digest, for every message |
| Sha256.OutputWords | crates/hekma-engine/src/sha256.rs:63-68 | the output is the words' big-endian bytes |
| Sha256.ToHex | crates/hekma-engine/src/sha256.rs:72-78 | two lowercase digits a byte, the high one first, from which each byte can be read back |
| Sha256.HexDigits | crates/hekma-engine/src/sha256.rs:75 | the sixteen digits in order are 0123456789abcdef |
| Sha256Constants.FirstPrimes | crates/hekma-engine/src/sha256.rs:28-29 | the primes below 312, by trial division, are the sixty-four listed, none skipped |
| Sha256Constants.RoundConstants | crates/hekma-engine/src/sha256.rs:28-39 | each of the 64 round constants is c mod 2^32 for the c with c^3 <= p 2^96 < (c+1)^3, p the prime of its place (section 4.2.2) |
| Sha256Constants.InitialHash | crates/hekma-engine/src/sha256.rs:23-26 | each word of the initial hash is the same of square roots of the first eight primes (section 5.3.3) |
| Sha256Constants.ChChooses | crates/hekma-engine/src/sha256.rs:99 | under any mask: the second word where the first has ones, the third where it has none |
| Sha256Constants.MajIsMajority | crates/hekma-engine/src/sha256.rs:106 | under any mask: what two of the three words agree on |
| Sha256Constants.ByteIsNumber | crates/hekma-engine/src/sha256.rs:60 | a byte is the number its bits spell, most significant first |
| Sha256Example.DigestOfABC | crates/hekma-engine/src/sha256.rs:143-146 | the standard as written here gives "abc" its published digest, worked out through all 64 rounds |
| Sha256Padding.PaddingIsStandard | crates/hekma-engine/src/sha256.rs:44-61 | on bits, below 2^61 bytes: message, one, the least number of zeros that leaves room, 64-bit length (section 5.1.1) |
| Sha256Padding.LeastZeroBits | crates/hekma-engine/src/sha256.rs:44-46 | no smaller number of zero bits leaves room for the length |
| Sha256Padding.BigEndianBits | crates/hekma-engine/src/sha256.rs:60 | the length bytes spell the number's binary digits |
| Sha256Padding.PadStartsWithMessage | crates/hekma-engine/src/sha256.rs:47-53 | padding is injective on messages of one length: it starts with the message |
| Sha256Padding.PadEndsWithLength | crates/hekma-engine/src/sha256.rs:60 | the padded message ends with the length field |
| Sha256Collision.BytesOfWordsInjective | crates/hekma-engine/src/sha256.rs:63-68 | different states have different digests |
| Sha256Collision.DifferentLengthsDifferentTails | crates/hekma-engine/src/sha256.rs:46-61 | messages of different lengths differ in their last block |
| Sha256Collision.BlocksCollide | crates/hekma-engine/src/sha256.rs:48-61 | two block strings with one hash yield a compression collision, found walking back from the end |
| Sha256Collision.CollisionReduces | crates/hekma-engine/src/sha256.rs:20-21 | two different messages with one digest yield two different inputs on which the compression function agrees |
| Sha256Collision.NothingWeakened | crates/hekma-engine/src/sha256.rs:20-21 | below 2^61 bytes every digest collision is turned into a compression collision |
| TempNames.TempNameInjective | crates/hekma-engine/src/paths.rs:110-114 | a temporary name determines its target's name, process, thread and sequence number |
| TempNames.TempNameText | crates/hekma-engine/src/paths.rs:158-176 | a name as it is spelt, in the target's own directory |
| AtomicWriteResults.RunKeeps | crates/hekma-engine/src/paths.rs:149-215 | the safety invariant holds after every run, through failures and crashes |
| AtomicWriteResults.NeverTorn | crates/hekma-engine/src/paths.rs:100-108 | in every reachable state a target holds what it held at first or one whole payload aimed at it, and an existing target keeps its mode |
| AtomicWriteResults.OutcomesAreHonest | crates/hekma-engine/src/paths.rs:114-119 | a write reported as done renamed, one reported as failed never did, and a target holds the payload of its last rename |
| AtomicWriteResults.OnlyRenamesChangeTargets | crates/hekma-engine/src/paths.rs:193-213 | no other step of any writer touches a target |
| AtomicWriteResults.TempsNeverCollide | crates/hekma-engine/src/paths.rs:110-114 | no two live writers share a temporary path, after any run |
| AtomicWriteResults.NoLitterLeft | crates/hekma-engine/src/paths.rs:114-119 | without crashes and failed removals, no temporary file outlives its write |
| AtomicWriteExact.FailureNeverTookEffect | crates/hekma-engine/src/paths.rs:114-119 | a reported failure was not in effect at any moment of the run |
| AtomicWriteExact.TempTargetTears | crates/hekma-engine/src/paths.rs:158-176 | for any two targets of which one is a temporary path of the other, a run that tears it |
| AtomicWriteExact.AtomicIffSeparate | crates/hekma-engine/src/paths.rs:100-108 | targets are intact over all runs if and only if none is named as a temporary path of a target |
| AtomicWriteCode.FillTemp | crates/hekma-engine/src/paths.rs:194-200 | it succeeds exactly when the file is made, every byte is written and the flush works; then the temporary file holds the payload, and otherwise nothing else has changed; the steps are the machine's |
| AtomicWriteCode.Publish | crates/hekma-engine/src/paths.rs:201-205 | it succeeds exactly when the mode is copied and the rename works; then the files are the old ones with the temporary file moved over the target under the target's mode, and otherwise the target is as it was |
| AtomicWriteCode.Attempt | crates/hekma-engine/src/paths.rs:193-206 | the attempt succeeds exactly when no operation of it fails; then only the target and the temporary file have changed, to the payload and to nothing |
| AtomicWriteCode.WriteAtomicVia | crates/hekma-engine/src/paths.rs:182-215 | it succeeds exactly when the target is named and no operation fails; the files after success and after a failure cleaned up are given; one call is a run of the machine with the same files and outcome |
| ConfigMerge.DetectKeyedMergeField | _bmad/scripts/config_utils.py:37-54 | the loops find the mode, or the first identifier that is no non-empty string |
| ConfigMerge.MergeArraysLoop | _bmad/scripts/config_utils.py:57-76 | the index loop computes the fold of single upserts, or the same error |
| ConfigMerge.IndexBase | _bmad/scripts/config_utils.py:62-67 | the map holds exactly each key's last position |
| ConfigMerge.ApplyOverrides | _bmad/scripts/config_utils.py:68-76 | replacing through the map is upserting at the last position |
| ConfigMerge.UpsertAllIsKeyedMerge | _bmad/scripts/config_utils.py:62-76 | base order, then new keys by first appearance; each overridden key carries its last override at its last base position |
| ConfigMerge.NewKeysAre | _bmad/scripts/config_utils.py:68-75 | the appended keys are exactly the override's keys the base lacks, each once |
| ConfigMerge.UniqueKeysKept | _bmad/scripts/config_utils.py:62-76 | unique base keys give unique result keys, whatever the override repeats |
| ConfigExact.AppendedExactly | _bmad/scripts/config_utils.py:57-60 | two arrays whose items do not all carry `code` and do not all carry `id` are appended, whatever mode each is of |
| ConfigExact.KeyedExactly | _bmad/scripts/config_utils.py:37-76 | otherwise they are merged by the first field all carry, and refused exactly for the first identifier that is no string or empty, with that error |
| ConfigExact.IdentifiersExactly | _bmad/scripts/config_utils.py:42-53 | the identifiers pass exactly when each is a non-empty string; else the first bad one is reported |
| ConfigExact.ReplacedExactly | _bmad/scripts/config_utils.py:79-88 | unless both are tables or both arrays, the override replaces the base |
| ConfigExact.FirstError | _bmad/scripts/config_utils.py:81-85 | tables that do not merge fail with the error of the first shared key, in the override's order, that does not |
| ConfigArrays.KeyedAssociative | _bmad/scripts/config_utils.py:62-76 | keyed merging by one field is associative, repeated keys included |
| ConfigArrays.ArraysAssociativeIff | _bmad/scripts/config_utils.py:57-76 | three arrays of one mode merge alike in both groupings exactly when empty ends do no harm: with an empty last one the first two must still pass for an array, with an empty first one the last two must merge onto nothing as in their mode |
| ConfigArrays.NonEmptyArraysAssociative | _bmad/scripts/config_utils.py:57-76 | arrays of one mode whose ends are not empty may be grouped at will, repeated identities included |
| ConfigArrays.KeptExactly | _bmad/scripts/config_utils.py:37-76 | an array keyed by `id` keeps its mode exactly when merging it onto nothing does |
| ConfigArrays.MergeKeepsMode | _bmad/scripts/config_utils.py:37-76 | the merge of two arrays that keep one mode keeps it: an item without `code` stands last for its `id` |
| ConfigArrays.ArraysAssociative | _bmad/scripts/config_utils.py:57-76 | arrays that keep one mode, empty or not, may be grouped at will |
| ConfigArrays.RepeatedIdsChangeMode | _bmad/scripts/config_utils.py:37-76 | an empty array and two keyed by `id` whose merge depends on grouping |
| ConfigLayers.StructuralMerge | _bmad/scripts/config_utils.py:79-88 | the recursive loop computes the field-by-field merge, or the first error |
| ConfigLayers.MergeLayers | _bmad/scripts/config_utils.py:91-95 | layering is the left fold from the empty table |
| ConfigAlgebra.TablesMerge | _bmad/scripts/config_utils.py:81-85 | a table merge succeeds exactly when every shared field's does; then shared fields are merged, others kept, base order first |
| ConfigAlgebra.EmptyIsIdentity | _bmad/scripts/config_utils.py:79-88 | the empty table is a two-sided identity |
| ConfigAlgebra.OneModeMerges | _bmad/scripts/config_utils.py:79-88 | layers whose shared arrays use one mode always merge, into a well-formed value |
| ConfigAlgebra.AssociativeIff | _bmad/scripts/config_utils.py:79-88 | layers whose shared arrays use one mode merge alike in both groupings exactly when, at every path all three share, the arrays do and a masked container is what the outer two merge to |
| ConfigFold.Associative | _bmad/scripts/config_utils.py:79-88 | so they do when no middle layer masks a container and arrays keep their mode |
| ConfigFold.FoldRegroups | _bmad/scripts/config_utils.py:91-95 | folding from a merge is merging with the fold, if each layer groups with what was folded before it |
| ConfigFold.FoldSplits | _bmad/scripts/config_utils.py:91-95 | for layers that agree in advance, folding from a merge is merging with the fold |
| ConfigFold.LayersSplit | _bmad/scripts/config_utils.py:91-95 | layering a concatenation is merging the two layerings, when no layer masks and arrays keep one mode |
| ConfigFold.MaskedTableReappears | _bmad/scripts/config_utils.py:79-95 | three layers with a masked table whose merge depends on grouping |
| Calendar.YearOfEraInverts | crates/hekma-engine/src/time.rs:49-53 | the year-of-era trick inverts the year starts, for all 146097 days of an era |
| Calendar.CivilInvertsDays | crates/hekma-engine/src/time.rs:46-59 | `civil_from_days` inverts the day count on every date a 64-bit second count reaches, with no overflow on the way |
| Calendar.CivilIsNthDay | crates/hekma-engine/src/time.rs:46-59 | `civil_from_days(n)` is n steps of the Gregorian next day from 1970-01-01 |
| Calendar.DaysInvertCivil | crates/hekma-engine/src/time.rs:46-59 | the other half of the bijection: the date is valid, from 1970 on, and counts back to n |
| Calendar.NthDayIncreases | crates/hekma-engine/src/time.rs:46-59 | later days are later dates |
| Rfc3339.RoundTrip | crates/hekma-engine/src/time.rs:32-40 | reading back the text of any 64-bit second count recovers it |
| Rfc3339.Samples | crates/hekma-engine/src/time.rs:67-77 | the epoch, and a leap day at 12:34:56, as text |
| Rfc3339Order.TwentyCharacters | crates/hekma-engine/src/time.rs:39 | the text has 20 characters exactly before year 10000 |
| Rfc3339Order.InstantOrder | crates/hekma-engine/src/time.rs:33-38 | instants are ordered as their dates, then as their clocks |
| Rfc3339Order.SameLengthOrder | crates/hekma-engine/src/time.rs:32-40 | texts of one length sort as their instants |
| Rfc3339Order.TextOrderIsTimeOrder | crates/hekma-engine/src/time.rs:32-40 | before year 10000, text order is time order |
| Rfc3339Order.TextOrderExactly | crates/hekma-engine/src/time.rs:32-40 | text order is time order below a bound exactly when the bound is no later than year 10000 |
| Rfc3339Order.TextOrderBreaks | crates/hekma-engine/src/time.rs:39 | at year 10000 it is not |
| Drain.DrainPlan | crates/hekma-engine/src/shutdown.rs:129-140 | a name is in the plan exactly when a row of that name is Running or Paused |
| Drain.PlanInFleetOrder | crates/hekma-engine/src/shutdown.rs:129-140 | the plan has one name for each Running or Paused row, in fleet order |
| Drain.NewNames | crates/hekma-engine/src/shutdown.rs:265-268 | the recording filter lets each untried name through once |
| Drain.NewNamesInOrder | crates/hekma-engine/src/shutdown.rs:265-268 | and lets it through at its first mention, in order |
| Drain.StopOne | crates/hekma-engine/src/shutdown.rs:295-363 | one stop, then the one read its result calls for, classified |
| Drain.Drainer.StopPass | crates/hekma-engine/src/shutdown.rs:239-289 | stops exactly the snapshot's untried live names, once each; every live row of a readable snapshot ends up tried; notes exactly as the stops settle |
| Drain.Drainer.StopEach | crates/hekma-engine/src/shutdown.rs:272-287 | every planned name is stopped, announced and noted in order, whatever becomes of the others |
| Drain.StopNotesAt | crates/hekma-engine/src/shutdown.rs:272-287 | the notes are each stop announced and then its outcome, in the order of the stops |
| Drain.Drainer.DrainAndStop | crates/hekma-engine/src/shutdown.rs:185-232 | against any world: exactly which calls are made, at most one stop an instance, the outcomes they earn in order, every Running or Paused row of both snapshots tried, every outcome noted, every Running or Paused row of a readable last read named as still alive, and exactly which other notes appear |
| Drain.Drainer.RollUp | crates/hekma-engine/src/shutdown.rs:212-230 | every row live in the final read is named, or the drain is called unverified |
| DrainResults.NewestStopIsTheArm | crates/hekma-engine/src/shutdown.rs:301-320 | the newest-first search reports the arm that ran, for any prior log |
| DrainResults.UnverifiedExactly | crates/hekma-engine/src/shutdown.rs:301-324 | the flavour is unverified exactly when the log is unreadable or holds no stop |
| DrainResults.EndedExactly | crates/hekma-engine/src/shutdown.rs:330-357 | a failed stop is called ended on its own exactly when the fleet's first row of that name says stopped or failed |
| DrainResults.StragglersWereTried | crates/hekma-engine/src/shutdown.rs:185-232 | if successful stops end instances and nothing becomes live after the second snapshot, whoever is alive at the end was alive then and had been tried by the first pass, or its second stop failed |
| DrainResults.StragglersExactly | crates/hekma-engine/src/shutdown.rs:185-232 | and exactly those, if only stops end instances |
| DrainResults.CompleteIff | crates/hekma-engine/src/shutdown.rs:185-232 | then the roll-up has nothing to say exactly when no instance alive at the second snapshot had been tried before or resisted its stop |
| DrainResults.RestartedInstanceSurvives | crates/hekma-engine/src/shutdown.rs:265-268 | a run in which an instance is stopped, is gone, is back before the second snapshot, and survives, though every stop works |
| PerfGate.SummarizeRead | crates/hekma-engine/examples/perf-budgets.rs:687-697 | the slice ends up sorted and the statistics are read off it |
| PerfGate.MergeKindSamples | crates/hekma-engine/examples/perf-budgets.rs:1000-1006 | the merge is the concatenation of the readers' samples |
| PerfGate.SortedUnique | crates/hekma-engine/examples/perf-budgets.rs:687-688 | a list has one sorted form |
| PerfGate.PercentileCounts | crates/hekma-engine/examples/perf-budgets.rs:709-712 | a percentile is under a budget exactly when at least its rank of samples are |
| PerfGate.PercentilesOrdered | crates/hekma-engine/examples/perf-budgets.rs:687-697 | p50 <= p95 <= p99 <= max |
| PerfGate.ReadGateCounts | crates/hekma-engine/examples/perf-budgets.rs:701-712 | the strict read gate passes exactly when in every kind at least ceil(0.99 n) samples are under budget |
| PerfExact.StatsCount | crates/hekma-engine/examples/perf-budgets.rs:687-712 | each statistic is under a budget exactly when half, 95%, 99% or all of the samples are |
| PerfExact.CeilIsLeast | crates/hekma-engine/examples/perf-budgets.rs:710 | the rank rounds up to the least whole number not below |
| PerfExact.CountIs | crates/hekma-engine/examples/perf-budgets.rs:709-712 | the count is that of positions whose sample is under the budget |
| PerfExact.WorstKind | crates/hekma-engine/examples/perf-budgets.rs:701-706 | the worst p99 is under a limit exactly when every kind's is |
| PerfExact.ReportExactly | crates/hekma-engine/examples/perf-budgets.rs:856-949 | a report passes exactly when its seven figures meet 1000 ms, 50 MiB, 100 MiB, 2%, 0.25 points, 2 MiB and 100 ms, the last four stretched by the tolerance, the first strictly |
| PerfGate.SplitsDoNotMatter | crates/hekma-engine/examples/perf-budgets.rs:996-1006 | how samples were split among readers or ordered changes no statistic |
| PerfGate.ToleranceThreshold | crates/hekma-engine/examples/perf-budgets.rs:856-949 | a report turns on its tolerance at one point, the largest share of a tolerated budget; read and memory figures must meet theirs as they are |
| PerfGate.ToleranceOnlyLoosens | crates/hekma-engine/examples/perf-budgets.rs:856-949 | a larger tolerance keeps every pass |
| Memlog.SplitText | _bmad/scripts/memlog.py:90-107 | the loop computes the parsed frontmatter and body, or which fence is missing |
| MemlogResults.SplitRender | _bmad/scripts/memlog.py:90-113 | whatever is rendered splits at its first fence, for all fields and bodies |
| MemlogResults.RoundTrip | _bmad/scripts/memlog.py:90-113 | tidy fields and a tidy body come back from their text exactly |
| MemlogResults.ParsedIsTidy | _bmad/scripts/memlog.py:101-107 | whatever is parsed is tidy: distinct stripped keys without colons, stripped one-line values |
| MemlogResults.TouchKeeps | _bmad/scripts/memlog.py:116-119 | stamping keeps every other field, and tidiness |
| MemlogKept.StampGoesLast | _bmad/scripts/memlog.py:116-119 | the old stamp comes out wherever it stood and the new one goes last |
| MemlogKept.AssignExactly | _bmad/scripts/memlog.py:183 | an assignment replaces the value in its place or adds the field at the end |
| MemlogKept.FileText | _bmad/scripts/memlog.py:110-113 | a log as it stands in its file |
| MemlogKept.TwoLinesReadBack | _bmad/scripts/memlog.py:112 | a value on two lines reads back as one, joined by a space |
| MemlogEntries.CollapseKeepsWords | _bmad/scripts/memlog.py:167 | collapsing keeps exactly the words |
| MemlogEntries.WordsKeepLetters | _bmad/scripts/memlog.py:167 | the words are the text without its white space, none empty |
| MemlogEntries.WordsPart | _bmad/scripts/memlog.py:167 | any white space parts the words before it from those after it |
| MemlogEntries.SpacesAre | _bmad/scripts/memlog.py:167 | white space is Unicode's and the four information separators |
| MemlogEntries.LabelWords | _bmad/scripts/memlog.py:168-170 | the label says the kind, and after "by" who it came from |
| MemlogEntries.EntryReadsBack | _bmad/scripts/memlog.py:167-172 | an entry reads back as its kind, its writer and its text exactly unless it has neither kind nor writer and its text starts like a label |
| MemlogEntries.LabelInText | _bmad/scripts/memlog.py:171-172 | a label given and a label written in the text are the same line |
| MemlogEntries.EntriesAre | _bmad/scripts/memlog.py:132-133 | the entries are exactly the lines that start with a dash and a space, in order |
| MemlogEntries.LinesEnd | _bmad/scripts/memlog.py:96 | each of the ten breaks ends a line, a carriage return and line feed one, and nothing else does |
| MemlogKept.AppendKeepsBody | _bmad/scripts/memlog.py:173 | an append puts its entry on a line of its own after the whole body but newlines at its end; a body of white space is dropped |
| MemlogKept.SetKeepsBody | _bmad/scripts/memlog.py:180-187 | a set whose key is on one line keeps the whole body but newlines at its end |
| MemlogHistory.AppendGrows | _bmad/scripts/memlog.py:164-177 | an append adds exactly its entry at the end exactly when its label is on one line |
| MemlogKept.AppendRecords | _bmad/scripts/memlog.py:164-177 | the entry appended reads back as what was given, behind all the old ones |
| MemlogSet.SetKeepsEntries | _bmad/scripts/memlog.py:180-187 | a set adds entries exactly when a line of its key is the fence and a later one starts an entry |
| MemlogSet.FenceInKeyForgesEntry | _bmad/scripts/memlog.py:110-113 | keys that do |
| MemlogSet.SetReads | _bmad/scripts/memlog.py:90-113 | what every other field reads back as after a set, for any key and value |
| MemlogSet.KeepsOthersExactly | _bmad/scripts/memlog.py:180-187 | a set leaves all other fields of all logs alone exactly when its key names only itself |
| MemlogSet.OneLineKeyNames | _bmad/scripts/memlog.py:103-106 | for a key on one line: what stands before its first colon, stripped, is the key or the stamp's |
| MemlogSet.ColonInKeyOverwrites | _bmad/scripts/memlog.py:103-106 | a colon in a key overwrites the field it names |
| MemlogKeys.LookupParse | _bmad/scripts/memlog.py:102-106 | parsing gives each field what the last line naming it gives |
| MemlogSet.FieldsKept | _bmad/scripts/memlog.py:164-187 | an append, and a set whose key is stripped, on one line and without a colon, leave all other fields as they were, in order, for any value |
| MemlogHistory.History | _bmad/scripts/memlog.py:164-187 | over any run whose labels are on one line and whose keys forge no entry, no command fails and the entries are the old ones followed by those appended |
| MemlogHistory.InitEntries | _bmad/scripts/memlog.py:145-161 | a log started by `init` is readable, and empty exactly when its keys forge no entry |
| MemlogKept.InitFields | _bmad/scripts/memlog.py:151-158 | with keys that are tidy once stripped, a started log holds the fields given and then the stamp |
| MemlogKept.InitMetaGives | _bmad/scripts/memlog.py:152-157 | the last pair that names a key gives it its value, stripped |
| MemlogKept.PairParts | _bmad/scripts/memlog.py:153-156 | a pair is parted at its first equals sign |
| MemlogHistory.HistoryFromInit | _bmad/scripts/memlog.py:145-187 | then it holds exactly the entries appended since |
| MemlogHistory.UniversalHarmless | _bmad/scripts/memlog.py:166 | reading in text mode, which turns carriage returns into newlines, changes nothing the parser sees |
| MemlogCommands.LogFile.CmdInit | _bmad/scripts/memlog.py:145-161 | refuses an existing file and a pair without `=` and changes nothing; otherwise the log is readable, holds the fields given if their keys are tidy, and is empty exactly when its keys forge no entry |
| MemlogCommands.LogFile.CmdAppend | _bmad/scripts/memlog.py:164-177 | the history grows by the entry exactly when its label is on one line, the entry is on a line of its own after the body, the fields are stamped; an unreadable file stays as it was |
| MemlogCommands.LogFile.CmdSet | _bmad/scripts/memlog.py:180-187 | the history stays exactly when the key forges no entry; a one-line key leaves the body; a key that names only itself leaves the other fields, a tidy one is set |
| Publish.VerifyExisting | _bmad/scripts/render_skill.py:270-292 | the checks accept exactly a tree with this manifest, its files and no other, and matching hashes |
| PublishSafety.CompleteVerifies | _bmad/scripts/render_skill.py:270-309 | what a publisher writes is what verification accepts |
| PublishVerified.VerifiedExactly | _bmad/scripts/render_skill.py:270-292 | verification accepts a tree exactly when its manifest is the job's and its other files are the job's outputs up to their hashes |
| PublishVerified.VerifiedHoldsOutputs | _bmad/scripts/render_skill.py:286-292 | a verified tree holds exactly the job's outputs, or one of its files and the output of that name are a hash collision |
| PublishVerified.NormalReturnsHoldOutputs | _bmad/scripts/render_skill.py:295-319 | so a normal return means exactly this job's outputs are there, then and for ever after, unless the hash collides |
| PublishVerified.AlonePublishes | _bmad/scripts/render_skill.py:295-319 | a publisher left alone without faults publishes its generation complete, reports success and leaves nothing else behind |
| PublishVerified.PresentIsChecked | _bmad/scripts/render_skill.py:297-316 | one that finds its generation, or loses the race to it, reports success exactly when the generation is readable and verifies, and changes no generation |
| PublishSteps.AnyStepKeeps | _bmad/scripts/render_skill.py:295-319 | every step of every publisher keeps the invariant |
| PublishResults.GenerationsAreImmutable | _bmad/scripts/render_skill.py:295-319 | over every run a generation goes from absent to present once and never changes |
| PublishResults.GenerationsAreComplete | _bmad/scripts/render_skill.py:295-319 | it is never seen half written |
| PublishResults.NormalReturnsVerify | _bmad/scripts/render_skill.py:297-316 | a normal return means the generation is there and verifies, then and for ever after |
| PublishResults.NormalReturnsPublish | _bmad/scripts/render_skill.py:295-319 | when a generation's jobs are the same, it holds exactly that job's files |
| PublishResults.OneGenerationIsOrderly | _bmad/scripts/render_skill.py:300 | publishers of one generation need nothing of the staging names |
| PublishTorn.HarmlessExactly | _bmad/scripts/render_skill.py:300-319 | after an orderly run, making a directory is harmless in every orderly continuation exactly when no publisher of another generation still owns its name or the maker's generation is there |
| PublishTorn.CanPublishHalf | _bmad/scripts/render_skill.py:300-319 | from any state where a name is shared so, a continuation that publishes the manifest alone and reports success |
| PublishTorn.ReusedNamePublishesHalf | _bmad/scripts/render_skill.py:300-319 | any two jobs of different generations can meet that way |
| TornLog.ReadJsonLines | crates/hekma-conformance/src/uj3.rs:305-325 | the loops compute the decoded lines, the last dropped if it does not decode, or the first bad one |
| TornExact.ReadExactly | crates/hekma-conformance/src/uj3.rs:305-325 | for any text: of its lines that are not blank a last undecodable one is dropped; the read panics at the first other undecodable one, else returns all their records in order |
| TornExact.LinesExactly | crates/hekma-conformance/src/uj3.rs:309-312 | a newline ends a line and takes one carriage return along; what follows the last newline is a line as it is |
| TornExact.NonBlankExactly | crates/hekma-conformance/src/uj3.rs:311 | the lines kept are exactly those not blank, in order |
| TornLog.ReadTorn | crates/hekma-conformance/src/uj3.rs:298-325 | a torn log reads as its whole records and whatever the tail decodes to |
| TornLog.TornReadsSoundly | crates/hekma-conformance/src/uj3.rs:298-325 | torn at any character: no panic, a prefix of the records, every terminated one in it |
| TornLog.SoundExactlyWhenCutsAreSafe | crates/hekma-conformance/src/uj3.rs:298-325 | that holds for all logs exactly when no cut-off record decodes to a different one |
| TornBytes.CutReads | crates/hekma-conformance/src/uj3.rs:306-308 | cut UTF-8 reads as text exactly when the cut is between characters |
| TornBytes.Samples | crates/hekma-conformance/src/uj3.rs:306 | a character of each length as RFC 3629 spells it |
| TornBytes.TornByteExact | crates/hekma-conformance/src/uj3.rs:298-325 | torn at any byte, the read is sound exactly when the cut is between characters or no record was complete |
| Urls.AcceptedExactly | crates/hekma-adapter-api/src/manifest.rs:457-518 | a URL is accepted exactly when it is `http://`, a loopback literal bare without colons or in brackets, an optional port, and a path or query, with no fragment and no control character |
| Urls.MeaningIsUnique | crates/hekma-adapter-api/src/manifest.rs:1305-1379 | an accepted URL has one host, port and tail |
| Urls.HostPortBack | crates/hekma-adapter-api/src/manifest.rs:1326-1359 | parting an authority gives back what it was put together from |
| Urls.DecimalPorts | crates/hekma-adapter-api/src/manifest.rs:1370-1377 | the decimal text of n is a port exactly for 1..=65535, also after a plus sign |
| Urls.PortExactly | crates/hekma-adapter-api/src/manifest.rs:1370-1377 | a port is a plus sign or nothing, then zeros, then the decimal text of a number in 1..=65535 |
| Sections.GateIsBijective | crates/hekma-adapter-api/src/manifest.rs:441-627 | a section resolves to a gate exactly when the gate is valid and the section is the one declaring it, no foreign field |
| Sections.CheckIsBijective | crates/hekma-adapter-api/src/manifest.rs:765-908 | the same for liveness |
| Sections.SameUrls | crates/hekma-adapter-api/src/manifest.rs:759-761 | readiness and liveness admit the same URLs |
| ExitCodes.CheckList | crates/hekma-adapter-api/src/manifest.rs:1033-1058 | one list passes exactly when in range and without repeats; the error names a code that is at fault |
| ExitCodes.ResolveClasses | crates/hekma-adapter-api/src/manifest.rs:1028-1083 | the section resolves, to itself, exactly when both lists pass and are disjoint |
| ExitCodes.ClassIsMembership | crates/hekma-adapter-api/src/manifest.rs:943-959 | on validated classes, classification is membership |
| ExitCodes.AtMost256 | crates/hekma-adapter-api/src/manifest.rs:1013-1027 | the two lists together hold at most 256 codes |
| PathConfinement.Validate | crates/hekma-adapter-api/src/config.rs:230-271 | reports the first invalid rule, or none exactly when all are valid |
| PathConfinement.SafeExactly | crates/hekma-adapter-api/src/config.rs:289-309 | a path is safe exactly when it does not start with a letter and a colon and each of its segments leads one directory deeper |
| PathConfinement.SegmentsWeave | crates/hekma-adapter-api/src/config.rs:289-309 | the path is its segments woven with separators, and no segment holds one |
| PathConfinement.WeaveIsUnique | crates/hekma-adapter-api/src/config.rs:289-309 | that determines the segments |
| PathConfinement.MappedFilesStayInside | crates/hekma-adapter-api/src/config.rs:230-309 | an accepted file is strictly below the home, and no step on the way leaves it |
| PathConfinement.IdleFilesStayInside | crates/hekma-adapter-api/src/manifest.rs:1153-1248 | an accepted idle file never leaves the home, under Unix rules |
| PathConfinement.IdleExactly | crates/hekma-adapter-api/src/manifest.rs:1153-1248 | an idle file is accepted exactly when it is not blank, has no control character, no leading slash and no parent segment, under a timeout in 1..=600000 |
| PathConfinement.MappedFilesAreIdleFiles | crates/hekma-adapter-api/src/config.rs:289-309 | every control-free path the mapping accepts, the drain accepts |

## Left out

- Sha256.DigestStreaming: lengths are natural numbers reduced modulo 2^64 as the source does; slices longer than an address space are not excluded.
- ConfigAlgebra.AssociativeIff: shared arrays of different modes, or with bad identifiers, are not covered; the exact condition is for arrays of one mode.
- ConfigFold.LayersSplit: its conditions on the layers are sufficient, not necessary; ConfigFold.FoldRegroups asks for less, layer by layer.
- ConfigLayers.StructuralMerge: Python's aliasing of copied dictionaries is not modelled; values are immutable. A TOML date, number or boolean is one kind of scalar.
- AtomicWriteResults.NeverTorn: hard links, open handles, directory fsync and power loss, and the one retry on Windows are not modelled; renaming is the contract of paths.rs:129-147.
- AtomicWriteCode.WriteAtomicVia: one call alone; interleaving is the machine's.
- PublishResults.GenerationsAreImmutable: nobody outside the protocol touches the directories, and reading back a generation is one step, since it does not change.
- PublishTorn.HarmlessExactly: jobs have outputs, since no skill renders without its `workflow.md` (render_skill.py:113-114).
- PublishSteps.AnyStepKeeps: `_publish` is a machine of steps rather than one method, since what it promises is about interleavings.
- DrainResults.CompleteIff: what makes instances live or end belongs to the engine; here it is any timeline that the reads show and successful stops respect.
- PerfGate.ReadGateCounts: real numbers in place of 64-bit floats, so no rounding, NaN or total order on signed zeros; no empty kind, on which the source panics.
- PathConfinement.IdleFilesStayInside: Windows path components are not modelled.
- Urls.AcceptedExactly: the grammar of IP literals is a parameter that only reads hexadecimal digits, dots and colons.
- TornLog.TornReadsSoundly: JSON is a parameter, an encoder and a decoder.
- MemlogHistory.History: times are parameters; the file is replaced whole (its temporary file is not modelled).
- Serve-shape gates, medians and drift of the performance harness: the same gate function on other figures.
- Process control, sampling, the async runtime, SQLite reads and the load driver: input, output and timing.
- Capability, metering and adapter types, contract versions, environment and flag rendering: enumerations and constants.
- Error wording, report layout, rendering of Markdown sources, documentation and release scripts: text and plumbing.
