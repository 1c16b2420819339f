# Verified models of Gameplane's stateful cores

This project models the parts of Gameplane whose correctness depends on state kept over
long runs or on a wire format read back by someone else, and proves what they promise.
Each component is a set of pure definitions, theorems about all its inputs or all its
runs, and the code itself as methods and classes (loops, maps, lists and buffers
updated in place) proved to do what the definitions say.

* **Message translation** (`Icu*.dfy`, `LanguagePack.dfy`): the ICU parser as mutually
  recursive definitions and as a cursor over a buffer, the grammar it accepts
  (`IcuGrammar.dfy`), proved in both directions, its exact range, its errors, the escaper
  as its inverse, the formatter, placeholder collection, translation checks and the
  caching catalog.
* **Proof of work** (`Decimal.dfy`, `Pow*.dfy`): the 60-slot ring as a sliding window,
  the decaying difficulty, tokens and headers, and the single-use set that forgets.
* **Telemetry store** (`Store*.dfy`, `VersionLabels.dfy`): nine daily tables and the
  activity records under any run of reports and lifecycle passes, down to what every
  single row counts (`StoreCells.dfy`).
* **Per-source limiters** (`DailyLimiter.dfy`, `BucketLimiter.dfy`).
* **Game protocols** (`VarInt.dfy`, `GameFrames.dfy`).
* **UDP wake heuristic** (`UdpWake.dfy`), **relay supervisor** (`RelaySupervisor.dfy`)
  and **syslog forwarder** (`SyslogForwarder.dfy`).
* **Report schema** (`SortedSets.dfy`, `ReportJson.dfy`, `ReportSchema.dfy`,
  `ReportDecoder.dfy`), exactly which reports are accepted
  (`ReportAcceptance.dfy`), what is written for any report (`ReportWire.dfy`), and the way
  of a decoded report into the store (`ReportIngest.dfy`).

`dafny verify dfyconfig.toml` checks everything.

## Conventions

* Text is one `char` per byte. Times are integers (nanoseconds) except in the token
  bucket, where they are real seconds; days are UTC day numbers. Wrap-around is written
  out where it matters (VarInt, counters with an explicit maximum).
* HMAC, SHA-256, base64url, number formatting, CLDR plural categories, version order, the
  report enumerations, identifier and key syntax and the RFC 3339 clock are function-valued
  parameters, with only the law a theorem needs as its hypothesis: base64url decoding
  inverts encoding, and a time written at second precision is read back exactly when its
  UTC year has four digits.
* What the environment decides (the clock, dial and write failures, the order in which a
  map is walked, which of equally old sources is evicted) is part of the event, so a
  theorem over runs covers every choice.
* A locked section or a transaction is one atomic step. In the relay supervisor the two
  threads are interleaved step by step, lock acquisition included. A telemetry request
  uses one time for its window check and its day.
* A run lists its steps in the order in which they take the lock. `check`, `issue`, `take`,
  `allow` and `shouldWake` are given a time read before their lock, so a run whose times do
  not fall assumes more than a forward clock: requests must also reach the lock in the order
  of their readings. Theorems about runs assume it unless they say otherwise.

## What the proofs found

* `Lookup` is documented to fail only when the reference lacks the id
  (i18n/catalog/catalog.go:190-192). It also fails when the reference entry does not parse
  and no kept translation stands in; `LookupFailsExactly` gives the exact condition.
* Single use of a proof-of-work token needs the times of the checks not to fall in lock
  order. The time is read before the lock (telemetry-receiver/pow.go:329), so two requests
  around the second of expiry that pass each other on the way to the lock are enough, on a
  clock that never goes back. `RefusedUntilPruned` gives the exact condition and
  `OlderTimeReuses` a family of reuses.
* Replay refusal needs records to be kept at least two days: with an expiry of one day a
  report can be replayed exactly when it was sent at or after noon of the day it was
  accepted on (`ReplayableExactly`). Lapsed counting needs at least 30. The configured
  minimum of 31 days (telemetry-receiver/main.go:171) satisfies both.
* Even then an expired install was counted as lapsed exactly when the first pass came no
  later than the 31st day after it was last seen: passes that fail for a month and are
  retried (telemetry-receiver/store.go:411-419) lose it. `ExpiredWasLapsed`,
  `LateFirstPassLosesLapsed`.
* The rate limiter keeps its bound, and its purge stays hidden, exactly when ten minutes
  refill a bucket (`RefillIsExact`); the limiters the receiver builds all do.
* A syslog write that reports failure may still have delivered its whole frame, so the
  message arrives unreported, and twice when the retry works (`ArrivesUnreported`).
  Otherwise a collector receives exactly the successful sends (`ReceivedExactly`).
* The comment above `superviseRelay` says the monitor is joined before the state is
  cleared; the code clears first and joins after. `ClearedShowsNothing` holds all the same,
  because the monitor tests its context again under the lock.
* Terraria's writer accepts texts its own reader refuses (above 32768 bytes).
* The ICU parser's "invalid tag name" error is unreachable (`FaultIsThere`): a tag is only
  entered on a letter.
* The daily finalisation skips days exactly when two consecutive passes are more than
  400 days apart.

## Model

| member | source | states |
|---|---|---|
| `IcuParser.SpanIsMaximal` | i18n/icu/parse.go:361-396 | a scan stops at the first character outside its class, no sooner and no later |
| `IcuWellFormed.ParseIsWellFormed` | i18n/icu/parse.go:69-140 | on every input, a successful parse consumes the whole text and is well formed: distinct keys with `other` in every plural and select, pound nodes only under a plural, adjacent literals merged; the trailing "unmatched" check never fires |
| `IcuWellFormed.SeqStops` | i18n/icu/parse.go:85-140 | a sequence that ends successfully ends at the end of the text, at the brace of its option or at the closing tag of its element, and nowhere else |
| `IcuWellFormed.SeqWellFormed` | i18n/icu/parse.go:85-140 | whatever was collected before, a parsed sequence extends it to a well-formed message |
| `IcuWellFormed.OptionsWellFormed` | i18n/icu/parse.go:234-288 | the options of a choice have pairwise distinct keys of their kind and well-formed values |
| `IcuWellFormed.KeyOk` | i18n/icu/parse.go:292-325 | a key that parses is a plural category or `=N` in a plural and an identifier in a select |
| `IcuWellFormed.TagWellFormed` | i18n/icu/parse.go:328-357 | a parsed element has an identifier for its name and well-formed children |
| `IcuReader.ParsesExactly` | i18n/icu/parse.go:69-396 | on every text and message: the text parses to the message exactly when the message is well formed and the grammar spells it as that text, with any white space after `{`, around the name, after each comma, around the keyword, before each key, between key and `{` and before `}`, any quoting, and any style up to its brace; the grammar is stated without the parser |
| `IcuReader.SeqReads` | i18n/icu/parse.go:85-140 | a message spelled anywhere in a text, followed by what its context stops at, parses to itself and stops there |
| `IcuReader.ArgumentReads` | i18n/icu/parse.go:177-230 | an argument with a format and style, spelled with any white space, parses to its name, format and trimmed style |
| `IcuReader.OptionsRead` | i18n/icu/parse.go:247-288 | an option list spelled with any white space parses to its options in order |
| `IcuReader.TagReads` | i18n/icu/parse.go:328-357 | a spelled element parses to its name and children |
| `IcuReader.SeqSpells` | i18n/icu/parse.go:85-140 | whatever a sequence parses to is spelled by exactly the text it consumed |
| `IcuReader.ArgumentSpells` | i18n/icu/parse.go:177-230 | whatever an argument parses to is spelled by exactly the text it consumed |
| `IcuReader.OptionsSpell` | i18n/icu/parse.go:234-288 | so are the options of a choice |
| `IcuReader.TagSpells` | i18n/icu/parse.go:328-357 | and so is an element |
| `IcuFaults.FaultIsThere` | i18n/icu/parse.go:69-357 | every syntax error is borne out by the text at its offset: the unmatched brace, the missing name, comma, brace or digits, the unknown word, the key that stood before, the tag without its end is there; "invalid tag name" is never reported |
| `IcuFaults.SeqJustified` | i18n/icu/parse.go:85-140 | so is every error of a sequence, in whatever context |
| `IcuFaults.OptionsJustified` | i18n/icu/parse.go:234-288 | and of an option list: a repeated key stands at its offset and once before it |
| `IcuPrinter.PrintParses` | i18n/icu/parse.go:69-357 | printing a well-formed message and parsing the text gives the message back |
| `IcuPrinter.ParseRange` | i18n/icu/parse.go:69-357 | the messages the parser can return are exactly the well-formed ones |
| `IcuCursor.ParseMessage` | i18n/icu/parse.go:69-79 | the cursor parser, with its loops and its literal buffer, returns what the recursive definition says on every input, error positions included |
| `IcuCursor.Parser.Sequence` | i18n/icu/parse.go:85-140 | advances the cursor and returns the message or the error exactly as specified |
| `IcuCursor.Parser.Quote` | i18n/icu/parse.go:145-174 | an apostrophe yields the specified text and leaves the cursor where specified |
| `IcuCursor.Parser.Argument` | i18n/icu/parse.go:177-230 | reads an argument as specified, error offsets included |
| `IcuCursor.Parser.Options` | i18n/icu/parse.go:234-288 | reads the options in a loop, refusing a repeated key, as specified |
| `IcuCursor.Parser.OptionKey` | i18n/icu/parse.go:292-325 | reads an option key as specified |
| `IcuCursor.Parser.TagNode` | i18n/icu/parse.go:328-357 | reads an element and its closing tag as specified |
| `IcuEscape.Escape` | i18n/modlocale/ids.go:67-95 | the loop writes exactly the escaped form of its input |
| `IcuEscape.LeadsIntoSpecial` | i18n/modlocale/ids.go:74-83 | tells whether a run of apostrophes is followed by a special character |
| `IcuEscape.QuotedRun` | i18n/modlocale/ids.go:99-114 | quotes the whole run, trailing apostrophes included, with its apostrophes doubled |
| `IcuEscape.EscapedSpells` | i18n/modlocale/ids.go:67-114 | the escaped text is a spelling of the original, inside or outside a plural, whatever follows it |
| `IcuEscape.EscapeParses` | i18n/modlocale/ids.go:67-114 | for every string the escaped text parses to one literal holding it, or to the empty message for the empty string |
| `IcuEscape.QuotedUndoesDoubled` | i18n/icu/parse.go:145-174 | a quoted section with doubled apostrophes reads back to its body |
| `IcuFormat.WellFormedRenders` | i18n/icu/format.go:33-107 | a well-formed message always finds a branch and never prints a bare # for a pound node |
| `IcuFormat.RenderAppends` | i18n/icu/format.go:33-75 | a message formats as the concatenation of its parts |
| `IcuFormat.PlainNodesFormat` | i18n/icu/format.go:33-75 | a literal formats as its text, a bound argument as its formatter says, a missing argument as its name in braces, a pound sign as the number of the plural around it and a tag as its name around its body |
| `IcuFormat.PluralFormats` | i18n/icu/format.go:79-107 | a bound plural formats as the option it takes, with the number, or the printed value of a non-number, for that option's pound signs; the option is the first whose `=N` equals the value, else the first of the value's category, else `other`; a non-number takes `other` |
| `IcuFormat.SelectFormats` | i18n/icu/format.go:55-75 | a select formats as the option whose key is the printed value, else `other`, and keeps the pound of the plural around it |
| `IcuFormat.ChoicesTake` | i18n/icu/format.go:79-130 | choices that have `other`, as all parsed ones do, always take such an option |
| `IcuFormat.OnlyNamedArguments` | i18n/icu/format.go:33-95 | formatting depends only on the arguments the message names |
| `IcuFormat.MissingIsNamed` | i18n/icu/format.go:33-75 | the missing-argument path is taken only for a named argument that is not bound |
| `IcuFormat.CoveredParseRenders` | i18n/icu/format.go:27-107 | whatever parses formats without any fallback on arguments that cover its names |
| `IcuFormat.EscapedTextFormats` | i18n/modlocale/ids.go:67-95 | escaped text has no arguments and no tags and formats back to the text |
| `IcuFormat.WriteNodes` | i18n/icu/format.go:33-75 | appends to the shared builder exactly what the message renders to |
| `IcuFormat.WritePlural` | i18n/icu/format.go:79-95 | picks the exact option, else the category, else `other`, and writes it with its pound value |
| `IcuFormat.WriteOption` | i18n/icu/format.go:97-107 | writes the chosen option, or nothing when there is none |
| `IcuFormat.FormatMessage` | i18n/icu/format.go:27-31 | returns the rendering of the message |
| `IcuFormat.CollectArguments` | i18n/icu/placeholders.go:7-27 | adds to one set exactly the argument names of the message, nested ones included |
| `IcuFormat.NamesOccur` | i18n/icu/placeholders.go:7-48 | the collected argument names and tag names are exactly those that occur, at any depth |
| `LanguagePack.SameSetIsEquality` | i18n/pack/completeness.go:92-102 | the size-and-subset test is set equality |
| `LanguagePack.ValidEntries` | i18n/pack/completeness.go:77-90 | the loop keeps exactly the usable translations of known entries |
| `LanguagePack.KeptExactly` | i18n/pack/completeness.go:18-90 | a translation is kept, unchanged, exactly when its id is known and its text is not empty, parses, names the same arguments as the reference (if that parses), uses no tags but `b` and `link` and passes the raw-text checks |
| `LanguagePack.StatusExactly` | i18n/pack/completeness.go:18-38 | an entry is absent exactly without text, and a usable one is for review exactly when it carries the hash of another source text |
| `LanguagePack.KeptTranslationRenders` | i18n/pack/completeness.go:18-38 | when the reference parses, a kept translation parses, uses only the allowed tags and never takes a fallback on arguments covering the reference |
| `LanguagePack.Catalog.ParseCached` | i18n/catalog/catalog.go:214-230 | returns what a fresh parse would and keeps the cache true |
| `LanguagePack.Catalog.Lookup` | i18n/catalog/catalog.go:193-211 | warm or cold, returns what a lookup without a cache returns |
| `LanguagePack.LookupPrefers` | i18n/catalog/catalog.go:190-211 | the text is that of the first of exact tag, base language and reference whose entry parses, formatted under that language |
| `LanguagePack.LookupFailsExactly` | i18n/catalog/catalog.go:55-106 | in a loaded catalog a lookup fails exactly when the reference has no parsing message and no pack of the chain kept a translation |
| `LanguagePack.UnparsableReferenceFails` | i18n/catalog/catalog.go:190-211 | counterexample to "false only when the reference does not have id": a reference entry that does not parse |
| `PowToken.FirstOne` | telemetryschema/pow.go:101-114 | the mask loop finds the first one bit of a byte |
| `PowToken.ZerosFromMeaning` | telemetryschema/pow.go:101-114 | the count of leading zeros of a digest is the place of its first one bit: every bit before it is zero and, unless the digest is all zeros, the bit at it is one |
| `PowToken.LeadingZeroBits` | telemetryschema/pow.go:101-114 | returns the number of leading zero bits of a digest |
| `PowToken.Solve` | telemetryschema/pow.go:54-73 | returns the least solving nonce, and only when no attempt up to it at which the context is looked at came after the cancellation; reports a cancellation only of a context that was cancelled and when no nonce before it solves; a difficulty out of range is refused. It demands only that the search can end: the context is cancelled at some point or some uint64 nonce solves |
| `PowToken.HeaderRoundTrip` | telemetryschema/pow.go:76-98 | parsing a formatted header returns its challenge and nonce |
| `PowToken.PayloadFields` | telemetry-receiver/pow.go:193-210 | every field of a payload reads back as it was written |
| `PowToken.PayloadBytes` | telemetry-receiver/pow.go:193-210 | where each byte of a payload stands: version 1, the issue time from its highest byte down, the difficulty, the random bytes |
| `PowToken.BigEndianRoundTrip` | telemetry-receiver/pow.go:193-210 | a big-endian number reads back as it was written |
| `PowToken.TokenRoundTrip` | telemetry-receiver/pow.go:193-227 | a minted token parses back to its payload |
| `PowDifficulty.RecordCountsOne` | telemetry-receiver/pow.go:136-156 | recording an issue raises the count in its own window by exactly one, in every consistent ring |
| `PowDifficulty.RingRefinesHistory` | telemetry-receiver/pow.go:136-156 | with a clock that does not go back the 60-slot ring counts exactly the issues of the last 60 seconds |
| `PowDifficulty.LeastBitsIsLeast` | telemetry-receiver/pow.go:126-132 | the rate target is the least b with target^2 * 2^b >= r^2 |
| `PowDifficulty.BitsForRateIsLeast` | telemetry-receiver/pow.go:126-132 | the bits for a rate are enough for it or the maximum, and no fewer are enough |
| `PowDifficulty.PreviewIsNextIssue` | telemetry-receiver/pow.go:179-197 | the gauge tells the difficulty of the next challenge in every consistent state |
| `PowDifficulty.DifficultyBounds` | telemetry-receiver/pow.go:126-175 | every issued difficulty lies within the bounds and is at least the rate target |
| `PowDifficulty.DifficultyFallsSlowly` | telemetry-receiver/pow.go:161-175 | between any two issues of a run difficulty falls by at most one bit per started five minutes, however often the peak is replaced |
| `PowDifficulty.DifficultyComesFrom` | telemetry-receiver/pow.go:136-175 | for sorted times every issued difficulty is the target of some challenge of the run so far, counted over its own last sixty seconds, less one bit for every whole five minutes since, and at least the minimum |
| `PowDifficulty.DifficultyRecovers` | telemetry-receiver/pow.go:161-175 | after maxBits times five minutes without a target above the minimum the difficulty is the minimum |
| `PowReceiver.RefusedUntilPruned` | telemetry-receiver/pow.go:235-292 | whatever the times, a payload accepted once and not again since is refused at its next check exactly when no solved check in between pruned, a minute or more after the last pruning, at a time past the payload's expiry; otherwise it is accepted again unless the set is full |
| `PowReceiver.SingleUse` | telemetry-receiver/pow.go:235-292 | over every run whose times do not fall in lock order a payload is accepted at most once, despite pruning |
| `PowReceiver.OlderTimeReuses` | telemetry-receiver/pow.go:235-292 | a check past the expiry that prunes, followed by a check with an older time, accepts a solved header a second time |
| `PowReceiver.UsedSetIsBounded` | telemetry-receiver/pow.go:258-292 | the used set never exceeds its cap |
| `PowReceiver.ScreenExactly` | telemetry-receiver/pow.go:213-256 | a header passes the stateless checks exactly when it is `a.b:nonce` of at most 256 bytes of challenge with `a` a version-1 payload of 26 bytes, `b` its MAC, a time no later than 900 seconds after its issue, and a digest of the header with as many leading zero bits as it demands |
| `PowReceiver.CheckExactly` | telemetry-receiver/pow.go:235-273 | absent exactly without a header; accepted exactly when the header solves a challenge that is not in the pruned set and the set has room; busy exactly when it is full; only an acceptance adds to the set |
| `PowReceiver.AcceptedIsRemembered` | telemetry-receiver/pow.go:258-273 | an accepted challenge is added under its random bytes until its last second, and nothing else changes |
| `PowReceiver.SolvedChallengeIsAccepted` | telemetry-receiver/pow.go:193-273 | in every state of the used set, a challenge issued with the difficulty the meter gives and solved is, for fifteen minutes, refused exactly when its id is still in the pruned set, and otherwise accepted unless the set is full |
| `PowReceiver.FirstUseIsAccepted` | telemetry-receiver/pow.go:235-273 | on every run from an empty set, a solved challenge whose id was not accepted before is, within its fifteen minutes, accepted, or told to wait when the set is full, and never refused |
| `PowReceiver.PowState.CountLocked` | telemetry-receiver/pow.go:147-156 | the loop over the slots returns the window count |
| `PowReceiver.PowState.RecordLocked` | telemetry-receiver/pow.go:136-144 | counts one issue in the slot of its second |
| `PowReceiver.PowState.DifficultyLocked` | telemetry-receiver/pow.go:161-175 | returns the difficulty, and replaces the peak only when asked to and exceeded |
| `PowReceiver.PowState.CurrentBits` | telemetry-receiver/pow.go:179-183 | returns the preview and changes nothing |
| `PowReceiver.PowState.Issue` | telemetry-receiver/pow.go:193-210 | issues the specified difficulty in a token for the specified payload |
| `PowReceiver.PowState.PruneLocked` | telemetry-receiver/pow.go:278-292 | at most once a minute drops exactly the expired ids |
| `PowReceiver.PowState.CheckHeader` | telemetry-receiver/pow.go:235-273 | returns the specified verdict and the specified used set |
| `DailyLimiter.NewDayStartsFresh` | telemetry-receiver/ratelimit.go:93-97 | a report on another day meets an empty limiter |
| `DailyLimiter.DayKeepsInvariant` | telemetry-receiver/ratelimit.go:87-122 | map and list hold the same keys once each, ordered by last touch, at most max of them |
| `DailyLimiter.EvictedOnlyAfterMaxOthers` | telemetry-receiver/ratelimit.go:101-106 | a source that is no longer tracked was pushed out by at least max other sources touched since |
| `DailyLimiter.BudgetIsExact` | telemetry-receiver/ratelimit.go:87-122 | on a day with at most max sources each gets exactly as many accepted reports as it sent, up to the limit |
| `DailyLimiter.DailyLimits.TouchKey` | telemetry-receiver/ratelimit.go:99-116 | moves a key to the front, evicting the last one at capacity |
| `DailyLimiter.DailyLimits.TakeOne` | telemetry-receiver/ratelimit.go:87-122 | accepts or refuses one report and updates day, counts and list as specified |
| `BucketLimiter.RateBound` | telemetry-receiver/ratelimit.go:155-209 | within a UTC day, between requests with no eviction of the source in between, it is allowed at most burst + rate * time, whenever ten minutes refill a bucket |
| `BucketLimiter.AllowsExactly` | telemetry-receiver/ratelimit.go:155-209 | on a day with at most max sources, whenever ten minutes refill a bucket, a request is allowed exactly when that keeps its source within burst + rate * time since every one of its own requests of the day: never more and never less |
| `BucketLimiter.PlainAnswersExactly` | telemetry-receiver/ratelimit.go:155-187 | the same for the limiter that never purges, on every run |
| `BucketLimiter.TrackedIsRecent` | telemetry-receiver/ratelimit.go:155-209 | on every run at most max sources are tracked, each of which asked on this UTC day and less than eleven minutes ago |
| `BucketLimiter.EvictionNeedsMaxOthers` | telemetry-receiver/ratelimit.go:160-178 | on every run of a new limiter a source is evicted only when at least max other sources have asked since its own last request |
| `BucketLimiter.PurgeIsUnobservable` | telemetry-receiver/ratelimit.go:191-209 | on a day with at most max sources every answer is that of a limiter that never purges, whenever ten minutes refill a bucket |
| `BucketLimiter.PurgeShowsWithoutRefill` | telemetry-receiver/ratelimit.go:191-209 | for every whole burst b of at least one and every rate that does not refill it in ten minutes: when one source sends b requests and b more ten minutes later, the last is allowed, and the limiter that never purges refuses it |
| `BucketLimiter.BoundFailsWithoutRefill` | telemetry-receiver/ratelimit.go:155-209 | and that source, never evicted, is allowed all 2b requests, which is more than burst + rate * time |
| `BucketLimiter.RefillIsExact` | telemetry-receiver/ratelimit.go:155-209 | the purge is hidden on every run exactly when ten minutes refill a bucket, and the rate bound holds on every run exactly then |
| `BucketLimiter.BuiltLimitersRefill` | telemetry-receiver/ratelimit.go:144-152 | the three limiters the receiver builds refill within ten minutes |
| `BucketLimiter.BucketLimits.SweepIdle` | telemetry-receiver/ratelimit.go:191-209 | resets at midnight, else purges at most once a minute |
| `BucketLimiter.BucketLimits.PurgeIdle` | telemetry-receiver/ratelimit.go:204-208 | the loop removes exactly the idle buckets from map and list |
| `BucketLimiter.BucketLimits.Admit` | telemetry-receiver/ratelimit.go:160-178 | makes room for a new source and lists it first |
| `BucketLimiter.BucketLimits.AllowOne` | telemetry-receiver/ratelimit.go:155-187 | refills and draws one token as specified, keeping map and list the same |
| `VersionLabels.LabelIsStable` | telemetry-receiver/ingest.go:98-115 | a version gets the same label every time it is reported |
| `VersionLabels.OwnLabel` | telemetry-receiver/ingest.go:98-115 | an invalid version is labelled invalid; a valid one keeps its own name while fewer than 128 distinct ones came before it |
| `VersionLabels.LabelsAreBounded` | telemetry-receiver/ingest.go:98-115 | all labels in use are two shared ones and at most 128 versions |
| `VersionLabels.Versions.VersionLabel` | telemetry-receiver/ingest.go:98-115 | returns the label and learns the version while there is room |
| `StoreIngest.WriteBasicConserves` | telemetry-receiver/ingest.go:129-162 | a report adds one to its day in the basic table, the versions and both fleet histograms, and to no other day |
| `StoreIngest.RefusedExactly` | telemetry-receiver/ingest_ext.go:353-402 | a report is refused exactly when its signature, its window, its key or its send time fails, and then nothing is stored |
| `StoreIngest.OutcomeExactly` | telemetry-receiver/ingest_ext.go:185-243 | which outcome and which refusal: signature first, then the window of 36 hours back and one ahead, then the key, then the send time; new exactly for an unknown install, duplicate or returning by its last day |
| `StoreIngest.AcceptedIsRemembered` | telemetry-receiver/ingest_ext.go:185-243 | an accepted report updates its own activity record (key, send time, last day, version, the first day kept) and no other |
| `StoreIngest.OneOfEachSingle` | telemetry-receiver/ingest_ext.go:262-266 | a report counts exactly once in each single-valued dimension |
| `StoreIngest.CountsWhatItHas` | telemetry-receiver/ingest_ext.go:247-298 | a report counts exactly once in a dimension row whose value it has (equal for the five single values, in the array for k8s, distro, arch and tunnels, the flag of that name for features) and in no other row |
| `StoreIngest.CountConserves` | telemetry-receiver/ingest_ext.go:233-340 | counting a report keeps every equality between the tables on every day |
| `StoreIngest.IngestConserves` | telemetry-receiver/ingest_ext.go:185-243 | every report, whatever its outcome, keeps those equalities |
| `StoreRuns.PassConserves` | telemetry-receiver/store.go:341-380 | a lifecycle pass with its sweeps keeps them |
| `StoreRuns.Conservation` | telemetry-receiver/store.go:269-380 | on every run, each day has reports = sum of versions = sum of either histogram, extended reports = active installs = sum of install versions = sum of each single-valued dimension, every dimension row and game row at most that, and new installs plus version changes at most that, all at most reports |
| `StoreCells.DimRowsCount` | telemetry-receiver/ingest_ext.go:247-298 | on every run, until its day is swept, a dimension row is the number of installs counted on that day whose counted report had that value in that dimension; after a sweep it is 0 |
| `StoreCells.OnVersionRowsCount` | telemetry-receiver/ingest_ext.go:319-340 | the row of a version is the number of installs counted on that day with a report of that version |
| `StoreCells.ChangeRowsCount` | telemetry-receiver/ingest_ext.go:319-340 | the row of a kind of change is the number of installs known before whose version changed in that way when counted on that day |
| `StoreCells.NewInstallsCount` | telemetry-receiver/ingest_ext.go:247-260 | new installs are those counted on that day that had no record |
| `StoreCells.GameInstallsCount` | telemetry-receiver/ingest_ext.go:299-313 | a game's installs are those counted on that day that reported it |
| `StoreCells.GameServersSum` | telemetry-receiver/ingest_ext.go:299-313 | a game's servers are the sum of what the counted reports gave it, each capped at a million |
| `StoreCells.DuplicatesCount` | telemetry-receiver/ingest_ext.go:185-243 | duplicates are the accepted reports of installs already seen that day |
| `StoreCells.ReportsCount` | telemetry-receiver/ingest.go:129-162 | a day's reports are the stored reports of that day |
| `StoreCells.VersionRowsCount` | telemetry-receiver/ingest.go:129-162 | a version row is the number of stored reports of that version that day |
| `StoreCells.FleetRowsCount` | telemetry-receiver/ingest.go:129-162 | a fleet row is the number of stored reports of that day whose servers, or templates, fall in its bucket |
| `StoreCells.SizesSum` | telemetry-receiver/ingest.go:129-162 | the summed servers and templates of a day are the sums over its stored reports, each its own |
| `StoreCells.TotalCounts` | telemetry-receiver/ingest.go:129-162 | the all-time total counts every stored report and is never swept |
| `StoreCells.SweepOfRow` | telemetry-receiver/store.go:341-380 | a sweep leaves no row of a swept day and every other row as it was |
| `StoreCells.PassKeepsRows` | telemetry-receiver/store.go:341-380 | a pass does that to the five tables of counters, and nothing else |
| `StoreCells.SweepOfBasic` | telemetry-receiver/store.go:341-380 | and to the basic table |
| `StoreCells.SweepOfGame` | telemetry-receiver/store.go:341-380 | and to the game table |
| `StoreCells.SweepOfExt` | telemetry-receiver/store.go:341-380 | and to the extended table, where only the lapsed count may change |
| `ReportIngest.DecodedIsStorable` | telemetryschema/decode.go:52-95 | every extended part that decodes has duplicate-free arrays and a non-negative custom count, which the table sums rely on |
| `ReportIngest.DecodedRunsConserve` | telemetry-receiver/ingest_ext.go:84-105 | so on every run whose signed reports were decoded from any bodies, every day's tables agree |
| `StoreRuns.ExtReportsAreDistinctInstalls` | telemetry-receiver/ingest_ext.go:185-243 | a day's extended reports are the number of distinct installs counted on it, until retention sweeps the day to zero |
| `StoreRuns.RecordStep` | telemetry-receiver/ingest_ext.go:185-243 | an activity record changes by its own accepted reports and is deleted exactly by a pass that expires it |
| `StoreRuns.SendTimesIncrease` | telemetry-receiver/ingest_ext.go:353-402 | the send times of one install's accepted reports strictly increase over the whole run, through expiry and re-creation, when records never expire or are kept at least two days |
| `StoreRuns.SealedIsNotReplayed` | telemetry-receiver/ingest_ext.go:353-402 | for every expiry, after an accepted report sent more than 36 hours before the first midnight at which a pass deletes its record, every accepted report of its install was sent later |
| `StoreRuns.ReplayableExactly` | telemetry-receiver/ingest_ext.go:185-243 | after any run that ends in an accepted report, some continuation accepts a report of the same install sent no later exactly when records expire and the report was sent at or after 36 hours before the first midnight at which a pass deletes its record; with an expiry of one day that is noon of its day |
| `StoreLifecycle.SecondPassChangesNothing` | telemetry-receiver/store.go:341-380 | a second pass at the same time changes nothing, whatever the store |
| `StoreLifecycle.MarkerFollowsPasses` | telemetry-receiver/store.go:349-358 | the marker is always the day before the last pass |
| `StoreLifecycle.FinalisedConsecutively` | telemetry-receiver/store.go:318-333 | the finalised days are consecutive, with no gap or repeat, exactly when no two consecutive passes are over 400 days apart |
| `StoreLifecycle.FinalisedCovers` | telemetry-receiver/store.go:318-333 | then a day is finalised exactly when it lies between the first pass and the last |
| `StoreLifecycle.ExpiredWasLapsed` | telemetry-receiver/store.go:359-369 | with an expiry of 30 days or more, passes at most 400 days apart and a clock that does not go back, a record that a pass deletes was counted as lapsed for last_seen + 30, in that pass or an earlier one, exactly when the first pass of the run came no later than last_seen + 31 |
| `StoreLifecycle.CountedExactlyWhenFinalised` | telemetry-receiver/store.go:341-380 | whatever the expiry and the gaps between passes, a deleted record was counted as lapsed exactly when last_seen + 30 had been finalised by then |
| `StoreLifecycle.LateFirstPassLosesLapsed` | telemetry-receiver/store.go:349-369 | for every expiry of 30 days or more, a report followed by a first pass later than last_seen + 31 and late enough to expire its record deletes a record that was never counted |
| `StoreLifecycle.LapsedIsStored` | telemetry-receiver/store.go:388-409 | on every run a pass stores, for each day it finalises, the number of installs last seen 30 days before it, 0 included, and the number stands until a pass sweeps the day |
| `StoreLifecycle.ShorterExpiryLosesLapsed` | telemetry-receiver/store.go:364-409 | with any expiry from 1 to 29 days there are runs, passes in time, whose record is deleted without ever being counted as lapsed |
| `StoreCode.Store.RecordBasic` | telemetry-receiver/ingest.go:121-162 | writes the four tables row by row and commits all or nothing |
| `StoreCode.Store.RecordReport` | telemetry-receiver/ingest_ext.go:185-243 | new, returning, duplicate or refused as specified; a refusal or a storage failure leaves the tables as they were |
| `StoreCode.Store.WriteAggregates` | telemetry-receiver/ingest_ext.go:247-313 | the loops over dimensions and games write exactly the specified rows |
| `StoreCode.Store.WriteTrend` | telemetry-receiver/ingest_ext.go:319-340 | counts the install on its version and at most one change |
| `StoreCode.Store.ListPendingDays` | telemetry-receiver/store.go:318-333 | the loop lists the completed days after the marker, at most the last 400 |
| `StoreCode.Store.RecordLapsedDays` | telemetry-receiver/store.go:359-363 | the loop stores the lapsed count of every finalised day |
| `StoreCode.Store.LifecycleOnce` | telemetry-receiver/store.go:341-380 | one pass as specified, or no change when it fails |
| `VarInt.VarIntRoundTrip` | gameproto/minecraft.go:169-219 | for every 32-bit value and suffix, reading the written VarInt returns the value and leaves the suffix, in one to five bytes |
| `VarInt.SevenBitRoundTrip` | gameproto/terraria.go:202-234 | the 7-bit form carries exactly the non-negative values, and each reads back before any suffix |
| `VarInt.WrittenIsShortest` | gameproto/minecraft.go:200-219 | no sequence of groups that reads to a value is shorter than the one written |
| `VarInt.ReadIsPrefix` | gameproto/minecraft.go:169-197 | reading depends only on the groups it consumes |
| `VarInt.ReadVarIntIsInt32` | gameproto/minecraft.go:169-197 | whatever is read is a 32-bit value from at most five bytes |
| `VarInt.ReadGroupsExactly` | gameproto/minecraft.go:169-197 | groups are read exactly when some byte within the bound has its top bit clear, to the sum of the groups at their places |
| `VarInt.ReadVarIntExactly` | gameproto/minecraft.go:169-197 | a VarInt is read exactly from at most five bytes that spell its two's complement, the shortest form or not |
| `VarInt.OutOfRangeExactly` | gameproto/minecraft.go:169-197 | out of range exactly when the groups sum beyond 32 bits |
| `VarInt.Read7BitExactly` | gameproto/terraria.go:202-215 | Terraria's integer is read exactly from at most five groups, congruent to their sum modulo 2^32 |
| `VarInt.SevenBitDropsHighBits` | gameproto/terraria.go:202-215 | an over-long pattern that Minecraft's reader refuses reads as zero in Terraria's |
| `VarInt.AppendVarInt` | gameproto/minecraft.go:200-219 | the shifting loop appends exactly the groups |
| `VarInt.ScanGroups` | gameproto/minecraft.go:169-197 | the accumulating loop reads the specified groups and captures every byte it reads |
| `VarInt.ScanVarInt` | gameproto/minecraft.go:169-197 | returns the VarInt or the specified fault |
| `VarInt.Scan7Bit` | gameproto/terraria.go:202-215 | returns the 7-bit integer, high bits dropped, or the specified fault |
| `GameFrames.StringRoundTrip` | gameproto/minecraft.go:222-253 | a string of at most 32767 bytes reads back before anything; longer ones cannot be written |
| `GameFrames.FrameCarriesItsLength` | gameproto/minecraft.go:256-267 | a built frame announces its true length exactly when that fits 31 bits |
| `GameFrames.HandshakeRoundTrip` | gameproto/minecraft.go:41-119 | a framed handshake is classified with its own fields and consumed whole, exactly when it is at most 512 bytes |
| `GameFrames.HandshakeExactly` | gameproto/minecraft.go:41-119 | a stream is classified exactly when it starts with a length from 1 to 512 and a frame of that length holding packet 0, version, address, port and next state in any form of their integers; state 1 is a status request, 2 a join, any other unknown; consumed are the length and the frame |
| `GameFrames.HandshakeIsLossless` | gameproto/minecraft.go:41-119 | on every accepted stream consumed bytes and rest are the stream |
| `GameFrames.TextRoundTrip` | gameproto/terraria.go:162-199 | a written text reads back exactly when it is at most 32768 bytes; the writer does not apply that cap |
| `GameFrames.ConnectIsLossless` | gameproto/terraria.go:50-107 | on every accepted stream consumed bytes and rest are the stream, and the header announced them |
| `GameFrames.ConnectRoundTrip` | gameproto/terraria.go:50-129 | a connect request is classified as a join with its version |
| `GameFrames.ConnectExactly` | gameproto/terraria.go:50-129 | a stream is classified exactly when it holds the whole message its first two bytes announce; message 1 is a join with the text at the front of its payload, every other is unknown |
| `GameFrames.DisconnectCarriesItsLength` | gameproto/terraria.go:133-159 | a disconnect is built exactly for reasons of at most 65528 bytes and announces its true length |
| `GameFrames.ClassifyMinecraft` | gameproto/minecraft.go:41-119 | returns the specified classification or exactly the specified fault, and on success leaves the reader right after what it consumed |
| `GameFrames.ClassifyTerraria` | gameproto/terraria.go:50-107 | returns the specified classification or exactly the specified fault, and on success leaves the reader right after what it consumed |
| `UdpWake.MemoryIsBounded` | sentinel/main.go:932-986 | on every run at most maxSources sources are tracked, each with fewer than threshold timestamps |
| `UdpWake.WakeMeansThreshold` | sentinel/main.go:932-970 | a wake means exactly threshold counted packets: this one and the source's previous ones, all within the window |
| `UdpWake.WakesAreApart` | sentinel/main.go:946-970 | two wakes of a source not evicted in between are at least a window apart, sweeps or not |
| `UdpWake.EvictionNeedsMaxOthers` | sentinel/main.go:936-986 | a source is evicted only when at least maxSources other sources sent a packet at or after the time of its own last one |
| `UdpWake.WakesExactlyWhenDue` | sentinel/main.go:932-970 | while at most maxSources sources were seen, a packet wakes exactly when its source has not woken within the window and, with this one, threshold of the packets it sent since its last wake, those ignored after the wake left out, lie inside the window |
| `UdpWake.SweepIsUnobservable` | sentinel/main.go:1009-1017 | while at most maxSources sources were seen every answer is that of a map never swept |
| `UdpWake.Heuristic.ShouldWake` | sentinel/main.go:932-970 | records a packet as specified, evicting only a source seen longest ago |
| `UdpWake.Heuristic.EvictOldest` | sentinel/main.go:974-986 | removes one source seen longest ago |
| `UdpWake.Heuristic.SweepIdle` | sentinel/main.go:1009-1017 | removes exactly the sources silent for more than two windows |
| `UdpWake.PatchesAreApart` | sentinel/main.go:379-411 | between two wake patches the first one finished, at least the minimum interval before the second started |
| `UdpWake.PatchesWhenFinished` | sentinel/main.go:379-411 | a request that finds every earlier patch finished an interval ago starts one |
| `UdpWake.Waker.Begin` | sentinel/main.go:379-387 | lets a request through exactly when none is in flight and the interval has passed |
| `UdpWake.Waker.End` | sentinel/main.go:389-394 | records the end of a patch |
| `RelaySupervisor.StreakIsMaximal` | tunnel/relay_health.go:59-71 | the recorded streak is the longest run of ready observations with gaps under ten seconds at the end of the log |
| `RelaySupervisor.ObserveRecords` | tunnel/relay_health.go:59-71 | the health record is a function of the observations since it was cleared |
| `RelaySupervisor.ResetMeansAMinuteReady` | tunnel/relay_health.go:59-71 | the backoff resets exactly when that streak spans a minute |
| `RelaySupervisor.StepKeeps` | tunnel/relay_health.go:112-172 | every step of either thread keeps the invariant |
| `RelaySupervisor.ReadyIsCurrent` | tunnel/relay_health.go:112-172 | in every interleaving a ready snapshot rests on a ready observation of the current attempt under ten seconds old |
| `RelaySupervisor.SnapshotShowsLast` | tunnel/relay_health.go:73-80 | an observation shows for ten seconds and not longer |
| `RelaySupervisor.ClearedShowsNothing` | tunnel/relay_health.go:144-172 | after an attempt's clear nothing of it is visible |
| `RelaySupervisor.ResetIsEarned` | tunnel/relay_health.go:59-71 | the retry counter falls only on a minute of unbroken ready observations of the current attempt |
| `RelaySupervisor.DelaysAreBounded` | tunnel/main.go:568-598 | every restart delay of every run is between 1 and 300 seconds |
| `RelaySupervisor.DelayDoubles` | tunnel/main.go:568-598 | the n-th delay in a row is 2^(n-1) seconds capped at 300, for every n |
| `RelaySupervisor.BackoffCounter.Next` | tunnel/main.go:568-598 | counts one retry up to the cap and returns its delay |
| `RelaySupervisor.RelayHealth.ObserveLocked` | tunnel/relay_health.go:59-71 | records an observation and resets the backoff exactly when specified |
| `RelaySupervisor.RelayHealth.EndAttempt` | tunnel/relay_health.go:152-166 | after an attempt the snapshot is unknown at every time and the restart delay is the next backoff delay, between 1 and 300 seconds |
| `RelaySupervisor.RelayHealth.Report` | tunnel/relay_health.go:73-80 | reports unknown when never checked or stale, else the last observation |
| `SyslogForwarder.FrontOfFrame` | audit-syslog-bridge/main.go:262-267 | a frame announces its own length in front of any rest |
| `SyslogForwarder.DeframeEncoded` | audit-syslog-bridge/main.go:262-267 | deframing recovers the framed messages in order |
| `SyslogForwarder.CutFrameYieldsNothing` | audit-syslog-bridge/main.go:262-267 | a frame cut anywhere yields no message |
| `SyslogForwarder.SendKeeps` | audit-syslog-bridge/main.go:314-342 | whatever the network does, a send keeps every connection at whole frames plus at most one cut frame |
| `SyslogForwarder.StreamsDeframe` | audit-syslog-bridge/main.go:314-342 | over every run each connection's stream is whole frames and then at most a front part of the frame of a message of the run; deframing it gives the messages whose write succeeded and leaves that part over, exactly when the part is not the whole frame of a message of the run; when it is a whole frame its message comes out too |
| `SyslogForwarder.SuccessMeansWhole` | audit-syslog-bridge/main.go:314-342 | the messages recorded as written, connection by connection, are exactly those whose send succeeded, in order; a write that reports failure is not recorded, even if it sent its whole frame |
| `SyslogForwarder.SendsExactly` | audit-syslog-bridge/main.go:314-342 | over every run a message is sent exactly when the connection of the last success is still alive or a dial works, and then the write works or a second one does over a fresh connection; exactly the connections that takes are opened |
| `SyslogForwarder.ReceivedExactly` | audit-syslog-bridge/main.go:314-342 | over every run a collector that deframes all connections receives every message whose send succeeded; it receives exactly those, in order and once each, exactly when no write that reported failure left the whole frame of a message of the run |
| `SyslogForwarder.ArrivesUnreported` | audit-syslog-bridge/main.go:314-342 | for every message, a first write that reports failure after its last byte delivers it though the send fails, and twice when the retry works |
| `SyslogForwarder.Sender.SendMessage` | audit-syslog-bridge/main.go:314-342 | one send with its reconnect and retry, as specified |
| `SyslogForwarder.Sender.WriteFrame` | audit-syslog-bridge/main.go:394-398 | the stream of the connection in use grows by a front part of the message's frame, by all of it when success is reported, and no other connection changes |
| `SortedSets.SortedSetIsSorted` | telemetryschema/report.go:149-156 | the normalised list is strictly increasing |
| `SortedSets.SortedIsUnique` | telemetryschema/report.go:149-156 | only one strictly increasing list has given members |
| `ReportJson.ReadExactly` | telemetryschema/decode.go:106-152 | an object is read exactly when no key repeats and no value is null |
| `ReportSchema.DecodedSetOk` | telemetryschema/decode.go:208-222 | a decoded array is sorted, duplicate-free and inside its enumeration or "other" |
| `ReportSchema.DecodedEnvOk` | telemetryschema/decode.go:314-362 | a decoded environment has non-empty normalised sets, and one-value sets with deployment "other" in schema 1 |
| `ReportSchema.GameTotalIsKept` | telemetryschema/decode.go:408-422 | moving unknown modules to custom keeps the total game count |
| `ReportSchema.DecodeKeepsGameTotal` | telemetryschema/decode.go:393-424 | a decoded games object counts what it announced |
| `ReportSchema.DecodedReportOk` | telemetryschema/decode.go:52-95 | every decoded report is normalised and in range |
| `ReportAcceptance.DecodesExactly` | telemetryschema/decode.go:52-465 | a report decodes exactly when it is an object without repeats and nulls whose keys are version, servers, templates and optionally ext, with their types and ranges, and the same holds, with their own literal keys, for ext, env in either schema, games and features; it is unsupported exactly for an integer schema above 2 |
| `ReportAcceptance.DecodedSays` | telemetryschema/decode.go:52-465 | what a decoded report holds, member by member; a malformed install ID gives the basic report, and only that, with its drop reported |
| `ReportAcceptance.ReadIsPlain` | telemetryschema/decode.go:106-152 | an object is read exactly when every key is new and no value is null, to those members |
| `ReportAcceptance.EnvExactly` | telemetryschema/decode.go:314-362 | the environments that decode, in both schemas |
| `ReportAcceptance.FeaturesExactly` | telemetryschema/decode.go:427-465 | the features that decode: exactly the nine literal keys, five of them booleans, one a list and three strings |
| `ReportAcceptance.GamesExactly` | telemetryschema/decode.go:393-424 | the games that decode, overflow of the custom count included |
| `ReportAcceptance.ExtExactly` | telemetryschema/decode.go:252-312 | the extended parts that decode, with the schema fault |
| `ReportSchema.ReportRoundTrip` | telemetryschema/report.go:111-169 | decoding an encoded report returns it with its send time cut to the second, exactly when the UTC year has four digits, in both schemas |
| `ReportSchema.SecondRoundTripIsExact` | telemetryschema/report.go:111-169 | a decoded report, cut to the second, is unchanged by encoding and decoding exactly when the UTC year of its send time has four digits |
| `ReportWire.EncodeWrites` | telemetryschema/report.go:111-169 | every report, normalised or not, is refused exactly for a negative count and otherwise written member by member under its literal keys and nothing else: arrays sorted and without repeats, and in schema 1 the one value of a set, empty for none and "other" for several |
| `ReportWire.EncodeIsCanonical` | telemetryschema/report.go:105-146 | reports that differ only in the order and repeats of their sets are written the same |
| `ReportDecoder.DecodeIgnoresOrder` | telemetryschema/decode.go:52-95 | member order, at every depth, never changes the result |
| `ReportDecoder.DecodeIgnoresReordering` | telemetryschema/decode.go:106-152 | permuting the members of a report changes nothing |
| `ReportDecoder.ReadStrictly` | telemetryschema/decode.go:106-152 | the loop reads the members or refuses a repeat or a null |
| `ReportDecoder.FoldSet` | telemetryschema/decode.go:208-222 | the loop folds, then sorts and compacts, or refuses an element that is not a string |
| `ReportDecoder.SortGames` | telemetryschema/decode.go:408-422 | in whatever order the map yields them, sorts the counts as specified and refuses exactly on overflow of the final total |

## Left out

- Crypto and encodings (Ed25519, HKDF, HMAC, SHA-256, base64url) and `x/text` number and plural formatting: parameters.
- Floating-point rounding: difficulty uses the equivalent integer inequality and the token bucket uses reals; overflow of `time.Duration` is not modelled.
- JSON text: reports are modelled as JSON trees, so tokenising, string escapes, trailing content after the report and the byte form of the output are not covered.
- The contents of the enumerations and the game catalog: theorems hold for every vocabulary.
- SQL text, WAL, the schema and reading the tables back: a table is a map and a transaction is a value that is committed or dropped; day strings are compared as day numbers, which agrees for four-digit years. An unreadable stored send time cannot arise in the model.
- Two clock readings inside one telemetry request: one time is used, so a request that waits days between its window check and its transaction is not covered.
- HTTP handlers, status codes, metrics, logging, flags, environment loading, dashboards and the web client.
- `CollectTags`, `SortedKeys`, `Statuses`, `Completeness`, `Listed`, `Derive`, `Escape`, `Unescape`, `ValidID`, `sourceKey`, `sourceIP`: short loops or predicates beside the cores.
- IcuFormat.CollectArguments: tags are given by a definition of the same shape, without a second collecting method.
- Minecraft status and login-disconnect payloads and their JSON escaping: only the framing around them is proved.
- The formatted `host:port` text of a handshake: host and port are kept as two fields.
- UDP datagrams of the syslog forwarder, TLS dialling, `buildSyslog` and the liveness probe's mechanics: the probe is a choice of the environment.
- The child process, the health checks of frp and playit, and the wait between restarts: choices of the environment.
- Socket proxying, Kubernetes patching and `wakeToken` in `sentinel`.
- `netguard`, `gameaction`, `svcutil`, `tunnel/tailscale*.go`, `tunnel/playit_reporter.go`, `hack/`: would only add easy members or I/O.
