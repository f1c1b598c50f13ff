# grakchawwaa-bot core, modelled in Dafny

This project models the core of a Discord bot for a Star Wars: Galaxy of
Heroes guild. The bot does three things:

- **Ally codes.** It keeps, for each Discord user, a primary 9-digit ally
  code and a list of alternate codes. Users register them with the
  `/register-player` command. A maintenance script registers a whole list
  of players from a text file.
- **Raid tickets.** It watches every registered guild's daily reset. Just
  before the reset it takes a snapshot of each member's raid tickets and
  reports the members below 600. Some minutes after the reset it stores the
  next reset time and decides whether to send the weekly and monthly
  summaries.
- **Messages and game data.** It cuts long messages into chunks of at most
  2000 characters at line boundaries, and it reads game data through a
  client that retries on transient HTTP errors and caches results.

The project has one module per source file, plus two shared modules:

| module | source file |
|---|---|
| `Js` | JavaScript's `parseInt`, `trim`, `toLowerCase`, `includes`, `split` and the `\D` digit filter, as the code uses them |
| `Sorting` | `Array.prototype.sort` with a numeric comparator, as a stable insertion sort by key |
| `AllyCode` | `src/utils/ally-code.ts` |
| `DiscordUtils` | `src/utils/discord-utils.ts` |
| `TicketMonitor` | `src/services/ticket-monitor.ts` |
| `TicketViolationClient` | `src/db/ticket-violation-client.ts` |
| `ViolationSummary` | `src/services/violation-summary.ts` |
| `MhanndalorianClient` | `src/services/mhanndalorian/mhanndalorian-client.ts` |
| `CachedMhanndalorian` | `src/services/mhanndalorian/cached-mhanndalorian-client.ts` |
| `PlayerClient` | `src/db/player-client.ts` |
| `RegisterPlayer` | `src/commands/player/register-player.ts` |
| `BulkRegistration` | `infra/registerPlayersFromFile.ts` |

The model follows the form of the code:

- Pure code becomes functions with lemmas.
- Loops become methods with invariants, proved equal to a specification
  function: `SendLongMessage`, `FindTicketViolators`,
  `CollectViolationCounts`, `Paginate`, `ResolveDiscordIds`,
  `LoadPlayers`, `RegisterPlayers`, `CheckGuildResetTimes` and
  `RetryWithBackoff`.
- State that the code updates in place becomes classes:
  - `TicketMonitorService` holds the set of processed reset keys;
  - `PlayerStore` holds the `players` table as a map from Discord id to row;
  - `InstanceHolder` holds the single cached client.

Everything outside the process is a parameter or an input: the database,
the game-data API, Discord, the clock and the calendar. A database write
becomes the new value of the store's table. A Discord send becomes a
returned value.

## Model

| member | source | states |
|---|---|---|
| AllyCode.Normalize | src/utils/ally-code.ts:1-14 | null/undefined gives nothing; otherwise the result exists iff the text has exactly nine digits, and it is then those nine digits in order |
| AllyCode.NormalizeIgnoresSeparator | src/utils/ally-code.ts:8 | a non-digit character anywhere in the text (a dash, a space) does not change the result |
| AllyCode.NormalizeIdempotent | src/utils/ally-code.ts:8-13 | normalising an already normalised code gives it back |
| AllyCode.NormalizeFixedPoints | src/utils/ally-code.ts:8-13 | the strings normalisation leaves unchanged are exactly the 9-digit strings |
| AllyCode.SanitizeList | src/utils/ally-code.ts:16-21 | an absent list gives []; every kept entry is a valid code; never longer than the input |
| AllyCode.SanitizeAppend | src/utils/ally-code.ts:19-21 | map-then-filter distributes over concatenation, so input order is kept |
| AllyCode.SanitizeMembers | src/utils/ally-code.ts:19-21 | a code is in the sanitised list iff some entry normalises to it |
| Js.ParseIntAuto | src/services/ticket-monitor.ts:64 | `parseInt` without a radix: with no `0x`/`0X` after the white space and sign it reads like base 10; with one it reads the hex digits after it (NaN when there are none), negated after `-` |
| Js.ParseAutoDecimalString | src/services/mhanndalorian/mhanndalorian-client.ts:242 | the decimal text of a natural number reads back as that number |
| Js.HexMarkerExample | src/services/mhanndalorian/mhanndalorian-client.ts:242 | "0x1f" reads as 31 without a radix but as 0 in base 10 |
| Sorting.SortBy | src/services/ticket-monitor.ts:327-330 | the sorted copy is ascending by the key and is a permutation of the input |
| Sorting.InsertSorted | src/services/violation-summary.ts:172-174 | inserting into a sorted list keeps it sorted (the step of the stable sort) |
| Sorting.SumBySort | src/services/ticket-monitor.ts:342-345 | a sum over the elements does not depend on the sort |
| Sorting.SumByLowerBound | src/services/ticket-monitor.ts:342-345 | terms each at least `lo` give a sum of at least `lo` times the count |
| Sorting.SumByIsSumOf | src/services/violation-summary.ts:187-190 | a sum over a list equals the sum over its bag of elements, so it does not depend on their order |
| Sorting.BagHas | src/services/violation-summary.ts:172 | a value is among a map's values iff some key maps to it |
| DiscordUtils.ExtractActiveFormatting | src/utils/discord-utils.ts:65-89 | the carried formatting has at most 7 characters (each of the four markers at most once) |
| DiscordUtils.ActiveFormattingIsOpenMarkers | src/utils/discord-utils.ts:65-89 | each of ```` ``` ````, `` ` ``, `**`, `*` is included, in that order, iff its occurrence count is odd |
| DiscordUtils.OpenIncludes | src/utils/discord-utils.ts:69-85 | an odd occurrence count implies the `includes` test holds, so the first half of each test is implied by the second |
| DiscordUtils.SendLongMessage | src/utils/discord-utils.ts:11-59 | the messages sent are `Chunks(content)`; content of at most 2000 characters is sent as one message |
| DiscordUtils.FoldChunksGrow | src/utils/discord-utils.ts:32-48 | chunks are only ever appended by the loop |
| DiscordUtils.FoldWithinLimit | src/utils/discord-utils.ts:32-48 | without format carrying, lines that each fit produce chunks that each fit |
| DiscordUtils.ChunksWithinLimit | src/utils/discord-utils.ts:21-53 | with `preserveFormat` false, every message is at most 2000 characters when every line is |
| DiscordUtils.FoldCarriesFormat | src/utils/discord-utils.ts:40-46 | every chunk after the first starts with the formatting left open by the chunk before it |
| DiscordUtils.ChunksCarryFormat | src/utils/discord-utils.ts:40-46 | with `preserveFormat` on, each message after the first re-opens the formatting left open by the message before it |
| DiscordUtils.FoldRejoins | src/utils/discord-utils.ts:32-48 | over kept lines (the first one non-empty and fitting, no step starting an empty chunk), the loop state read back, without the carried formatting, is the lines joined with line feeds, with or without format carrying |
| DiscordUtils.RejoinStep | src/utils/discord-utils.ts:34-47 | one kept step adds a line feed and the line to the text read back, both when the line joins the current chunk and when it starts a new one after the carried formatting |
| DiscordUtils.ChunksRejoinBodies | src/utils/discord-utils.ts:21-53 | lines are never split, lost or reordered: each message after the first is the formatting the one before leaves open followed by its own text, and those texts joined with line feeds are the content; holds for content that fits and for longer content whose lines are kept |
| DiscordUtils.ChunksRejoin | src/utils/discord-utils.ts:30-53 | the case without format carrying and without blank lines: the messages themselves joined with line feeds are the content |
| DiscordUtils.FirstLongLineGivesEmptyChunk | src/utils/discord-utils.ts:34-45 | a first line over the limit is preceded by an empty message |
| DiscordUtils.FormatPrefixOverflows | src/utils/discord-utils.ts:40-47 | a 2001-character content whose two lines both fit yields a second message of 2001 characters |
| DiscordUtils.FittedFoldWithinLimit | src/utils/discord-utils.ts:32-48 | with the carried format dropped when it does not fit, every chunk fits |
| DiscordUtils.FittedChunksWithinLimit | src/utils/discord-utils.ts:40-47 | corrected chunking: every message fits whenever every line does, with or without format carrying |
| TicketMonitor.FindTicketContribution | src/services/ticket-monitor.ts:155-157 | a found entry is one of the member's entries and has type 2 |
| TicketMonitor.FindTicketContributionFirst | src/services/ticket-monitor.ts:155-157 | nothing is found iff no entry has type 2; otherwise the first such entry is found |
| TicketMonitor.TicketCountFirst | src/services/ticket-monitor.ts:155-160 | 0 without contribution data or without a type-2 entry; otherwise the current value of the first type-2 entry (0 when it has none) |
| TicketMonitor.MissingContributionIsViolation | src/services/ticket-monitor.ts:155-160 | a member with no contribution data or no type-2 entry counts 0 tickets and is a violator |
| TicketMonitor.FindTicketViolators | src/services/ticket-monitor.ts:151-170 | the loop builds `Violators(members)`; every violator has fewer than 600 tickets; no more violators than members |
| TicketMonitor.ViolatorsExactly | src/services/ticket-monitor.ts:154-167 | a violator record is reported iff it comes from a member whose ticket count is below 600 |
| TicketMonitor.ViolatorsAppend | src/services/ticket-monitor.ts:154-167 | violators keep member order: the violators of a concatenation are the concatenated violators |
| TicketMonitor.RecordOfExactly | src/services/ticket-monitor.ts:172-201 | the stored record holds exactly the violators' ids, each with the tickets of the last violator carrying that id |
| TicketMonitor.RecordBelowThreshold | src/services/ticket-monitor.ts:172-201 | every ticket count written to the store is below 600 |
| TicketMonitor.ViolationNotification | src/services/ticket-monitor.ts:327-345 | the listed violators are sorted by tickets ascending and are a permutation of the violators; the total is the sum of `600 - tickets` |
| TicketMonitor.NotificationMissingAtLeastCount | src/services/ticket-monitor.ts:342-345 | the total missing is at least the number of violators |
| TicketMonitor.HandleViolations | src/services/ticket-monitor.ts:172-201 | nothing is written or sent iff there are no violators; otherwise the record and the notification above |
| TicketMonitor.CollectTicketData | src/services/ticket-monitor.ts:120-149 | no report when the fetch fails or has no members; otherwise the record of the members' violators and the notification built from the guild name and those violators |
| TicketMonitor.PostRefresh | src/services/ticket-monitor.ts:203-302 | the new refresh time is stored iff the fetch returns members and a non-empty refresh time, and it is that time; weekly iff stored and (Sunday or forced); monthly iff stored and (last day of month or forced) |
| TicketMonitor.Key | src/services/ticket-monitor.ts:65 | for a colon-free guild id, the key is the id, a `:`, and the reset time: the part before the first `:` is the id and the rest is the time |
| TicketMonitor.RefreshMillis | src/services/ticket-monitor.ts:64 | NaN iff `parseInt` without a radix gives NaN; otherwise that value times 1000, a whole number of seconds |
| TicketMonitor.RefreshMillisDecimal | src/services/ticket-monitor.ts:64 | a reset time written as the decimal number n gives n * 1000 milliseconds |
| TicketMonitor.WindowRanges | src/services/ticket-monitor.ts:88-104 | for a decimal reset time n seconds, the snapshot window is the 2 minutes before n * 1000 ms and the finalisation window everything from 5 minutes after it |
| TicketMonitor.UnparsedInNoWindow | src/services/ticket-monitor.ts:64-104 | a reset time that does not parse puts the guild in neither window |
| TicketMonitor.Tick | src/services/ticket-monitor.ts:56-113 | at most one action per guild in production and two in development; every action is for a listed guild; development leaves the processed set alone; production never forces summaries |
| TicketMonitor.GuildStep | src/services/ticket-monitor.ts:62-113 | one guild yields at most two actions, and at most one in production |
| TicketMonitor.GuildStepProduction | src/services/ticket-monitor.ts:86-113 | in production a guild is snapshotted iff it is in the 2-minute window and its key is unprocessed (the key is then added), and finalised iff 5 minutes have passed (the key is then removed) |
| TicketMonitor.TicketMonitorService.constructor | src/services/ticket-monitor.ts:17-28 | no processed keys, no interval, the development flag as given |
| TicketMonitor.TicketMonitorService.Start | src/services/ticket-monitor.ts:30-45 | development runs one tick at once; production only starts the interval and changes nothing else |
| TicketMonitor.TicketMonitorService.Stop | src/services/ticket-monitor.ts:47-54 | the interval is cleared and every processed key forgotten |
| TicketMonitor.TicketMonitorService.ProcessGuild | src/services/ticket-monitor.ts:86-112 | the production body of the guild loop does exactly what `GuildStep` prescribes: its actions and the processed set it leaves |
| TicketMonitor.GuildStepShape | src/services/ticket-monitor.ts:86-112 | the step function is the snapshot check followed by the finalise check acting on what the first left, so the code's order gives the same result |
| TicketMonitor.TicketMonitorService.CheckGuildResetTimes | src/services/ticket-monitor.ts:56-118 | the actions and the new processed set are those of the step function `Tick` over the guilds in order |
| TicketMonitor.BeforeColon | src/services/ticket-monitor.ts:65 | the text before the first `:` is a colon-free prefix |
| TicketMonitor.KeySplits | src/services/ticket-monitor.ts:65 | a key splits back at its first `:` into the guild id |
| TicketMonitor.KeyInjective | src/services/ticket-monitor.ts:65 | for colon-free guild ids, equal keys mean the same guild and the same reset time |
| TicketMonitor.SameKeySameWindows | src/services/ticket-monitor.ts:64-104 | two rows with the same key are in the same windows |
| TicketMonitor.WindowKeysDisjoint | src/services/ticket-monitor.ts:88-104 | no key is due for both a snapshot and a finalisation in one tick |
| TicketMonitor.TickProcessed | src/services/ticket-monitor.ts:86-113 | in production the processed set after a tick is the old set plus the snapshot keys minus the finalised keys |
| TicketMonitor.NoSnapshotOfProcessedKey | src/services/ticket-monitor.ts:89-95 | within a tick a key already processed is never snapshotted |
| TicketMonitor.SnapshotOnce | src/services/ticket-monitor.ts:89-112 | once a reset has been snapshotted, the next production tick, at any time and over any guild list, does not snapshot it again |
| TicketMonitor.SnapshotSource | src/services/ticket-monitor.ts:62-100 | every snapshot comes from a listed guild that is in the snapshot window |
| TicketMonitor.WindowsDisjoint | src/services/ticket-monitor.ts:88-104 | a guild row is never in both the snapshot and the finalisation window |
| TicketViolationClient.ParseCount | src/db/ticket-violation-client.ts:76-89 | a number is kept; a string is read with `parseInt(…, 10)` |
| TicketViolationClient.ProcessRows | src/db/ticket-violation-client.ts:76-89 | one output row per input row, in order, each normalised |
| TicketViolationClient.ProcessedRowKeeps | src/db/ticket-violation-client.ts:76-89 | normalisation keeps the guild, the date, whether counts are present, their keys, and every numeric count |
| TicketViolationClient.RecordViolations | src/db/ticket-violation-client.ts:91-112 | a write happens only with a non-empty guild id and at least one count, and then succeeds iff the insert does |
| TicketViolationClient.GetCustomPeriodViolations | src/db/ticket-violation-client.ts:146-170 | no rows unless the guild id is non-empty and 1 <= days <= 90; otherwise the queried rows normalised |
| TicketViolationClient.GetWeeklyViolations | src/db/ticket-violation-client.ts:134-138 | the 7-day period: rows for any non-empty guild id, none otherwise |
| TicketViolationClient.GetMonthlyViolations | src/db/ticket-violation-client.ts:140-144 | the 30-day period: rows for any non-empty guild id, none otherwise |
| ViolationSummary.CollectViolationCounts | src/services/violation-summary.ts:273-301 | the nested loops compute the counters `Collect(rows)` |
| ViolationSummary.CollectCounts | src/services/violation-summary.ts:273-301 | a player has a counter iff some row records them; it holds the number of such rows and the sum of their counts (NaN as 0) |
| ViolationSummary.TicketSumBounds | src/services/violation-summary.ts:286-293 | counts each below 600 give a ticket sum of at most 599 per violation day; non-negative counts give a non-negative sum |
| ViolationSummary.MissingPerDay | src/services/violation-summary.ts:341-346 | a collected counter's missing tickets are the shortfalls below 600 of the days recording the player, added up |
| ViolationSummary.AverageTickets | src/services/violation-summary.ts:352-360 | average times days equals `days * 600 - missing` |
| ViolationSummary.AverageBounds | src/services/violation-summary.ts:341-360 | for a player recorded on at most `days` rows with counts in [0, 600), the average lies in [0, 600], and is below 600 iff the player has a counter |
| ViolationSummary.QuotientBounds | src/services/violation-summary.ts:352-360 | the division step of the average keeps the bounds |
| ViolationSummary.TransformCountersToStats | src/services/violation-summary.ts:306-336 | a player is kept iff they have violations and a known name; each kept player's statistics come from their counter; the map is `KeptStats` |
| ViolationSummary.CollectedKept | src/services/violation-summary.ts:306-336 | after collecting, a player is kept iff some row records them and the guild knows their name |
| ViolationSummary.NamesOf | src/services/violation-summary.ts:160-162 | the name map has exactly the members' ids |
| ViolationSummary.NamesOfLast | src/services/violation-summary.ts:160-162 | an id names the player of the last member carrying it, as `new Map` keeps the last pair for a key |
| ViolationSummary.PageCount | src/services/violation-summary.ts:200-201 | `ceil(n / 10)`: the pages hold all entries, and one page fewer would not |
| ViolationSummary.Paginate | src/services/violation-summary.ts:200-217 | page p holds entries 10p to 10p+9; every page has 1 to 10 entries; the pages concatenate to the list |
| ViolationSummary.PositionIsRank | src/services/violation-summary.ts:240 | the position shown is the entry's 1-based rank in the sorted list |
| ViolationSummary.Position | src/services/violation-summary.ts:240 | for an index on a page of ten, the position gives the page and the index back |
| ViolationSummary.SendSummaryReport | src/services/violation-summary.ts:127-224 | no report iff there are no rows or no member data; otherwise the kept players' statistics, each exactly once, ranked by average; the total of their missing tickets; pages of one to ten that glue back into the ranking |
| ViolationSummary.MapValues | src/services/violation-summary.ts:172 | the values are the bag of the map's values: each key's value exactly once, in some order |
| ViolationSummary.RankedStats | src/services/violation-summary.ts:172-190 | sorting keeps the bag of the players' statistics, and the sorted list's missing tickets add up to the sum over that bag |
| ViolationSummary.TotalIndependentOfOrder | src/services/violation-summary.ts:187-190 | two lists holding the same statistics have the same total: the total does not depend on the map's order |
| ViolationSummary.GenerateSummary | src/services/violation-summary.ts:26-125 | a query is made iff the period is valid (weekly, monthly, or 1 to 90 days); a valid period with rows and member data always gives a report, and any report is the summary of those rows over the period's days with its report type (Weekly, Monthly or N-Day) |
| MhanndalorianClient.TransformStatus | src/services/mhanndalorian/mhanndalorian-client.ts:237-276 | the score is read with `parseInt` without a radix (base 10 unless the text starts with `0x`); a missing command message becomes "" |
| MhanndalorianClient.TransformUnits | src/services/mhanndalorian/mhanndalorian-client.ts:292-300 | one unit per raw unit |
| MhanndalorianClient.TransformSquads | src/services/mhanndalorian/mhanndalorian-client.ts:285-290 | one squad per raw squad |
| MhanndalorianClient.TransformPlatoons | src/services/mhanndalorian/mhanndalorian-client.ts:278-283 | one platoon per raw platoon |
| MhanndalorianClient.TransformConflictZones | src/services/mhanndalorian/mhanndalorian-client.ts:237-248 | one zone per raw zone |
| MhanndalorianClient.TransformStrikeZones | src/services/mhanndalorian/mhanndalorian-client.ts:250-262 | one zone per raw zone |
| MhanndalorianClient.TransformReconZones | src/services/mhanndalorian/mhanndalorian-client.ts:264-276 | one zone per raw zone |
| MhanndalorianClient.TransformTbResponse | src/services/mhanndalorian/mhanndalorian-client.ts:217-235 | active iff the response has a battle status; inactive means no zones; otherwise each zone list as long as the raw one (missing as empty) |
| MhanndalorianClient.PlatoonsRoundTrip | src/services/mhanndalorian/mhanndalorian-client.ts:278-300 | the platoon, squad and unit tree is carried over without loss: mapping back gives the raw tree |
| MhanndalorianClient.StatusRoundTrip | src/services/mhanndalorian/mhanndalorian-client.ts:237-248 | a canonical decimal score and a present or absent (not empty) message survive the transform |
| MhanndalorianClient.ZonesPointwise | src/services/mhanndalorian/mhanndalorian-client.ts:221-234 | each zone keeps its position, its `playersParticipated`, its platoons and its status |
| MhanndalorianClient.DefaultedAllyCode | src/services/mhanndalorian/mhanndalorian-client.ts:188-192 | the argument unless it is absent or empty, else the configured code |
| MhanndalorianClient.RequestPayload | src/services/mhanndalorian/mhanndalorian-client.ts:204-208 | the payload carries the defaulted code, the configured Discord id and the enums flag |
| CachedMhanndalorian.ExtractStatus | src/services/mhanndalorian/cached-mhanndalorian-client.ts:38-43 | a non-zero response status wins; otherwise the first of 503, 502, 504, 429 found in the message; otherwise none |
| CachedMhanndalorian.TransientIff | src/services/mhanndalorian/cached-mhanndalorian-client.ts:45-49 | an error is transient iff its status, or without one its message, names 429, 502, 503 or 504 |
| CachedMhanndalorian.RetryWithBackoff | src/services/mhanndalorian/cached-mhanndalorian-client.ts:25-69 | 1 to 4 calls; the result is the last call's; every earlier call failed transiently; a transient final failure means all four calls were made; the k-th wait is 1000 * 2^k ms |
| CachedMhanndalorian.RetryStopsEarly | src/services/mhanndalorian/cached-mhanndalorian-client.ts:34-61 | a first success or a first fatal error ends after one call; four transient failures give the fourth |
| CachedMhanndalorian.DelaysTotal | src/services/mhanndalorian/cached-mhanndalorian-client.ts:51-58 | r retries wait 1000 * (2^r - 1) ms in all |
| CachedMhanndalorian.PlayerRequest | src/services/mhanndalorian/cached-mhanndalorian-client.ts:71-84 | a player read uses the cache's default lifetime |
| CachedMhanndalorian.TbRequest | src/services/mhanndalorian/cached-mhanndalorian-client.ts:86-100 | a territory-battle read is cached for 15 minutes |
| CachedMhanndalorian.KeyDecomposes | src/services/mhanndalorian/cached-mhanndalorian-client.ts:75 | a key of the form prefix + code + ":" + flag determines the code and the flag |
| CachedMhanndalorian.CacheKeysDistinct | src/services/mhanndalorian/cached-mhanndalorian-client.ts:75-98 | two reads of a kind share an entry iff same code (absent and empty meaning "default") and same flag; player and battle reads never share one |
| CachedMhanndalorian.SameKeySamePayload | src/services/mhanndalorian/cached-mhanndalorian-client.ts:75 | reads that share an entry send the same request, unless a caller passes the literal code "default" |
| CachedMhanndalorian.InstanceHolder.GetInstance | src/services/mhanndalorian/cached-mhanndalorian-client.ts:18-23 | the first call creates the instance around its client; later calls return that instance and ignore their argument |
| PlayerClient.OrEmpty | src/db/player-client.ts:99-102 | `?? []`: a list is kept, an absent one is [] |
| PlayerClient.Upsert | src/db/player-client.ts:11-16 | the row of that id is inserted or replaced; every other row is unchanged |
| PlayerClient.Lookup | src/db/player-client.ts:83-107 | a record iff the id is non-empty and has a row; the primary as stored; a NULL alternate list reads as [] |
| PlayerClient.LookupAfterUpsert | src/db/player-client.ts:64-107 | reading a row right after writing it gives what was written; other ids are unaffected |
| PlayerClient.Without | src/db/player-client.ts:133-137 | every occurrence of the code is dropped, other codes kept; never longer |
| PlayerClient.WithoutAppend | src/db/player-client.ts:133-137 | filtering distributes over concatenation, so the order is kept |
| PlayerClient.WithoutCount | src/db/player-client.ts:133-137 | the list shrinks by exactly the number of occurrences; no occurrence means no change |
| PlayerClient.RemovedRow | src/db/player-client.ts:129-143 | the primary becomes "" iff it is the code; the alternates lose the code and keep every other; NULL alternates are written as [] |
| PlayerClient.RemovedRowAlts | src/db/player-client.ts:133-137 | the alternates written back are the stored ones filtered, in stored order |
| PlayerClient.RemovedCodeGone | src/db/player-client.ts:109-149 | after a removal the record holds the code neither as primary nor as alternate |
| PlayerClient.PlayerStore.constructor | src/db/player-client.ts:11-16 | the store starts with the given table |
| PlayerClient.PlayerStore.AddUser | src/db/player-client.ts:64-81 | refused, with the table unchanged, iff the id or the code is missing or empty; otherwise the row is upserted with absent alternates as [] |
| PlayerClient.PlayerStore.GetPlayer | src/db/player-client.ts:83-107 | returns `Lookup(table, id)` |
| PlayerClient.PlayerStore.RemoveAllyCode | src/db/player-client.ts:109-149 | succeeds iff id and code are present and the row exists, and then writes `RemovedRow`; otherwise the table is unchanged |
| RegisterPlayer.NormalizeAllyCode | src/commands/player/register-player.ts:6-12 | nothing for an absent or empty input; otherwise a code iff the input has nine digits, and it is those digits |
| RegisterPlayer.NormalizeAgrees | src/commands/player/register-player.ts:6-12 | the command's copy agrees with the shared `normalizeAllyCode` on every input |
| RegisterPlayer.SanitizeAllyCodes | src/commands/player/register-player.ts:14-17 | an absent list gives []; every kept code is valid |
| RegisterPlayer.SanitizeAgrees | src/commands/player/register-player.ts:14-17 | the command's copy agrees with the shared `sanitizeAllyCodeList` |
| RegisterPlayer.UpdateExisting | src/commands/player/register-player.ts:119-187 | an alternate request ends in one of its three answers, a primary request in one of its two |
| RegisterPlayer.Run | src/commands/player/register-player.ts:51-117 | refused iff the code does not normalise; a new player is registered iff the code is valid and no record exists, with that code as primary and no alternates |
| RegisterPlayer.InvalidIgnoresRecord | src/commands/player/register-player.ts:59-63 | an invalid code is refused whatever the stored record |
| RegisterPlayer.SavedCodesValid | src/commands/player/register-player.ts:93-187 | every record saved holds only valid 9-digit codes |
| RegisterPlayer.AltDecision | src/commands/player/register-player.ts:136-164 | refused iff the code is the effective primary or already an alternate; otherwise the primary is kept and the code appended exactly once |
| RegisterPlayer.AltKeepsValidPrimary | src/commands/player/register-player.ts:132-153 | a valid stored primary is saved unchanged when an alternate is added |
| RegisterPlayer.PrimaryDecision | src/commands/player/register-player.ts:166-176 | refused iff the code is the effective primary; otherwise the code becomes primary and the sanitised alternates are kept |
| RegisterPlayer.InvalidPrimaryLocksRecord | src/commands/player/register-player.ts:132-134 | as written, a record whose stored primary does not normalise can never be saved again |
| RegisterPlayer.RemovedPrimaryBlocksNewPrimary | src/commands/player/register-player.ts:132-134 | as written, after `removeAllyCode` removes the primary, any new primary is answered "already registered" |
| RegisterPlayer.UpdateExistingFixed | src/commands/player/register-player.ts:119-187 | the corrected decision agrees with the original on every alternate request |
| RegisterPlayer.FixedPrimaryDecision | src/commands/player/register-player.ts:166-176 | corrected: a primary request is refused iff the stored primary really is that code; same as the original when the stored primary is valid |
| BulkRegistration.NormalizeHandle | infra/registerPlayersFromFile.ts:77-84 | an absent or empty handle gives ""; the result never contains `#` |
| BulkRegistration.NormalizeHandleBeforeHash | infra/registerPlayersFromFile.ts:77-84 | the result is the trimmed, lower-cased handle up to its first `#` (all of it without one) |
| BulkRegistration.FindMember | infra/registerPlayersFromFile.ts:156-164 | a member found matches the handle; none is found only when none matches |
| BulkRegistration.FindMemberFirst | infra/registerPlayersFromFile.ts:156-164 | the member found is the first match |
| BulkRegistration.Resolve | infra/registerPlayersFromFile.ts:166-209 | every player ends up resolved or unresolved, so the two lists together are as long as the players |
| BulkRegistration.ResolveMatches | infra/registerPlayersFromFile.ts:166-209 | each resolved player carries the id of the first member whose name matches its handle; no member matches an unresolved handle |
| BulkRegistration.ResolveFilters | infra/registerPlayersFromFile.ts:178-191 | the resolved players are the players with a matching member, in file order; the unresolved are the others, in file order |
| BulkRegistration.FilterSplit | infra/registerPlayersFromFile.ts:178-191 | a player is kept by exactly one of the two filters, so the two lists together are the players |
| BulkRegistration.FilterMembers | infra/registerPlayersFromFile.ts:178-191 | a filtered list holds exactly the players that pass the test |
| BulkRegistration.ResolveDiscordIds | infra/registerPlayersFromFile.ts:166-209 | the loop computes `Resolve(players, members)` |
| BulkRegistration.IndexOf | infra/registerPlayersFromFile.ts:93-96 | the position of the first occurrence, or none when absent |
| BulkRegistration.LastSpace | infra/registerPlayersFromFile.ts:105-108 | the last white-space position, or none |
| BulkRegistration.CodeShapeDigits | infra/registerPlayersFromFile.ts:105-108 | text matching `\d{3}-?\d{3}-?\d{3}` has nine digits and nothing but digits and dashes |
| BulkRegistration.AllyCodeHasShape | infra/registerPlayersFromFile.ts:105-108 | a 9-digit code matches the pattern |
| BulkRegistration.MatchAllyCode | infra/registerPlayersFromFile.ts:105-108 | a match splits the text into a non-empty name, one white-space character and a code of the required shape; no match means no white space is followed by such a code |
| BulkRegistration.MatchComplete | infra/registerPlayersFromFile.ts:105-108 | every `name + spaces + code` split with a non-empty name is matched |
| BulkRegistration.ParseLine | infra/registerPlayersFromFile.ts:86-128 | blank iff the trimmed line is empty; errors carry the line number; an entry has a valid code, a non-empty handle and a trimmed, colon-free name |
| BulkRegistration.ParseLineOutcomes | infra/registerPlayersFromFile.ts:86-128 | for a non-blank line: a missing separator iff there is no `:`; a missing id iff the right side is empty; a missing code iff the left side does not match; otherwise the entry of the trimmed name, the code's digits and the right side |
| BulkRegistration.ParseFields | infra/registerPlayersFromFile.ts:93-97 | a missing separator iff the line has no `:`; otherwise the checks on the two sides of the first `:` |
| BulkRegistration.Sides | infra/registerPlayersFromFile.ts:93-100 | nothing iff the line has no `:`; the left side holds no `:` |
| BulkRegistration.ParseParts | infra/registerPlayersFromFile.ts:98-127 | a missing id iff the right side is empty; a missing code iff it is not and the left side does not match; otherwise the entry of the trimmed name group, the digits of the code group and the right side |
| BulkRegistration.ParseFormattedLine | infra/registerPlayersFromFile.ts:86-128 | a line `name code: handle` with a trimmed, colon-free name parses to that name, the code's digits and the handle |
| BulkRegistration.SplitLines | infra/registerPlayersFromFile.ts:134 | one line per line-feed piece |
| BulkRegistration.SplitLinesContents | infra/registerPlayersFromFile.ts:134 | no line holds a line feed; each piece but the last loses exactly one trailing carriage return; the last piece is kept whole |
| BulkRegistration.SplitLinesPlain | infra/registerPlayersFromFile.ts:134 | without carriage returns the lines are the line-feed pieces and join back into the content |
| BulkRegistration.ParseAll | infra/registerPlayersFromFile.ts:134-142 | every line parsed with its 1-based number |
| BulkRegistration.EntriesOfAppend | infra/registerPlayersFromFile.ts:137-142 | the entries keep file order |
| BulkRegistration.LoadMeaning | infra/registerPlayersFromFile.ts:137-144 | the load succeeds iff no line fails, and then yields the entries in order; a failure is the first failing line's error |
| BulkRegistration.LoadFailurePersists | infra/registerPlayersFromFile.ts:137-142 | once a line fails, later lines do not change the result |
| BulkRegistration.LoadPlayers | infra/registerPlayersFromFile.ts:130-145 | the loop computes `Load(SplitLines(content))` |
| BulkRegistration.EnsurePlayerRegistration | infra/registerPlayersFromFile.ts:211-256 | the outcome and the new table are those of `EnsureStep` |
| BulkRegistration.EnsureStep | infra/registerPlayersFromFile.ts:211-256 | only the player's own row can change; skips and failures change nothing; a created row holds the code and no alternates; an alt-added row keeps the primary and gains the code after the sanitised alternates |
| BulkRegistration.EnsureStepIsAltRegistration | infra/registerPlayersFromFile.ts:211-256 | for a valid code the script decides as `/register-player` with the alternate flag set: created, skipped or appended exactly when the command would, with the same saved record |
| BulkRegistration.SanitizeValid | infra/registerPlayersFromFile.ts:232 | a list of valid codes sanitises to itself |
| BulkRegistration.EnsureStepStoresCode | infra/registerPlayersFromFile.ts:211-256 | after a created, alt-added or skipped-alt outcome the player's row holds the code |
| BulkRegistration.SkippedPrimaryWithoutPrimary | infra/registerPlayersFromFile.ts:226-230 | as written, a row whose primary does not normalise is "skipped as primary" and still does not hold the code |
| BulkRegistration.StepSettles | infra/registerPlayersFromFile.ts:211-256 | one step settles its own player |
| BulkRegistration.StepKeepsSettled | infra/registerPlayersFromFile.ts:211-256 | one step never unsettles another player |
| BulkRegistration.SettledStepSkips | infra/registerPlayersFromFile.ts:226-234 | a settled player is skipped and nothing is written |
| BulkRegistration.RunAll | infra/registerPlayersFromFile.ts:292-296 | one outcome per player |
| BulkRegistration.RunAllSettles | infra/registerPlayersFromFile.ts:292-296 | after the batch every resolved player is settled |
| BulkRegistration.SettledBatchSkips | infra/registerPlayersFromFile.ts:292-296 | a batch of settled players writes nothing and skips each one |
| BulkRegistration.RerunChangesNothing | infra/registerPlayersFromFile.ts:274-323 | running the script a second time on the same players changes nothing and skips everyone |
| BulkRegistration.Bump | infra/registerPlayersFromFile.ts:294 | one counter goes up by one, the others are unchanged |
| BulkRegistration.TallyCounts | infra/registerPlayersFromFile.ts:283-296 | each counter is the number of its outcome |
| BulkRegistration.TallyTotal | infra/registerPlayersFromFile.ts:283-296 | the counters add up to the number of players |
| BulkRegistration.RegisterPlayers | infra/registerPlayersFromFile.ts:274-323 | an empty list gives no stats and no change; otherwise the table is the batch's and the stats are its tally |

## Left out

- The cache service itself, the comlink guild client, the HTTP transport, the
  HMAC signing and the JSON decoding: each read is represented by its
  input or by the key and lifetime it hands to the cache.
- Timers, `setInterval`, sleeping and concurrency: a tick is one sequential
  step, and the retry loop returns its waits instead of sleeping.
- Discord delivery, embeds, colours, reply texts, number formatting with
  `toFixed`, and logging.
- The calendar: whether today is Sunday or the last day of the month is an
  input to `TicketMonitor.PostRefresh`.
- SQL, the connection pool, and the `try`/`catch` paths that turn a database
  or network error into `false`, `[]` or `null`.
- A failure of the guild registry read, which the model treats as an empty
  guild list. The effect is the same: the tick does nothing.
- Unicode: white space (for `trim` and the regex `\s`) is ASCII white space,
  no-break space and the byte-order mark; lower-casing covers ASCII only; the
  regex `.` also matches line terminators.
- The iteration order of a JavaScript `Map` and of object keys is left
  unspecified. `ViolationSummary.MapValues` promises the bag of the map's
  values, each key's value once. The ranking is fixed except among players
  with equal averages: the sort is stable, so their order is the map's. The
  total is proved not to depend on the order.
- Message lengths: JavaScript's `.length` counts UTF-16 code units
  (src/utils/discord-utils.ts:21 and 36), and the model counts the
  characters of a string. The two agree on text without characters outside
  the Basic Multilingual Plane; an emoji or other astral character counts
  two towards the 2000 limit in the code and one in the model.
- AllyCode.Value: a numeric ally code is an integer, printed as its decimal
  text. A JavaScript number that is not an integer, or is 1e21 or more,
  prints with a fraction or an exponent (src/utils/ally-code.ts:8); such
  numbers are not modelled.
- TicketViolationClient.RawCount: a stored count is a string or an integer.
  A JSON `null` or a fractional count, which `processRows` keeps unchanged
  (src/db/ticket-violation-client.ts:83-84), is not modelled.
- Js.ParseIntAuto: `parseInt` results are exact integers; JavaScript rounds
  values above 2^53 to the nearest double, which the model does not.
- DiscordUtils.ChunksRejoinBodies: stated for content that fits and for
  lines that are kept. When the first line is empty or over the limit, or a
  step starts an empty chunk (an empty line with nothing carried), the code
  loses a line feed or gains an empty message;
  `DiscordUtils.FirstLongLineGivesEmptyChunk` shows one such case.
- The `splitOn` option of `sendLongMessage`, which the code never reads.
- The "invalid formatting" check in `parseLine`, which cannot fail once the
  regex has matched, so it has no branch of its own.
- Environment variables, command-line arguments, the file-path lookup, file
  reading, the Discord login, `createDiscordClient` and disconnecting.
- The fetch of the guild's Discord members: the member list is an input.
- `getRecentViolations` and the other store queries that are not part of
  this model.
- ViolationSummary.AverageTickets: requires `days > 0`. Every caller passes
  7, 30 or a period the 1 to 90 guard has accepted.
- CachedMhanndalorian.SameKeySamePayload: excludes the literal ally code
  "default", which shares the cache key of the configured code.
- TicketMonitor.GuildStep: the step function tests the finalisation window
  before the snapshot window. `TicketMonitor.WindowsDisjoint` shows that no
  guild is in both, so the order does not matter.
  `CheckGuildResetTimes` itself follows the code's order, and
  `GuildStepShape` shows that both orders give the same step.

## Findings

| source | as written | input that shows it | evidently intended | confidence | as-written member | corrected member |
|---|---|---|---|---|---|---|
| src/utils/discord-utils.ts:40-47 | the carried formatting is prepended to the next line without checking the limit again | content "```" + "\n" + 1997 × "x" (2001 characters, both lines fit): the first line leaves "````" open (one code block and three inline markers), so the second message is "````" + 1997 × "x", 2001 characters | every message at most 2000 characters whenever every line fits | high, not executed | DiscordUtils.FormatPrefixOverflows | DiscordUtils.FittedChunksWithinLimit |
| src/commands/player/register-player.ts:132-134 | a stored primary that does not normalise falls back to the requested code, so a primary request is "already registered" | a row whose primary is "" after `removeAllyCode` removed it (src/db/player-client.ts:129-131), then `/register-player` with any valid code | the new code replaces the missing primary | medium, not executed | RegisterPlayer.RemovedPrimaryBlocksNewPrimary | RegisterPlayer.FixedPrimaryDecision |
