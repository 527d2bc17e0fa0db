# auto-care core, modelled in Dafny

auto-care is a Laravel application for keeping the service history of
vehicles. This project models three pieces of logic from its controllers
and proves properties about them:

- **Category hierarchy** (`CategoryController`). A flat list of categories
  `{id, name, parent_id}` becomes a forest of display nodes. Each node's name
  carries one `"— "` per level of depth, and its `children` key is present
  only when the node has children. The `update` action rejects a category
  given as its own parent. Modules: `CategoryHierarchy`, with pure functions
  and lemmas.
- **Cost report** (`CostController`):
  - A period token and an explicit "now" resolve to a date range.
  - Labour and part totals are summed over that range.
  - The chart series has one bucket per calendar month, built by a `while`
    loop in the method `Costs.GetMonthlyCosts`.
  - The top-five services are ranked by cost.
  - Services and their items are in-memory rows, and amounts are integer
    cents. Modules: `Costs`, `Calendar` (dates, months, Carbon's month
    arithmetic), `Ranking` (a descending, stable insertion sort in which
    SQL's NULL sorts lowest).
- **Database backup** (`DatabaseBackupController`):
  - The dump builder: nested loops append to the dump text (`SqlDump`).
  - The value escaping (`SqlValue`).
  - The line-based statement splitter the restore feeds to the database
    (`SqlText`, `SqlSplit`).
  - The prioritised search for the `.sql` file in an unpacked backup.
  - The newest-first list of backup files (`BackupFiles`).
  - `DumpRestore` ties the builder to the splitter. When every table name,
    the database name and the creation time are single lines, every CREATE
    text has the form `SHOW CREATE TABLE` reports, and every value is
    written on one line, the statements the restore cuts out of a dump are
    exactly the statements the builder wrote, and each INSERT reads back as
    the rows it was built from. With the escaping as written, a value
    holding a newline breaks this (see Findings).

`Wrappers` holds the `Option` and `Result` types.

Where the code and its documented behaviour differ, the model follows the
code:

- The exclude id filters only when it is truthy (`when($excludeId)`), so an
  id of 0 excludes nothing.
- An unknown period token does not mean "no filtering". The monthly series
  clones a null start date, so the request fails. `Costs.Index` returns
  `Err(NoPeriod)` in that case.
- `Costs.Index` is the page as the code computes it: Carbon's overflowing
  month subtraction, and the top list ordered by the SQL key. The corrected
  page is `Costs.IndexIntended`.

## Model

| member | source | states |
|---|---|---|
| CategoryHierarchy.HierarchyShape | app/Http/Controllers/CategoryController.php:82-93 | The top level is exactly the root records (`parent_id` null) among those left after the exclusion, in input order. Each root is a well-formed node at level 0. |
| CategoryHierarchy.FormatNodeShaped | app/Http/Controllers/CategoryController.php:103-124 | The node built for a category shows that category at depth `level`: its name is `level` indents followed by the category's name. Its `children` key is present iff some record names it as parent, and then the children are exactly those records, in list order, each well formed one level deeper. |
| CategoryHierarchy.FormatListShaped | app/Http/Controllers/CategoryController.php:115-121 | Mapping the children keeps them one node per record, in input order, and each node is well formed at the given level. |
| CategoryHierarchy.HierarchyNodes | app/Http/Controllers/CategoryController.php:82-124 | Every node anywhere in the forest shows a record that survived the exclusion. No node has the excluded id. Its name is its indentation plus its original name. Its parent is a remaining record. |
| CategoryHierarchy.IndentChars | app/Http/Controllers/CategoryController.php:105 | The prefix for level `n` has length 2n and alternates '—' and ' '. |
| CategoryHierarchy.RemainingMembers | app/Http/Controllers/CategoryController.php:84-86 | A record remains iff it is in the input and, when the exclude id is truthy, its id is not that id. |
| CategoryHierarchy.RemainingIsRanked | app/Http/Controllers/CategoryController.php:84-86 | Removing the excluded record keeps the parent graph acyclic, and only input records remain. |
| CategoryHierarchy.RootsMembers | app/Http/Controllers/CategoryController.php:88 | The roots are exactly the records with a null parent. |
| CategoryHierarchy.ChildrenMembers | app/Http/Controllers/CategoryController.php:115 | The children of `id` are exactly the records whose parent is `id`. |
| CategoryHierarchy.HasChildIff | app/Http/Controllers/CategoryController.php:115-121 | A node has a child iff its filtered child list is non-empty, which decides whether the `children` key is set. |
| CategoryHierarchy.NoParentlessNoRoots | app/Http/Controllers/CategoryController.php:88-92 | When every record has a parent, the forest has no roots. |
| CategoryHierarchy.ExcludedSubtreeVanishes | app/Http/Controllers/CategoryController.php:84-92 | Excluding the only root of a chain Engine → Spark Plug → Electrode empties the forest. The descendants are not promoted to roots. |
| CategoryHierarchy.TwoLevelExample | app/Http/Controllers/CategoryController.php:82-124 | For Engine, Spark Plug (under Engine) and Filters: two roots, 1 and 3. Engine has the single child "— Spark Plug" at level 1. Filters has no `children` key. |
| CategoryHierarchy.OwnParentRejected | app/Http/Controllers/CategoryController.php:51-58 | For an existing parent id, the update is rejected as its own parent iff the id is the category's own. Every other existing id is accepted. |
| CategoryHierarchy.DescendantAsParentAccepted | app/Http/Controllers/CategoryController.php:51-58 | Making Engine a child of its own child Spark Plug passes validation. The resulting parent graph has a cycle (no rank exists) and no root, so both records vanish from the forest offered as parent choices. |
| CategoryHierarchy.OwnParentHasNoRank | app/Http/Controllers/CategoryController.php:51-58 | A record that is its own parent makes the parent graph cyclic. It is no root and is a child only under its own id, so no other record reaches it and it vanishes from the forest. |
| Calendar.DaysInMonth | app/Http/Controllers/CostController.php:25 | A month has 28 to 31 days, and 28 exactly for February of a common year. |
| Calendar.FirstOfMonthLe | app/Http/Controllers/CostController.php:24 | The first day of month k is on or before a date iff k is at most that date's month. |
| Calendar.LastOfMonthGe | app/Http/Controllers/CostController.php:25 | A date is on or before the last day of month k iff its month is at most k. |
| Calendar.MonthIndexDetermines | app/Http/Controllers/CostController.php:119-121 | Two dates with the same month index have the same year and month. |
| Calendar.DateLeMonthIndex | app/Http/Controllers/CostController.php:119 | Date order implies month order, and a strictly earlier month means a strictly earlier date. |
| Calendar.AddMonthsOverflow | app/Http/Controllers/CostController.php:28 | Carbon's month shift keeps the day when the target month (n months on) has it. Otherwise it lands in the month after, on the day minus the target month's length. Up to day 28 it always lands n months on, on the same day. |
| Calendar.AddMonthsNoOverflow | app/Http/Controllers/CostController.php:28 | The clamping shift always lands exactly n months on, on the same day or on that month's last day. |
| Costs.PeriodToken | app/Http/Controllers/CostController.php:17 | The token is the `period` parameter, or `current_month` when it is absent. |
| Costs.UnknownTokenHasNoPeriod | app/Http/Controllers/CostController.php:22-51 | The switch yields a period iff the token is one of the six listed, both as written and as intended. |
| Costs.WholeMonthsPeriod | app/Http/Controllers/CostController.php:31-38 | The range from the start of month lo to the end of month hi holds exactly the days of months lo through hi. |
| Costs.CurrentMonthCovers | app/Http/Controllers/CostController.php:23-26 | `current_month` holds exactly the days of now's year and month. |
| Costs.CurrentYearCovers | app/Http/Controllers/CostController.php:39-42 | `current_year` holds exactly the days of now's year. |
| Costs.LastMonthsCover | app/Http/Controllers/CostController.php:27-38 | With clamping month arithmetic: `last_month` holds exactly the previous calendar month, and `last_3_months` / `last_6_months` hold the 3 or 6 months before now's month plus now's month. |
| Costs.CustomPeriodDefaults | app/Http/Controllers/CostController.php:43-50 | `custom` uses the given start and end. It defaults to now minus one month (Carbon overflow) and now. |
| Costs.ResolversAgreeBeforeDay29 | app/Http/Controllers/CostController.php:22-51 | Up to day 28 of a month, the switch as written and the corrected one give the same period for every token. |
| Costs.LastMonthOverflow | app/Http/Controllers/CostController.php:27-30 | On 31 March 2025, `last_month` as written resolves to March, not February. |
| Costs.MarchOverflow | app/Http/Controllers/CostController.php:28-29 | `subMonth()` on 31 March 2025 gives 3 March, whose month runs from 1 to 31 March. |
| Costs.MarchEndMinusMonth | app/Http/Controllers/CostController.php:28 | In every common year, 31 March minus one month overflows to 3 March. |
| Costs.GetTotals | app/Http/Controllers/CostController.php:74-90 | The total is the sum of the labour and part totals. |
| Costs.TotalsCountOnlyThePeriod | app/Http/Controllers/CostController.php:77-83 | Adding a service inside the period adds its labour cost and its part costs to the totals. Adding one outside leaves the totals unchanged. |
| Costs.InRangeMembers | app/Http/Controllers/CostController.php:77 | A service is selected iff its date lies in the period, both ends inclusive. |
| Costs.InRangeAppend | app/Http/Controllers/CostController.php:77 | Selection distributes over concatenation, so it keeps input order. |
| Costs.PartCostsSumOrZero | app/Http/Controllers/CostController.php:154-156 | SQL's SUM of part costs, defaulted to 0, is the sum with NULL as 0. It is NULL iff every item's part cost is NULL. |
| Costs.GetMonthlyCosts | app/Http/Controllers/CostController.php:112-146 | The loop returns the bucket series for the months from the start's month to the end's month. |
| Costs.NextMonthStart | app/Http/Controllers/CostController.php:143 | Advancing the cursor from the first of a month lands on the first of the next month. |
| Costs.MonthlySeries | app/Http/Controllers/CostController.php:95-146 | There is one bucket per month of the period, i-th bucket for the i-th month (empty months give zeros). Labour summed over the buckets equals the labour total; parts likewise. |
| Costs.BucketsAt | app/Http/Controllers/CostController.php:126-141 | Bucket i is the month lo + i with that month's labour and part sums and their total. |
| Costs.BucketsSum | app/Http/Controllers/CostController.php:126-141 | Summing a column over the buckets sums each service whose month falls among them. |
| Costs.SeriesCoversPeriod | app/Http/Controllers/CostController.php:95-110 | Every service in the period falls in one of the period's months, so the series loses none of it. |
| Costs.SeriesOfNothing | app/Http/Controllers/CostController.php:126-134 | With no services, every month contributes 0. |
| Costs.TopFiveIsTop | app/Http/Controllers/CostController.php:152-158 | For any sort key, the list has min(5, #in range) services, is ordered descending, takes each in-range service at most once, and ranks every left-out service no higher than any listed one. |
| Costs.TopServicesByTotal | app/Http/Controllers/CostController.php:149-175 | At most five rows. Each total is labour plus parts. The list is ordered by total, descending. Each row is an in-range service. No in-range service left out costs more than a listed one. |
| Costs.TopRowsAreRanked | app/Http/Controllers/CostController.php:160-174 | Each row carries its service's id, date, vehicle summary and costs, with total = labour + parts = the service's cost with NULL as 0. |
| Costs.RankedTotal | app/Http/Controllers/CostController.php:172 | A row's total is the service's labour cost plus its part costs. |
| Costs.TopRowsByTotalOrdered | app/Http/Controllers/CostController.php:157 | The rows' totals never increase down the list. |
| Costs.TopRowsByTotalDominate | app/Http/Controllers/CostController.php:157-158 | Every in-range service left out of the list costs no more than any listed one. |
| Costs.TopServicesAsWrittenBySqlKey | app/Http/Controllers/CostController.php:152-175 | As written, the list is ordered by the SQL key `labor_cost + part_costs_sum`, in which NULL sorts last. |
| Costs.NullKeyRanksLast | app/Http/Controllers/CostController.php:157 | A service costing 1000.00 in labour with no part cost ranks below a service costing 0.02. |
| Costs.Index | app/Http/Controllers/CostController.php:14-72 | An error iff the token is unknown. Otherwise the period is the one the switch as written resolves (overflowing `subMonth()`). Over it the page computes the totals, the monthly series (the bucket series: bucket i is the i-th month of the period with that month's labour, part and total sums; one bucket per month, column sums equal to the totals) and the top list ordered by the SQL key. |
| Costs.IndexIntended | app/Http/Controllers/CostController.php:14-72 | The same page with the corrected period (previous calendar month), the same totals and bucket series (bucket i is the i-th month of the period with that month's sums; one bucket per month, column sums equal to the totals), and the top list ordered by the displayed total. |
| Ranking.SortDescSorted | app/Http/Controllers/CostController.php:157 | The sort orders by the key, descending. |
| Ranking.SortDescPermutes | app/Http/Controllers/CostController.php:157 | The sort is a permutation of its input. |
| Ranking.SortDescStable | app/Http/Controllers/DatabaseBackupController.php:340-342 | Elements with equal keys keep their input order. |
| Ranking.Take | app/Http/Controllers/CostController.php:158 | `limit(n)` gives a prefix of length min(n, length). |
| Ranking.TakeOfSortedIsTop | app/Http/Controllers/CostController.php:158 | From a sorted list, nothing left out by the limit has a larger key than anything kept. |
| Ranking.TopOfSortDesc | app/Http/Controllers/CostController.php:157-158 | Sort then limit gives min(n, length) elements, sorted, drawn from the input, dominating the rest. |
| SqlText.Lines | app/Http/Controllers/DatabaseBackupController.php:483 | `explode("\n", …)` yields at least one line. |
| SqlText.JoinLines | app/Http/Controllers/DatabaseBackupController.php:483 | Joining the exploded lines with "\n" gives back the text. |
| SqlText.LinesJoin | app/Http/Controllers/DatabaseBackupController.php:483 | Exploding newline-free lines joined by "\n" gives back the lines. |
| SqlText.TrimLeftFacts | app/Http/Controllers/DatabaseBackupController.php:487 | Left trimming drops exactly the leading whitespace: the result is a suffix not starting with whitespace. |
| SqlText.TrimRightFacts | app/Http/Controllers/DatabaseBackupController.php:487 | Right trimming drops exactly the trailing whitespace: the result is a prefix not ending with whitespace. |
| SqlText.TrimSlice | app/Http/Controllers/DatabaseBackupController.php:487 | The trimmed line is a slice of the line, starting after the leading whitespace. |
| SqlText.TrimEmpty | app/Http/Controllers/DatabaseBackupController.php:487 | A line trims to empty iff it is all whitespace. |
| SqlText.CommentSkipped | app/Http/Controllers/DatabaseBackupController.php:487 | A line starting with `--` is skipped. |
| SqlText.TightLine | app/Http/Controllers/DatabaseBackupController.php:487-494 | For a line without surrounding whitespace: it is skipped iff it starts with `--`, and it ends a statement iff its last character is ';'. |
| SqlText.SemicolonTerminates | app/Http/Controllers/DatabaseBackupController.php:494 | A line ending in ';' ends a statement. |
| SqlSplit.SplitSqlQueries | app/Http/Controllers/DatabaseBackupController.php:479-506 | The loop returns the texts of the statement groups of the kept lines. The kept lines are those not blank and not comments. Each group runs up to and including a line whose trimmed form ends in ';', and an unterminated last group is kept. |
| SqlSplit.KeptLines | app/Http/Controllers/DatabaseBackupController.php:487-489 | A line is kept iff it is an input line and neither blank nor a comment after trimming. |
| SqlSplit.KeptAppend | app/Http/Controllers/DatabaseBackupController.php:487-489 | Filtering lines distributes over concatenation, so it keeps order. |
| SqlSplit.TextAppend | app/Http/Controllers/DatabaseBackupController.php:491 | The "line + \n" text of a concatenation is the concatenation of the texts. |
| SqlSplit.GroupsFlatten | app/Http/Controllers/DatabaseBackupController.php:491-497 | The groups, concatenated, are the kept lines: nothing is added or lost. |
| SqlSplit.GroupsAreStatements | app/Http/Controllers/DatabaseBackupController.php:494-497 | Every group is non-empty and has a terminating line only at its end. Every group but the last ends with one. |
| SqlSplit.GroupsUnique | app/Http/Controllers/DatabaseBackupController.php:485-498 | Any statement list is the grouping of its own flattening, so the grouping is the unique such split. |
| SqlSplit.ConcatTexts | app/Http/Controllers/DatabaseBackupController.php:491-503 | Concatenating the group texts gives the text of all their lines. |
| SqlSplit.QueriesConcat | app/Http/Controllers/DatabaseBackupController.php:491-503 | The returned queries, concatenated, are exactly the kept lines, each followed by "\n", in input order. |
| SqlSplit.QueriesNotBlank | app/Http/Controllers/DatabaseBackupController.php:500-503 | No returned query is blank after trimming, so the restore's `trim` guard never skips one. |
| SqlSplit.QueryIsStatement | app/Http/Controllers/DatabaseBackupController.php:485-503 | Query j consists of kept input lines, each followed by "\n". Only its last line may end in ';', and every query but the last does end so. |
| SqlSplit.NothingToRun | app/Http/Controllers/DatabaseBackupController.php:485-505 | Input made only of blank and comment lines yields no query. |
| SqlSplit.EmptyInput | app/Http/Controllers/DatabaseBackupController.php:479-506 | The empty text yields no query. |
| SqlValue.StrReplaceIsEscape | app/Http/Controllers/DatabaseBackupController.php:106 | The array `str_replace` (one pass for `\`, then one for `'`) equals escaping character by character. The inserted backslashes are not escaped again. |
| SqlValue.EscapeReadsBack | app/Http/Controllers/DatabaseBackupController.php:106-107 | Reading a quoted string back from an escaped value and its closing quote recovers the value and the rest of the text. |
| SqlValue.LiteralReadsBack | app/Http/Controllers/DatabaseBackupController.php:103-107 | A value's literal (`NULL`, or the quoted escape) reads back as that value, whatever follows. |
| SqlValue.EscapeNoNewline | app/Http/Controllers/DatabaseBackupController.php:106 | Escaping leaves no newline when the escaping is newline-safe or the value has none. |
| SqlValue.LiteralNoNewline | app/Http/Controllers/DatabaseBackupController.php:103-107 | A literal spans one line under the same condition. |
| SqlDump.AppendValue | app/Http/Controllers/DatabaseBackupController.php:103-108 | Appends the value's literal: `NULL` for null, otherwise the escaped value in quotes. |
| SqlDump.AppendRow | app/Http/Controllers/DatabaseBackupController.php:101-113 | The value loop appends `(`, the literals joined by `,`, then `)`. |
| SqlDump.AppendInsert | app/Http/Controllers/DatabaseBackupController.php:95-119 | The row loop appends the INSERT head, then the rows separated by `,\n`, the last followed by `;\n\n`. |
| SqlDump.BuildDump | app/Http/Controllers/DatabaseBackupController.php:80-123 | The dump is the header (name, creation time, checks off), then per table DROP, CREATE and, if it has rows, INSERT, then checks on. |
| SqlDump.ValuesReadBack | app/Http/Controllers/DatabaseBackupController.php:102-112 | The comma-joined literals of a non-empty row, closed by `)`, read back as the row. |
| SqlDump.FilledRowReadsBack | app/Http/Controllers/DatabaseBackupController.php:101-113 | A non-empty row's text reads back as that row, whatever follows. |
| SqlDump.RowReadsBack | app/Http/Controllers/DatabaseBackupController.php:101-113 | Every row's text, the empty row `()` included, reads back as that row. |
| DumpRestore.BlockAppend | app/Http/Controllers/DatabaseBackupController.php:479-506 | Splitting a text that is a sequence of closed statements followed by more text gives the first part's queries, then the rest's. |
| DumpRestore.HeaderBlock | app/Http/Controllers/DatabaseBackupController.php:80-82 | The header's two comment lines and blank lines vanish. It yields the single statement `SET FOREIGN_KEY_CHECKS=0;`. |
| DumpRestore.DropBlock | app/Http/Controllers/DatabaseBackupController.php:88 | The DROP line is one statement. |
| DumpRestore.CreateBlock | app/Http/Controllers/DatabaseBackupController.php:89 | A CREATE statement whose lines are neither blank, comments nor ';'-terminated comes back whole, with its ';'. |
| DumpRestore.InsertBlock | app/Http/Controllers/DatabaseBackupController.php:95-119 | When every value fits on one line, the INSERT comes back as one statement, without its trailing blank line. |
| DumpRestore.TableBlock | app/Http/Controllers/DatabaseBackupController.php:84-121 | A table's part of the dump splits into its DROP, its CREATE and, if it has rows, its INSERT. |
| DumpRestore.TablesBlocks | app/Http/Controllers/DatabaseBackupController.php:84-121 | The table loop's output splits into the tables' statements in table order. |
| DumpRestore.ChecksOnBlock | app/Http/Controllers/DatabaseBackupController.php:123 | The footer is the single statement `SET FOREIGN_KEY_CHECKS=1;`. |
| DumpRestore.DumpRestoresStatements | app/Http/Controllers/DatabaseBackupController.php:296-303 | The restore's split of a dump is exactly: checks off, each table's DROP, CREATE and INSERT, then checks on. This holds when every value is written on one line. |
| DumpRestore.RowsReadBack | app/Http/Controllers/DatabaseBackupController.php:100-119 | The rows of an INSERT, as written, read back as the rows. |
| DumpRestore.InsertReadsBack | app/Http/Controllers/DatabaseBackupController.php:96-119 | An INSERT statement reads back as its table's rows. |
| DumpRestore.DumpRestoresRows | app/Http/Controllers/DatabaseBackupController.php:296-303 | For every table with rows, some query the restore runs is an INSERT into that table that reads back as its rows. |
| DumpRestore.NewlineValueLost | app/Http/Controllers/DatabaseBackupController.php:106-107 | As written, a value of two newlines is dumped over blank lines that the splitter drops. The restored INSERT holds a single newline. |
| BackupFiles.LastIndexIsLast | app/Http/Controllers/DatabaseBackupController.php:387 | The index found holds the character and nothing after it does. None means the character is absent. |
| BackupFiles.IsSqlSuffix | app/Http/Controllers/DatabaseBackupController.php:387 | `pathinfo` gives the extension "sql" iff the name ends with ".sql". |
| BackupFiles.Basename | app/Http/Controllers/DatabaseBackupController.php:331 | For a path not ending in '/' (`Storage::files` returns no other kind), the basename is the suffix of the path after its last '/' (the whole path when it has none). |
| BackupFiles.Dumps | app/Http/Controllers/DatabaseBackupController.php:383-384 | The entry found is a directory named `db-dumps` in the listing. None means the listing has no such directory. |
| BackupFiles.FirstSqlIn | app/Http/Controllers/DatabaseBackupController.php:385-390 | The loop finds a file iff the listing has a ".sql" entry, and returns the path of the first one. |
| BackupFiles.FirstSqlIsFirstName | app/Http/Controllers/DatabaseBackupController.php:386-389 | The first ".sql" entry is the first of the directory's ".sql" names. None exists iff there are none. |
| BackupFiles.NamesAreSql | app/Http/Controllers/DatabaseBackupController.php:386-389 | A directory's listed names are ".sql" entries of it. |
| BackupFiles.FindSqlFile | app/Http/Controllers/DatabaseBackupController.php:380-411 | The method with its early returns and recursion computes the prioritised search. |
| BackupFiles.SearchFallsThrough | app/Http/Controllers/DatabaseBackupController.php:393-394 | With no `db-dumps` or no ".sql" file in it, the search is the scan of the directory. |
| BackupFiles.SearchIsFirstCandidate | app/Http/Controllers/DatabaseBackupController.php:380-411 | The search returns null iff no ".sql" entry is reachable. Otherwise it returns the first in priority order: `db-dumps` first, then the entries in scan order, each itself or its subdirectory (except ".", ".." and "db-dumps"). |
| BackupFiles.ScanIsFirstCandidate | app/Http/Controllers/DatabaseBackupController.php:394-408 | The scan from a position returns the first ".sql" entry reachable from there, or null if there is none. |
| BackupFiles.CandidatesAreSql | app/Http/Controllers/DatabaseBackupController.php:380-411 | Every reachable candidate has the extension "sql". |
| BackupFiles.FoundIsSql | app/Http/Controllers/DatabaseBackupController.php:387-397 | A found path is the path of a reachable ".sql" entry. |
| BackupFiles.DumpsFirst | app/Http/Controllers/DatabaseBackupController.php:383-391 | When `db-dumps` holds a ".sql" file, the first such file wins over everything else. |
| BackupFiles.Listing | app/Http/Controllers/DatabaseBackupController.php:330-337 | One entry per stored file, with its basename, size and modification time, in storage order. |
| BackupFiles.GetBackupFiles | app/Http/Controllers/DatabaseBackupController.php:325-345 | The method returns the listing sorted newest first. |
| BackupFiles.NewestFirstOrdered | app/Http/Controllers/DatabaseBackupController.php:340-342 | Modification times never increase down the list. |
| BackupFiles.NewestFirstPermutes | app/Http/Controllers/DatabaseBackupController.php:340-342 | The sorted list holds exactly the listed files. |
| BackupFiles.NewestFirstStable | app/Http/Controllers/DatabaseBackupController.php:340-342 | Files modified at the same second keep their storage order. |

## Left out

- I/O: PDO connections and queries, `SHOW TABLES` / `SHOW CREATE TABLE`, ZipArchive, `file_put_contents`, `file_get_contents`, `copy`, `unlink`, `mkdir`, `scandir`/`is_dir` on the real filesystem, `cleanDirectory`, and `Storage::*`. The dump builder takes the tables (name, CREATE text, rows) as input. The file search and the backup list take an ordered directory tree and a list of stored files.
- The restore's `exec` of each query and the `exec` of the `mysql` client in `restoreMySQL` are foreign calls. The model stops at the list of queries the restore would run, and `SqlSplit.QueriesNotBlank` shows that its `trim` guard never skips one.
- The sqlite branches of backup and restore copy a file; they are I/O only.
- Eloquent and SQL query building (`whereBetween`, `groupBy`, `withCount`, `orderByRaw`, `limit`) are modelled as filters, sums, a sort and a prefix over sequences.
- Strings are modelled as sequences of characters, while PHP's `trim`, `explode`, `substr`, `str_replace`, `str_repeat` and `pathinfo` work on bytes. Every character the core tests is ASCII, and UTF-8 never puts an ASCII byte inside a multibyte character, so UTF-8 text behaves the same. Byte strings that are not valid UTF-8, such as binary column values in a dump, cannot be represented. Lengths count characters: the level prefix "— " is 2 characters here and 4 bytes in PHP.
- Costs.Index and Costs.IndexIntended: their top list is the stable sort's result, so services with equal sort keys keep their input order and the first of them in input order fill the last of the five places. The SQL `orderByRaw(...)->limit(5)` has no tie-break, so the database need not return that order or that choice; only the facts of `Costs.TopFiveIsTop` hold for every tie-break.
- Carbon locale and the Turkish month labels (`translatedFormat('M Y')`): a bucket is a `(year, month)` pair.
- `(float)` casts: amounts are integer cents within the `decimal(10,2)` range (`Costs.Money`), and sums are unbounded integers.
- The wall clock: "now" (`Carbon::now()`, `date('Y-m-d H:i:s')`) is a parameter. Parsing of `start_date` / `end_date` is left out, and they arrive as moments.
- Inertia rendering, redirects, flash messages, validation rules other than the parent rule, routes and the other controllers are framework plumbing.
- The name and record checks of `update` (`required|string|max:255`) are left out.
- The `$files`/`$rows` arrays of the controllers are values here; no aliasing is involved.
- CategoryHierarchy.ChildrenMembers: the children are the records whose parent equals the id. Laravel's `where('parent_id', $id)` compares loosely, so for id 0 it would also take every record with a null parent. Such a root would list itself as its own child and recurse forever. Ids are taken to be positive (auto-increment keys), and the id-0 case is not modelled.
- CategoryHierarchy.OwnParentRejected: the request's `parent_id` is taken to arrive as an integer. The rule compares with a strict `===` against the integer key. A value posted as the string "5" would therefore never be rejected, and the category could be saved as its own parent. That case is not modelled.
- CategoryHierarchy.GetCategoriesHierarchy and the lemmas about it require an acyclic parent graph (a rank). The controller also handles cyclic lists: records on a cycle are never reached from a root and simply vanish. The model states this only for the examples in `OwnParentHasNoRank` and `DescendantAsParentAccepted`, not for the builder on cyclic input.
- DumpRestore.CreateBlock: it is stated for CREATE texts whose lines are neither blank, comments nor end in ';'. That is the form `SHOW CREATE TABLE` reports, but the model does not derive it.
- DumpRestore.DumpRestoresStatements: it is stated for dumps whose table names, database name and creation time are single lines, and whose values are single lines or escaped newline-safe.

## Findings

| source | as written | input that shows it | evidently intended | confidence | as-written member | corrected member |
|---|---|---|---|---|---|---|
| app/Http/Controllers/CostController.php:27-30 | `Carbon::now()->subMonth()` overflows on days 29–31 when the previous month is shorter | now = 31 March 2025: `last_month` resolves to 1–31 March | the previous calendar month (February) | not executed | Costs.LastMonthOverflow | Costs.LastMonthsCover, used by Costs.IndexIntended |
| app/Http/Controllers/CostController.php:154-157 | the sort key `labor_cost + part_costs_sum` is NULL when the labour cost is NULL or no item has a part cost, and MySQL sorts NULL last in DESC | a service with 1000.00 labour and no priced part ranks below one costing 0.02 | ordered by the displayed `total_cost` (NULL as 0) | not executed | Costs.NullKeyRanksLast | Costs.TopServicesByTotal, used by Costs.IndexIntended |
| app/Http/Controllers/DatabaseBackupController.php:106-107 | values are written with their raw newlines, and the splitter drops blank lines | a text value of two newlines is restored as one newline | every value written on one line (newline escaped as `\n`), so the restore gets it back | not executed | DumpRestore.NewlineValueLost | DumpRestore.DumpRestoresRows |
