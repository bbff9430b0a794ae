# athena-snapshop in Dafny

athena-snapshop is a small Node.js service. On a cron schedule it runs a fixed
list of snapshot jobs. Each job sends a SQL query to AWS Athena, polls it with a
capped backoff until it finishes, and reads every result page. It then copies the
rows into a SQL Server table. First the rows already stored under today's
`snapshot_date` are deleted. Then every data row is converted according to a
per-table column type mapping, stamped with today's date, and bulk-inserted. The
job outcomes are collected into the `ok` and `errs` lists of a summary mail.

This project models that core (`index.js`):

- the value coercion `convertValue`;
- the identifier helpers `assertWhitelistedTable` and `sqlQuoteIdent`;
- the two loops of `fetchAllAthenaResults`, with Athena as a scripted remote;
- `ensureTableWithColumns` and `bulkInsertToSQL`, over an in-memory warehouse;
- the job loop of `runSnapshot`;
- the static configuration: `JOBS`, the column type mappings, `CRON_EXPR` and
  `NOTIFY_TO`.

Modules:

| file | module | what |
|---|---|---|
| wrappers.dfy | `Wrappers` | `Option`, `Result`, `Outcome`, map lookup |
| js_text.dfy | `JsText` | the JavaScript string built-ins the core relies on: `toLowerCase` (ASCII), `trim`, `split`/`join`, `replace` of the first match, `parseInt` |
| coercion.dfy | `Coercion` | column types, JavaScript values, `convertValue` |
| config.dfy | `Config` | jobs, type mappings, cron expression, recipient list |
| identifiers.dfy | `Identifiers` | the table whitelist and bracket quoting |
| athena.dfy | `Athena` | polling and paging against a scripted Athena |
| schema.dfy | `Schema` | warehouse tables as values; `ensureTableWithColumns` as a function |
| loader.dfy | `Loader` | `bulkInsertToSQL` as a function: what is deleted, what is sent, what is stored |
| warehouse.dfy | `SqlServer` | class `Warehouse`, whose `tables` field the two SQL helpers update in place |
| runner.dfy | `Runner` | the job loop and the `ok`/`errs` lists |

Some inputs are parameters of the model:

- **Athena.** A `Remote` is a script of answers. The i-th status request gets
  `statuses[i]` and the i-th page request gets `pages[i]`. A request past the end
  of the script fails, as a failed client call would.
- **The runtime.** A `Runtime` value supplies the JavaScript `Date` parser,
  `parseFloat`, and `String()` of numbers and dates. It also says whether the
  driver and SQL Server accept a given bulk table, i.e. whether
  `request.bulk` resolves or throws.
- **The clock.** A day is a UTC day number, i.e. days since 1970-01-01.
  Each `bulkInsertToSQL` call reads the clock itself (index.js:547), so a
  run takes one day per job (`days[i]` for the i-th job), and a run that
  crosses midnight UTC loads its later jobs under the next day.
- **The environment.** Environment variables are `Option<string>` arguments.

Numbers are mathematical reals, and a JavaScript `Date` is its time value in
milliseconds.

Neither `assertWhitelistedTable` nor `ensureTableWithColumns` is called from live
code: their only call sites are in commented-out code. Both are still modelled, as
functions of their own, and `bulkInsertToSQL` does not check the whitelist.

## Model

| member | source | states |
|---|---|---|
| Coercion.ConvertValue | index.js:215-271 | Blank input (null, undefined, `''`, `'1/1/1900'`) gives null. A Date/DateTime column turns a string into a date or null, and returns any other value unchanged. A Bit column gives a boolean or null. Int/BigInt give an integral number or null. Float gives a number or null. Any other or missing type returns the value unchanged. |
| Coercion.DateColumnReadsIsoText | index.js:226-247 | `"<date> <time>"` is parsed as `"<date>T<time>"`: only the first space becomes `T`. An invalid parse gives null. |
| Coercion.BitColumnReadsTrueWords | index.js:251-257 | On a Bit column a string is true iff its lower-case form is `true`, `1` or `yes`, and false otherwise. A boolean passes through. |
| Coercion.FloatColumnParses | index.js:265-268 | On a Float column a non-blank cell becomes `parseFloat` of its text. NaN becomes null. |
| Coercion.IntegerColumnReadsNumerals | index.js:260-263 | On an Int/BigInt column, the decimal text of any integer reads back as that integer. |
| Coercion.IntegerColumnTruncatesDecimals | index.js:260-263 | `parseInt` stops at the decimal point, so `"<n>.<digits>"` becomes n. |
| Coercion.IntegerColumnRejectsWords | index.js:260-263 | On an Int/BigInt column, text that starts with something other than white space, a sign or a digit gives null. |
| Coercion.IntegerColumnRejectsBooleans | index.js:260-263 | On an Int/BigInt column a boolean gives null, because its text is a word. |
| JsText.ParseInt | index.js:261 | `parseInt` gives a number only if the text holds a decimal digit. It gives a negative number only if the text holds a minus sign. |
| JsText.ParseIntSkipsSpace | index.js:261 | Any leading white space leaves the number `parseInt` reads unchanged. |
| JsText.ParseIntPlus | index.js:261 | A `+` in front of an unsigned numeral leaves the number unchanged. |
| JsText.Lower | index.js:254 | `toLowerCase` keeps the length and the characters that are not upper-case ASCII letters. Each upper-case letter becomes its lower-case form, so no upper-case ASCII letter is left. |
| JsText.ParseIntOfIntText | index.js:261 | `parseInt` of an integer's decimal text, followed by any non-digit rest, returns the integer. |
| JsText.HexPrefixExample | index.js:261 | `parseInt` also reads a `0x` hexadecimal prefix. |
| JsText.Split | index.js:286 | `split(',')` gives at least one piece, and no piece holds a comma. |
| JsText.TrimStart | index.js:287 | The white space `trim` drops at the front: the result is a suffix of the text, everything before it is white space, and it does not start with white space. |
| JsText.TrimEnd | index.js:287 | The white space `trim` drops at the back: the result is a prefix of the text, everything after it is white space, and it does not end with white space. |
| JsText.Trim | index.js:287 | `trim` is the front trim followed by the back trim, so what is left neither starts nor ends with white space. |
| JsText.SplitJoin | index.js:285-286 | Splitting the comma-joined list of comma-free parts gives back the parts. |
| JsText.ReplaceFirstAt | index.js:231 | `replace` with a one-character pattern keeps the length. It changes exactly the position of the first occurrence. |
| JsText.ReplaceFirstSplitsAtSeparator | index.js:231 | `replace(' ', 'T')` changes only the first space. |
| Config.Jobs | index.js:135-148 | There are exactly two jobs, "Time Entries" then "Prebills", with their type mappings. Each job's query and destination table are its environment variable when set and non-empty, and otherwise the default query and table. |
| Config.CronExpr | index.js:274-281 | The mode, lower-cased, selects the monthly expression iff it is `monthly`. It selects an inherited object member iff it names one. Any other mode falls back to the daily expression. |
| Config.CronDefaultsToDaily | index.js:281 | Every mode other than `monthly` (and the inherited member names) schedules daily. |
| Config.CronIgnoresCase | index.js:274 | `MONTHLY` schedules monthly, and an unset mode schedules daily. |
| Config.NonEmpty | index.js:288 | `filter(Boolean)` keeps exactly the non-empty strings. It keeps the list whole when none is empty. |
| Config.NonEmptyAppend | index.js:288 | The filter keeps the order: filtering a concatenation concatenates the filtered parts. |
| Config.Recipients | index.js:285-288 | Every recipient is non-empty, contains no comma, and has no surrounding whitespace. |
| Config.RecipientsOfJoined | index.js:285-288 | A comma-joined list of clean addresses reads back as exactly that list. |
| Identifiers.AssertWhitelistedTable | index.js:297-303 | Passes iff the table name equals some job destination, case-insensitively. Otherwise it fails naming the table. |
| Identifiers.WhitelistIgnoresCase | index.js:299-300 | Names that differ only in case are accepted or refused together. |
| Identifiers.DefaultWhitelistAccepts | index.js:135-148 | With the default jobs, `PREBILLS_History` is accepted. |
| Identifiers.DefaultWhitelistRefuses | index.js:135-148 | With the default jobs, `users` is refused. |
| Identifiers.QuoteIdent | index.js:305-308 | SQL Server reads `sqlQuoteIdent(n)` back as exactly n: stripping the brackets and un-doubling `]]` gives back n, whatever n holds. |
| Identifiers.QuoteIdentInjective | index.js:305-308 | Different names always quote differently. |
| Identifiers.QuoteClosingBracket | index.js:307 | `a]b` is quoted as `[a]]b]`. |
| Identifiers.NoBracketUnchanged | index.js:307 | A name without `]` is only wrapped in brackets. |
| Athena.BackoffBounds | index.js:328-335 | Every pause lies in [1500, 8000] ms and never shrinks. From the 14th poll on it is 8000. |
| Athena.SettledAt | index.js:325-336 | The first status that is neither QUEUED nor RUNNING, if any. Every status before it is QUEUED or RUNNING. |
| Athena.LastPage | index.js:343-357 | The first page without a (non-empty) next token, if any. Every page before it carries one. |
| Athena.FetchOutcome | index.js:314-360 | A "query failed" error only reports FAILED or CANCELLED. A client error happens exactly when the status script ends while the query is still pending, or when the query succeeded and the page script ends before a page without a token. |
| Athena.PollUntilSettled | index.js:325-336 | The poll loop stops at the first state that is neither QUEUED nor RUNNING, and returns it. The k-th pause is `min(1500 + 500k, 8000)`. |
| Athena.ReadAllPages | index.js:343-357 | The paging loop reads pages until one has no (or an empty) next token, and returns the rows of all pages read, in order. |
| Athena.FetchAllResults | index.js:314-360 | The result is the polling outcome followed by the paging outcome, and the pauses are the backoff sequence. |
| Athena.FetchFailsUnlessSucceeded | index.js:338-340 | Fetching succeeds iff the settled state is SUCCEEDED and the paging ends. A settled state other than SUCCEEDED raises "query failed". |
| Athena.FetchedRowsFollowPages | index.js:352-357 | The rows are those of the first page followed by those of the later pages, in page order. |
| Athena.ConcatRowsAppend | index.js:355 | Concatenating page rows distributes over splitting the page list. |
| Athena.MissingCellsAreNull | index.js:352-354 | A cell without `VarCharValue` becomes null, and a present one becomes its text. Rows and cells keep their count and position. |
| Schema.MissingHeaders | index.js:396-398 | A header is kept iff its lower-case form is not an existing column name. |
| Schema.MissingHeadersAppend | index.js:396-398 | The filter distributes over concatenation, so the missing headers keep header order. |
| Schema.AddColumnsPassIff | index.js:398-405 | The ALTER loop goes through iff every name is non-empty, none is a column already, and no two are equal without case. It then appends all of them as text columns, in order. |
| Schema.CreateColumns | index.js:377-388 | The CREATE TABLE succeeds iff there is at least one header, the headers are non-empty and differ without case, and none is `snapshot_date`. The table then has the headers as text columns, then `snapshot_date`. No headers is a syntax error. |
| Schema.Reconcile | index.js:366-413 | A missing table is created as `Schema.CreateColumns` says, with no rows. A refused CREATE changes nothing. An existing table keeps its place and every table name stays. After success the table exists. |
| Schema.ReconcileOnlyAdds | index.js:388-411 | On an existing table, success or failure never drops, renames, retypes or reorders a column. It never touches stored rows or any other table. |
| Schema.ReconcileCovers | index.js:366-412 | After a successful run, every header and `snapshot_date` are columns, compared without case. |
| Schema.ReconcileAppendsInHeaderOrder | index.js:398-411 | A successful run on an existing table appends the missing headers as text columns in header order, then `snapshot_date` if it was missing. |
| Schema.ReconcileIdempotent | index.js:366-412 | A second run with the same headers right after a successful one changes nothing and succeeds. |
| Schema.AddColumnsAppends | index.js:398-405 | The ALTER loop appends a prefix of the missing headers, and all of them when no statement fails. |
| SqlServer.Warehouse.AlterAdd | index.js:400-410 | An ALTER ADD of an empty name fails. An ALTER ADD of a name already present fails as a duplicate. A NOT NULL column cannot be added to a table with rows. Otherwise the column is appended. |
| SqlServer.Warehouse.EnsureTableWithColumns | index.js:366-413 | The outcome and the new tables are those of `Schema.Reconcile`. ALTERs issued before a failing one stay applied. |
| SqlServer.Warehouse.AlterMissing | index.js:398-405 | One ALTER per missing header, in order. The outcome and the new tables are those of `Schema.AddColumns`, so a failing ALTER ends the loop and the earlier ones stay applied. |
| Loader.Load | index.js:536-639 | At most one row returns nothing. A null header throws. A missing table, or one without a `snapshot_date` column, makes the DELETE throw. None of these changes the warehouse or sends anything. Otherwise the DELETE runs and the bulk table is sent. The load returns a summary iff the warehouse accepts the bulk. If it refuses, the load throws with today's rows already deleted. |
| Loader.LoadReplacesToday | index.js:563-632 | When the bulk declares one column per value, after a load the rows dated today are exactly the rows sent, and rows of other days are unchanged. Columns and other tables are untouched. `inserted` is `rows.length - 1`. |
| Loader.LoadIgnoresStoredRows | index.js:553-621 | The load reads the destination's columns, never its rows. Two warehouses that differ only in that table's rows get the same result and the same bulk table. |
| Loader.LoadIdempotent | index.js:563-632 | When the bulk declares one column per value, loading the same rows twice on one day leaves the warehouse as loading them once. |
| Loader.ValidHeaders | index.js:560-562 | A header is insertable iff the table has a column of that name, compared without case. The k-th insertable header is the header at the k-th valid position, and those positions increase. |
| Loader.CellsFollowValidHeaders | index.js:603-613 | The k-th value of a built row is the cell under the k-th valid header, converted with that header's mapping. A short row gives `undefined`. |
| Loader.RowShape | index.js:600-619 | Each built row holds one value per valid header, then the snapshot date. |
| Loader.BulkAlignedIff | index.js:587-599 | The bulk table declares only mapped names. It declares as many columns as a row has values iff every valid header and `snapshot_date` have a mapping, and fewer otherwise. |
| Loader.DeclaredColumns | index.js:587-599 | The bulk table declares at most one column per insertable name. Each declared name is insertable and mapped, and is declared with its mapped type. Every insertable name that has a mapping is declared. |
| Loader.DeclaredColumnsAppend | index.js:587-599 | Declaring distributes over concatenation, so the declared columns keep the order of the insertable names. |
| Loader.HeaderTexts | index.js:560-561 | The headers are names iff every header cell is text, and then they are those texts. |
| Loader.RecordsNotOn | index.js:565-572 | The DELETE keeps a stored row iff it is not dated today. |
| Loader.RecordsNotOnAppend | index.js:565-572 | The DELETE distributes over concatenation, so the kept rows stay in order and duplicates from other days all stay. |
| Loader.DeleteDay | index.js:565-572 | The DELETE changes only the destination's rows: same table names, same columns, other tables untouched, and a row stays iff it is not dated today. |
| SqlServer.Warehouse.BulkInsertToSql | index.js:536-639 | The result, the bulk table sent and the new tables are those of `Loader.Load`, failures included. |
| SqlServer.Warehouse.ReplaceDay | index.js:563-632 | The DELETE runs, then the bulk table of `Loader.BulkFor` is sent. If the warehouse accepts it, its rows are stored stamped with today and a summary is returned. If not, the call fails with today's rows already deleted. |
| SqlServer.Warehouse.DeleteDayRows | index.js:565-572 | The new tables are `Loader.DeleteDay` of the old ones. |
| SqlServer.Warehouse.AppendRows | index.js:627 | The accepted rows are stored after the existing ones, stamped with the snapshot day. Nothing else changes. |
| SqlServer.DeclareColumns | index.js:587-599 | The declared columns are the insertable names that have a mapping, with that type, in order. |
| SqlServer.FilterRow | index.js:600-616 | The built row is `Loader.BuildRow`: the converted cells of the valid headers, then the snapshot date. |
| SqlServer.BuildBulkRows | index.js:600-619 | One built row per data row, in order. |
| Runner.RunJob | index.js:698-717 | Each job leaves exactly one entry, except when the load returned nothing. That job appears in `ok` and also in `errs` (reading `res.inserted` throws). A job that fails before the DELETE leaves the warehouse as it found it. A job whose bulk call is refused leaves exactly today's rows of its destination deleted. No job adds or drops a table. A successful load appears only in `ok`, under the job's name and table. |
| Runner.RunOneJob | index.js:699-716 | One pass of the job loop: the entries it pushes and the new tables are those of `Runner.RunJob`. |
| Runner.RunJobs | index.js:698-718 | Each list holds at most one entry per job, and the set of tables is unchanged. Each job loads on its own day. |
| Runner.RunSnapshot | index.js:693-718 | The `ok` and `errs` lists and the new tables are those of `RunJobs`, which runs the jobs in order. |
| Runner.RunJobsAppendOnly | index.js:698-718 | Later jobs only append: the entries of the first k jobs are a prefix of the entries of the whole run. |
| Runner.RunJobsCounts | index.js:698-718 | `ok` plus `errs` holds one entry per job, plus one per job whose load returned nothing. |
| Runner.FailedFetchIsolated | index.js:698-718 | A job whose query fails adds one error entry in its place. Given the same day for each other job, every other job reports and changes the warehouse as if the failed job were absent. How long the failed job polled can change which day later jobs read; the lemma takes those days as given. |

## Left out

- The AWS SDK, the mssql connection pool and the nodemailer transport are external I/O. Athena is a scripted remote, and the warehouse is an in-memory map of tables.
- `sendSummaryEmail` is not modelled: HTML and subject formatting, then SMTP. The model stops at the `ok` and `errs` lists it is given.
- `sleep`, timing, the cron scheduler and its time zone, `RUN_ON_START`, `ONE_SHOT`, `RESTART_ON_ERROR`, `process.exit` and `setTimeout` are process lifecycle. The poll pauses are returned as a list of milliseconds instead of being slept.
- Athena.PollUntilSettled: the source can poll forever while Athena keeps answering RUNNING. Here the script ends, and the next request fails as a client error would.
- Overlapping cron-triggered runs are a concurrency concern and are not modelled.
- The JavaScript `Date` parser, `toISOString`, `parseFloat` and IEEE double arithmetic are not modelled. They are functions supplied in `Runtime`, and numbers are unbounded reals: precision above 2^53 is not modelled.
- JsText.ParseInt reads leading ECMAScript white space, an optional sign, the `0x` prefix and digits. It does not model the loss of precision in numbers beyond 2^53.
- JsText.Lower lower-cases ASCII letters only. Full Unicode case mapping is not modelled.
- Loader.Load: `customMappings[header]` is a plain object lookup, so names such as `constructor` would find an inherited member. The model only looks up the mapping's own keys.
- Loader.Load stores each accepted row as it was sent, dated today. Whether the driver and SQL Server accept a bulk table is a parameter (`Runtime.bulkAccepts`), and why they would refuse one is not modelled.
- Loader.Load: nothing in the program checks that the declared columns line up with the values of each row. When a valid header or `snapshot_date` has no type mapping, a row carries more values than the bulk declares columns (`Loader.BulkAlignedIff`). What the driver then stores is decided by the driver's positional filling, not by this program, and is not modelled: the model still stores such a row dated today.
- Loader.LoadReplacesToday: stated only for loads whose bulk declares one column per value (`Loader.SendsAligned`), because for a misaligned bulk the stored `snapshot_date` is not determined by this program.
- Loader.LoadIdempotent: stated only for loads whose bulk declares one column per value (`Loader.SendsAligned`), for the same reason: for a misaligned bulk the second DELETE need not remove the first load's rows.
- Loader.Load: destination names are compared exactly. Under SQL Server's default case-insensitive collation, a table whose name differs only in case would be found; the model reports it missing.
- Loader.Load: the valid columns are those of the destination table in the warehouse model. The COLUMNS query at index.js:556 filters only on `TABLE_NAME`, not on `TABLE_SCHEMA`, so same-named tables or views in other schemas would add their columns too; the model has only the `dbo` schema.
- Loader.Load: failures of the INFORMATION_SCHEMA query and of the connection are not modelled. A table that is not found there gives no valid columns, and the DELETE then fails on it anyway.
- Schema.Reconcile models these statements the warehouse refuses: a duplicate column name, a NOT NULL column added to a table that has rows, an empty column name, and a CREATE TABLE with no header columns. Other SQL Server errors (such as names longer than 128 characters), an empty table name, collation beyond ASCII case, and table names that differ only in case are not modelled.
- The `console` logging, including the warning for an invalid date, is not modelled.
- Environment variables other than the job overrides, `SCHEDULE_MODE` and `NOTIFY_TO` are not modelled. This covers the AWS, SQL and SMTP settings and the Athena database, workgroup and output location.
- The commented-out `bulkInsertToSQL` variants (index.js:415-533) and the unused `tableTypeMappings` (index.js:150-212) are dead code.
- `ecosystem.config.js` and `ecosystem.config.cjs` are PM2 process settings with no logic.
