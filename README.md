# gcp-wallet-exporter: the exporter core in Dafny

This project models the exporter of gcp-wallet-exporter, which exports one
bank card's statement at a time:

1. It reads the checkpoint `lastExportTime` from `<caption>/settings.json` in a
   cloud bucket.
2. It computes the next export period of whole days.
3. It fetches the bank's transactions for that period.
4. When there are any, it writes the statement CSV next to the checkpoint and
   mails it.
5. In every successful run it then stores the end of the period as the new
   checkpoint.

The model proves properties of each of these steps. The modules follow the
source files:

| module (file) | source |
|---|---|
| `Calendar` (calendar.dfy) | the JavaScript `Date` arithmetic the time manager relies on (ECMA-262 section 21.4.1) and the `dateformat` patterns `yyyy-mm-dd`, `dd.mm.yyyy` and `yyyy-mm-dd HH:MM:ss` |
| `Strings` (strings.dfy) | decimal text, `padStart`, `join`, `substring`, `split('.').join('')`, the relational order of strings, and the global `parseInt` (ECMA-262 section 19.2.5) |
| `TimeManager` (time_manager.dfy) | `src/TimeManager.ts` |
| `Transactions` (transactions.dfy) | the `Transaction`/`TransactionData` records, the sorted copy, the money text and the row formatting shared by the two generators |
| `StatementGenerator` (statement_generator.dfy) | `src/exporter/StatementGenerator.ts` |
| `CsvGenerator` (csv_generator.dfy) | `src/exporter/CsvGenerator.ts` |
| `Monobank` (monobank.dfy) | `src/exporter/banks/monobank/MonobankClient.ts` |
| `Privatbank` (privatbank.dfy) | `src/exporter/banks/privatbank/PrivatbankClient.ts` |
| `StatementExporter` (exporter.dfy) | `src/exporter/StatementExporter.ts` |

## Instants and oracles

Instants are integers: milliseconds since 1970-01-01 on the local timeline of
the configured zone. With the zone at UTC these are exactly the epoch values
`getTime()` returns; for other zones see "## Left out". The clock
(`new Date()`) is a parameter. `buildExportStartDate` and
`buildExportEndDate` each read it once, so a period depends on two readings,
`nowStart` and `nowEnd`. The
setters `setMonth`, `setDate` and `setHours` follow ECMAScript's MakeDay and
MakeDate over a proleptic Gregorian calendar, so JavaScript's month overflow
is modelled too.

Code the core calls but does not define is a function parameter:
- the Monobank `/personal/client-info` answer `clientInfo`;
- the statement answer `statement` for a request path;
- the merchant-category-code lookup `mccLookup`;
- the Privatbank XML body builder `bodyXml`, the hex digests `md5Hex` and
  `sha1Hex`, and the answer `respond` to a request;
- the generators' `dateformat` call `formatDatetime`;
- the exporter's bank client `fetch`;
- the CSV serialiser `serialize`.

A thrown error becomes the `Err` case of a `Result`.

The imperative code keeps its form:
- `buildExportStartDate` and the day-stepping loop of `buildExportEndDate` are
  methods, proved against the functions `ExportStartDate` and `ExportEndDate`,
  about which the period lemmas are proved.
- `isCardNumberMatchesWithMask` is a method with a loop.
- `getAccoundId` is a loop that sets the `accountId` field of the class
  `MonobankClient`.
- `formatTransactionDescription` pushes parts onto a sequence.
- The exporter is the class `StatementExporter`. Its field `storage` maps the
  bucket's paths to file contents, and `log` records every file written and
  every mail sent, in order.
- `Run` is proved against the function `RunOutcome`, which gives the result
  and the effects of a run.

## Model

| member | source | states |
|---|---|---|
| TimeManager.BuildExportPeriod | src/TimeManager.ts:12-74 | the start is computed from the clock reading `nowStart` and the end from that start and the later reading `nowEnd`; the period is the pair, and the first failure is the result |
| TimeManager.BuildExportStartDate | src/TimeManager.ts:19-47 | the setter chain on a copy of `now` and the midnight check return exactly `ExportStartDate` |
| TimeManager.BuildExportEndDate | src/TimeManager.ts:49-74 | the `while (true)` loop stops. It steps whole days, keeps the time of day, and never leaves the start's month (variant: days left in the month). The final step back and guard return exactly `ExportEndDate` |
| TimeManager.StartDateCases | src/TimeManager.ts:19-46 | the start fails, with `InvalidStartDate`, exactly when a nonzero checkpoint is not followed by a midnight. Every start returned is a midnight, and after a checkpoint it is `lastExportTime + 1` |
| TimeManager.FirstRunStart | src/TimeManager.ts:25-31 | a first run starts at 00:00:00.000 on day 1 of the month `maxMonthsToExport` months before `now`'s month. When `now`'s day does not exist in that month, it starts one month later |
| TimeManager.FirstRunMonthIndex | src/TimeManager.ts:28-29 | the month `setMonth(getMonth() - k)` lands in is k months back, plus one on day overflow |
| TimeManager.FirstRunSetters | src/TimeManager.ts:27-30 | `setMonth`, `setDate(1)` and `setHours(0, 0, 0, 0)` land on midnight of the first day of that month |
| TimeManager.SetMonthLands | src/TimeManager.ts:28 | `setMonth(month)` lands on day `getDate()` of the normalised month, or on the next month when that day does not exist |
| TimeManager.MidnightEndDate | src/TimeManager.ts:49-74 | for a midnight start, the end is 23:59:59.999 of the last day that is over before `now` and in the start's month. It fails with `TryLater` when that day is before the start's day |
| TimeManager.TryLaterIff | src/TimeManager.ts:66-71 | the end fails exactly when the start's own day is not over before `now`, and the failure is `TryLater` |
| TimeManager.EndDateDay | src/TimeManager.ts:51-64 | a successful end is at 23:59:59.999, between the start's day and the month's last day, over before `now`, and is the last day of the month or the last past day |
| TimeManager.EndDateBounds | src/TimeManager.ts:8-11 | `startDate <= endDate < now`, and the period spans fewer than 31 days |
| TimeManager.EndDateInMonth | src/TimeManager.ts:58 | the end is in the start's year and month |
| TimeManager.EndDateMaximal | src/TimeManager.ts:55-63 | the end of the following day is not before `now` or is in another month |
| TimeManager.PeriodShape | src/TimeManager.ts:8-17 | a returned period goes from a midnight to 23:59:59.999 of a day of the same month, is before the end's reading `nowEnd`, is 1 to 31 days long, and is maximal with respect to `nowEnd` |
| TimeManager.PeriodErrors | src/TimeManager.ts:12-71 | the period fails with `InvalidStartDate` exactly when the start (at `nowStart`) fails, and with `TryLater` exactly when the start's day is not over at `nowEnd`; it succeeds otherwise |
| TimeManager.ResumeAfterPeriod | src/TimeManager.ts:22-24 | the end of a period, stored as the next checkpoint, is nonzero, and the next start is the next midnight, whatever the clock says then |
| TimeManager.FirstRunExample | src/TimeManager.ts:8-11 | a first run at noon on 15 March, reaching back two months, with both readings at that instant, exports 1 January 00:00:00.000 to 31 January 23:59:59.999 |
| TimeManager.ClockTickExample | src/TimeManager.ts:25-71 | the two readings differ in effect: a first run reaching back one month whose start reads 31 March 23:59:59.999 starts on 1 March (the `setMonth` overflow). It ends on 31 March when the end reads one millisecond later, and on 30 March when both readings are the same |
| Calendar.StartOfDayIff | src/TimeManager.ts:33-38 | hours + minutes + seconds + milliseconds is 0 exactly at a midnight |
| Calendar.SetDateBy | src/TimeManager.ts:55 | `setDate(getDate() + delta)` moves by `delta` whole days |
| Calendar.CivilOfMakeDay | src/TimeManager.ts:28-29 | the date of a valid day built by MakeDay is that valid day |
| Calendar.DmyTextFields | src/exporter/banks/privatbank/PrivatbankClient.ts:49-51 | for a 4-digit year, `dd.mm.yyyy` is 10 characters with points at positions 2 and 5, and its digit fields read back as the day, the month counted from 1, and the year |
| Calendar.FormatYmdInjective | src/exporter/StatementExporter.ts:112-116 | for 4-digit years, two instants have the same `yyyy-mm-dd` text exactly when they fall on the same date |
| Strings.ParseIntOfDigits | src/exporter/banks/privatbank/PrivatbankClient.ts:107 | `parseInt` of a run of decimal digits is their value |
| Strings.ParseIntStopsAtNonDigit | src/exporter/banks/privatbank/PrivatbankClient.ts:107 | after two or more leading decimal digits, `parseInt` ignores everything from the first non-digit on (a lone `0` before `x` would switch to hexadecimal) |
| Strings.StrLessOrEqualTotal | src/exporter/StatementGenerator.ts:28-30 | the `>` of strings that the comparator uses gives a total order |
| Strings.StrLessOrEqualTransitive | src/exporter/StatementGenerator.ts:28-30 | that order is transitive |
| Transactions.SortByDatetime | src/exporter/StatementGenerator.ts:28-30 | the sorted copy is non-decreasing by `datetime` and a permutation of the input (the input is a value and stays as it was) |
| Transactions.InsertSorted | src/exporter/StatementGenerator.ts:28-30 | inserting with the comparator keeps a sorted list sorted |
| Transactions.FormatAmountOfMoney | src/exporter/StatementGenerator.ts:87-89 | `(amount / 100).toFixed(2)` in integer arithmetic: the minus sign exactly for negative amounts, then at least one decimal digit and nothing else up to the point, then exactly two digits |
| Transactions.AmountOfMoneyParsesBack | src/exporter/StatementGenerator.ts:87-89 | the text denotes exactly amount/100: without its point, `parseInt` reads it back as `amount` |
| Transactions.AmountOfMoneyExample | src/exporter/StatementGenerator.ts:87-89 | 12345 is written `123.45` |
| Transactions.NegativeAmountOfMoneyExample | src/exporter/StatementGenerator.ts:87-89 | -500 is written `-5.00` |
| Transactions.FormatTransaction | src/exporter/StatementGenerator.ts:67-85 | the id and description pass through; the datetime is formatted |
| Transactions.FormatTransactionSplit | src/exporter/StatementGenerator.ts:68-75 | income is filled exactly when `amount > 0`, expense exactly when `amount <= 0` (zero included), and an expense keeps its minus sign |
| Transactions.FormatTransactionReadsBack | src/exporter/StatementGenerator.ts:77-84 | the filled money column reads back as the amount, and the always-written balance as the balance |
| Transactions.FormatAll | src/exporter/StatementGenerator.ts:32-34 | the `map`: one row per transaction, in order |
| Transactions.FormatSortedPermutation | src/exporter/StatementGenerator.ts:28-34 | sorting first changes only the order of the rows |
| Transactions.Rows | src/exporter/StatementGenerator.ts:46-54 | one row of six cells per record, in order |
| Transactions.RowOf | src/exporter/StatementGenerator.ts:67-85 | cell by cell: id, formatted datetime, income/expense split, read-back money, description |
| StatementGenerator.GenerateStatementFile | src/exporter/StatementGenerator.ts:27-44 | fails with `InvalidFileFormat` exactly for formats other than `csv` and `xlsx`. `csv` gives a CSV table and `xlsx` a worksheet, each with one row per transaction |
| StatementGenerator.GeneratedHeader | src/exporter/StatementGenerator.ts:17-24 | the CSV header is Id, Datetime, Income, Expense, Balance, Description, also when there are no transactions. A worksheet has the property names as its header, and none when there are no records |
| StatementGenerator.GeneratedRows | src/exporter/StatementGenerator.ts:28-34 | one row per transaction. The rows are those of a sorted permutation of the input, in that order, and as a multiset they are the rows of the input |
| StatementGenerator.GeneratedIncomeExpense | src/exporter/StatementGenerator.ts:68-75 | in every row, income is filled exactly when the amount is positive, expense exactly when it is not |
| CsvGenerator.GenerateStatementCsv | src/exporter/CsvGenerator.ts:14-30 | a CSV table with the caption header and one row per transaction |
| CsvGenerator.SameAsStatementCsv | src/exporter/CsvGenerator.ts:14-54 | the older generator writes exactly the file that the `csv` branch of `generateStatementFile` writes |
| CsvGenerator.CsvRow | src/exporter/CsvGenerator.ts:32-50 | row `i` is the formatted `i`-th transaction of a sorted permutation: id and description pass through, the income/expense split holds, and money reads back |
| Monobank.IsCardNumberMatchesWithMask | src/exporter/banks/monobank/MonobankClient.ts:121-137 | true exactly when the lengths are equal and every non-`*` position of the mask holds the card's character |
| Monobank.MaskWithoutStars | src/exporter/banks/monobank/MonobankClient.ts:126-136 | a mask without `*` matches exactly the card equal to it |
| Monobank.MaskWidening | src/exporter/banks/monobank/MonobankClient.ts:126-136 | replacing mask characters by `*` keeps every match |
| Monobank.FirstEligible | src/exporter/banks/monobank/MonobankClient.ts:101-107 | the first account in list order whose non-empty first mask matches; none when no account has one |
| Monobank.MonobankClient.constructor | src/exporter/banks/monobank/MonobankClient.ts:27-37 | the bank name and card are stored, with no resolved account and nothing requested yet |
| Monobank.MonobankClient.GetAccountId | src/exporter/banks/monobank/MonobankClient.ts:92-119 | a cached id is returned without a request. Otherwise the client info is requested once and the first eligible account's id is cached and returned. When there is none, the call fails and the cache stays empty |
| Monobank.ResolveTwice | src/exporter/banks/monobank/MonobankClient.ts:116-118 | after one successful resolution, later calls return the same id, whatever the client info then says |
| Monobank.FormatTransactionDescription | src/exporter/banks/monobank/MonobankClient.ts:74-90 | the description, then the non-empty comment, then the category of a nonzero known mcc, joined by ` \| ` |
| Monobank.FormatTransaction | src/exporter/banks/monobank/MonobankClient.ts:61-72 | id, amount and balance are copied; the description is the enriched one |
| Monobank.FormatTransactions | src/exporter/banks/monobank/MonobankClient.ts:54-56 | one transaction per item, in order, with nothing filtered |
| Monobank.MonobankClient.GetTransactions | src/exporter/banks/monobank/MonobankClient.ts:47-59 | resolves the account and requests `/personal/statement/<id>/<start>/<end>` after the client-info request, if one is needed. It returns the formatted items; a failed resolution requests no statement |
| Privatbank.ConvertAmountStringToCents | src/exporter/banks/privatbank/PrivatbankClient.ts:106-116 | the only failure is `InvalidAmount` (NaN) |
| Privatbank.CentsOfFormattedAmount | src/exporter/banks/privatbank/PrivatbankClient.ts:107 | every `units.cents` amount written with two decimals converts back to its cents |
| Privatbank.DecimalCents | src/exporter/banks/privatbank/PrivatbankClient.ts:107 | `w.f` with digit runs `w` and `f` converts to the value of the digits `wf` |
| Privatbank.WholeCents | src/exporter/banks/privatbank/PrivatbankClient.ts:107 | a point-free signed digit run converts to its value |
| Privatbank.NoDigitNoCents | src/exporter/banks/privatbank/PrivatbankClient.ts:107-113 | a string without a decimal digit fails with `InvalidAmount` |
| Privatbank.CentsExample | src/exporter/banks/privatbank/PrivatbankClient.ts:107 | `123.45` is 12345 |
| Privatbank.NegativeCentsExample | src/exporter/banks/privatbank/PrivatbankClient.ts:107 | `-5.00` is -500 |
| Privatbank.OneDecimalExample | src/exporter/banks/privatbank/PrivatbankClient.ts:107 | `123.4` is 1234 |
| Privatbank.TrailingGarbageExample | src/exporter/banks/privatbank/PrivatbankClient.ts:107 | `12a.45` is not rejected: it is 12 |
| Privatbank.EmptyAmountExample | src/exporter/banks/privatbank/PrivatbankClient.ts:109-113 | `""` fails |
| Privatbank.LettersAmountExample | src/exporter/banks/privatbank/PrivatbankClient.ts:109-113 | `abc` fails |
| Privatbank.PointAmountExample | src/exporter/banks/privatbank/PrivatbankClient.ts:109-113 | `.` fails |
| Privatbank.FormatStatement | src/exporter/banks/privatbank/PrivatbankClient.ts:92-104 | succeeds exactly when both amounts convert. Then id = appcode, amount and balance are the converted cardamount and rest, datetime = `trandate + " " + trantime`, and the description is unchanged |
| Privatbank.FormatStatementOfTransaction | src/exporter/banks/privatbank/PrivatbankClient.ts:92-104 | a row written from a transaction, with the generators' money text, gives that transaction back |
| Privatbank.MapAll | src/exporter/banks/privatbank/PrivatbankClient.ts:85-87 | `map` with a throwing callback: success exactly when every element succeeds, the results in order; otherwise the error of a failing element |
| Privatbank.FormatStatements | src/exporter/banks/privatbank/PrivatbankClient.ts:85-89 | success exactly when every row converts; then one transaction per row, in row order; otherwise `InvalidAmount` |
| Privatbank.PrivatbankClient.StatementRequest | src/exporter/banks/privatbank/PrivatbankClient.ts:66-73 | version `1.0`, the merchant id, the payload, and the signature `sha1Hex(md5Hex(bodyXml(data) + password))` over the payload only |
| Privatbank.PaymentDataShape | src/exporter/banks/privatbank/PrivatbankClient.ts:49-64 | the payload is `cmt`/`0`/`0` with exactly `sd`, `ed`, `card` in that order. `card` is the card number, and, for instants in years 0 to 9999, both dates are `dd.mm.yyyy` texts that read back as the start and end dates |
| Privatbank.SignatureIgnoresEnvelope | src/exporter/banks/privatbank/PrivatbankClient.ts:118-131 | the signature depends only on the payload and the password: it is the same for any merchant id or bank name |
| Privatbank.PrivatbankClient.GetStatements | src/exporter/banks/privatbank/PrivatbankClient.ts:48-90 | a missing response or one with an error fails with `InvalidResponse`. A missing statement node is an empty list. Otherwise every row is formatted |
| Privatbank.StatementRows | src/exporter/banks/privatbank/PrivatbankClient.ts:83-89 | a successful statement answers a valid response, has one transaction per row in row order (no date filter), and each row's fields map as `formatStatement` says |
| StatementExporter.BuildBankCaption | src/exporter/StatementExporter.ts:103-109 | bank name, `-`, and the last four characters of the card, or the whole card when it is shorter (`substring` clamps) |
| StatementExporter.StatementFileNameCases | src/exporter/StatementExporter.ts:111-121 | for instants in years 0 to 9999: `start.csv` when both fall on the same date, `start_end.csv` otherwise |
| StatementExporter.StatementNotSettings | src/exporter/StatementExporter.ts:79-85 | a statement file never overwrites the settings file |
| StatementExporter.SettingsRoundTrip | src/exporter/StatementExporter.ts:70-77 | what `setLastExportTime` writes parses back as the same time |
| StatementExporter.IntToStringParses | src/exporter/StatementExporter.ts:70-77 | an integer's decimal text reads back as the integer |
| StatementExporter.LastExportTime | src/exporter/StatementExporter.ts:62-73 | 0 when the settings file is missing or empty; the stored time otherwise; `InvalidSettings` is the only failure |
| StatementExporter.CheckpointReadsBack | src/exporter/StatementExporter.ts:62-80 | the checkpoint is read from the key it is written to, `<caption>/settings.json`, and reads back as written |
| StatementExporter.StatementExporter.constructor | src/exporter/StatementExporter.ts:24-30 | the bucket as given, and nothing written or sent yet |
| StatementExporter.StatementExporter.GetLastExportTime | src/exporter/StatementExporter.ts:62-73 | the value of `LastExportTime` for the bucket and the caption |
| StatementExporter.StatementExporter.SetLastExportTime | src/exporter/StatementExporter.ts:75-80 | writes the settings file and nothing else |
| StatementExporter.StatementExporter.SaveStatementCsvToCloud | src/exporter/StatementExporter.ts:82-86 | writes `<caption>/<file name>` and nothing else |
| StatementExporter.StatementExporter.SendStatementCsvByMail | src/exporter/StatementExporter.ts:88-101 | sends one mail, `Statement export [<caption>]`, with an empty text and the CSV as its only attachment; the bucket is unchanged |
| StatementExporter.StatementExporter.Run | src/exporter/StatementExporter.ts:37-60 | the result, the appended effects and the new bucket are those of `RunOutcome` for the old bucket and the two clock readings |
| StatementExporter.StatementExporter.RunForPeriod | src/exporter/StatementExporter.ts:39-59 | the same after the period, against `PeriodOutcome` |
| StatementExporter.StatementExporter.ExportStatement | src/exporter/StatementExporter.ts:44-59 | save, mail and checkpoint in that order when there are transactions; only the checkpoint otherwise |
| StatementExporter.RunFailures | src/exporter/StatementExporter.ts:37-39 | unreadable settings fail the run before anything is written. Otherwise the run exports the period computed from the stored checkpoint, with 0 when there is none |
| StatementExporter.PeriodFailures | src/exporter/StatementExporter.ts:39-42 | a failed period or fetch writes and sends nothing; a successful run exports exactly the computed period |
| StatementExporter.RunEffects | src/exporter/StatementExporter.ts:44-59 | without transactions only the checkpoint is written. With transactions, the statement CSV is saved, then mailed, then the checkpoint is written; the CSV has the caption header and one row per transaction |
| StatementExporter.CheckpointAfterRun | src/exporter/StatementExporter.ts:59 | after a successful run, the checkpoint reads back as the end of the period, whether or not a statement was written |
| StatementExporter.ExportCheckpoint | src/exporter/StatementExporter.ts:44-59 | the checkpoint is the last write of an export |

## Left out

- I/O: HTTP, XML, Google Cloud Storage and nodemailer are not modelled. The bank answers, the XML builder and the hashes are parameters; the bucket is a `map` field and the mails are entries of `log`. Asynchrony and the logger are left out, and the runs are sequential.
- StatementExporter.StatementExporter.SaveStatementCsvToCloud: always succeeds, and so do `SendStatementCsvByMail` and the bucket read in `GetLastExportTime`. In the source `saveFile`, `send`, and `getFile` on any error but 404 can throw, which ends `run` before `setLastExportTime`; the model has no such failure.
- Time zones: `setGlobalTimeZone`/`initGlobalTimeZone` set `process.env.TZ`. The model works on the zone's local timeline and leaves daylight-saving changes out.
- StatementExporter.SettingsJson: the source stores `endDate.getTime()`, Monobank's path carries `getTime()` of both dates, and Monobank's `time * 1000` is rendered by `dateFormat` in the local zone. All three are UTC epoch values, whereas the model writes and formats local-timeline values. So the settings text, the numbers in the statement path and the Monobank datetime text agree with the source only when the zone is UTC; otherwise they differ by the zone's offset. A checkpoint still reads back as the same instant, since it is written and read on the same timeline.
- `init` and `verifyConnection` of the exporter are not modelled; they only set the zone and test the mail connection.
- `dateformat` in the generators (`dd-mm-yyyy HH:MM:ss` in UTC) is the parameter `formatDatetime`. The patterns the exporter and the bank clients use are modelled.
- Transactions.FormatTransaction: `formatDatetime` never fails. In the source, `dateFormat` throws `TypeError("Invalid date")` on a datetime string it cannot parse, which ends `generateStatementCsv` and so `run` before the save, the mail and `setLastExportTime`; the same period is then retried on the next run. The model has no such failure, so `RunEffects` and `CheckpointAfterRun` describe only runs whose datetimes all parse.
- csv-stringify, the XLSX workbook and the Buffer are not modelled: a statement file is the table of cells handed to the serialiser. The exporter's serialiser is the parameter `serialize`.
- Numbers are unbounded integers. The float division in `toFixed(2)` is modelled as exact integer formatting. Precision loss above 2^53 and `toFixed`'s exponent form from 10^21 are left out. So is the range of a JavaScript `Date`, ±8.64e15 ms: beyond it `new Date(lastExportTime + 1)` is an Invalid Date and `buildExportStartDate` throws, while the model computes a calendar date for any integer checkpoint.
- The order of transactions with equal datetimes is left out. The comparator never returns 0, so that order is up to the engine's sort; the model proves only sorted plus permutation.
- Privatbank: a single `statement` node that is not a list, a response without `data.info.statements`, and Monobank's failing HTTP requests are outside the model. The source throws a TypeError or an HTTP error there.
- StatementExporter.LastExportTime: only the layout `{"lastExportTime":<integer>}`, which `setLastExportTime` writes, is read. Any other non-empty text is `InvalidSettings`, whereas the source takes whatever `JSON.parse(...).lastExportTime` yields.
- StatementExporter.StatementExporter.Run: the bank client is the parameter `fetch`. The exporter calls `getTransactions`, which the Privatbank client does not define (it has `getStatements`), so both are treated as the same fetch. The caption takes the bank name and the card number as fields instead of calling the client.
- StatementExporter.StatementExporter.Run: `src/exporter/TimeManager.ts` is not part of this model. The exporter builds that time manager from its options and calls its one-argument `buildExportPeriod(lastExportTime)`. The model assumes it behaves like the two-argument `buildExportPeriod` of `src/TimeManager.ts`, with `maxMonthsToExport` taken from the exporter's options.
- Monobank.FormatTransaction: its contract does not state the datetime text. The body writes `dateFormat(time * 1000, 'yyyy-mm-dd HH:MM:ss')` as `FormatYmdHms` of `time * 1000` taken as a local-timeline instant, which matches the source only in UTC (see the SettingsJson line), and no lemma is proved about that text.
- Monobank.MonobankClient.GetTransactions: `getTransactions` takes dates and reads `getTime()`; the model takes the two millisecond values directly.
- `getBankName` and `getCardNumber` of both clients only return the configured fields. The model reads the fields `bankName` and `cardNumber` directly.
- The superseded copies (`src/banks/**`, `src/monobank/**`, `src/privatbank/**`, `src/StatementExporter.ts`), `src/index.ts`, and the `confme` factories `src/banks/index.ts` and `src/exporter/banks/index.ts` are not modelled.
