# CalculateSales in Dafny

A model of the branch sales aggregator `CalculateSales`. The program reads a
branch definition file `branch.lst` (lines `code,name`). It then picks the
daily sales files `NNNNNNNN.rcd` from the same directory, checks that their
serial numbers are consecutive, and adds each file's amount to its branch's
total. A total must stay below 10,000,000,000 (at most ten digits).
Finally it writes `branch.out` with one line `code,name,total` per branch. The first failure stops the run
with its console message, or, for an amount `Long.parseLong` cannot read,
with an uncaught exception; in either case no summary is written.

The model is pure Dafny: the directory is a sequence of entries
(`name`, `isFile`, the lines `readLine` would return). Each stage is a
function or a short method that returns a `Result`. Errors are the
`Types.ErrorKind` datatype: one constructor per console message, plus
`AmountNotParsable` for the uncaught parse exception.

| file | module | models |
|---|---|---|
| `wrappers.dfy` | `Wrappers` | `Option`, `Result` (usable with `:-`) |
| `text.dfy` | `Text` | `[0-9]`, `Long.parseLong`/`Long.toString` on digits, `String.split(",")`, `String.compareTo` |
| `types.dfy` | `Types` | error kinds, directory entries, the two branch maps |
| `branch_master.dfy` | `BranchMaster` | `readFile`: loading `branch.lst` |
| `sales_files.dfy` | `SalesFiles` | file selection, sort and serial-number loop in `main` |
| `sales_accumulator.dfy` | `SalesAccumulator` | the aggregation loop in `main`, the cap of 10^10 on a total |
| `report.dfy` | `Report` | `writeFile`: the summary lines |
| `calculate_sales.dfy` | `CalculateSales` | `main`: the whole run |

Points where the code's behaviour is easy to misread, all modelled as the code behaves:

- `item[0].matches("^[0-9]{3}")` must match the whole field, so the branch code is exactly three digits; `0012,X` is rejected.
- `split(",")` drops trailing empty fields, so `001,Tokyo,,` is accepted as `001`/`Tokyo`. An empty line gives one field and is rejected.
- An empty amount line passes `^[0-9]*$`, but `Long.parseLong("")` then throws an uncaught `NumberFormatException`. A digit string above `Long.MAX_VALUE` throws the same way. Both end the run as `AmountNotParsable`; neither is read as 0.
- Both maps are `HashMap`s, so summary rows come in an unspecified order; the contracts are order-free.

## Model

| member | source | states |
|---|---|---|
| `Text.SplitOnComma` | src/jp/alhinc/calculate_sales/CalculateSales.java:182 | `split(",")` yields comma-free fields, a string without a comma is its own single field, and after a split the last field kept is never empty |
| `Text.SplitOnCommaRestores` | src/jp/alhinc/calculate_sales/CalculateSales.java:182 | splitting loses nothing but trailing commas: the fields joined with commas, plus some commas, give back the line; no field at all means the line was commas only |
| `BranchMaster.ParseBranchLine` | src/jp/alhinc/calculate_sales/CalculateSales.java:182-187 | an accepted line yields a code of exactly three digits and a non-empty, comma-free name |
| `BranchMaster.BranchLineShape` | src/jp/alhinc/calculate_sales/CalculateSales.java:182-187 | an accepted line is its code, a comma, its name, and nothing after that but commas |
| `BranchMaster.BranchLineAccepted` | src/jp/alhinc/calculate_sales/CalculateSales.java:182-191 | conversely, every line of that shape is accepted with exactly that code and name |
| `BranchMaster.Register` | src/jp/alhinc/calculate_sales/CalculateSales.java:178-192 | the first rejected line aborts with the invalid-format error; after success both maps have the same keys, every total is 0, and every entry is a well-formed code and name |
| `BranchMaster.LoadBranches` | src/jp/alhinc/calculate_sales/CalculateSales.java:178-192 | loading the file's lines fails only with the invalid-format error; after success both maps have the same keys, every total is 0, and every entry is a well-formed code and name |
| `BranchMaster.LoadSucceedsIff` | src/jp/alhinc/calculate_sales/CalculateSales.java:178-192 | the load succeeds iff every line of the file is accepted |
| `BranchMaster.LoadedCodes` | src/jp/alhinc/calculate_sales/CalculateSales.java:189-191 | the registered branches are exactly the codes appearing on the file's lines |
| `BranchMaster.LastLineWins` | src/jp/alhinc/calculate_sales/CalculateSales.java:189-191 | a repeated code keeps the name from its last line |
| `BranchMaster.FindEntry` | src/jp/alhinc/calculate_sales/CalculateSales.java:170-171 | the lookup finds nothing exactly when no entry has the name, and what it finds is an entry of the listing with that name |
| `BranchMaster.LoadMaster` | src/jp/alhinc/calculate_sales/CalculateSales.java:170-176 | the missing-file error is reported exactly when no directory entry is named `branch.lst`; when exactly one entry has that name, a regular file is loaded from its lines and anything else fails with the unknown error; a successful load comes from the lines of a regular file of that name |
| `SalesFiles.SelectSalesFiles` | src/jp/alhinc/calculate_sales/CalculateSales.java:61-66 | the selection holds every regular file named 8 digits + `.rcd`, each as often as it appears in the listing, and nothing else |
| `SalesFiles.SortBySerial` | src/jp/alhinc/calculate_sales/CalculateSales.java:68 | the sorted files are a permutation of the selection in ascending serial order |
| `SalesFiles.SalesFilesOf` | src/jp/alhinc/calculate_sales/CalculateSales.java:55-68 | the files processed are exactly the selected entries, sorted by serial number |
| `SalesFiles.Serial` | src/jp/alhinc/calculate_sales/CalculateSales.java:72-73 | the number read from a name's first eight digits is below 10^8; with `NameOrderIsSerialOrder` and `SerialIsInjective` it orders and identifies the names |
| `SalesFiles.NameOrderIsSerialOrder` | src/jp/alhinc/calculate_sales/CalculateSales.java:68 | for two such names, `String.compareTo` order is the numeric order of their 8-digit prefixes, so sorting by name is sorting by serial |
| `SalesFiles.SerialIsInjective` | src/jp/alhinc/calculate_sales/CalculateSales.java:72-73 | two sales file names with the same serial number are the same name |
| `SalesFiles.CheckSerialNumbers` | src/jp/alhinc/calculate_sales/CalculateSales.java:70-79 | the loop passes iff the serial numbers count up by one from the first file's; 0 or 1 files pass |
| `SalesFiles.ConsecutiveIsRun` | src/jp/alhinc/calculate_sales/CalculateSales.java:70-79 | every neighbour differing by exactly 1 is the same as serial(i) = serial(0) + i for every i |
| `SalesFiles.ConsecutiveIffNoRepeatNoGap` | src/jp/alhinc/calculate_sales/CalculateSales.java:68-79 | on sorted files the check passes iff no serial number repeats and none between the first and the last is missing |
| `SalesAccumulator.ApplyRecord` | src/jp/alhinc/calculate_sales/CalculateSales.java:100-131 | a file is committed iff it has two lines, a registered code, and a parseable amount that keeps the total below 10^10; a commit adds the amount to that code's total only and adds no keys |
| `SalesAccumulator.FirstFailingCheckIsReported` | src/jp/alhinc/calculate_sales/CalculateSales.java:100-128 | a rejected file is reported by its first failing check, in order: line count, unknown branch, non-digit amount, unparseable amount, a total reaching 10^10 |
| `SalesAccumulator.OverflowBoundary` | src/jp/alhinc/calculate_sales/CalculateSales.java:122-131 | 9,999,999,998 + 1 commits 9,999,999,999; 9,999,999,999 + 1 fails with the overflow error |
| `SalesAccumulator.Accumulate` | src/jp/alhinc/calculate_sales/CalculateSales.java:82-148 | after success no key was added, each total grew by the sum of the amounts of the files naming it, every file passed its checks, and totals below the cap stay below it |
| `SalesAccumulator.AccumulateSucceedsIff` | src/jp/alhinc/calculate_sales/CalculateSales.java:82-131 | starting below the cap, aggregation succeeds iff every file passes its checks and no branch's grand total reaches 10^10 |
| `SalesAccumulator.AccumulateAppend` | src/jp/alhinc/calculate_sales/CalculateSales.java:82-148 | files are processed in order: a failure in the first part ends the run, otherwise the second part continues from the totals reached |
| `SalesAccumulator.FirstFailureIsReported` | src/jp/alhinc/calculate_sales/CalculateSales.java:82-128 | the error reported is the one of the first failing file, whatever the later files hold |
| `SalesAccumulator.ErrorNamesProcessedFile` | src/jp/alhinc/calculate_sales/CalculateSales.java:101-110 | the bad-format and unknown-branch errors name one of the processed files |
| `SalesAccumulator.LongAdd` | src/jp/alhinc/calculate_sales/CalculateSales.java:122 | Java `long` addition stays in the 64-bit range and equals the exact sum modulo 2^64 |
| `SalesAccumulator.ApplyRecordAsWritten` | src/jp/alhinc/calculate_sales/CalculateSales.java:119-131 | the step exactly as written, with the wrapped sum: it never adds keys |
| `SalesAccumulator.WrappedSumIsCommitted` | src/jp/alhinc/calculate_sales/CalculateSales.java:122-131 | when total + amount passes `Long.MAX_VALUE`, the written step commits a negative total while the corrected step reports the overflow |
| `SalesAccumulator.WrapExample` | src/jp/alhinc/calculate_sales/CalculateSales.java:119-131 | total 1 plus amount 9223372036854775807 commits `Long.MIN_VALUE` as written; the corrected step refuses it |
| `SalesAccumulator.AsWrittenAgreesWithoutWrap` | src/jp/alhinc/calculate_sales/CalculateSales.java:119-131 | when the sum does not wrap, the written and the corrected step give the same result |
| `Text.DecimalValue` | src/jp/alhinc/calculate_sales/CalculateSales.java:119 | `Long.parseLong` on an n-digit string gives a value below 10^n; `DecimalRoundTrip` and `LexLessIsNumericLess` relate it to printing and to string order |
| `Text.LexLess` | src/jp/alhinc/calculate_sales/CalculateSales.java:68 | the `compareTo` order behind `Collections.sort` is strict: a string is never below itself; `LexLessTotal` makes it total and `LexLessIsNumericLess` makes it numeric on digit strings |
| `Text.DecimalRoundTrip` | src/jp/alhinc/calculate_sales/CalculateSales.java:232 | a total printed in decimal reads back as the same number |
| `Text.LexLessIsNumericLess` | src/jp/alhinc/calculate_sales/CalculateSales.java:68-73 | on equal-width digit strings, lexicographic order is numeric order |
| `Text.JoinFields` | src/jp/alhinc/calculate_sales/CalculateSales.java:182 | the comma-separated fields of a string, joined with commas, give back the string |
| `Text.FieldsJoin` | src/jp/alhinc/calculate_sales/CalculateSales.java:182 | comma-free fields joined with commas split back into the same fields |
| `Report.ReportLine` | src/jp/alhinc/calculate_sales/CalculateSales.java:232 | a summary line `code,name,total` with a comma-free code and name reads back as exactly that code, name and total |
| `Report.ReportLineInjective` | src/jp/alhinc/calculate_sales/CalculateSales.java:232 | distinct branches with comma-free codes and names never share a summary line |
| `Report.FormatReport` | src/jp/alhinc/calculate_sales/CalculateSales.java:231-234 | the write loop visits every registered key exactly once, in some order, and writes that key's `code,name,total` line |
| `CalculateSales.WrittenLinesSummarize` | src/jp/alhinc/calculate_sales/CalculateSales.java:231-234 | the written lines are, once each, the line of every branch with the sum of its files' amounts |
| `CalculateSales.ProcessSales` | src/jp/alhinc/calculate_sales/CalculateSales.java:70-153 | after a successful load: non-consecutive serials stop the run before any file is read, an aggregation failure stops it with that file's error, and otherwise the written lines are, once each, every branch's line with the sum of its files' amounts, each below 10^10 |
| `CalculateSales.Run` | src/jp/alhinc/calculate_sales/CalculateSales.java:37-154 | wrong argument count, load failure, non-consecutive serials, and aggregation failure end the run with their own error, in that order of precedence; the serial check runs before any sales file is read; a written report has exactly one line per branch, with each total equal to the sum of the amounts of the files naming it and below 10^10 |

## Left out

- File system and streams: `File`, `listFiles`, readers and writers, `close`, and the `IOException` paths are not modelled. The directory is a parameter: a sequence of entries with their names, regular-file flag and lines. An I/O fault cannot arise, so its `UnknownError` message never appears. `branch.lst` that exists but is not a regular file is modelled as `UnknownError`, because `FileReader` throws for it.
- Line splitting by `readLine` (CR/LF handling) is taken as given: entries carry their lines.
- Console text: each message is an `ErrorKind` constructor; file-naming messages carry the file name. `AmountNotParsable` stands for the uncaught `NumberFormatException` and its stack trace, which is not one of the program's messages.
- `listFiles` returning `null` for a path that is not a directory (a `NullPointerException`) is not modelled; the entry list is always given.
- Writing `branch.out` (creating the file, `newLine`, the platform line separator) is not modelled; the output is the sequence of summary lines.
- `Report.FormatReport`: requires that every name key also has a total; the `"null"` the code would print for a missing total is not modelled, because the load always fills both maps with the same keys.
- `SalesFiles.SortBySerial`: sorts by serial number instead of by `File.compareTo`. `SalesFiles.NameOrderIsSerialOrder` proves the two orders agree on these names, taking `File.compareTo` as string comparison of the names (paths in one directory, Unix-style).
- `SalesAccumulator.AccumulateSucceedsIff`: requires every starting total below the cap, which the load guarantees because it starts every total at 0.
- `CalculateSales.Run`: aggregates with the corrected step `SalesAccumulator.ApplyRecord`, so it departs from the program when a branch total plus an amount passes `Long.MAX_VALUE`. The program wraps the sum to a negative total, commits it and goes on; the model stops with `TotalTooLarge` (see "## Findings").
- `CalculateSales.ProcessSales`: the same departure as `CalculateSales.Run`, for the same reason.
- `SalesAccumulator.Accumulate`: the same departure as `CalculateSales.Run`; the step as the program writes it is `SalesAccumulator.ApplyRecordAsWritten`.

## Findings

| source | as written | input that shows it | evidently intended | confidence | as-written member | corrected member |
|---|---|---|---|---|---|---|
| src/jp/alhinc/calculate_sales/CalculateSales.java:122-128 | `branchSales.get(code) + fileSale` is a `long` addition that wraps past `Long.MAX_VALUE`. The wrapped, negative sum passes `saleAmount >= 10000000000L` and is committed. | a branch total of 1 and a sales file whose amount line is `9223372036854775807`: the total becomes -9223372036854775808 and the run goes on | stop with the overflow error (total over ten digits) | high; not executed | `SalesAccumulator.ApplyRecordAsWritten`, `SalesAccumulator.WrapExample` | `SalesAccumulator.ApplyRecord` |

The rest of the model aggregates with `SalesAccumulator.ApplyRecord`. It compares the exact sum with the cap, so every committed total lies in [0, 10^10).
