# actual2csv CSV export, modelled in Dafny

actual2csv exports the transactions of a personal-finance ledger (Actual
Budget) to CSV. This project models the export writer of `csv.go`:

- the fixed header record `account, date, amount, category, notes, error`;
- `transactionToRow`, which turns one transaction of an account into a
  six-field record. The category id is resolved through a map of category
  names, with `FIXME` standing in for an unresolved id. The ledger's error
  annotation gets a `[FIXME] ` prefix. The amount in cents is written as a
  signed decimal with two fraction digits;
- the writer object (`NewCSVWriter`, `Add`). It writes the header once when
  created and then appends one batch of records per account, flushing after
  each batch.

The ledger entities `Account` and `Transaction` (actual_client.go) are
datatypes in `ledger.dfy`. `decimal.dfy` holds the exact amount rendering and
its inverse parser. `csv_export.dfy` holds the header, the row translation, a
reader that recovers a record's content, and the `CsvWriter` class.

The output stream is modelled at the level of records. `CsvWriter.records`
is the sequence of records the stream has received, and `CsvWriter.flushes`
counts csv.go's explicit `Flush` calls (csv.go:35 and csv.go:51). What the underlying `io.Writer` does during one
write call is a parameter, `WriteOutcome`. It either accepts every record, or
accepts a prefix and then fails with a message.

main.go's older `TransactionRow` (main.go:64-73) has a seventh `payee`
column. csv.go has six columns and no payee lookup, and this model follows
csv.go.

## Model

| member | source | states |
|---|---|---|
| CsvExport.TransactionToRow | csv.go:55-81 | a record has exactly as many fields as the header; account name, date and notes pass through unchanged in columns 0, 1 and 4 |
| CsvExport.RowRoundTrip | csv.go:55-81 | reading a record back yields the account name, date, notes and error verbatim, the exact amount in cents and the resolved category, in header order |
| CsvExport.RowIgnoresIds | csv.go:73-80 | the record is the same whatever the account's id and closed flag and the transaction's id, account id and payee id |
| CsvExport.CategoryColumn | csv.go:56-61 | the category column is never empty; it is the mapped name when the id is non-empty and maps to a non-empty name, and `FIXME` otherwise (missing key and empty name alike) |
| CsvExport.ErrorColumn | csv.go:65-68 | the error column is empty exactly when the ledger error is empty; otherwise it is `[FIXME] ` followed by the error verbatim |
| CsvExport.ErrorColumnRoundTrip | csv.go:65-68 | stripping the marker from the error column gives back the ledger's error |
| CsvExport.ErrorColumnOfStripped | csv.go:65-68 | every error column that reads back as an error is that error's rendering, so the marker never loses or invents content |
| Decimal.FormatCents | csv.go:70-71 | the amount is a decimal with a point and exactly two fraction digits, led by `-` exactly when the amount is negative |
| Decimal.ParseFormatCents | csv.go:70-71 | every amount in cents reads back exactly from its rendering |
| Decimal.FormatParseCents | csv.go:70-71 | every string that reads as an amount is that amount's rendering, so each amount has a single spelling |
| Decimal.FormatCentsInjective | csv.go:71 | distinct amounts get distinct renderings |
| Decimal.FormatCentsExamples | csv.go:71 | -4200 renders as `-42.00`, 500000 as `5000.00`, 5 as `0.05`, 0 as `0.00` |
| Decimal.NatToDecimal | csv.go:71 | the integer part is a canonical decimal numeral, `0` only for zero |
| CsvExport.ReadRowInjective | csv.go:73-80 | two records that read back as the same content are the same record, so with RowRoundTrip the content fixes every column |
| CsvExport.HeaderIsNotARow | csv.go:9-16 | the header record never reads as a data record, because its amount column is not an amount |
| CsvExport.RowsFor | csv.go:43-47 | a batch yields one record per transaction, record i being the record of transaction i |
| CsvExport.HeaderExactlyOnce | csv.go:27-53 | in the writer's output the header occurs exactly once, at the start |
| CsvExport.AppendRowsWellFormed | csv.go:43-50 | appending a batch's records, or a prefix of them after a failed write, keeps the output a header followed by data records |
| CsvExport.CsvWriter.Open | csv.go:28-31 | a new writer holds the given category names, and nothing has been written or flushed |
| CsvExport.CsvWriter.WriteAll | csv.go:48-50 | the stream receives the records, or only a prefix if it fails; the error is the stream's |
| CsvExport.CsvWriter.Flush | csv.go:51 | one more flush of the stream |
| CsvExport.CsvWriter.Add | csv.go:39-53 | an empty batch succeeds and writes and flushes nothing; otherwise one record per transaction in input order is appended after the unchanged earlier records; on success the stream is flushed once, on failure the error is returned and the flush is skipped; the output stays well formed |
| CsvExport.NewCsvWriter | csv.go:27-37 | a failed header write panics; otherwise the new writer's output is exactly the header record, flushed once, over the given category names |
| CsvExport.RowExamples | csv.go:55-81 | an uncategorised debit of -4200 renders as `["Checking","2024-03-15","-42.00","FIXME","",""]`; a categorised transaction with a ledger error renders with the category name and `[FIXME] duplicate` |

The category names are a `const` field of `CsvWriter`, so no method of the
writer can change them.

## Left out

- CsvExport.TransactionToRow: requires the amount to lie strictly between -10^15 and 10^15 cents. Within that range the source's `float64(amount)/100.0` printed with `%.2f` gives exactly the string `FormatCents` gives. Beyond it, up to the int64 limit, the float path can round away cents, and this model does not capture that rounding.
- CsvExport.CsvWriter.Add: inherits the same amount bound for every transaction of the batch.
- CsvExport.NewCsvWriter: the panic is modelled as a returned `Panicked` value; the process abort is not modelled. The error of the flush after the header is ignored by the source, and the model has no failing flush.
- CsvExport.CsvWriter.Flush: `flushes` counts only csv.go's own `Flush` calls. encoding/csv's `WriteAll` also flushes its buffer before returning, and the error `Add` returns is usually that flush's error. That inner flush is not counted.
- CsvExport.NewCsvWriter: the header `Write` at csv.go:32 only fills a fresh buffer, so in practice the failure met at construction is in the ignored `Flush` at csv.go:35. The model's `Failed` outcome for the header stands for a failing `Write`.
- CsvExport.CsvWriter.WriteAll: each call's `WriteOutcome` is independent. The model does not capture that a failed buffered writer keeps failing on later calls.
- Byte-level CSV encoding (quoting of commas, quotes and newlines) and the writer's internal buffering are done by Go's `encoding/csv` and `bufio`, which are not part of this model. Records count as received once the stream has them.
- The category-name map is taken as it is when the writer is created. A Go map is shared by reference, so a caller that changes it later changes what the source's writer sees. The model does not capture that aliasing.
- The HTTP client in actual_client.go (fetching accounts, transactions, categories and payees) is network I/O. Only the `Account` and `Transaction` shapes are modelled. `Category` and `Payee` are not used by csv.go.
- main.go is not part of this model. It covers environment and `.env` loading, configuration checks, the current-month date range from the wall clock, the fetch loop, and file creation. Its `convertToTransactionRow` and `writeAllCSV` are an older, non-compiling variant of the exporter that refers to undefined types and a removed payee field.
