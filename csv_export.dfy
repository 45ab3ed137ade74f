/// The CSV export writer (csv.go): a fixed header record, the translation of
/// one ledger transaction into a six-field record, and a writer object that
/// sends the header once and then one batch of records per account.
///
/// The output stream is modelled at the level of records: `records` is the
/// sequence of records the stream has received. Field quoting and byte-level
/// encoding happen below this level and are not modelled.
module CsvExport {
  import opened Wrappers
  import opened Ledger
  import opened Decimal

  /** The header record, in column order. */
  const Headers: seq<string> := ["account", "date", "amount", "category", "notes", "error"]

  /** The marker for a name that could not be resolved. */
  const Placeholder: string := "FIXME"

  /** The prefix that flags the ledger's own error annotation for a human. */
  const ErrorMarker: string := "[FIXME] "

  /**
   * A category id resolves when it is non-empty and maps to a non-empty name.
   * Indexing a Go map with a missing key yields "", so "absent" and "mapped
   * to the empty name" are the same case.
   */
  predicate Resolves(categoryNames: map<string, string>, categoryId: string) {
    categoryId != "" && categoryId in categoryNames && categoryNames[categoryId] != ""
  }

  /** The category column: the mapped name, or the placeholder; never empty. */
  function CategoryColumn(categoryNames: map<string, string>, categoryId: string): (name: string)
    ensures name != ""
    ensures Resolves(categoryNames, categoryId) ==> name == categoryNames[categoryId]
    ensures !Resolves(categoryNames, categoryId) ==> name == Placeholder
  {
    if Resolves(categoryNames, categoryId) then categoryNames[categoryId] else Placeholder
  }

  /** The error column: empty for no error, else the marker and the error verbatim. */
  function ErrorColumn(error: string): (column: string)
    ensures column == "" <==> error == ""
    ensures error != "" ==> |column| == |ErrorMarker| + |error|
                            && column[..|ErrorMarker|] == ErrorMarker
                            && column[|ErrorMarker|..] == error
  {
    if error == "" then "" else ErrorMarker + error
  }

  /** Recovers the ledger's error annotation from an error column, if well formed. */
  function StripErrorMarker(column: string): Option<string> {
    if column == "" then Some("")
    else if |column| > |ErrorMarker| && column[..|ErrorMarker|] == ErrorMarker then Some(column[|ErrorMarker|..])
    else None
  }

  /** The error column loses nothing: the annotation reads back verbatim. */
  lemma ErrorColumnRoundTrip(error: string)
    ensures StripErrorMarker(ErrorColumn(error)) == Some(error)
  {
  }

  /** Every well-formed error column is the rendering of the annotation it reads back as. */
  lemma ErrorColumnOfStripped(column: string, error: string)
    requires StripErrorMarker(column) == Some(error)
    ensures ErrorColumn(error) == column
  {
  }

  /**
   * The record for one transaction of `account`, in header order: account
   * name, date, amount, category, notes, error. The transaction's own id,
   * account id and payee id and the account's id are not used.
   */
  function TransactionToRow(categoryNames: map<string, string>, account: Account, txn: Transaction): (row: seq<string>)
    requires ExactAmount(txn.amount)
    ensures |row| == |Headers|
    ensures row[0] == account.name && row[1] == txn.date && row[4] == txn.notes
  {
    [account.name, txn.date, FormatCents(txn.amount), CategoryColumn(categoryNames, txn.categoryId), txn.notes, ErrorColumn(txn.error)]
  }

  /** The record depends on neither the account's id and closed flag nor the transaction's ids. */
  lemma RowIgnoresIds(categoryNames: map<string, string>, account: Account, txn: Transaction,
                      accountId: string, closed: bool, txnId: string, txnAccountId: string, payeeId: string)
    requires ExactAmount(txn.amount)
    ensures TransactionToRow(categoryNames, account, txn)
         == TransactionToRow(categoryNames, account.(id := accountId, closed := closed),
                             txn.(id := txnId, accountId := txnAccountId, payeeId := payeeId))
  {
  }

  /** The content of one data record, with the amount back in cents. */
  datatype ExportedRow = ExportedRow(
    account: string, date: string, cents: int, category: string, notes: string, error: string)

  /**
   * Reads a data record back: six fields, a well-formed amount, a non-empty
   * category and a well-formed error column.
   */
  function ReadRow(row: seq<string>): Option<ExportedRow> {
    if |row| != |Headers| || row[3] == "" then None
    else match (ParseCents(row[2]), StripErrorMarker(row[5]))
      case (Some(cents), Some(error)) => Some(ExportedRow(row[0], row[1], cents, row[3], row[4], error))
      case _ => None
  }

  /**
   * A record holds everything the export promises about its transaction:
   * the account name, date, notes and error verbatim, the exact amount in
   * cents, and the resolved category.
   */
  lemma RowRoundTrip(categoryNames: map<string, string>, account: Account, txn: Transaction)
    requires ExactAmount(txn.amount)
    ensures ReadRow(TransactionToRow(categoryNames, account, txn))
         == Some(ExportedRow(account.name, txn.date, txn.amount,
                             CategoryColumn(categoryNames, txn.categoryId), txn.notes, txn.error))
  {
    ParseFormatCents(txn.amount);
    ErrorColumnRoundTrip(txn.error);
  }

  /** Two records with the same content are the same record: the reading loses nothing. */
  lemma ReadRowInjective(r1: seq<string>, r2: seq<string>)
    requires ReadRow(r1).Some? && ReadRow(r1) == ReadRow(r2)
    ensures r1 == r2
  {
    var e := ReadRow(r1).value;
    FormatParseCents(r1[2], e.cents);
    FormatParseCents(r2[2], e.cents);
    ErrorColumnOfStripped(r1[5], e.error);
    ErrorColumnOfStripped(r2[5], e.error);
    assert r1 == [r1[0], r1[1], r1[2], r1[3], r1[4], r1[5]];
    assert r2 == [r2[0], r2[1], r2[2], r2[3], r2[4], r2[5]];
  }

  /** The header is no data record: its amount column, "amount", is not an amount. */
  lemma HeaderIsNotARow()
    ensures ReadRow(Headers) == None
  {
  }

  /** The records for a batch: one per transaction, in input order. */
  function RowsFor(categoryNames: map<string, string>, account: Account, txns: seq<Transaction>): (rows: seq<seq<string>>)
    requires forall t <- txns :: ExactAmount(t.amount)
    ensures |rows| == |txns|
    ensures forall i :: 0 <= i < |txns| ==> rows[i] == TransactionToRow(categoryNames, account, txns[i])
  {
    if txns == [] then []
    else [TransactionToRow(categoryNames, account, txns[0])] + RowsFor(categoryNames, account, txns[1..])
  }

  /** What the stream holds at any time: the header, then data records only. */
  predicate WellFormedOutput(records: seq<seq<string>>) {
    |records| >= 1 && records[0] == Headers
    && forall i :: 1 <= i < |records| ==> ReadRow(records[i]).Some?
  }

  /** In well-formed output the header occurs exactly once, and first. */
  lemma HeaderExactlyOnce(records: seq<seq<string>>)
    requires WellFormedOutput(records)
    ensures forall i :: 0 <= i < |records| ==> (records[i] == Headers <==> i == 0)
  {
    HeaderIsNotARow();
  }

  /** Appending (a prefix of) a batch's records keeps the output well formed. */
  lemma AppendRowsWellFormed(records: seq<seq<string>>, categoryNames: map<string, string>,
                             account: Account, txns: seq<Transaction>, k: nat)
    requires WellFormedOutput(records)
    requires forall t <- txns :: ExactAmount(t.amount)
    requires k <= |txns|
    ensures WellFormedOutput(records + RowsFor(categoryNames, account, txns)[..k])
  {
    var rows := RowsFor(categoryNames, account, txns);
    var out := records + rows[..k];
    forall i | 1 <= i < |out|
      ensures ReadRow(out[i]).Some?
    {
      if i >= |records| {
        RowRoundTrip(categoryNames, account, txns[i - |records|]);
      }
    }
  }

  /**
   * What the underlying stream does with the records of one write call: it
   * accepts all of them, or accepts the first `accepted` and then fails.
   */
  datatype WriteOutcome = Accepted | Failed(accepted: nat, message: string)

  /** How many of `n` records reach the stream under `outcome`. */
  function CommittedCount(outcome: WriteOutcome, n: nat): (k: nat)
    ensures k <= n
    ensures outcome.Accepted? ==> k == n
  {
    match outcome
    case Accepted => n
    case Failed(accepted, _) => if accepted < n then accepted else n
  }

  /** The error a write call reports under `outcome`. */
  function WriteError(outcome: WriteOutcome): Option<string> {
    match outcome
    case Accepted => None
    case Failed(_, message) => Some(message)
  }

  /** The exporter: a CSV writer over the output stream and the category names. */
  class CsvWriter {
    /** Category id to display name; fixed when the writer is created. */
    const categoryNames: map<string, string>
    /** The records the output stream has received, in order. */
    var records: seq<seq<string>>
    /** How many explicit flushes the exporter has made (not those inside WriteAll). */
    var flushes: nat

    ghost predicate Valid()
      reads this
    {
      WellFormedOutput(records)
    }

    /**
     * A CSV writer over a fresh stream, before anything is written. This is
     * only the first step of NewCsvWriter: the writer is not Valid() until the
     * header has been written, so Add cannot be used on a writer made by Open
     * alone.
     */
    constructor Open(categoryNames: map<string, string>)
      ensures this.categoryNames == categoryNames
      ensures records == [] && flushes == 0
    {
      this.categoryNames := categoryNames;
      records := [];
      flushes := 0;
    }

    /** Sends `rows` to the stream; on failure only a prefix arrives. */
    method WriteAll(rows: seq<seq<string>>, outcome: WriteOutcome) returns (err: Option<string>)
      modifies this`records
      ensures records == old(records) + rows[..CommittedCount(outcome, |rows|)]
      ensures err == WriteError(outcome)
    {
      records := records + rows[..CommittedCount(outcome, |rows|)];
      err := WriteError(outcome);
    }

    method Flush()
      modifies this`flushes
      ensures flushes == old(flushes) + 1
    {
      flushes := flushes + 1;
    }

    /**
     * Appends the records of `account`'s transactions. An empty batch writes
     * nothing, flushes nothing and succeeds. Otherwise the records, one per
     * transaction in input order, are written as one unit; on success the
     * stream is flushed, on failure the error is returned without a flush.
     * Records already in the stream, the header first, never change.
     */
    method Add(account: Account, txns: seq<Transaction>, outcome: WriteOutcome) returns (err: Option<string>)
      requires Valid()
      requires forall t <- txns :: ExactAmount(t.amount)
      modifies this`records, this`flushes
      ensures Valid()
      ensures txns == [] ==> err == None && records == old(records) && flushes == old(flushes)
      ensures txns != [] ==>
        records == old(records) + RowsFor(categoryNames, account, txns)[..CommittedCount(outcome, |txns|)]
      ensures txns != [] ==> err == WriteError(outcome)
      ensures txns != [] ==> flushes == old(flushes) + (if outcome.Accepted? then 1 else 0)
    {
      if |txns| == 0 {
        return None;
      }
      var rows: seq<seq<string>> := [];
      var i := 0;
      while i < |txns|
        invariant 0 <= i <= |txns|
        invariant |rows| == i
        invariant forall j :: 0 <= j < i ==> rows[j] == TransactionToRow(categoryNames, account, txns[j])
      {
        rows := rows + [TransactionToRow(categoryNames, account, txns[i])];
        i := i + 1;
      }
      assert rows == RowsFor(categoryNames, account, txns);
      AppendRowsWellFormed(records, categoryNames, account, txns, CommittedCount(outcome, |txns|));
      err := WriteAll(rows, outcome);
      if err.Some? {
        return err;
      }
      Flush();
      return None;
    }
  }

  /** The result of creating the exporter: a ready writer, or a panic. */
  datatype Opened = Ready(writer: CsvWriter) | Panicked(message: string)

  /**
   * Creates the exporter over a stream: writes the header record and
   * flushes. A failure to write the header is fatal (a panic), not a
   * returned error.
   */
  method NewCsvWriter(categoryNames: map<string, string>, outcome: WriteOutcome) returns (r: Opened)
    ensures r.Panicked? <==> outcome.Failed?
    ensures r.Panicked? ==> r.message == outcome.message
    ensures r.Ready? ==> fresh(r.writer) && r.writer.Valid()
                         && r.writer.categoryNames == categoryNames
                         && r.writer.records == [Headers] && r.writer.flushes == 1
  {
    var w := new CsvWriter.Open(categoryNames);
    var err := w.WriteAll([Headers], outcome);
    if err.Some? {
      return Panicked(err.value);
    }
    w.Flush();
    return Ready(w);
  }

  /** An uncategorised debit, and a categorised transaction carrying a ledger error. */
  lemma RowExamples()
    ensures TransactionToRow(map[], Account("a1", "Checking", false),
                             Transaction("t1", "a1", "", -4200, "", "", "2024-03-15", ""))
         == ["Checking", "2024-03-15", "-42.00", "FIXME", "", ""]
    ensures TransactionToRow(map["c1" := "Salary"], Account("a1", "Checking", false),
                             Transaction("t2", "a1", "c1", 500000, "p1", "March", "2024-03-15", "duplicate"))
         == ["Checking", "2024-03-15", "5000.00", "Salary", "March", "[FIXME] duplicate"]
  {
    FormatCentsExamples();
    assert CategoryColumn(map["c1" := "Salary"], "c1") == "Salary";
    assert ErrorColumn("duplicate") == "[FIXME] duplicate";
  }
}
