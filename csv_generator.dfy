/** `CsvGenerator.generateStatementCsv`, the older generator the exporter
    still calls: the same sorted copy, the same row formatting and the same
    caption header as the CSV branch of `StatementGenerator`. */
module CsvGenerator {
  import opened Wrappers
  import opened Strings
  import opened Transactions
  import opened StatementGenerator

  /** `generateStatementCsv(transactions)`; `formatDatetime` is the
      `dateformat` call of the generator. */
  function GenerateStatementCsv(transactions: seq<Transaction>, formatDatetime: string -> string): (f: StatementFile)
    ensures f.CsvFile? && |f.rows| == |transactions|
    ensures f.header == ["Id", "Datetime", "Income", "Expense", "Balance", "Description"]
  {
    StatementCsv(FormatAll(SortByDatetime(transactions), formatDatetime))
  }

  /** The older generator writes exactly the file that the CSV branch of
      `generateStatementFile` writes. */
  lemma {:induction false} SameAsStatementCsv(transactions: seq<Transaction>, formatDatetime: string -> string)
    ensures GenerateStatementFile(transactions, "csv", formatDatetime) == Ok(GenerateStatementCsv(transactions, formatDatetime))
  {
  }

  /** Row `i` of the file is the formatted transaction at position `i` of a
      sorted permutation of the input: income only for a positive amount,
      expense only otherwise, and the amount and balance read back. */
  lemma {:induction false} CsvRow(transactions: seq<Transaction>, formatDatetime: string -> string, i: int)
    requires 0 <= i < |transactions|
    ensures var row, sorted := GenerateStatementCsv(transactions, formatDatetime).rows[i], SortByDatetime(transactions);
      && SortedByDatetime(sorted) && multiset(sorted) == multiset(transactions)
      && row[0] == sorted[i].id && row[5] == sorted[i].description
      && row[1] == formatDatetime(sorted[i].datetime)
      && (row[2] != "" <==> sorted[i].amount > 0)
      && (row[3] != "" <==> sorted[i].amount <= 0)
      && ParseInt(RemoveChar(row[2] + row[3], '.')) == Some(sorted[i].amount)
      && ParseInt(RemoveChar(row[4], '.')) == Some(sorted[i].balance)
  {
    var sorted := SortByDatetime(transactions);
    RowOf(GenerateStatementCsv(transactions, formatDatetime).rows[i], sorted[i], formatDatetime);
  }
}
