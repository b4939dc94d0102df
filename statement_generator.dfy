/** `StatementGenerator.generateStatementFile`: sort a copy of the
    transactions by datetime, format each one as a row, and lay the rows out
    as a CSV table under the caption header or as a worksheet under the key
    header. The CSV and XLSX serialisers themselves are not modelled: a file
    is the table of cells they are given. */
module StatementGenerator {
  import opened Wrappers
  import opened Transactions

  datatype GeneratorError = InvalidFileFormat

  /** The content of a statement file as the table handed to the
      serialiser: a header row and the data rows under it. A worksheet
      without records has no header, written as an empty header row. */
  datatype StatementFile =
    | CsvFile(header: seq<string>, rows: seq<seq<string>>)
    | XlsxFile(header: seq<string>, rows: seq<seq<string>>)

  /** `STATEMENT_HEADER`: the column captions of the CSV header. */
  const StatementHeader := TransactionData("Id", "Datetime", "Income", "Expense", "Balance", "Description")

  /** The property names of `TransactionData`, which `json_to_sheet` writes
      as the worksheet's header row. */
  const SheetKeys := TransactionData("id", "datetime", "income", "expense", "balance", "description")

  /** The formatted rows of a sorted copy of `transactions`. */
  function FormattedRows(transactions: seq<Transaction>, formatDatetime: string -> string): seq<TransactionData> {
    FormatAll(SortByDatetime(transactions), formatDatetime)
  }

  /** `stringify(data, { quoted, header: true, columns: STATEMENT_HEADER })`:
      the caption row, then one row per record. */
  function StatementCsv(data: seq<TransactionData>): StatementFile {
    CsvFile(Columns(StatementHeader), Rows(data))
  }

  /** `json_to_sheet(data)`: the header row of property names, then one row
      per record; the header is collected from the records, so no records
      give no header. */
  function StatementSheet(data: seq<TransactionData>): StatementFile {
    XlsxFile(if data == [] then [] else Columns(SheetKeys), Rows(data))
  }

  /** `generateStatementFile(transactions, fileFormat)`; `formatDatetime` is
      the `dateformat` call of the generator. */
  function GenerateStatementFile(transactions: seq<Transaction>, fileFormat: string, formatDatetime: string -> string)
    : (r: Result<StatementFile, GeneratorError>)
    ensures r.Err? <==> fileFormat != "csv" && fileFormat != "xlsx"
    ensures r.Err? ==> r.error == InvalidFileFormat
    ensures fileFormat == "csv" ==> r.Ok? && r.value.CsvFile?
    ensures fileFormat == "xlsx" ==> r.Ok? && r.value.XlsxFile?
    ensures r.Ok? ==> |r.value.rows| == |transactions|
  {
    var data := FormattedRows(transactions, formatDatetime);
    if fileFormat == "csv" then Ok(StatementCsv(data))
    else if fileFormat == "xlsx" then Ok(StatementSheet(data))
    else Err(InvalidFileFormat)
  }

  /** A CSV file starts with the captions Id, Datetime, Income, Expense,
      Balance, Description, also when there are no transactions; a
      worksheet has a header only when there are transactions. */
  lemma {:induction false} GeneratedHeader(transactions: seq<Transaction>, fileFormat: string, formatDatetime: string -> string)
    requires GenerateStatementFile(transactions, fileFormat, formatDatetime).Ok?
    ensures var f := GenerateStatementFile(transactions, fileFormat, formatDatetime).value;
      && (f.CsvFile? ==> f.header == ["Id", "Datetime", "Income", "Expense", "Balance", "Description"])
      && (f.XlsxFile? && transactions == [] ==> f.header == [])
      && (f.XlsxFile? && transactions != [] ==>
            f.header == ["id", "datetime", "income", "expense", "balance", "description"])
  {
  }

  /** Under the header there is exactly one row per transaction, the rows
      are those of the transactions in ascending datetime order, and as a
      collection they are the rows of the transactions as given. */
  lemma {:induction false} GeneratedRows(transactions: seq<Transaction>, fileFormat: string, formatDatetime: string -> string)
    requires GenerateStatementFile(transactions, fileFormat, formatDatetime).Ok?
    ensures var body, sorted := GenerateStatementFile(transactions, fileFormat, formatDatetime).value.rows,
                                SortByDatetime(transactions);
      && |body| == |transactions|
      && SortedByDatetime(sorted) && multiset(sorted) == multiset(transactions)
      && (forall i :: 0 <= i < |body| ==> body[i] == Columns(FormatTransaction(sorted[i], formatDatetime)))
      && multiset(FormattedRows(transactions, formatDatetime)) == multiset(FormatAll(transactions, formatDatetime))
  {
    FormatSortedPermutation(transactions, formatDatetime);
  }

  /** In every row, income is filled exactly when the amount is positive and
      expense exactly when it is not. */
  lemma {:induction false} GeneratedIncomeExpense(transactions: seq<Transaction>, fileFormat: string, formatDatetime: string -> string, i: int)
    requires GenerateStatementFile(transactions, fileFormat, formatDatetime).Ok?
    requires 0 <= i < |transactions|
    ensures var row, t := GenerateStatementFile(transactions, fileFormat, formatDatetime).value.rows[i],
                          SortByDatetime(transactions)[i];
      && (row[2] != "" <==> t.amount > 0)
      && (row[3] != "" <==> t.amount <= 0)
  {
    GeneratedRows(transactions, fileFormat, formatDatetime);
    RowOf(GenerateStatementFile(transactions, fileFormat, formatDatetime).value.rows[i],
          SortByDatetime(transactions)[i], formatDatetime);
  }
}
