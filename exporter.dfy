/** The exporter: read the checkpoint of the bank's folder, compute the next
    export period, fetch the bank's transactions for it, and when there are
    any write the statement CSV to the folder and mail it; the end of the
    period always becomes the new checkpoint. The cloud bucket is the map
    `storage` from path to file content, and `log` records every file
    written and every mail sent, in order. The bank client, the clock and
    the CSV serialiser are parameters of `Run`. */
module StatementExporter {
  import opened Wrappers
  import opened Strings
  import opened Calendar
  import opened TimeManager
  import opened Transactions
  import opened StatementGenerator
  import opened CsvGenerator

  datatype Attachment = Attachment(fileName: string, fileContent: string)

  datatype Mail = Mail(subject: string, text: string, attachments: seq<Attachment>)

  /** What the exporter does to the outside world. */
  datatype Effect = SavedFile(path: string, content: string) | SentMail(mail: Mail)

  datatype ExporterError =
    | InvalidSettings            // the settings file is not one the exporter writes
    | PeriodFailed(error: TimeError)
    | FetchFailed                // the bank client threw

  // ---------------------------------------------------------------------------
  // Names
  // ---------------------------------------------------------------------------

  /** `buildBankCaption()`: the bank name, a dash and the last four
      characters of the card number, all of it when it is shorter. */
  function BuildBankCaption(bankName: string, cardNumber: string): (caption: string)
    ensures |cardNumber| >= 4 ==> caption == bankName + "-" + cardNumber[|cardNumber| - 4..]
    ensures |cardNumber| < 4 ==> caption == bankName + "-" + cardNumber
    ensures |caption| == |bankName| + 1 + (if |cardNumber| < 4 then |cardNumber| else 4)
  {
    bankName + "-" + Substring(cardNumber, |cardNumber| - 4)
  }

  /** `buildStatementFileName(startDate, endDate)`. */
  function BuildStatementFileName(startDate: int, endDate: int): string {
    var startString := FormatYmd(startDate);
    var endString := FormatYmd(endDate);
    if startString == endString then startString + ".csv" else startString + "_" + endString + ".csv"
  }

  /** For four-digit years, a period within one day is named after that day
      alone, and any other period after both of its days. */
  lemma {:induction false} StatementFileNameCases(startDate: int, endDate: int)
    requires 0 <= DateOf(startDate).year < 10000 && 0 <= DateOf(endDate).year < 10000
    ensures DateOf(startDate) == DateOf(endDate) ==>
      BuildStatementFileName(startDate, endDate) == FormatYmd(startDate) + ".csv"
    ensures DateOf(startDate) != DateOf(endDate) ==>
      BuildStatementFileName(startDate, endDate) == FormatYmd(startDate) + "_" + FormatYmd(endDate) + ".csv"
  {
    FormatYmdInjective(startDate, endDate);
  }

  /** `${folderName}/settings.json`. */
  function SettingsPath(caption: string): string {
    caption + "/settings.json"
  }

  /** `${folderName}/${statementFileName}`. */
  function StatementPath(caption: string, fileName: string): string {
    caption + "/" + fileName
  }

  /** A statement file never lands on the checkpoint: its name ends in
      `.csv`, the settings file's in `.json`. */
  lemma {:induction false} StatementNotSettings(caption: string, startDate: int, endDate: int)
    ensures StatementPath(caption, BuildStatementFileName(startDate, endDate)) != SettingsPath(caption)
  {
    var p, q := StatementPath(caption, BuildStatementFileName(startDate, endDate)), SettingsPath(caption);
    assert p[|p| - 1] == 'v' && q[|q| - 1] == 'n';
  }

  // ---------------------------------------------------------------------------
  // Settings
  // ---------------------------------------------------------------------------

  const SettingsPrefix := "{\"lastExportTime\":"

  /** `JSON.stringify({ lastExportTime })` for an integral time. */
  function SettingsJson(lastExportTime: int): string {
    SettingsPrefix + IntToString(lastExportTime) + "}"
  }

  /** `JSON.parse(settingsJson).lastExportTime` for the layout
      `JSON.stringify` writes; anything else is invalid. */
  function ParseSettings(settingsJson: string): Option<int> {
    var n := |SettingsPrefix|;
    if |settingsJson| >= n + 1 && settingsJson[..n] == SettingsPrefix && settingsJson[|settingsJson| - 1] == '}' then
      var field := settingsJson[n..|settingsJson| - 1];
      match ParseInt(field)
      case Some(v) => if IntToString(v) == field then Some(v) else None
      case None => None
    else None
  }

  /** `parseInt(String(i))` is `i`. */
  lemma {:induction false} IntToStringParses(i: int)
    ensures ParseInt(IntToString(i)) == Some(i)
  {
    var u: nat := if i < 0 then -i else i;
    NatToStringValue(u);
    SignedDigitsParse(i < 0, NatToString(u), u);
    if i >= 0 {
      assert "" + NatToString(u) == NatToString(u);
    }
  }

  /** What the exporter writes as settings reads back as the same time. */
  lemma {:induction false} SettingsRoundTrip(lastExportTime: int)
    ensures ParseSettings(SettingsJson(lastExportTime)) == Some(lastExportTime)
  {
    var field := IntToString(lastExportTime);
    IntToStringParses(lastExportTime);
    SettingsLayout(SettingsJson(lastExportTime), field);
  }

  lemma {:induction false} SettingsLayout(s: string, field: string)
    requires s == SettingsPrefix + field + "}"
    ensures |s| >= |SettingsPrefix| + 1 && s[..|SettingsPrefix|] == SettingsPrefix && s[|s| - 1] == '}'
    ensures s[|SettingsPrefix|..|s| - 1] == field
  {
  }

  /** `getLastExportTime()` over the bucket's contents: 0 when there is no
      settings file or it is empty, the stored time otherwise. */
  function LastExportTime(storage: map<string, string>, caption: string): (r: Result<int, ExporterError>)
    ensures SettingsPath(caption) !in storage ==> r == Ok(0)
    ensures SettingsPath(caption) in storage && storage[SettingsPath(caption)] == "" ==> r == Ok(0)
    ensures r.Err? ==> r.error == InvalidSettings
  {
    var path := SettingsPath(caption);
    if path !in storage || storage[path] == "" then Ok(0)
    else match ParseSettings(storage[path])
      case Some(t) => Ok(t)
      case None => Err(InvalidSettings)
  }

  /** The checkpoint is read from where it is written. */
  lemma {:induction false} CheckpointReadsBack(storage: map<string, string>, caption: string, lastExportTime: int)
    ensures LastExportTime(storage[SettingsPath(caption) := SettingsJson(lastExportTime)], caption) == Ok(lastExportTime)
  {
    SettingsRoundTrip(lastExportTime);
    assert SettingsJson(lastExportTime) != "";
  }

  /** The mail that carries a statement. */
  function StatementMail(caption: string, statementCsv: string, statementFileName: string): Mail {
    Mail("Statement export [" + caption + "]", "", [Attachment(statementFileName, statementCsv)])
  }

  // ---------------------------------------------------------------------------
  // What a run does
  // ---------------------------------------------------------------------------

  /** The bucket after the files of `effects` are written in order. */
  function Applied(storage: map<string, string>, effects: seq<Effect>): map<string, string> {
    if effects == [] then storage
    else
      var previous := Applied(storage, effects[..|effects| - 1]);
      match effects[|effects| - 1]
      case SavedFile(path, content) => previous[path := content]
      case SentMail(_) => previous
  }

  lemma {:induction false} AppliedOne(storage: map<string, string>, effects: seq<Effect>)
    requires |effects| == 1 && effects[0].SavedFile?
    ensures Applied(storage, effects) == storage[effects[0].path := effects[0].content]
  {
    assert effects[..0] == [];
  }

  lemma {:induction false} AppliedThree(storage: map<string, string>, effects: seq<Effect>)
    requires |effects| == 3 && effects[0].SavedFile? && effects[1].SentMail? && effects[2].SavedFile?
    ensures Applied(storage, effects)
         == storage[effects[0].path := effects[0].content][effects[2].path := effects[2].content]
  {
    var two := effects[..2];
    assert effects[..|effects| - 1] == two;
    assert two[..|two| - 1] == effects[..1];
    AppliedOne(storage, effects[..1]);
  }

  /** Three appends are one append of three. */
  lemma {:induction false} AppendThree<T>(s: seq<T>, a: T, b: T, c: T)
    ensures s + [a] + [b] + [c] == s + [a, b, c]
  {
  }

  datatype Outcome = Outcome(result: Result<Period, ExporterError>, effects: seq<Effect>)

  /** The result of `run()` and what it writes and sends, in order, given the
      bucket, the caption, the months to reach back, the two clock readings
      of the period calculation and the bank, generator and serialiser
      behaviour. */
  function RunOutcome(storage: map<string, string>, caption: string, maxMonthsToExport: int, nowStart: int, nowEnd: int,
                      fetch: (int, int) -> Option<seq<Transaction>>, formatDatetime: string -> string,
                      serialize: StatementFile -> string): Outcome {
    match LastExportTime(storage, caption)
    case Err(e) => Outcome(Err(e), [])
    case Ok(lastExportTime) =>
      PeriodOutcome(ExportPeriod(lastExportTime, maxMonthsToExport, nowStart, nowEnd), caption, fetch, formatDatetime, serialize)
  }

  /** The part of a run after the period is computed. */
  function PeriodOutcome(period: Result<Period, TimeError>, caption: string,
                         fetch: (int, int) -> Option<seq<Transaction>>, formatDatetime: string -> string,
                         serialize: StatementFile -> string): Outcome {
    match period
    case Err(e) => Outcome(Err(PeriodFailed(e)), [])
    case Ok(p) =>
      match fetch(p.startDate, p.endDate)
      case None => Outcome(Err(FetchFailed), [])
      case Some(transactions) =>
        ExportOutcome(p, transactions, caption, BuildStatementFileName(p.startDate, p.endDate),
                      serialize(GenerateStatementCsv(transactions, formatDatetime)))
  }

  /** The part of a run after the transactions are fetched, for the statement
      file name and CSV text of the period: the statement is saved and mailed
      only when there are transactions, and the checkpoint is written in
      either case. */
  function ExportOutcome(p: Period, transactions: seq<Transaction>, caption: string,
                         statementFileName: string, statementCsv: string): Outcome {
    var checkpoint := SavedFile(SettingsPath(caption), SettingsJson(p.endDate));
    if transactions == [] then Outcome(Ok(p), [checkpoint])
    else
      Outcome(Ok(p), [SavedFile(StatementPath(caption, statementFileName), statementCsv),
                      SentMail(StatementMail(caption, statementCsv, statementFileName)), checkpoint])
  }

  // ---------------------------------------------------------------------------
  // The exporter
  // ---------------------------------------------------------------------------

  class StatementExporter {
    const bankName: string
    const cardNumber: string
    const maxMonthsToExport: int
    /** The bucket: path to file content. */
    var storage: map<string, string>
    /** Every file written and every mail sent, oldest first. */
    var log: seq<Effect>

    constructor(bankName: string, cardNumber: string, maxMonthsToExport: int, storage: map<string, string>)
      ensures this.bankName == bankName && this.cardNumber == cardNumber
      ensures this.maxMonthsToExport == maxMonthsToExport
      ensures this.storage == storage && log == []
    {
      this.bankName := bankName;
      this.cardNumber := cardNumber;
      this.maxMonthsToExport := maxMonthsToExport;
      this.storage := storage;
      log := [];
    }

    function Caption(): string {
      BuildBankCaption(bankName, cardNumber)
    }

    /** `getLastExportTime()`: the checkpoint stored for this caption. */
    method GetLastExportTime() returns (r: Result<int, ExporterError>)
      ensures r == LastExportTime(storage, Caption())
    {
      r := LastExportTime(storage, Caption());
    }

    method SetLastExportTime(lastExportTime: int)
      modifies this
      ensures storage == old(storage)[SettingsPath(Caption()) := SettingsJson(lastExportTime)]
      ensures log == old(log) + [SavedFile(SettingsPath(Caption()), SettingsJson(lastExportTime))]
    {
      var path, settingsJson := SettingsPath(Caption()), SettingsJson(lastExportTime);
      storage := storage[path := settingsJson];
      log := log + [SavedFile(path, settingsJson)];
    }

    method SaveStatementCsvToCloud(statementCsv: string, statementFileName: string)
      modifies this
      ensures storage == old(storage)[StatementPath(Caption(), statementFileName) := statementCsv]
      ensures log == old(log) + [SavedFile(StatementPath(Caption(), statementFileName), statementCsv)]
    {
      var path := StatementPath(Caption(), statementFileName);
      storage := storage[path := statementCsv];
      log := log + [SavedFile(path, statementCsv)];
    }

    method SendStatementCsvByMail(statementCsv: string, statementFileName: string)
      modifies this
      ensures storage == old(storage)
      ensures log == old(log) + [SentMail(StatementMail(Caption(), statementCsv, statementFileName))]
    {
      log := log + [SentMail(StatementMail(Caption(), statementCsv, statementFileName))];
    }

    /** `run()` with the clock reading `nowStart` when the period's start is
        computed and `nowEnd` when its end is, proved against `RunOutcome`: the
        result, the effects appended to the log, and the bucket with the
        files of those effects written in order. */
    method Run(nowStart: int, nowEnd: int, fetch: (int, int) -> Option<seq<Transaction>>, formatDatetime: string -> string,
               serialize: StatementFile -> string)
      returns (r: Result<Period, ExporterError>)
      modifies this
      ensures r == RunOutcome(old(storage), Caption(), maxMonthsToExport, nowStart, nowEnd, fetch, formatDatetime, serialize).result
      ensures log == old(log) + RunOutcome(old(storage), Caption(), maxMonthsToExport, nowStart, nowEnd, fetch, formatDatetime, serialize).effects
      ensures storage == Applied(old(storage), RunOutcome(old(storage), Caption(), maxMonthsToExport, nowStart, nowEnd, fetch, formatDatetime, serialize).effects)
    {
      var lastExportTime := GetLastExportTime();
      if lastExportTime.Err? {
        return Err(lastExportTime.error);
      }
      var period := BuildExportPeriod(lastExportTime.value, maxMonthsToExport, nowStart, nowEnd);
      r := RunForPeriod(period, fetch, formatDatetime, serialize);
    }

    /** Saving and mailing the statement when there are transactions, then
        writing the checkpoint, for the file name and CSV text of the
        period. */
    method ExportStatement(p: Period, transactions: seq<Transaction>, statementFileName: string, statementCsv: string)
      modifies this
      ensures log == old(log) + ExportOutcome(p, transactions, Caption(), statementFileName, statementCsv).effects
      ensures storage == Applied(old(storage), ExportOutcome(p, transactions, Caption(), statementFileName, statementCsv).effects)
    {
      ghost var before, stored := log, storage;
      ghost var checkpoint := SavedFile(SettingsPath(Caption()), SettingsJson(p.endDate));
      if |transactions| > 0 {
        SaveStatementCsvToCloud(statementCsv, statementFileName);
        SendStatementCsvByMail(statementCsv, statementFileName);
        SetLastExportTime(p.endDate);
        ghost var saved := SavedFile(StatementPath(Caption(), statementFileName), statementCsv);
        ghost var mailed := SentMail(StatementMail(Caption(), statementCsv, statementFileName));
        AppendThree(before, saved, mailed, checkpoint);
        AppliedThree(stored, [saved, mailed, checkpoint]);
      } else {
        SetLastExportTime(p.endDate);
        AppliedOne(stored, [checkpoint]);
      }
    }

    /** The rest of `run()` once the period is computed, proved against
        `PeriodOutcome`. The file name and the CSV text are computed before
        the test for transactions rather than inside it; both are pure, so
        nothing observable changes. */
    method RunForPeriod(period: Result<Period, TimeError>, fetch: (int, int) -> Option<seq<Transaction>>,
                        formatDatetime: string -> string, serialize: StatementFile -> string)
      returns (r: Result<Period, ExporterError>)
      modifies this
      ensures r == PeriodOutcome(period, Caption(), fetch, formatDatetime, serialize).result
      ensures log == old(log) + PeriodOutcome(period, Caption(), fetch, formatDatetime, serialize).effects
      ensures storage == Applied(old(storage), PeriodOutcome(period, Caption(), fetch, formatDatetime, serialize).effects)
    {
      if period.Err? {
        return Err(PeriodFailed(period.error));
      }
      var startDate, endDate := period.value.startDate, period.value.endDate;
      var transactions := fetch(startDate, endDate);
      if transactions.None? {
        return Err(FetchFailed);
      }
      var statementFileName := BuildStatementFileName(startDate, endDate);
      var statementCsv := serialize(GenerateStatementCsv(transactions.value, formatDatetime));
      ExportStatement(period.value, transactions.value, statementFileName, statementCsv);
      return Ok(period.value);
    }
  }

  // ---------------------------------------------------------------------------
  // Properties of a run
  // ---------------------------------------------------------------------------

  /** A run that fails writes and sends nothing: the settings, the period
      and the fetch all come before the first write. A run that succeeds
      exports the period computed from the stored checkpoint. */
  lemma {:induction false} RunFailures(storage: map<string, string>, caption: string, maxMonthsToExport: int, nowStart: int, nowEnd: int,
                                       fetch: (int, int) -> Option<seq<Transaction>>, formatDatetime: string -> string,
                                       serialize: StatementFile -> string)
    ensures var outcome, last := RunOutcome(storage, caption, maxMonthsToExport, nowStart, nowEnd, fetch, formatDatetime, serialize),
                                 LastExportTime(storage, caption);
      && (last.Err? ==> outcome == Outcome(Err(InvalidSettings), []))
      && (last.Ok? ==> outcome == PeriodOutcome(ExportPeriod(last.value, maxMonthsToExport, nowStart, nowEnd), caption, fetch, formatDatetime, serialize))
  {
  }

  /** After the period: a failed period or fetch writes and sends nothing, a
      successful one exports exactly that period. */
  lemma {:induction false} PeriodFailures(period: Result<Period, TimeError>, caption: string,
                                          fetch: (int, int) -> Option<seq<Transaction>>, formatDatetime: string -> string,
                                          serialize: StatementFile -> string)
    ensures var outcome := PeriodOutcome(period, caption, fetch, formatDatetime, serialize);
      && (outcome.result.Err? ==> outcome.effects == [])
      && (period.Err? ==> outcome.result == Err(PeriodFailed(period.error)))
      && (period.Ok? && fetch(period.value.startDate, period.value.endDate).None? ==> outcome.result == Err(FetchFailed))
      && (outcome.result.Ok? ==> period == Ok(outcome.result.value) && fetch(period.value.startDate, period.value.endDate).Some?)
  {
  }

  /** A successful run without transactions only writes the checkpoint; with
      transactions it saves the statement CSV, one row per transaction under
      the caption header, then mails that same CSV, then writes the
      checkpoint. */
  lemma {:induction false} RunEffects(period: Result<Period, TimeError>, caption: string,
                                      fetch: (int, int) -> Option<seq<Transaction>>, formatDatetime: string -> string,
                                      serialize: StatementFile -> string)
    requires PeriodOutcome(period, caption, fetch, formatDatetime, serialize).result.Ok?
    ensures var outcome := PeriodOutcome(period, caption, fetch, formatDatetime, serialize);
      var p := outcome.result.value;
      var transactions := fetch(p.startDate, p.endDate).value;
      var checkpoint := SavedFile(SettingsPath(caption), SettingsJson(p.endDate));
      && (transactions == [] ==> outcome.effects == [checkpoint])
      && (transactions != [] ==>
            var name := BuildStatementFileName(p.startDate, p.endDate);
            var file := GenerateStatementCsv(transactions, formatDatetime);
            var csv := serialize(file);
            && outcome.effects == [SavedFile(StatementPath(caption, name), csv), SentMail(StatementMail(caption, csv, name)), checkpoint]
            && file.header == ["Id", "Datetime", "Income", "Expense", "Balance", "Description"]
            && |file.rows| == |transactions|)
  {
    assert period.Ok? && fetch(period.value.startDate, period.value.endDate).Some?;
    var p := period.value;
    var transactions := fetch(p.startDate, p.endDate).value;
    var checkpoint := SavedFile(SettingsPath(caption), SettingsJson(p.endDate));
    if transactions != [] {
      var name := BuildStatementFileName(p.startDate, p.endDate);
      var csv := serialize(GenerateStatementCsv(transactions, formatDatetime));
      assert PeriodOutcome(period, caption, fetch, formatDatetime, serialize)
          == Outcome(Ok(p), [SavedFile(StatementPath(caption, name), csv), SentMail(StatementMail(caption, csv, name)), checkpoint]);
    }
  }

  /** After a successful run the checkpoint reads back as the end of the
      exported period, whether or not a statement was written. */
  lemma {:induction false} CheckpointAfterRun(storage: map<string, string>, period: Result<Period, TimeError>, caption: string,
                                              fetch: (int, int) -> Option<seq<Transaction>>,
                                              formatDatetime: string -> string, serialize: StatementFile -> string)
    requires PeriodOutcome(period, caption, fetch, formatDatetime, serialize).result.Ok?
    ensures var outcome := PeriodOutcome(period, caption, fetch, formatDatetime, serialize);
      LastExportTime(Applied(storage, outcome.effects), caption) == Ok(outcome.result.value.endDate)
  {
    var p := period.value;
    var transactions := fetch(p.startDate, p.endDate).value;
    var statementFileName := BuildStatementFileName(p.startDate, p.endDate);
    var statementCsv := serialize(GenerateStatementCsv(transactions, formatDatetime));
    assert PeriodOutcome(period, caption, fetch, formatDatetime, serialize)
        == ExportOutcome(p, transactions, caption, statementFileName, statementCsv);
    ExportCheckpoint(storage, p, transactions, caption, statementFileName, statementCsv);
  }

  /** The checkpoint is the last write of an export. */
  lemma {:induction false} ExportCheckpoint(storage: map<string, string>, p: Period, transactions: seq<Transaction>,
                                            caption: string, statementFileName: string, statementCsv: string)
    ensures var outcome := ExportOutcome(p, transactions, caption, statementFileName, statementCsv);
      LastExportTime(Applied(storage, outcome.effects), caption) == Ok(p.endDate)
  {
    var effects := ExportOutcome(p, transactions, caption, statementFileName, statementCsv).effects;
    if transactions == [] {
      AppliedOne(storage, effects);
      CheckpointReadsBack(storage, caption, p.endDate);
    } else {
      AppliedThree(storage, effects);
      CheckpointReadsBack(storage[effects[0].path := effects[0].content], caption, p.endDate);
    }
  }
}
