/** The Privatbank adapter: build the signed `cmt` request for a card and a
    date range, reject a missing or failed response, and turn every
    statement row into a `Transaction`, reading the amounts as cents. The
    XML builder, the two hashes and the HTTP round trip are oracles:
    `bodyXml` renders the payload as the builder's body-only XML, `md5Hex`
    and `sha1Hex` are the hex digests, and `respond` is what the parsed
    answer to a request holds. */
module Privatbank {
  import opened Wrappers
  import opened Strings
  import opened Calendar
  import opened Transactions

  /** A row of the statement as the bank writes it; amounts are decimal
      strings. */
  datatype PrivatbankStatement = PrivatbankStatement(
    appcode: string, description: string, trandate: string, trantime: string,
    cardamount: string, rest: string, terminal: string)

  /** One `prop` element of the payment: its `name` and `value` attributes. */
  datatype Prop = Prop(name: string, value: string)

  /** The `data` object of the request. */
  datatype PaymentData = PaymentData(oper: string, wait: string, test: string, prop: seq<Prop>)

  datatype Merchant = Merchant(id: string, signature: string)

  /** The `request` object: its `version` attribute, the merchant envelope
      and the payload. */
  datatype Request = Request(version: string, merchant: Merchant, data: PaymentData)

  /** The parsed `response.data`: `error` says whether `response.data.error`
      is present, `statement` is the node under `info.statements`, None when
      it is missing. */
  datatype ResponseData = ResponseData(error: bool, statement: Option<seq<PrivatbankStatement>>)

  datatype PrivatbankError = InvalidAmount | InvalidResponse

  // ---------------------------------------------------------------------------
  // Amounts
  // ---------------------------------------------------------------------------

  /** `convertAmountStringToCents(amountString)`: every point deleted, then
      `parseInt`; a NaN result is the failure. */
  function ConvertAmountStringToCents(amountString: string): (r: Result<int, PrivatbankError>)
    ensures r.Err? ==> r.error == InvalidAmount
  {
    match ParseInt(RemoveChar(amountString, '.'))
    case Some(cents) => Ok(cents)
    case None => Err(InvalidAmount)
  }

  /** Every amount the generators write in `units.cents` form reads back as
      the same number of cents. */
  lemma {:induction false} CentsOfFormattedAmount(amount: int)
    ensures ConvertAmountStringToCents(FormatAmountOfMoney(amount)) == Ok(amount)
  {
    AmountOfMoneyParsesBack(amount);
  }

  /** Deleting a character keeps only characters of the original. */
  lemma {:induction false} RemoveCharFrom(s: string, c: char)
    ensures forall x :: x in RemoveChar(s, c) ==> x in s
  {
    if s != [] {
      RemoveCharFrom(s[1..], c);
    }
  }

  /** A string without any decimal digit never converts. */
  lemma {:induction false} NoDigitNoCents(amountString: string)
    requires forall i :: 0 <= i < |amountString| ==> !IsRadixDigit(amountString[i], 10)
    ensures ConvertAmountStringToCents(amountString) == Err(InvalidAmount)
  {
    var s := RemoveChar(amountString, '.');
    RemoveCharFrom(amountString, '.');
    assert forall x :: x in s ==> !IsRadixDigit(x, 10);
    var t := TrimStart(s);
    var u := if |t| > 0 && (t[0] == '-' || t[0] == '+') then t[1..] else t;
    assert forall x :: x in u ==> x in s;
    if |u| > 0 {
      assert !IsRadixDigit(u[0], 10);
      assert RadixDigitValue(u[0]) != 0;
    }
  }

  /** A point-free integer text: an optional minus sign and decimal digits. */
  lemma {:induction false} WholeCents(negative: bool, digits: string, v: nat)
    requires |digits| >= 1 && AllDigits(digits, 10) && DigitsValue(digits, 10) == v
    ensures ConvertAmountStringToCents((if negative then "-" else "") + digits)
      == Ok(if negative then -(v as int) else v)
  {
    assert !IsRadixDigit('.', 10);
    DigitsHaveNo(digits, '.');
    RemoveCharAbsent((if negative then "-" else "") + digits, '.');
    SignedDigitsParse(negative, digits, v);
  }

  /** `"123.45"` is 12345 cents. */
  lemma {:induction false} CentsExample(s: string)
    requires s == "123.45"
    ensures ConvertAmountStringToCents(s) == Ok(12345)
  {
    AmountOfMoneyExample(12345);
    CentsOfFormattedAmount(12345);
  }

  /** `"-5.00"` is -500 cents. */
  lemma {:induction false} NegativeCentsExample(s: string)
    requires s == "-5.00"
    ensures ConvertAmountStringToCents(s) == Ok(-500)
  {
    NegativeAmountOfMoneyExample(-500);
    CentsOfFormattedAmount(-500);
  }

  /** A decimal `w.f` converts to the number its digits denote with the
      point deleted, however many digits follow the point. */
  lemma {:induction false} DecimalCents(s: string, w: string, f: string)
    requires |w| >= 1 && AllDigits(w, 10) && AllDigits(f, 10)
    requires s == w + "." + f
    ensures AllDigits(w + f, 10) && ConvertAmountStringToCents(s) == Ok(DigitsValue(w + f, 10))
  {
    assert RemoveChar(s, '.') == w + f by {
      assert s == "" + w + "." + f;
      RemovePoint("", w, f);
      assert "" + (w + f) == w + f;
    }
    AllDigitsConcat(w, f);
    ParseIntOfDigits(w + f);
  }

  /** `"123.4"` is 1234 cents: the point is deleted, not interpreted. */
  lemma {:induction false} OneDecimalExample(s: string)
    requires s == "123.4"
    ensures ConvertAmountStringToCents(s) == Ok(1234)
  {
    var w, f := NatToString(123), NatToString(4);
    OneDecimalDigits(w, f);
    assert s == w + "." + f;
    DecimalCents(s, w, f);
  }

  lemma {:induction false} OneDecimalDigits(w: string, f: string)
    requires w == NatToString(123) && f == NatToString(4)
    ensures w == "123" && f == "4"
    ensures |w| >= 1 && AllDigits(w, 10) && AllDigits(f, 10) && DigitsValue(w + f, 10) == 1234
  {
    assert w == "123" && f == "4";
    NatToStringValue(123);
    NatToStringValue(4);
    assert Pow10(|f|) == 10;
    DigitsValueConcat(w, f);
  }

  /** `"12a.45"` is not rejected: `parseInt` stops at the letter. */
  lemma {:induction false} TrailingGarbageExample(s: string)
    requires s == "12a.45"
    ensures ConvertAmountStringToCents(s) == Ok(12)
  {
    assert s == "12a" + ['.'] + "45";
    RemoveCharAround("12a", "45", '.');
    var d := NatToString(12);
    assert d == "12";
    assert "12a" + "45" == d + "a45";
    NatToStringValue(12);
    ParseIntStopsAtNonDigit(d, "a45");
  }

  /** The empty string fails. */
  lemma {:induction false} EmptyAmountExample(s: string)
    requires s == ""
    ensures ConvertAmountStringToCents(s) == Err(InvalidAmount)
  {
    NoDigitNoCents(s);
  }

  /** `"abc"` fails. */
  lemma {:induction false} LettersAmountExample(s: string)
    requires s == "abc"
    ensures ConvertAmountStringToCents(s) == Err(InvalidAmount)
  {
    assert forall i :: 0 <= i < |s| ==> !IsRadixDigit(s[i], 10);
    NoDigitNoCents(s);
  }

  /** A lone decimal point fails. */
  lemma {:induction false} PointAmountExample(s: string)
    requires s == "."
    ensures ConvertAmountStringToCents(s) == Err(InvalidAmount)
  {
    NoDigitNoCents(s);
  }

  // ---------------------------------------------------------------------------
  // Statement rows
  // ---------------------------------------------------------------------------

  /** `formatStatement(bankStatement)`: fails when the card amount or the
      rest does not convert, the amount first. */
  function FormatStatement(bankStatement: PrivatbankStatement): (r: Result<Transaction, PrivatbankError>)
    ensures r.Ok? <==>
      ConvertAmountStringToCents(bankStatement.cardamount).Ok? && ConvertAmountStringToCents(bankStatement.rest).Ok?
    ensures r.Err? ==> r.error == InvalidAmount
    ensures r.Ok? ==>
      && r.value.id == bankStatement.appcode
      && r.value.amount == ConvertAmountStringToCents(bankStatement.cardamount).value
      && r.value.balance == ConvertAmountStringToCents(bankStatement.rest).value
      && r.value.datetime == bankStatement.trandate + " " + bankStatement.trantime
      && r.value.description == bankStatement.description
  {
    var amount :- ConvertAmountStringToCents(bankStatement.cardamount);
    var balance :- ConvertAmountStringToCents(bankStatement.rest);
    var datetime := bankStatement.trandate + " " + bankStatement.trantime;
    Ok(Transaction(bankStatement.appcode, amount, balance, datetime, bankStatement.description))
  }

  /** A row whose amounts are written as the generators write money gives
      back the transaction it was written from; the terminal is dropped. */
  lemma {:induction false} FormatStatementOfTransaction(t: Transaction, trandate: string, trantime: string, terminal: string)
    requires t.datetime == trandate + " " + trantime
    ensures FormatStatement(PrivatbankStatement(t.id, t.description, trandate, trantime,
                                                FormatAmountOfMoney(t.amount), FormatAmountOfMoney(t.balance), terminal))
      == Ok(t)
  {
    CentsOfFormattedAmount(t.amount);
    CentsOfFormattedAmount(t.balance);
  }

  /** `bankStatementsRows.map(formatStatement)`: the first row that fails
      fails the whole list; otherwise one transaction per row, in row
      order. */
  function FormatStatements(rows: seq<PrivatbankStatement>): (r: Result<seq<Transaction>, PrivatbankError>)
    ensures r.Ok? <==> forall i :: 0 <= i < |rows| ==> FormatStatement(rows[i]).Ok?
    ensures r.Err? ==> r.error == InvalidAmount
    ensures r.Ok? ==> |r.value| == |rows| && forall i :: 0 <= i < |rows| ==> r.value[i] == FormatStatement(rows[i]).value
  {
    MapAll(FormatStatement, rows)
  }

  /** `xs.map(f)` where `f` may throw: the first failure is the result,
      otherwise the results in order. */
  function MapAll<A, B, E>(f: A -> Result<B, E>, xs: seq<A>): (r: Result<seq<B>, E>)
    ensures r.Ok? <==> forall i :: 0 <= i < |xs| ==> f(xs[i]).Ok?
    ensures r.Err? ==> exists i :: 0 <= i < |xs| && f(xs[i]) == Err(r.error)
    ensures r.Ok? ==> |r.value| == |xs| && forall i :: 0 <= i < |xs| ==> r.value[i] == f(xs[i]).value
  {
    if xs == [] then Ok([])
    else
      var tail := xs[1..];
      assert forall i :: 1 <= i < |xs| ==> xs[i] == tail[i - 1];
      match f(xs[0])
      case Err(e) => Err(e)
      case Ok(first) =>
        match MapAll(f, tail)
        case Err(e) => Err(e)
        case Ok(rest) => Ok([first] + rest)
  }

  // ---------------------------------------------------------------------------
  // The request
  // ---------------------------------------------------------------------------

  /** The payload of `getStatements`: operation `cmt`, no waiting, not a test,
      and the start date, the end date and the card as `sd`, `ed`, `card`. */
  function BuildPaymentData(startDate: int, endDate: int, cardNumber: string): PaymentData {
    PaymentData("cmt", "0", "0", [Prop("sd", FormatDmy(startDate)), Prop("ed", FormatDmy(endDate)), Prop("card", cardNumber)])
  }

  /** `buildMerchantSignature(data)`: SHA-1 of the MD5 of the body-only XML
      of the payload followed by the password, both as hex. */
  function BuildMerchantSignature(data: PaymentData, merchantPassword: string, bodyXml: PaymentData -> string,
                                  md5Hex: string -> string, sha1Hex: string -> string): string {
    sha1Hex(md5Hex(bodyXml(data) + merchantPassword))
  }

  /** The configuration a client is built from. */
  datatype PrivatbankClient = PrivatbankClient(bankName: string, cardNumber: string, merchantId: string, merchantPassword: string)
  {
    /** The `request` sent to `/rest_fiz` for a date range. */
    function StatementRequest(startDate: int, endDate: int, bodyXml: PaymentData -> string,
                              md5Hex: string -> string, sha1Hex: string -> string): (r: Request)
      ensures r.version == "1.0" && r.merchant.id == merchantId
      ensures r.data == BuildPaymentData(startDate, endDate, cardNumber)
      ensures r.merchant.signature == BuildMerchantSignature(r.data, merchantPassword, bodyXml, md5Hex, sha1Hex)
    {
      var data := BuildPaymentData(startDate, endDate, cardNumber);
      Request("1.0", Merchant(merchantId, BuildMerchantSignature(data, merchantPassword, bodyXml, md5Hex, sha1Hex)), data)
    }

    /** `getStatements(startDate, endDate)`: a missing response or one that
        carries an error fails; a missing statement node is an empty
        statement; otherwise every row is formatted. */
    function GetStatements(startDate: int, endDate: int, bodyXml: PaymentData -> string,
                           md5Hex: string -> string, sha1Hex: string -> string,
                           respond: Request -> Option<ResponseData>): (r: Result<seq<Transaction>, PrivatbankError>)
      ensures var response := respond(StatementRequest(startDate, endDate, bodyXml, md5Hex, sha1Hex));
        && (response.None? || response.value.error ==> r == Err(InvalidResponse))
        && (response.Some? && !response.value.error && response.value.statement.None? ==> r == Ok([]))
        && (response.Some? && !response.value.error && response.value.statement.Some? ==>
              r == FormatStatements(response.value.statement.value))
    {
      var response := respond(StatementRequest(startDate, endDate, bodyXml, md5Hex, sha1Hex));
      if response.None? || response.value.error then Err(InvalidResponse)
      else
        var bankStatementsRows := if response.value.statement.Some? then response.value.statement.value else [];
        FormatStatements(bankStatementsRows)
    }
  }

  /** The payload lists exactly `sd`, `ed` and `card`, in that order; both
      dates are `dd.mm.yyyy`, ten characters with points at positions 2 and
      5 whose digit fields read back as the day, the month counted from 1
      and the year of the date. */
  lemma {:induction false} PaymentDataShape(startDate: int, endDate: int, cardNumber: string)
    requires 0 <= DateOf(startDate).year < 10000 && 0 <= DateOf(endDate).year < 10000
    ensures var data := BuildPaymentData(startDate, endDate, cardNumber);
      && data.oper == "cmt" && data.wait == "0" && data.test == "0"
      && |data.prop| == 3
      && data.prop[0].name == "sd" && data.prop[1].name == "ed" && data.prop[2].name == "card"
      && data.prop[2].value == cardNumber
      && DmyFields(data.prop[0].value, DateOf(startDate))
      && DmyFields(data.prop[1].value, DateOf(endDate))
  {
    DateOfValid(startDate);
    DateOfValid(endDate);
    DmyTextFields(DateOf(startDate));
    DmyTextFields(DateOf(endDate));
  }

  /** `s` is `dd.mm.yyyy` for the date `d`. */
  predicate DmyFields(s: string, d: Date) {
    && |s| == 10 && s[2] == '.' && s[5] == '.'
    && AllDigits(s[..2], 10) && DigitsValue(s[..2], 10) == d.day
    && AllDigits(s[3..5], 10) && DigitsValue(s[3..5], 10) == d.month + 1
    && AllDigits(s[6..], 10) && DigitsValue(s[6..], 10) == d.year
  }

  /** The signature covers the payload and the password only: clients that
      differ in their merchant id or bank name sign the same request
      alike. */
  lemma {:induction false} SignatureIgnoresEnvelope(a: PrivatbankClient, b: PrivatbankClient, startDate: int, endDate: int,
                                                    bodyXml: PaymentData -> string, md5Hex: string -> string, sha1Hex: string -> string)
    requires a.cardNumber == b.cardNumber && a.merchantPassword == b.merchantPassword
    ensures a.StatementRequest(startDate, endDate, bodyXml, md5Hex, sha1Hex).merchant.signature
         == b.StatementRequest(startDate, endDate, bodyXml, md5Hex, sha1Hex).merchant.signature
    ensures a.StatementRequest(startDate, endDate, bodyXml, md5Hex, sha1Hex).data
         == b.StatementRequest(startDate, endDate, bodyXml, md5Hex, sha1Hex).data
  {
  }

  /** A successful statement has one transaction per row, in row order, and
      each row's amounts read back: nothing is filtered by date. */
  lemma {:induction false} StatementRows(client: PrivatbankClient, startDate: int, endDate: int,
                                         bodyXml: PaymentData -> string, md5Hex: string -> string, sha1Hex: string -> string,
                                         respond: Request -> Option<ResponseData>, i: int)
    requires client.GetStatements(startDate, endDate, bodyXml, md5Hex, sha1Hex, respond).Ok?
    ensures var response := respond(client.StatementRequest(startDate, endDate, bodyXml, md5Hex, sha1Hex));
      var rows := if response.value.statement.Some? then response.value.statement.value else [];
      var r := client.GetStatements(startDate, endDate, bodyXml, md5Hex, sha1Hex, respond).value;
      && response.Some? && !response.value.error
      && |r| == |rows|
      && (0 <= i < |rows| ==>
            && r[i].id == rows[i].appcode && r[i].description == rows[i].description
            && r[i].datetime == rows[i].trandate + " " + rows[i].trantime
            && Ok(r[i].amount) == ConvertAmountStringToCents(rows[i].cardamount)
            && Ok(r[i].balance) == ConvertAmountStringToCents(rows[i].rest))
  {
    var response := respond(client.StatementRequest(startDate, endDate, bodyXml, md5Hex, sha1Hex));
    var rows := if response.value.statement.Some? then response.value.statement.value else [];
    if 0 <= i < |rows| {
      assert FormatStatement(rows[i]).Ok?;
    }
  }
}
