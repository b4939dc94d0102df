/** The bank-independent transaction record that both bank clients produce
    and both statement generators consume, together with what the two
    generators share: the ascending sort by `datetime`, the rendering of
    cents as money and the formatting of one record as a statement row. */
module Transactions {
  import opened Wrappers
  import opened Strings

  /** `Transaction`: amounts and balances in cents; `datetime` is the text
      the bank client wrote. */
  datatype Transaction = Transaction(id: string, amount: int, balance: int, datetime: string, description: string)

  /** `TransactionData`: one statement row, every column already text. */
  datatype TransactionData = TransactionData(id: string, datetime: string, income: string, expense: string, balance: string, description: string)

  /** The columns of a row in the statement's column order. */
  function Columns(d: TransactionData): (cells: seq<string>)
    ensures |cells| == 6
  {
    [d.id, d.datetime, d.income, d.expense, d.balance, d.description]
  }

  // ---------------------------------------------------------------------------
  // Sorting a copy by datetime
  // ---------------------------------------------------------------------------

  /** Non-decreasing by `datetime` in the relational order of strings. */
  predicate SortedByDatetime(s: seq<Transaction>) {
    forall i, j :: 0 <= i < j < |s| ==> StrLessOrEqual(s[i].datetime, s[j].datetime)
  }

  /** Every element of `s` has a datetime no smaller than `d`. */
  predicate AllFrom(d: string, s: seq<Transaction>) {
    forall i :: 0 <= i < |s| ==> StrLessOrEqual(d, s[i].datetime)
  }

  /** The comparator `first.datetime > second.datetime ? 1 : -1` puts `t`
      after `s[0]` exactly when `t.datetime > s[0].datetime`. */
  function Insert(t: Transaction, s: seq<Transaction>): (r: seq<Transaction>)
    ensures |r| == |s| + 1
    ensures multiset(r) == multiset(s) + multiset{t}
  {
    if s == [] || !StrLess(s[0].datetime, t.datetime) then [t] + s
    else
      assert s == [s[0]] + s[1..];
      [s[0]] + Insert(t, s[1..])
  }

  lemma {:induction false} InsertAllFrom(d: string, t: Transaction, s: seq<Transaction>)
    requires AllFrom(d, s) && StrLessOrEqual(d, t.datetime)
    ensures AllFrom(d, Insert(t, s))
  {
    if s != [] && StrLess(s[0].datetime, t.datetime) {
      InsertAllFrom(d, t, s[1..]);
      var r := Insert(t, s);
      assert r == [s[0]] + Insert(t, s[1..]);
    }
  }

  lemma {:induction false} InsertSorted(t: Transaction, s: seq<Transaction>)
    requires SortedByDatetime(s)
    ensures SortedByDatetime(Insert(t, s))
  {
    var r := Insert(t, s);
    if s == [] || !StrLess(s[0].datetime, t.datetime) {
      forall i, j | 0 <= i < j < |r| ensures StrLessOrEqual(r[i].datetime, r[j].datetime) {
        if i == 0 {
          if j > 1 { StrLessOrEqualTransitive(t.datetime, s[0].datetime, s[j - 1].datetime); }
        }
      }
    } else {
      var rest := Insert(t, s[1..]);
      assert SortedByDatetime(s[1..]);
      InsertSorted(t, s[1..]);
      assert AllFrom(s[0].datetime, s[1..]);
      assert StrLessOrEqual(s[0].datetime, t.datetime) by {
        if StrLess(t.datetime, s[0].datetime) {
          StrLessTransitive(t.datetime, s[0].datetime, t.datetime);
          StrLessIrreflexive(t.datetime);
        }
      }
      InsertAllFrom(s[0].datetime, t, s[1..]);
      assert r == [s[0]] + rest;
    }
  }

  /** `[...transactions].sort(comparator)`: a sorted permutation of the
      input, which itself is a value and stays as it was. */
  function SortByDatetime(s: seq<Transaction>): (r: seq<Transaction>)
    ensures |r| == |s|
    ensures multiset(r) == multiset(s)
    ensures SortedByDatetime(r)
  {
    if s == [] then []
    else
      assert s == [s[0]] + s[1..];
      var rest := SortByDatetime(s[1..]);
      InsertSorted(s[0], rest);
      Insert(s[0], rest)
  }

  // ---------------------------------------------------------------------------
  // Money
  // ---------------------------------------------------------------------------

  /** The signed decimal with whole `units` and two digits of `cents`. */
  function MoneyText(negative: bool, units: nat, cents: nat): (r: string)
    requires cents < 100
    ensures |r| >= 4 && r[|r| - 3] == '.' && AllDigits(r[|r| - 2..], 10)
    ensures r[0] == '-' <==> negative
    ensures var start := if negative then 1 else 0;
      start < |r| - 3 && AllDigits(r[start..|r| - 3], 10)
  {
    MoneyLayout(negative, units, cents);
    (if negative then "-" else "") + NatToString(units) + "." + Pad(cents, 2)
  }

  /** Where the sign, the units, the point and the two cent digits sit. */
  lemma {:induction false} MoneyLayout(negative: bool, units: nat, cents: nat)
    requires cents < 100
    ensures var r := (if negative then "-" else "") + NatToString(units) + "." + Pad(cents, 2);
      var start := if negative then 1 else 0;
      && |r| >= 4 && r[|r| - 3] == '.' && AllDigits(r[|r| - 2..], 10)
      && (r[0] == '-' <==> negative)
      && start < |r| - 3 && AllDigits(r[start..|r| - 3], 10)
  {
    assert Pow10(2) == 100;
    PadDigits(cents, 2);
    SignedLayout(negative, NatToString(units), Pad(cents, 2));
  }

  /** The same for any digit run and two digits. */
  lemma {:induction false} SignedLayout(negative: bool, units: string, cents: string)
    requires |units| >= 1 && AllDigits(units, 10) && |cents| == 2 && AllDigits(cents, 10)
    ensures var r := (if negative then "-" else "") + units + "." + cents;
      var start := if negative then 1 else 0;
      && |r| >= 4 && r[|r| - 3] == '.' && AllDigits(r[|r| - 2..], 10)
      && (r[0] == '-' <==> negative)
      && start < |r| - 3 && AllDigits(r[start..|r| - 3], 10)
  {
    var sign := if negative then "-" else "";
    var r := sign + units + "." + cents;
    assert r[|r| - 2..] == cents;
    assert r[|sign|..|r| - 3] == units;
    assert r[0] == (if negative then '-' else units[0]);
    assert IsRadixDigit(units[0], 10);
  }

  lemma {:induction false} MoneyTextWithoutPoint(negative: bool, units: nat, cents: nat)
    requires cents < 100
    ensures RemoveChar(MoneyText(negative, units, cents), '.') == (if negative then "-" else "") + (NatToString(units) + Pad(cents, 2))
  {
    assert Pow10(2) == 100;
    PadDigits(cents, 2);
    RemovePoint(if negative then "-" else "", NatToString(units), Pad(cents, 2));
  }

  /** `(amount / 100).toFixed(2)` on an amount in cents, in integer
      arithmetic: the sign, the whole units, a point and exactly two digits. */
  function FormatAmountOfMoney(amount: int): (r: string)
    ensures |r| >= 4 && r[|r| - 3] == '.' && AllDigits(r[|r| - 2..], 10)
    ensures r[0] == '-' <==> amount < 0
    ensures var start := if amount < 0 then 1 else 0;
      start < |r| - 3 && AllDigits(r[start..|r| - 3], 10)
  {
    var u := if amount < 0 then -amount else amount;
    MoneyText(amount < 0, u / 100, u % 100)
  }

  /** Deleting the point and reading the rest with `parseInt` gives the
      amount back: the text denotes exactly `amount / 100`. */
  lemma {:induction false} AmountOfMoneyParsesBack(amount: int)
    ensures ParseInt(RemoveChar(FormatAmountOfMoney(amount), '.')) == Some(amount)
  {
    var u := if amount < 0 then -amount else amount;
    var q, m := u / 100, u % 100;
    var digits := NatToString(q) + Pad(m, 2);
    assert RemoveChar(FormatAmountOfMoney(amount), '.') == (if amount < 0 then "-" else "") + digits by {
      MoneyTextWithoutPoint(amount < 0, q, m);
    }
    assert u == q * 100 + m;
    assert AllDigits(digits, 10) && DigitsValue(digits, 10) == u by {
      UnitsAndHundredths(q, m);
    }
    SignedDigitsParse(amount < 0, digits, u);
  }

  /** 12345 cents are written `123.45`. */
  lemma {:induction false} AmountOfMoneyExample(amount: int)
    requires amount == 12345
    ensures FormatAmountOfMoney(amount) == "123.45"
  {
    assert amount / 100 == 123 && amount % 100 == 45;
    assert NatToString(123) == "123";
    assert Pad(45, 2) == "45";
  }

  /** -500 cents are written `-5.00`. */
  lemma {:induction false} NegativeAmountOfMoneyExample(amount: int)
    requires amount == -500
    ensures FormatAmountOfMoney(amount) == "-5.00"
  {
    assert -amount / 100 == 5 && -amount % 100 == 0;
    assert NatToString(5) == "5";
    assert Pad(0, 2) == "00";
  }

  // ---------------------------------------------------------------------------
  // One statement row
  // ---------------------------------------------------------------------------

  /** `formatTransaction`: a positive amount is income, any other amount
      (zero included) an expense with its sign; the balance is always
      written; `formatDatetime` is the `dateformat` call of the generator. */
  function FormatTransaction(t: Transaction, formatDatetime: string -> string): (d: TransactionData)
    ensures d.id == t.id && d.description == t.description
    ensures d.datetime == formatDatetime(t.datetime)
  {
    var income := if t.amount > 0 then FormatAmountOfMoney(t.amount) else "";
    var expense := if t.amount > 0 then "" else FormatAmountOfMoney(t.amount);
    TransactionData(t.id, formatDatetime(t.datetime), income, expense, FormatAmountOfMoney(t.balance), t.description)
  }

  /** Exactly one of income and expense is filled, and the sign of the
      amount decides which; an expense keeps its minus sign. */
  lemma {:induction false} FormatTransactionSplit(t: Transaction, formatDatetime: string -> string)
    ensures var d := FormatTransaction(t, formatDatetime);
            && (d.income != "" <==> t.amount > 0)
            && (d.expense != "" <==> t.amount <= 0)
            && (t.amount <= 0 ==> (d.expense[0] == '-' <==> t.amount < 0))
  {
    var a := FormatAmountOfMoney(t.amount);
    assert |a| >= 4 && (a[0] == '-' <==> t.amount < 0);
  }

  /** The filled money column and the balance column read back, with the
      point deleted and `parseInt`, as the amount and the balance. */
  lemma {:induction false} FormatTransactionReadsBack(t: Transaction, formatDatetime: string -> string)
    ensures var d := FormatTransaction(t, formatDatetime);
            && ParseInt(RemoveChar(d.income + d.expense, '.')) == Some(t.amount)
            && ParseInt(RemoveChar(d.balance, '.')) == Some(t.balance)
  {
    var d := FormatTransaction(t, formatDatetime);
    var a, b := FormatAmountOfMoney(t.amount), FormatAmountOfMoney(t.balance);
    assert d.income + d.expense == a by {
      if t.amount > 0 {
        assert d.income + d.expense == d.income;
      } else {
        assert d.income + d.expense == d.expense;
      }
    }
    assert d.balance == b;
    AmountOfMoneyParsesBack(t.amount);
    AmountOfMoneyParsesBack(t.balance);
  }

  /** `sortedTransactions.map(formatTransaction)`. */
  function FormatAll(s: seq<Transaction>, formatDatetime: string -> string): (rows: seq<TransactionData>)
    ensures |rows| == |s|
    ensures forall i :: 0 <= i < |s| ==> rows[i] == FormatTransaction(s[i], formatDatetime)
  {
    if s == [] then [] else [FormatTransaction(s[0], formatDatetime)] + FormatAll(s[1..], formatDatetime)
  }
  /** Formatting after one insertion adds exactly the inserted record's row. */
  lemma {:induction false} FormatAllInsert(t: Transaction, s: seq<Transaction>, formatDatetime: string -> string)
    ensures multiset(FormatAll(Insert(t, s), formatDatetime))
         == multiset(FormatAll(s, formatDatetime)) + multiset{FormatTransaction(t, formatDatetime)}
  {
    var f := formatDatetime;
    if s == [] || !StrLess(s[0].datetime, t.datetime) {
      assert Insert(t, s) == [t] + s;
      FormatAllCons(t, s, f);
    } else {
      var rest := Insert(t, s[1..]);
      FormatAllInsert(t, s[1..], f);
      assert Insert(t, s) == [s[0]] + rest;
      FormatAllCons(s[0], rest, f);
      assert FormatAll(s, f) == [FormatTransaction(s[0], f)] + FormatAll(s[1..], f);
      ConsMultiset(FormatTransaction(s[0], f), FormatAll(rest, f), FormatAll(s[1..], f), FormatTransaction(t, f));
    }
  }

  lemma {:induction false} ConsMultiset<T>(x: T, a: seq<T>, b: seq<T>, y: T)
    requires multiset(a) == multiset(b) + multiset{y}
    ensures multiset([x] + a) == multiset([x] + b) + multiset{y}
  {
  }

  lemma {:induction false} FormatAllCons(t: Transaction, s: seq<Transaction>, formatDatetime: string -> string)
    ensures FormatAll([t] + s, formatDatetime) == [FormatTransaction(t, formatDatetime)] + FormatAll(s, formatDatetime)
  {
    assert ([t] + s)[1..] == s;
  }

  /** Sorting first changes the order of the formatted rows and nothing
      else: every input transaction still yields exactly one row. */
  lemma {:induction false} FormatSortedPermutation(s: seq<Transaction>, formatDatetime: string -> string)
    ensures multiset(FormatAll(SortByDatetime(s), formatDatetime)) == multiset(FormatAll(s, formatDatetime))
  {
    if s != [] {
      var rest := SortByDatetime(s[1..]);
      FormatSortedPermutation(s[1..], formatDatetime);
      FormatAllInsert(s[0], rest, formatDatetime);
    }
  }

  /** The table of `data`: one row of cells per record, in order. */
  function Rows(data: seq<TransactionData>): (table: seq<seq<string>>)
    ensures |table| == |data|
    ensures forall i :: 0 <= i < |data| ==> table[i] == Columns(data[i])
  {
    if data == [] then [] else [Columns(data[0])] + Rows(data[1..])
  }

  /** The cells of the row of `t`, column by column: the id and the
      description unchanged, the formatted datetime, income only for a
      positive amount and expense only otherwise, and money columns that
      read back as the amount and the balance. */
  lemma {:induction false} RowOf(row: seq<string>, t: Transaction, formatDatetime: string -> string)
    requires row == Columns(FormatTransaction(t, formatDatetime))
    ensures row[0] == t.id && row[5] == t.description && row[1] == formatDatetime(t.datetime)
    ensures (row[2] != "" <==> t.amount > 0) && (row[3] != "" <==> t.amount <= 0)
    ensures ParseInt(RemoveChar(row[2] + row[3], '.')) == Some(t.amount)
    ensures ParseInt(RemoveChar(row[4], '.')) == Some(t.balance)
  {
    var d := FormatTransaction(t, formatDatetime);
    assert row[0] == d.id && row[1] == d.datetime && row[2] == d.income;
    assert row[3] == d.expense && row[4] == d.balance && row[5] == d.description;
    FormatTransactionSplit(t, formatDatetime);
    FormatTransactionReadsBack(t, formatDatetime);
  }
}
