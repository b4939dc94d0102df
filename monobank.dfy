/** The Monobank adapter: resolve the account of the configured card from the
    client info (first account whose first masked card number matches, cached
    in the client), fetch that account's statement for a time range, and turn
    every statement item into a `Transaction`. The HTTP client is an oracle:
    `clientInfo` is what `/personal/client-info` answers and `statement` maps
    a request path to the items it answers with. */
module Monobank {
  import opened Wrappers
  import opened Strings
  import opened Calendar
  import opened Transactions

  /** A statement item of the Monobank API; `time` is in seconds, amounts in
      cents. */
  datatype MonobankTransaction = MonobankTransaction(
    id: string, time: int, description: string, mcc: int, amount: int, balance: int, comment: Option<string>)

  /** An account of the client info with its masked card numbers. */
  datatype Account = Account(id: string, maskedPan: seq<string>)

  datatype MonobankError = AccountNotFound

  const ClientInfoPath := "/personal/client-info"

  /** `/personal/statement/${accountId}/${startTime}/${endTime}`. */
  function StatementPath(accountId: string, startTime: int, endTime: int): string {
    "/personal/statement/" + accountId + "/" + IntToString(startTime) + "/" + IntToString(endTime)
  }

  // ---------------------------------------------------------------------------
  // Card masks
  // ---------------------------------------------------------------------------

  /** A card number fits a mask when both have the same length and every
      position of the mask that is not `*` holds the card's character. */
  predicate MatchesMask(cardNumber: string, cardMask: string) {
    |cardNumber| == |cardMask|
    && forall i :: 0 <= i < |cardMask| && cardMask[i] != '*' ==> cardNumber[i] == cardMask[i]
  }

  /** `isCardNumberMatchesWithMask(cardNumber, cardMask)`. */
  method IsCardNumberMatchesWithMask(cardNumber: string, cardMask: string) returns (matches: bool)
    ensures matches == MatchesMask(cardNumber, cardMask)
  {
    if |cardNumber| != |cardMask| {
      return false;
    }
    for index := 0 to |cardMask|
      invariant forall i :: 0 <= i < index && cardMask[i] != '*' ==> cardNumber[i] == cardMask[i]
    {
      if cardMask[index] == '*' {
        continue;
      }
      if cardNumber[index] != cardMask[index] {
        return false;
      }
    }
    return true;
  }

  /** A mask without `*` is matched by exactly one card number, itself. */
  lemma {:induction false} MaskWithoutStars(cardNumber: string, cardMask: string)
    requires '*' !in cardMask
    ensures MatchesMask(cardNumber, cardMask) <==> cardNumber == cardMask
  {
    if MatchesMask(cardNumber, cardMask) {
      assert forall i :: 0 <= i < |cardMask| ==> cardMask[i] != '*';
    }
  }

  /** Replacing characters of a mask with `*` keeps every card it matched. */
  lemma {:induction false} MaskWidening(cardNumber: string, cardMask: string, wider: string)
    requires MatchesMask(cardNumber, cardMask) && |wider| == |cardMask|
    requires forall i :: 0 <= i < |wider| ==> wider[i] == cardMask[i] || wider[i] == '*'
    ensures MatchesMask(cardNumber, wider)
  {
    forall i | 0 <= i < |wider| && wider[i] != '*'
      ensures cardNumber[i] == wider[i]
    {
      assert wider[i] == cardMask[i];
    }
  }

  // ---------------------------------------------------------------------------
  // Account resolution
  // ---------------------------------------------------------------------------

  /** `cardMask && isCardNumberMatchesWithMask(cardNumber, cardMask)` with
      `cardMask = account.maskedPan[0]`: a missing or empty first mask never
      matches. */
  predicate Eligible(account: Account, cardNumber: string) {
    |account.maskedPan| > 0 && account.maskedPan[0] != "" && MatchesMask(cardNumber, account.maskedPan[0])
  }

  /** The position of the first eligible account in list order. */
  function FirstEligible(accounts: seq<Account>, cardNumber: string): (r: Option<nat>)
    ensures r.Some? ==> r.value < |accounts| && Eligible(accounts[r.value], cardNumber)
    ensures r.Some? ==> forall j :: 0 <= j < r.value ==> !Eligible(accounts[j], cardNumber)
    ensures r.None? ==> forall j :: 0 <= j < |accounts| ==> !Eligible(accounts[j], cardNumber)
  {
    if accounts == [] then None
    else if Eligible(accounts[0], cardNumber) then Some(0)
    else match FirstEligible(accounts[1..], cardNumber)
      case None => None
      case Some(i) => Some(i + 1)
  }

  /** The id the scan over the client info settles on, or the failure when no
      account is eligible. */
  function ResolveAccount(accounts: seq<Account>, cardNumber: string): Result<string, MonobankError> {
    match FirstEligible(accounts, cardNumber)
    case Some(i) => Ok(accounts[i].id)
    case None => Err(AccountNotFound)
  }

  // ---------------------------------------------------------------------------
  // Descriptions and transactions
  // ---------------------------------------------------------------------------

  /** `if (bankTransaction.comment)`: a comment that is there and not empty. */
  predicate HasComment(t: MonobankTransaction) {
    t.comment.Some? && t.comment.value != ""
  }

  /** The `edited_description` pushed for the item: none for mcc 0 and none
      for a code `mccLookup` (the merchant-category-code lookup) does not
      know. */
  function Category(t: MonobankTransaction, mccLookup: int -> Option<string>): Option<string> {
    if t.mcc != 0 then mccLookup(t.mcc) else None
  }

  /** The description, then the comment when there is one, then the
      merchant category when there is one, separated by ` | `. */
  function TransactionDescription(t: MonobankTransaction, mccLookup: int -> Option<string>): string {
    t.description
    + (if HasComment(t) then " | " + t.comment.value else "")
    + (if Category(t, mccLookup).Some? then " | " + Category(t, mccLookup).value else "")
  }

  /** `formatTransactionDescription(bankTransaction)`. */
  method FormatTransactionDescription(t: MonobankTransaction, mccLookup: int -> Option<string>)
    returns (description: string)
    ensures description == TransactionDescription(t, mccLookup)
  {
    var descriptionParts := [t.description];
    ghost var joined := t.description;
    if HasComment(t) {
      JoinAppend(descriptionParts, t.comment.value, " | ");
      descriptionParts := descriptionParts + [t.comment.value];
      joined := joined + " | " + t.comment.value;
    }
    assert Join(descriptionParts, " | ") == joined;
    if t.mcc != 0 {
      var merchantCategory := mccLookup(t.mcc);
      if merchantCategory.Some? {
        JoinAppend(descriptionParts, merchantCategory.value, " | ");
        descriptionParts := descriptionParts + [merchantCategory.value];
        joined := joined + " | " + merchantCategory.value;
      }
    }
    description := Join(descriptionParts, " | ");
    assert description == joined;
  }

  /** `formatTransaction(bankTransaction)`: id, amount and balance copied,
      the time in seconds written as `yyyy-mm-dd HH:MM:ss`, the enriched
      description. */
  function FormatTransaction(t: MonobankTransaction, mccLookup: int -> Option<string>): (r: Transaction)
    ensures r.id == t.id && r.amount == t.amount && r.balance == t.balance
    ensures r.description == TransactionDescription(t, mccLookup)
  {
    Transaction(t.id, t.amount, t.balance, FormatYmdHms(t.time * MsPerSecond), TransactionDescription(t, mccLookup))
  }

  /** `bankTransactions.map(formatTransaction)`: one transaction per item, in
      the order of the items, with nothing filtered out. */
  function FormatTransactions(items: seq<MonobankTransaction>, mccLookup: int -> Option<string>): (r: seq<Transaction>)
    ensures |r| == |items|
    ensures forall i :: 0 <= i < |items| ==> r[i] == FormatTransaction(items[i], mccLookup)
  {
    if items == [] then [] else [FormatTransaction(items[0], mccLookup)] + FormatTransactions(items[1..], mccLookup)
  }

  // ---------------------------------------------------------------------------
  // The client
  // ---------------------------------------------------------------------------

  class MonobankClient {
    const bankName: string
    const cardNumber: string
    /** The resolved account, set at most once. */
    var accountId: Option<string>
    /** The paths requested from the API, in order. */
    var requested: seq<string>

    constructor(bankName: string, cardNumber: string)
      ensures this.bankName == bankName && this.cardNumber == cardNumber
      ensures accountId == None && requested == []
    {
      this.bankName := bankName;
      this.cardNumber := cardNumber;
      accountId := None;
      requested := [];
    }

    /** `getAccoundId()`: the cached id without a request; otherwise the
        client info is requested and scanned for the first eligible account,
        whose id is cached and returned; when there is none the call fails
        and the cache stays empty. */
    method GetAccountId(clientInfo: seq<Account>) returns (r: Result<string, MonobankError>)
      modifies this
      ensures old(accountId).Some? ==>
        r == Ok(old(accountId).value) && accountId == old(accountId) && requested == old(requested)
      ensures old(accountId).None? ==>
        && r == ResolveAccount(clientInfo, cardNumber)
        && requested == old(requested) + [ClientInfoPath]
        && accountId == (if r.Ok? then Some(r.value) else None)
    {
      if accountId.Some? {
        return Ok(accountId.value);
      }
      requested := requested + [ClientInfoPath];
      var found: Option<string> := None;
      var k := 0;
      while k < |clientInfo|
        invariant 0 <= k <= |clientInfo|
        invariant forall j :: 0 <= j < k ==> !Eligible(clientInfo[j], cardNumber)
        invariant found.None?
        invariant accountId == None && requested == old(requested) + [ClientInfoPath]
      {
        var account := clientInfo[k];
        if |account.maskedPan| > 0 && account.maskedPan[0] != "" {
          var matches := IsCardNumberMatchesWithMask(cardNumber, account.maskedPan[0]);
          if matches {
            assert Eligible(clientInfo[k], cardNumber);
            found := Some(account.id);
            break;
          }
        }
        k := k + 1;
      }
      if found.None? {
        return Err(AccountNotFound);
      }
      accountId := found;
      return Ok(found.value);
    }

    /** `getTransactions(startDate, endDate)` with the range already as
        milliseconds: resolve the account, request its statement and format
        every item. */
    method GetTransactions(startTime: int, endTime: int, clientInfo: seq<Account>,
                           statement: string -> seq<MonobankTransaction>, mccLookup: int -> Option<string>)
      returns (r: Result<seq<Transaction>, MonobankError>)
      modifies this
      ensures var resolved := if old(accountId).Some? then Ok(old(accountId).value) else ResolveAccount(clientInfo, cardNumber);
        var lookup := if old(accountId).Some? then [] else [ClientInfoPath];
        && (resolved.Err? ==>
              r == Err(resolved.error) && accountId == old(accountId) && requested == old(requested) + lookup)
        && (resolved.Ok? ==>
              var path := StatementPath(resolved.value, startTime, endTime);
              && r == Ok(FormatTransactions(statement(path), mccLookup))
              && accountId == Some(resolved.value)
              && requested == old(requested) + lookup + [path])
    {
      var accountId := GetAccountId(clientInfo);
      if accountId.Err? {
        return Err(accountId.error);
      }
      var path := StatementPath(accountId.value, startTime, endTime);
      requested := requested + [path];
      var bankTransactions := statement(path);
      return Ok(FormatTransactions(bankTransactions, mccLookup));
    }
  }

  /** Once an account is resolved, every later resolution returns the same
      id, whatever the client info says then, and requests nothing. */
  method ResolveTwice(client: MonobankClient, first: seq<Account>, later: seq<Account>)
    returns (a: Result<string, MonobankError>, b: Result<string, MonobankError>)
    modifies client
    ensures a.Ok? ==> b == a && client.accountId == Some(a.value)
    ensures a.Ok? && old(client.accountId).None? ==> client.requested == old(client.requested) + [ClientInfoPath]
  {
    a := client.GetAccountId(first);
    b := client.GetAccountId(later);
  }
}
