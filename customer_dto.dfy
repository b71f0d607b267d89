/** The account and customer records the customer service hands to the
    other services, and the lookups CustomerDto offers on them. */
module CustomerDtos {
  import opened Wrappers
  import opened Currencies
  import opened Dates

  /** AccountDto: the enum constant, its code and title as separate strings,
      the balance, and whether the customer really holds the account. */
  datatype AccountDto = AccountDto(
    currency: Currency,
    currencyCode: string,
    currencyTitle: string,
    balance: real,
    present: bool)  // the record's `exists` flag

  datatype CustomerDto = CustomerDto(
    id: int,
    login: string,
    name: string,
    email: string,
    birthdate: Option<Date>,
    accounts: seq<AccountDto>)

  /** The first account whose currencyCode string equals `code`. */
  function FirstWithCode(accounts: seq<AccountDto>, code: string): (r: Option<AccountDto>)
    ensures r.None? <==> forall i :: 0 <= i < |accounts| ==> accounts[i].currencyCode != code
    ensures r.Some? ==> exists k :: 0 <= k < |accounts| && accounts[k] == r.value
                           && r.value.currencyCode == code
                           && forall i :: 0 <= i < k ==> accounts[i].currencyCode != code
  {
    if accounts == [] then None
    else if accounts[0].currencyCode == code then
      assert accounts[0] == accounts[0];
      Some(accounts[0])
    else
      var r := FirstWithCode(accounts[1..], code);
      assert forall i :: 1 <= i < |accounts| ==> accounts[i] == accounts[1..][i - 1];
      if r.Some? then
        var k :| 0 <= k < |accounts[1..]| && accounts[1..][k] == r.value
                 && r.value.currencyCode == code
                 && forall i :: 0 <= i < k ==> accounts[1..][i].currencyCode != code;
        assert accounts[k + 1] == r.value;
        r
      else r
  }

  /** findAccountByCurrency: exact, case-sensitive match on the currencyCode
      string (not on the enum field); null (None) when nothing matches. */
  function FindAccountByCurrency(c: CustomerDto, code: string): (r: Option<AccountDto>)
    ensures r.Some? <==> exists i :: 0 <= i < |c.accounts| && c.accounts[i].currencyCode == code
    ensures r.Some? ==> r.value in c.accounts && r.value.currencyCode == code
  {
    FirstWithCode(c.accounts, code)
  }

  /** hasAccountWithCurrency: findAccountByCurrency found something. */
  function HasAccountWithCurrency(c: CustomerDto, code: string): (b: bool)
    ensures b <==> FindAccountByCurrency(c, code).Some?
    ensures b <==> exists i :: 0 <= i < |c.accounts| && c.accounts[i].currencyCode == code
  {
    FindAccountByCurrency(c, code) != None
  }

  /** getBalanceForCurrency: the found account's balance, zero otherwise. */
  function GetBalanceForCurrency(c: CustomerDto, code: string): (b: real)
    ensures !HasAccountWithCurrency(c, code) ==> b == 0.0
    ensures HasAccountWithCurrency(c, code) ==>
              exists i :: 0 <= i < |c.accounts| && c.accounts[i].currencyCode == code && c.accounts[i].balance == b
  {
    var a := FindAccountByCurrency(c, code);
    if a.Some? then a.value.balance else 0.0
  }

  /** Position of the first account holding the constant `cur`, or -1. */
  function FirstIndexOf(accounts: seq<AccountDto>, cur: Currency): (k: int)
    ensures -1 <= k < |accounts|
    ensures k == -1 <==> forall i :: 0 <= i < |accounts| ==> accounts[i].currency != cur
    ensures k >= 0 ==> accounts[k].currency == cur && forall i :: 0 <= i < k ==> accounts[i].currency != cur
  {
    if accounts == [] then -1
    else if accounts[0].currency == cur then 0
    else
      var k := FirstIndexOf(accounts[1..], cur);
      assert forall i :: 1 <= i < |accounts| ==> accounts[i] == accounts[1..][i - 1];
      if k == -1 then -1 else k + 1
  }

  /** Position of the first account whose enum constant has code `code`, or
      -1: the match both TransferService.find and the customer service's
      balance update use (`currency.getCode().equals(code)`). A code names
      at most one constant, the one valueOf gives, so this is the first
      account holding that constant; FirstIndexOfCodeIsFirstMatch states it
      in the source's terms. */
  function FirstIndexOfCode(accounts: seq<AccountDto>, code: string): (k: int)
    ensures -1 <= k < |accounts|
    ensures k >= 0 ==> ValueOf(code) == Some(accounts[k].currency)
    ensures ValueOf(code).None? ==> k == -1
  {
    match ValueOf(code)
    case None => -1
    case Some(cur) => FirstIndexOf(accounts, cur)
  }

  /** A constant's code equals `code` exactly when valueOf(code) is that
      constant. */
  lemma CodeMatchIsValueOf(c: Currency, code: string)
    ensures Code(c) == code <==> ValueOf(code) == Some(c)
  {
  }

  /** FirstIndexOfCode finds the first account whose constant's code is
      `code`, and -1 when there is none. */
  lemma FirstIndexOfCodeIsFirstMatch(accounts: seq<AccountDto>, code: string)
    ensures var k := FirstIndexOfCode(accounts, code);
            (k == -1 <==> forall i :: 0 <= i < |accounts| ==> Code(accounts[i].currency) != code)
            && (k >= 0 ==> Code(accounts[k].currency) == code
                           && forall i :: 0 <= i < k ==> Code(accounts[i].currency) != code)
  {
    forall c: Currency {
      CodeMatchIsValueOf(c, code);
    }
  }

  /** Matching reads the currencies only: two account lists with the same
      currency at every position have the same first match for every code. */
  lemma {:induction false} SameCurrenciesSameIndex(a: seq<AccountDto>, b: seq<AccountDto>, code: string)
    requires |a| == |b|
    requires forall j :: 0 <= j < |a| ==> a[j].currency == b[j].currency
    ensures FirstIndexOfCode(a, code) == FirstIndexOfCode(b, code)
  {
    if ValueOf(code).Some? {
      var cur := ValueOf(code).value;
      var ka, kb := FirstIndexOf(a, cur), FirstIndexOf(b, cur);
      assert ka >= 0 ==> b[ka].currency == cur;
      assert kb >= 0 ==> a[kb].currency == cur;
    }
  }

  /** Every account's code string is its constant's code, as the customer
      service builds them. */
  predicate CodesConsistent(accounts: seq<AccountDto>) {
    forall i :: 0 <= i < |accounts| ==> accounts[i].currencyCode == Code(accounts[i].currency)
  }

  /** On consistent accounts the string match of findAccountByCurrency and
      the constant match of the services pick the same account. */
  lemma ConsistentLookupsAgree(accounts: seq<AccountDto>, code: string)
    requires CodesConsistent(accounts)
    ensures var k := FirstIndexOfCode(accounts, code);
            FirstWithCode(accounts, code) == if k < 0 then None else Some(accounts[k])
  {
    FirstIndexOfCodeIsFirstMatch(accounts, code);
    var k := FirstIndexOfCode(accounts, code);
    var r := FirstWithCode(accounts, code);
    if r.Some? {
      var j :| 0 <= j < |accounts| && accounts[j] == r.value && r.value.currencyCode == code
               && forall i :: 0 <= i < j ==> accounts[i].currencyCode != code;
      assert k >= 0;
      if k < j {
        assert accounts[k].currencyCode == code;
      }
    }
  }

  /** An account whose enum says USD but whose code string says something
      else is not found under "USD": matching reads the string only. */
  lemma MatchesCodeStringNotEnum()
    ensures FindAccountByCurrency(
              CustomerDto(1, "u", "n", "e", None, [AccountDto(USD, "usd", "Доллар", 5.0, true)]), "USD") == None
  {
  }
}
