/** CashService: deposits and withdrawals against one account of a customer,
    through the customer directory, with a notification on success. */
module Cash {
  import opened Wrappers
  import opened JavaText
  import opened Currencies
  import opened CustomerDtos
  import opened CashRequests
  import opened CashResponses
  import opened Collaborators

  const LoginRequired := "Логин пользователя обязателен"
  const CurrencyRequired := "Валюта обязательна"
  const ValueRequired := "Сумма операции обязательна"
  const ValueNotPositive := "Сумма операции должна быть больше нуля"
  const ActionRequired := "Тип операции обязателен"
  const UnsupportedCurrency := "Неподдерживаемая валюта: "
  const CustomerNotFound := "Customer not found"
  const InternalError := "Внутренняя ошибка сервера. Попробуйте позже."

  /** The answer to an account the customer does not hold. */
  function AccountNotFound(currency: string): string {
    "Account with currency " + currency + " not found"
  }

  /** isSupportedCurrency: the upper-cased code is one of the three. */
  predicate IsSupportedCurrency(currency: string) {
    ToUpper(currency) in ["RUB", "USD", "CNY"]
  }

  /** Support is case-insensitive: a code is supported exactly when its upper
      case names a constant. */
  lemma SupportIsUpperCaseName(currency: string)
    ensures IsSupportedCurrency(currency) <==> ValueOf(ToUpper(currency)).Some?
  {
    ValueOfMatchesName(ToUpper(currency));
  }

  /** What validateRequest reports, in its order: login, currency, amount
      (missing, then not positive), action, then currency support, which is
      checked whenever a currency is given, blank or not. */
  function ValidationErrors(req: CashOperationRequest): (errors: seq<ErrorText>)
    ensures errors == [] <==> IsValid(req) && IsSupportedCurrency(req.currency.value)
    ensures |errors| <= 5
  {
    (if !Filled(req.login) then [Plain(LoginRequired)] else [])
    + (if !Filled(req.currency) then [Plain(CurrencyRequired)] else [])
    + (if req.value.None? then [Plain(ValueRequired)] else if req.value.value <= 0.0 then [Plain(ValueNotPositive)] else [])
    + (if req.action.None? then [Plain(ActionRequired)] else [])
    + (if req.currency.Some? && !IsSupportedCurrency(req.currency.value)
       then [Plain(UnsupportedCurrency + req.currency.value)] else [])
  }

  /** A blank currency is reported twice: as missing and as unsupported. */
  lemma BlankCurrencyReportedTwice()
    ensures ValidationErrors(CashOperationRequest(Some("alice"), Some(" "), Some(5.0), Some(DEPOSIT)))
            == [Plain(CurrencyRequired), Plain(UnsupportedCurrency + " ")]
  {
    assert ToUpper(" ") == " ";
    assert !IsTrimmable("alice"[0]);
  }

  /** A lower-case code passes validation. */
  lemma LowerCaseCodeIsValid()
    ensures ValidationErrors(CashOperationRequest(Some("alice"), Some("usd"), Some(5.0), Some(DEPOSIT))) == []
  {
    assert ToUpper("usd") == "USD";
    assert !IsTrimmable("alice"[0]) && !IsTrimmable("usd"[0]);
  }

  /** calculateNewBalance. */
  function CalculateNewBalance(balance: real, value: real, action: CashAction): (r: real)
  {
    match action
    case DEPOSIT => balance + value
    case WITHDRAW => balance - value
  }

  /** A deposit of a positive amount raises the balance and a withdrawal
      lowers it, by exactly the amount. */
  lemma NewBalanceMovesByValue(balance: real, value: real, action: CashAction)
    requires value > 0.0
    ensures action == DEPOSIT ==> CalculateNewBalance(balance, value, action) - balance == value
    ensures action == WITHDRAW ==> balance - CalculateNewBalance(balance, value, action) == value
    ensures CalculateNewBalance(balance, value, action) > balance <==> action == DEPOSIT
  {
  }

  /** One call of processCashOperation: the response, the directory's
      records afterwards, the balance overwrites issued and the
      notifications published. */
  datatype CashEffect = CashEffect(
    response: CashOperationResponse,
    records: Records,
    updates: seq<BalanceUpdate>,
    sent: seq<Notification>)

  function Answer(records: Records, r: CashOperationResponse): CashEffect {
    CashEffect(r, records, [], [])
  }

  /** The notification of a completed operation, to the customer's e-mail. */
  function CashNotification(c: CustomerDto, action: CashAction, value: real, currency: string, newBalance: real): Notification {
    Notification(c.id, c.email, CashNote(action, value, currency, newBalance))
  }

  /** The specification of processCashOperation, step by step. */
  function CashSpec(records: Records, outage: Option<string>, mailFailure: Option<string>,
                    req: CashOperationRequest): CashEffect
  {
    var errors := ValidationErrors(req);
    if errors != [] then Answer(records, ErrorList(errors))
    else
      var login, currency, value, action := req.login.value, req.currency.value, req.value.value, req.action.value;
      match Lookup(records, outage, login)
      case Thrown(_) => Answer(records, Error(Plain(InternalError)))
      case Value(None) => Answer(records, Error(Plain(CustomerNotFound)))
      case Value(Some(c)) =>
        match FindAccountByCurrency(c, currency)
        case None => Answer(records, Error(Plain(AccountNotFound(currency))))
        case Some(account) =>
          if action == WITHDRAW && account.balance < value then
            Answer(records, Error(InsufficientFunds(account.balance, currency)))
          else
            var newBalance := CalculateNewBalance(account.balance, value, action);
            var u := BalanceUpdate(login, currency, newBalance);
            match Updated(records, outage, login, currency, newBalance)
            case Thrown(_) => CashEffect(Error(Plain(InternalError)), records, [u], [])
            case Value(r) =>
              var sent := if mailFailure.Some? then [] else [CashNotification(c, action, value, currency, newBalance)];
              CashEffect(Success(), r, [u], sent)
  }

  class CashService {
    const customers: CustomerDirectory
    const kafka: Outbox

    constructor (customers: CustomerDirectory, kafka: Outbox)
      ensures this.customers == customers && this.kafka == kafka
    {
      this.customers := customers;
      this.kafka := kafka;
    }

    /** validateRequest, appending one message per failed check. */
    static method ValidateRequest(req: CashOperationRequest) returns (errors: seq<ErrorText>)
      ensures errors == ValidationErrors(req)
    {
      errors := [];
      if req.login.None? || IsBlank(req.login.value) {
        errors := errors + [Plain(LoginRequired)];
      }
      if req.currency.None? || IsBlank(req.currency.value) {
        errors := errors + [Plain(CurrencyRequired)];
      }
      assert errors == (if !Filled(req.login) then [Plain(LoginRequired)] else [])
                        + (if !Filled(req.currency) then [Plain(CurrencyRequired)] else []);
      if req.value.None? {
        errors := errors + [Plain(ValueRequired)];
      } else if req.value.value <= 0.0 {
        errors := errors + [Plain(ValueNotPositive)];
      }
      assert errors == (if !Filled(req.login) then [Plain(LoginRequired)] else [])
                        + (if !Filled(req.currency) then [Plain(CurrencyRequired)] else [])
                        + (if req.value.None? then [Plain(ValueRequired)]
                           else if req.value.value <= 0.0 then [Plain(ValueNotPositive)] else []);
      if req.action.None? {
        errors := errors + [Plain(ActionRequired)];
      }
      if req.currency.Some? && !IsSupportedCurrency(req.currency.value) {
        errors := errors + [Plain(UnsupportedCurrency + req.currency.value)];
      }
    }

    /** processCashOperation. Every exception of the collaborators inside the
        try block becomes the one generic error; a failed notification is
        swallowed. */
    method ProcessCashOperation(req: CashOperationRequest, mailFailure: Option<string>) returns (r: CashOperationResponse)
      modifies customers`records, customers`updates, kafka`sent
      ensures var e := CashSpec(old(customers.records), customers.outage, mailFailure, req);
              r == e.response && customers.records == e.records
              && customers.updates == old(customers.updates) + e.updates
              && kafka.sent == old(kafka.sent) + e.sent
    {
      var errors := ValidateRequest(req);
      if errors != [] {
        return ErrorList(errors);
      }
      var login, currency, value, action := req.login.value, req.currency.value, req.value.value, req.action.value;
      var reply := customers.GetCustomer(login);
      if reply.Thrown? {
        return Error(Plain(InternalError));
      }
      if reply.value.None? {
        return Error(Plain(CustomerNotFound));
      }
      var c := reply.value.value;
      var account := FindAccountByCurrency(c, currency);
      if account.None? {
        return Error(Plain(AccountNotFound(currency)));
      }
      if action == WITHDRAW && account.value.balance < value {
        return Error(InsufficientFunds(account.value.balance, currency));
      }
      var newBalance := CalculateNewBalance(account.value.balance, value, action);
      var written := customers.UpdateAccountBalance(login, currency, newBalance);
      if written.Thrown? {
        return Error(Plain(InternalError));
      }
      var _ := kafka.Send(CashNotification(c, action, value, currency, newBalance), mailFailure);  // failure swallowed
      r := Success();
    }
  }

  /** A failed operation publishes nothing and leaves the records as they
      were; the only failure that reached the directory is a write it
      refused, after which nothing more was attempted. */
  lemma FailuresChangeNothing(records: Records, outage: Option<string>, mailFailure: Option<string>,
                              req: CashOperationRequest)
    ensures var e := CashSpec(records, outage, mailFailure, req);
            !e.response.success ==>
              e.records == records && e.sent == [] && |e.updates| <= 1
              && (e.updates != [] ==> e.response == Error(Plain(InternalError)))
  {
  }

  /** Invalid requests are answered with every validation message and do not
      reach the directory. */
  lemma InvalidRequestsStopAtValidation(records: Records, outage: Option<string>, mailFailure: Option<string>,
                                        req: CashOperationRequest)
    requires !IsValid(req) || !IsSupportedCurrency(req.currency.value)
    ensures CashSpec(records, outage, mailFailure, req) == CashEffect(ErrorList(ValidationErrors(req)), records, [], [])
  {
  }

  /** An unreachable or refusing directory, once validation has passed,
      gives the single generic error whatever the message was. */
  lemma DirectoryFailureIsGeneric(records: Records, outage: Option<string>, mailFailure: Option<string>,
                                  req: CashOperationRequest)
    requires IsValid(req) && IsSupportedCurrency(req.currency.value)
    requires outage.Some?
    ensures CashSpec(records, outage, mailFailure, req) == CashEffect(Error(Plain(InternalError)), records, [], [])
  {
  }

  /** A withdrawal above the balance is refused with the balance available,
      before any write; one of the whole balance goes through. */
  lemma WithdrawalAgainstBalance(records: Records, mailFailure: Option<string>, req: CashOperationRequest,
                                 c: CustomerDto, account: AccountDto)
    requires IsValid(req) && IsSupportedCurrency(req.currency.value) && req.action == Some(WITHDRAW)
    requires req.login.value in records && records[req.login.value] == Some(c)
    requires FindAccountByCurrency(c, req.currency.value) == Some(account)
    ensures var e := CashSpec(records, None, mailFailure, req);
            (account.balance < req.value.value ==>
               e == CashEffect(Error(InsufficientFunds(account.balance, req.currency.value)), records, [], []))
            && (account.balance >= req.value.value ==>
                  e.updates == [BalanceUpdate(req.login.value, req.currency.value, account.balance - req.value.value)])
  {
  }

  /** A completed operation overwrites the balance once, with the balance
      read moved by the amount (never below zero for a withdrawal), publishes
      one notification unless the topic fails, and reports success either
      way. On accounts whose code strings are their constants' codes, the
      directory then holds the new balance. */
  lemma SuccessWritesNewBalance(records: Records, mailFailure: Option<string>, req: CashOperationRequest,
                                c: CustomerDto, account: AccountDto)
    requires req.login.Some? && req.currency.Some? && req.value.Some? && req.action.Some?
    requires req.login.value in records && records[req.login.value] == Some(c)
    requires FindAccountByCurrency(c, req.currency.value) == Some(account)
    requires CodesConsistent(c.accounts)
    ensures var e := CashSpec(records, None, mailFailure, req);
            var newBalance := CalculateNewBalance(account.balance, req.value.value, req.action.value);
            e.response.success ==>
              e.updates == [BalanceUpdate(req.login.value, req.currency.value, newBalance)]
              && (req.action.value == WITHDRAW ==> newBalance >= 0.0)
              && (mailFailure.None? <==> |e.sent| == 1)
              && BalanceIn(e.records, req.login.value, req.currency.value) == Some(newBalance)
  {
    var e := CashSpec(records, None, mailFailure, req);
    if e.response.success {
      var newBalance := CalculateNewBalance(account.balance, req.value.value, req.action.value);
      ConsistentLookupsAgree(c.accounts, req.currency.value);
      UpdatedBalance(records, None, req.login.value, req.currency.value, newBalance, req.login.value, req.currency.value);
    }
  }

  /** A failing topic does not change the answer, nor what is written. */
  lemma MailFailureInvisible(records: Records, outage: Option<string>, m: string, req: CashOperationRequest)
    ensures var failed, delivered := CashSpec(records, outage, Some(m), req), CashSpec(records, outage, None, req);
            failed.response == delivered.response && failed.records == delivered.records
            && failed.updates == delivered.updates && failed.sent == []
  {
  }

  /** A lower-case code passes validation but names no account of a customer
      whose codes are the constants' own: the answer is a missing account. */
  lemma LowerCaseCodeFindsNoAccount(records: Records, c: CustomerDto, value: real)
    requires value > 0.0
    requires "alice" in records && records["alice"] == Some(c)
    requires CodesConsistent(c.accounts)
    ensures CashSpec(records, None, None, CashOperationRequest(Some("alice"), Some("usd"), Some(value), Some(DEPOSIT)))
            == CashEffect(Error(Plain(AccountNotFound("usd"))), records, [], [])
  {
    LowerCaseCodeIsValid();
    ConsistentLookupsAgree(c.accounts, "usd");
    ValueOfMatchesName("usd");
  }

  /** The customer with the balance at `k` moved by `v`. */
  function Moved(c: CustomerDto, k: int, v: real, action: CashAction): CustomerDto
    requires 0 <= k < |c.accounts|
  {
    c.(accounts := c.accounts[k := c.accounts[k].(balance := CalculateNewBalance(c.accounts[k].balance, v, action))])
  }

  /** A valid operation on a consistent account that the balance allows
      succeeds and writes the moved balance into that account alone. */
  lemma CompletedOperation(records: Records, mail: Option<string>, req: CashOperationRequest, c: CustomerDto)
    requires ValidationErrors(req) == []
    requires req.login.value in records && records[req.login.value] == Some(c)
    requires CodesConsistent(c.accounts)
    requires FirstIndexOfCode(c.accounts, req.currency.value) >= 0
    requires var b := c.accounts[FirstIndexOfCode(c.accounts, req.currency.value)].balance;
             req.action.value == WITHDRAW ==> b >= req.value.value
    ensures var k := FirstIndexOfCode(c.accounts, req.currency.value);
            var e := CashSpec(records, None, mail, req);
            e.response.success
            && e.records == records[req.login.value := Some(Moved(c, k, req.value.value, req.action.value))]
  {
    ConsistentLookupsAgree(c.accounts, req.currency.value);
  }

  /** Moving a balance up and then down by one amount gives the customer
      back, with the same currencies at every position in between. */
  lemma MovedBack(c: CustomerDto, k: int, v: real)
    requires 0 <= k < |c.accounts|
    ensures var c1 := Moved(c, k, v, DEPOSIT);
            |c1.accounts| == |c.accounts|
            && (forall j :: 0 <= j < |c.accounts| ==> c1.accounts[j].currency == c.accounts[j].currency)
            && (CodesConsistent(c.accounts) ==> CodesConsistent(c1.accounts))
            && c1.accounts[k].balance == c.accounts[k].balance + v
            && Moved(c1, k, v, WITHDRAW) == c
  {
    var c1 := Moved(c, k, v, DEPOSIT);
    assert c1.accounts[k := c1.accounts[k].(balance := c.accounts[k].balance)] == c.accounts;
  }


  /** Validation only asks whether an action is given, not which. */
  lemma ValidationIgnoresAction(req: CashOperationRequest, action: CashAction)
    requires req.action.Some?
    ensures ValidationErrors(req.(action := Some(action))) == ValidationErrors(req)
  {
  }


  /** Writing a record and then writing back the one it replaced leaves the
      records as they were. */
  lemma RewrittenBack(records: Records, login: string, other: CustomerDto)
    requires login in records
    ensures records[login := Some(other)][login := records[login]] == records
  {
    assert forall k :: k in records ==> records[login := Some(other)][login := records[login]][k] == records[k];
  }

  /** A valid deposit into a consistent account completes, raising that
      account's balance alone. */
  lemma DepositStep(records: Records, mail: Option<string>, req: CashOperationRequest, c: CustomerDto,
                    account: AccountDto)
    requires ValidationErrors(req) == [] && req.action == Some(DEPOSIT)
    requires req.login.value in records && records[req.login.value] == Some(c)
    requires CodesConsistent(c.accounts)
    requires FindAccountByCurrency(c, req.currency.value) == Some(account)
    ensures var k := FirstIndexOfCode(c.accounts, req.currency.value);
            0 <= k < |c.accounts| && c.accounts[k] == account
            && var d := CashSpec(records, None, mail, req);
               d.response.success
               && d.records == records[req.login.value := Some(Moved(c, k, req.value.value, DEPOSIT))]
  {
    ConsistentLookupsAgree(c.accounts, req.currency.value);
    CompletedOperation(records, mail, req, c);
  }

  /** After the deposit the account is still found at the same position,
      holding the old balance plus the amount. */
  lemma DepositedAccount(c: CustomerDto, code: string, v: real)
    requires CodesConsistent(c.accounts) && 0 <= FirstIndexOfCode(c.accounts, code)
    ensures var k := FirstIndexOfCode(c.accounts, code);
            var c1 := Moved(c, k, v, DEPOSIT);
            CodesConsistent(c1.accounts) && FirstIndexOfCode(c1.accounts, code) == k
            && c1.accounts[k].balance == c.accounts[k].balance + v
            && Moved(c1, k, v, WITHDRAW) == c
  {
    var k := FirstIndexOfCode(c.accounts, code);
    MovedBack(c, k, v);
    SameCurrenciesSameIndex(c.accounts, Moved(c, k, v, DEPOSIT).accounts, code);
  }

  /** A deposit followed by a withdrawal of the same amount from the same
      account: the deposit completes, and the withdrawal completes and leaves
      the directory as it was whenever the balance before the deposit was
      not negative. */
  lemma DepositThenWithdrawRestores(records: Records, mail1: Option<string>, mail2: Option<string>,
                                    req: CashOperationRequest, c: CustomerDto, account: AccountDto)
    requires ValidationErrors(req) == [] && req.action == Some(DEPOSIT)
    requires req.login.value in records && records[req.login.value] == Some(c)
    requires CodesConsistent(c.accounts)
    requires FindAccountByCurrency(c, req.currency.value) == Some(account)
    requires account.balance >= 0.0
    ensures var d := CashSpec(records, None, mail1, req);
            var w := CashSpec(d.records, None, mail2, req.(action := Some(WITHDRAW)));
            d.response.success && w.response.success && w.records == records
  {
    var k := FirstIndexOfCode(c.accounts, req.currency.value);
    var c1 := Moved(c, k, req.value.value, DEPOSIT);
    DepositStep(records, mail1, req, c, account);
    DepositedAccount(c, req.currency.value, req.value.value);
    ValidationIgnoresAction(req, WITHDRAW);
    CompletedOperation(records[req.login.value := Some(c1)], mail2, req.(action := Some(WITHDRAW)), c1);
    RewrittenBack(records, req.login.value, c1);
  }

  /** The same pair from a negative balance: the deposit leaves the balance
      below the amount, so the withdrawal is refused and the deposit stays. */
  lemma DepositThenWithdrawRefused(records: Records, mail1: Option<string>, mail2: Option<string>,
                                   req: CashOperationRequest, c: CustomerDto, account: AccountDto)
    requires ValidationErrors(req) == [] && req.action == Some(DEPOSIT)
    requires req.login.value in records && records[req.login.value] == Some(c)
    requires CodesConsistent(c.accounts)
    requires FindAccountByCurrency(c, req.currency.value) == Some(account)
    requires account.balance < 0.0
    ensures var d := CashSpec(records, None, mail1, req);
            var w := CashSpec(d.records, None, mail2, req.(action := Some(WITHDRAW)));
            d.response.success && !w.response.success && w.records == d.records
  {
    var k := FirstIndexOfCode(c.accounts, req.currency.value);
    var c1 := Moved(c, k, req.value.value, DEPOSIT);
    DepositStep(records, mail1, req, c, account);
    DepositedAccount(c, req.currency.value, req.value.value);
    ValidationIgnoresAction(req, WITHDRAW);
    ConsistentLookupsAgree(c1.accounts, req.currency.value);
    WithdrawalAgainstBalance(records[req.login.value := Some(c1)], mail2, req.(action := Some(WITHDRAW)), c1, c1.accounts[k]);
  }
}
