/** FrontUiService: the front end's calls to the back-end services, the
    shaping of their answers into the error lists a page shows, and the
    constant answers it falls back to when a service is down. */
module FrontUi {
  import opened Wrappers
  import opened ExchangeRates
  import opened CashRequests
  import opened CashResponses
  import opened TransferResponses
  import opened Collaborators
  import opened Customers
  import opened Cash
  import opened Transfers
  import opened TransferProperties

  const AccountsUnavailable := "Сервис аккаунтов временно недоступен. Попробуйте позже."
  const RegistrationUnavailable := "Сервис регистрации временно недоступен. Попробуйте позже."
  const ProfileUnavailable := "Сервис редактирования профиля временно недоступен. Попробуйте позже."
  const TransfersUnavailable := "Сервис переводов временно недоступен. Попробуйте позже."
  const DefaultUserName := "Пользователь"

  // -------------------------------------------------------------- fallbacks

  /** getMainPageDataFallback: the login kept, a placeholder name, no
      e-mail, birth date, accounts, currencies or users, and the one
      unavailability message among the password errors. */
  function MainPageDataFallback(login: string): (d: MainPageData)
    ensures d.login == login && d.name == DefaultUserName && d.email == "" && d.birthdate.None?
    ensures d.accounts == [] && d.currencies == [] && d.users == []
    ensures d.passwordErrors == Some([AccountsUnavailable])
    ensures d.userAccountsErrors.None? && d.cashErrors.None?
    ensures d.transferErrors.None? && d.transferOtherErrors.None?
  {
    MainPageData(login, DefaultUserName, "", None, [], [], [], Some([AccountsUnavailable]), None, None, None, None)
  }

  /** registerCustomerFallback: a failed registration with one message. */
  function RegisterCustomerFallback(): (r: RegistrationResponse)
    ensures !r.success && r.errors == [RegistrationUnavailable]
  {
    RegistrationResponse(false, [RegistrationUnavailable])
  }

  /** editUserAccountsFallback: one message. */
  function EditUserAccountsFallback(): (errors: seq<string>)
    ensures errors == [ProfileUnavailable]
  {
    [ProfileUnavailable]
  }

  /** processTransferOperationFallback: one message. */
  function ProcessTransferOperationFallback(): (errors: seq<string>)
    ensures errors == [TransfersUnavailable]
  {
    [TransfersUnavailable]
  }

  /** getExchangeRatesFallback: RUB 1.0, USD 95.0 and CNY 13.5, in that
      order. */
  function ExchangeRatesFallback(): (rates: seq<ExchangeRateDto>)
    ensures |rates| == 3
    ensures rates[0] == ExchangeRateDto("Рубль", "RUB", 1.0)
    ensures rates[1] == ExchangeRateDto("Доллар", "USD", 95.0)
    ensures rates[2] == ExchangeRateDto("Юань", "CNY", 13.5)
  {
    [ExchangeRateDto("Рубль", "RUB", 1.0), ExchangeRateDto("Доллар", "USD", 95.0),
     ExchangeRateDto("Юань", "CNY", 13.5)]
  }

  // ------------------------------------------------------------------- cash

  /** The form sends "PUT" or "GET": "PUT" is a deposit, anything else
      (also a missing action) a withdrawal. */
  function CashActionOf(action: Option<string>): (a: CashAction)
    ensures a == DEPOSIT <==> action == Some("PUT")
  {
    if action == Some("PUT") then DEPOSIT else WITHDRAW
  }

  /** The request processCashOperation sends: the form's fields as they
      are, with the mapped action. */
  function CashRequestOf(login: string, currency: string, value: real, action: Option<string>): (r: CashOperationRequest)
    ensures r.login == Some(login) && r.currency == Some(currency) && r.value == Some(value)
    ensures r.action == Some(CashActionOf(action))
  {
    CashOperationRequest(Some(login), Some(currency), Some(value), Some(CashActionOf(action)))
  }

  /** processCashOperation, given the cash client as `client` (an exception
      from it is a Thrown reply): nothing on success, the response's errors
      otherwise, one unavailability line on an exception. */
  function ProcessCashOperation(client: CashOperationRequest -> Reply<CashOperationResponse>,
                                login: string, currency: string, value: real, action: Option<string>): (errors: seq<ErrorText>)
    ensures var reply := client(CashRequestOf(login, currency, value, action));
            && (reply.Value? && reply.value.success ==> errors == [])
            && (reply.Value? && !reply.value.success ==> errors == reply.value.errors)
            && (reply.Thrown? ==> errors == [Plain("Cash service unavailable: " + reply.message)])
  {
    match client(CashRequestOf(login, currency, value, action))
    case Value(response) => if response.success then [] else response.errors
    case Thrown(m) => [Plain("Cash service unavailable: " + m)]
  }

  // --------------------------------------------------------------- transfer

  /** What processTransferOperation shows for the transfer client's reply:
      nothing on success, the own errors and then the other party's on a
      failure, one unavailability line on an exception. */
  function TransferErrorsShown(reply: Reply<TransferResponse>): (errors: seq<string>)
    ensures reply.Value? && reply.value.success ==> errors == []
    ensures reply.Value? && !reply.value.success ==>
              |errors| == |reply.value.transferErrors| + |reply.value.transferOtherErrors|
              && errors[..|reply.value.transferErrors|] == reply.value.transferErrors
              && errors[|reply.value.transferErrors|..] == reply.value.transferOtherErrors
    ensures reply.Thrown? ==> errors == ["Transfer service unavailable: " + reply.message]
  {
    match reply
    case Value(response) =>
      if response.success then [] else response.transferErrors + response.transferOtherErrors
    case Thrown(m) => ["Transfer service unavailable: " + m]
  }

  /** A well-formed response (success exactly when it carries no error)
      shows nothing exactly when the transfer went through. */
  lemma ShownEmptyIffSuccess(reply: Reply<TransferResponse>)
    requires reply.Value? ==> WellFormed(reply.value)
    ensures TransferErrorsShown(reply) == [] <==> reply.Value? && reply.value.success
  {
  }

  /** processTransferOperation, given the transfer client as `client` (an
      exception from it is a Thrown reply): the errors of a failed
      transfer are collected into one list, the own ones first. */
  method ProcessTransferOperation(client: (string, TransferRequest) -> Reply<TransferResponse>,
                                  login: string, fromCurrency: string, toCurrency: string, value: real,
                                  toLogin: string) returns (errors: seq<string>)
    ensures errors == TransferErrorsShown(client(login, TransferRequest(fromCurrency, toCurrency, value, toLogin)))
  {
    var request := TransferRequest(fromCurrency, toCurrency, value, toLogin);
    var reply := client(login, request);
    if reply.Thrown? {
      return ["Transfer service unavailable: " + reply.message];
    }
    var response := reply.value;
    if response.success {
      return [];
    }
    var allErrors := [];
    allErrors := allErrors + response.transferErrors;
    allErrors := allErrors + response.transferOtherErrors;
    errors := allErrors;
  }

  // ------------------------------------------------- against the services

  /** Against the cash service itself: the page shows no error exactly
      when the operation succeeded. */
  lemma CashShownEmptyIffSuccess(records: Records, outage: Option<string>, mailFailure: Option<string>,
                                 login: string, currency: string, value: real, action: Option<string>)
    ensures var client := (req: CashOperationRequest) => Value(CashSpec(records, outage, mailFailure, req).response);
            var response := CashSpec(records, outage, mailFailure, CashRequestOf(login, currency, value, action)).response;
            ProcessCashOperation(client, login, currency, value, action) == [] <==> response.success
  {
    var req := CashRequestOf(login, currency, value, action);
    var errors := ValidationErrors(req);
    if errors != [] {
      assert CashSpec(records, outage, mailFailure, req).response == ErrorList(errors);
    }
  }

  /** Against the transfer service itself: when it answers rather than
      raises, the page shows no error exactly when the transfer went
      through. */
  lemma TransferShownEmptyIffSuccess(records: Records, outage: Option<string>, mail: KafkaReplies,
                                     fraud: FraudGate, rates: Reply<seq<ExchangeRateDto>>,
                                     login: string, req: TransferRequest)
    requires TransferSpec(records, outage, mail, fraud, rates, login, req).outcome.Returned?
    ensures var r := TransferSpec(records, outage, mail, fraud, rates, login, req).outcome.value;
            TransferErrorsShown(Value(r)) == [] <==> r.success
  {
    ReturnedResponsesWellFormed(records, outage, mail, fraud, rates, login, req);
    ShownEmptyIffSuccess(Value(TransferSpec(records, outage, mail, fraud, rates, login, req).outcome.value));
  }
}
