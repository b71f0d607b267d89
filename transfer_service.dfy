/** TransferService: moves money between two accounts, possibly of two
    customers and two currencies, through the customer directory. */
module Transfers {
  import opened Wrappers
  import opened Currencies
  import opened CustomerDtos
  import opened TransferResponses
  import opened ExchangeRates
  import opened Money
  import opened Collaborators

  datatype TransferRequest = TransferRequest(fromCurrency: string, toCurrency: string, value: real, toLogin: string)

  const FraudDetected := "Fraud detected"
  const SourceMissing := "Source account not found"
  const DestinationMissing := "Destination account not found"
  const InsufficientFunds := "Insufficient funds"
  const ConversionFailed := "Currency conversion failed: "
  const RateNotFound := "Exchange rate not found for "
  /** Stands for the JDK's text of a BigDecimal division by zero. */
  const DivisionByZero := "/ by zero"

  /** find: the customer's first account whose enum constant has code `code`. */
  function Find(c: CustomerDto, code: string): (r: Option<AccountDto>)
    ensures r.Some? ==> r.value in c.accounts && ValueOf(code) == Some(r.value.currency)
    ensures r.None? <==> FirstIndexOfCode(c.accounts, code) == -1
  {
    var k := FirstIndexOfCode(c.accounts, code);
    if k < 0 then None else Some(c.accounts[k])
  }

  /** buildError: both sides when both hold errors, else only the side that
      does. Whatever the lists, the result carries each list on its own side,
      so it is well formed exactly when some error is present. */
  function BuildError(own: seq<string>, other: seq<string>): (r: TransferResponse)
    ensures !r.success
    ensures r.transferErrors == own && r.transferOtherErrors == other
    ensures WellFormed(r) <==> own != [] || other != []
  {
    if own != [] && other != [] then FullError(own, other)
    else if own != [] then Errors(own)
    else OtherErrors(other)
  }

  /** The value of the first table entry named `code`. */
  function FirstRate(rates: seq<ExchangeRateDto>, code: string): (r: Option<real>)
    ensures r.None? <==> forall i :: 0 <= i < |rates| ==> rates[i].name != code
    ensures r.Some? ==> exists k :: 0 <= k < |rates| && rates[k].name == code && rates[k].value == r.value
                           && forall i :: 0 <= i < k ==> rates[i].name != code
  {
    if rates == [] then None
    else if rates[0].name == code then
      assert rates[0] == rates[0];
      Some(rates[0].value)
    else
      var r := FirstRate(rates[1..], code);
      assert forall i :: 1 <= i < |rates| ==> rates[i] == rates[1..][i - 1];
      if r.Some? then
        var k :| 0 <= k < |rates[1..]| && rates[1..][k].name == code && rates[1..][k].value == r.value
                 && forall i :: 0 <= i < k ==> rates[1..][i].name != code;
        assert rates[k + 1] == rates[1..][k];
        r
      else r
  }

  /** getRateValue: RUB is the base currency at 1 whatever the table says;
      any other code takes the first table entry with that name, and a code
      without an entry is an IllegalArgumentException naming it. */
  function GetRateValue(rates: seq<ExchangeRateDto>, code: string): (r: Reply<real>)
    ensures code == "RUB" ==> r == Value(1.0)
    ensures code != "RUB" ==> (r.Thrown? <==> forall i :: 0 <= i < |rates| ==> rates[i].name != code)
    ensures r.Thrown? ==> r.message == RateNotFound + code
    ensures code != "RUB" && r.Value? ==> r.value == FirstRate(rates, code).value
  {
    if code == "RUB" then Value(1.0)
    else match FirstRate(rates, code)
      case Some(v) => Value(v)
      case None => Thrown(RateNotFound + code)
  }

  /** The credited amount: the debit in RUB, expressed in the target
      currency, to a whole number rounded half-up. */
  function Credit(amount: real, fromRate: real, toRate: real): (c: real)
    requires toRate != 0.0
    ensures c - Exact(amount, fromRate, toRate) <= 0.5 && Exact(amount, fromRate, toRate) - c <= 0.5
  {
    RoundHalfUp(Exact(amount, fromRate, toRate)) as real
  }

  /** The amount's value in RUB, expressed in the target currency, before
      rounding. */
  function Exact(amount: real, fromRate: real, toRate: real): real
    requires toRate != 0.0
  {
    amount * fromRate / toRate
  }

  /** convertCurrency: the same code converts to the amount itself without
      consulting the rate table; otherwise amount * fromRate / toRate rounded
      half-up to a whole number. Fetching the table, a missing rate (the
      source code's is reported first) and a zero target rate raise. */
  function ConvertCurrency(amount: real, from: string, to: string, rates: Reply<seq<ExchangeRateDto>>): (r: Reply<real>)
    ensures from == to ==> r == Value(amount)
    ensures from != to && rates.Thrown? ==> r == Thrown(rates.message)
    ensures from != to && rates.Value? && r.Value? ==>
              GetRateValue(rates.value, from).Value? && GetRateValue(rates.value, to).Value?
              && GetRateValue(rates.value, to).value != 0.0
              && r.value == Credit(amount, GetRateValue(rates.value, from).value, GetRateValue(rates.value, to).value)
    ensures from != to && rates.Value? && GetRateValue(rates.value, from).Thrown? ==>
              r == Thrown(RateNotFound + from)
    ensures (from != to && rates.Value? && GetRateValue(rates.value, from).Value?
             && GetRateValue(rates.value, to).Thrown?) ==> r == Thrown(RateNotFound + to)
  {
    if from == to then Value(amount)
    else match rates
      case Thrown(m) => Thrown(m)
      case Value(table) =>
        match GetRateValue(table, from)
        case Thrown(m) => Thrown(m)
        case Value(fromRate) =>
          match GetRateValue(table, to)
          case Thrown(m) => Thrown(m)
          case Value(toRate) =>
            if toRate == 0.0 then Thrown(DivisionByZero)
            else Value(Credit(amount, fromRate, toRate))
  }

  /** What the topic answers to transfer's two sends, in order: Some(m)
      makes that KafkaTemplate.send raise m. */
  datatype KafkaReplies = KafkaReplies(toSender: Option<string>, toReceiver: Option<string>)

  /** What one call of transfer does: how it ends, the directory's records
      afterwards, the balance overwrites it issued and the notifications it
      published. */
  datatype Effect = Effect(
    outcome: Outcome<TransferResponse>,
    records: Records,
    updates: seq<BalanceUpdate>,
    sent: seq<Notification>)

  /** Ends without touching the directory or the topic. */
  function Stop(records: Records, o: Outcome<TransferResponse>): Effect {
    Effect(o, records, [], [])
  }

  /** The errors of the account-existence step: a missing source account is
      the initiator's; a missing destination account is the initiator's on a
      self-transfer and the other party's otherwise. */
  function AccountErrors(fromAcc: Option<AccountDto>, toAcc: Option<AccountDto>, self: bool): (r: (seq<string>, seq<string>))
    ensures (r.0 == [] && r.1 == []) <==> fromAcc.Some? && toAcc.Some?
    ensures r.0 == (if fromAcc.None? then [SourceMissing] else []) + (if toAcc.None? && self then [DestinationMissing] else [])
    ensures r.1 == (if toAcc.None? && !self then [DestinationMissing] else [])
  {
    var own := (if fromAcc.None? then [SourceMissing] else []) + (if toAcc.None? && self then [DestinationMissing] else []);
    var other := if toAcc.None? && !self then [DestinationMissing] else [];
    (own, other)
  }

  /** The specification of transfer, step by step as the source orders them. */
  function TransferSpec(records: Records, outage: Option<string>, mail: KafkaReplies,
                        fraud: FraudGate, rates: Reply<seq<ExchangeRateDto>>,
                        login: string, req: TransferRequest): Effect
  {
    match Lookup(records, outage, login)
    case Thrown(m) => Stop(records, Raised(m))
    case Value(None) => Stop(records, Raised(NullDereference))
    case Value(Some(sender)) =>
      match IsFraudster(fraud, sender.id)
      case Thrown(m) => Stop(records, Raised(m))
      case Value(flagged) =>
        if flagged then Stop(records, Returned(Errors([FraudDetected])))
        else
          var receiver: Reply<Option<CustomerDto>> := if login == req.toLogin then Value(Some(sender)) else Lookup(records, outage, req.toLogin);
          match receiver
          case Thrown(m) => Stop(records, Raised(m))
          case Value(None) => Stop(records, Raised(NullDereference))
          case Value(Some(r)) => SettleSpec(records, outage, mail, rates, login, req, sender, r)
  }

  /** What the checks before the writes decide: an error response, or the
      two new balances and the credited amount. */
  datatype Decision = Halt(response: TransferResponse) | Proceed(newFrom: real, newTo: real, credit: real)

  /** The account lookups, then the conversion and the sufficiency check. */
  function Decide(rates: Reply<seq<ExchangeRateDto>>, login: string, req: TransferRequest,
                  sender: CustomerDto, receiver: CustomerDto): Decision
  {
    var fromAcc := Find(sender, req.fromCurrency);
    var toAcc := Find(receiver, req.toCurrency);
    if fromAcc.None? || toAcc.None? then
      var errs := AccountErrors(fromAcc, toAcc, login == req.toLogin);
      Halt(BuildError(errs.0, errs.1))
    else Charge(rates, req, fromAcc.value.balance, toAcc.value.balance)
  }

  /** Once both accounts are known by their balances: the conversion, whose
      failure is reported with its message, then the sufficiency check
      against the source balance in the source currency. */
  function Charge(rates: Reply<seq<ExchangeRateDto>>, req: TransferRequest, fromBalance: real, toBalance: real): Decision
  {
    match ConvertCurrency(req.value, req.fromCurrency, req.toCurrency, rates)
    case Thrown(m) => Halt(Errors([ConversionFailed + m]))
    case Value(credit) =>
      if fromBalance < req.value then Halt(Errors([InsufficientFunds]))
      else Proceed(fromBalance - req.value, toBalance + credit, credit)
  }

  /** From the account lookups on, once both customers are known. */
  function SettleSpec(records: Records, outage: Option<string>, mail: KafkaReplies,
                      rates: Reply<seq<ExchangeRateDto>>, login: string, req: TransferRequest,
                      sender: CustomerDto, receiver: CustomerDto): Effect
  {
    match Decide(rates, login, req, sender, receiver)
    case Halt(r) => Stop(records, Returned(r))
    case Proceed(newFrom, newTo, credit) =>
      CommitSpec(records, outage, mail, login, req, sender, receiver, newFrom, newTo, credit)
  }

  /** The two blind overwrites, both computed before either is issued, then
      the notifications. */
  function CommitSpec(records: Records, outage: Option<string>, mail: KafkaReplies,
                      login: string, req: TransferRequest, sender: CustomerDto, receiver: CustomerDto,
                      newFrom: real, newTo: real, credit: real): Effect
  {
    var u1 := BalanceUpdate(login, req.fromCurrency, newFrom);
    var u2 := BalanceUpdate(receiver.login, req.toCurrency, newTo);
    match Updated(records, outage, login, req.fromCurrency, newFrom)
    case Thrown(m) => Effect(Raised(m), records, [u1], [])
    case Value(r1) =>
      match Updated(r1, outage, receiver.login, req.toCurrency, newTo)
      case Thrown(m) => Effect(Raised(m), r1, [u1, u2], [])
      case Value(r2) =>
        var msg := TransferNote(req.value, req.fromCurrency, credit, req.toCurrency, sender.login,
                                if login == req.toLogin then sender.login else receiver.login);
        var toSender := Notification(sender.id, sender.name, msg);
        var toReceiver := Notification(receiver.id, receiver.name, msg);
        match mail.toSender
        case Some(m) => Effect(Raised(m), r2, [u1, u2], [])
        case None =>
          if sender.login == receiver.login then Effect(Returned(Success()), r2, [u1, u2], [toSender])
          else match mail.toReceiver
            case Some(m) => Effect(Raised(m), r2, [u1, u2], [toSender])
            case None => Effect(Returned(Success()), r2, [u1, u2], [toSender, toReceiver])
  }

  class TransferService {
    const customers: CustomerDirectory
    const kafka: Outbox

    constructor (customers: CustomerDirectory, kafka: Outbox)
      ensures this.customers == customers && this.kafka == kafka
    {
      this.customers := customers;
      this.kafka := kafka;
    }

    /** transfer(login, req): `fraud`, `rates` and `mail` are what the fraud
        gate, the exchange client and the topic answer during this call. */
    method Transfer(login: string, req: TransferRequest, fraud: FraudGate, rates: Reply<seq<ExchangeRateDto>>,
                    mail: KafkaReplies)
      returns (o: Outcome<TransferResponse>)
      modifies customers`records, customers`updates, kafka`sent
      ensures var e := TransferSpec(old(customers.records), customers.outage, mail, fraud, rates, login, req);
              o == e.outcome && customers.records == e.records
              && customers.updates == old(customers.updates) + e.updates
              && kafka.sent == old(kafka.sent) + e.sent
    {
      var senderReply := customers.GetCustomer(login);
      if senderReply.Thrown? { return Raised(senderReply.message); }
      if senderReply.value.None? { return Raised(NullDereference); }
      var sender := senderReply.value.value;

      var verdict := IsFraudster(fraud, sender.id);
      if verdict.Thrown? { return Raised(verdict.message); }
      if verdict.value {
        return Returned(Errors([FraudDetected]));
      }

      var receiver := sender;
      if login != req.toLogin {
        var receiverReply := customers.GetCustomer(req.toLogin);
        if receiverReply.Thrown? { return Raised(receiverReply.message); }
        if receiverReply.value.None? { return Raised(NullDereference); }
        receiver := receiverReply.value.value;
      }

      var decision := Prepare(login, req, rates, sender, receiver);
      if decision.Halt? {
        return Returned(decision.response);
      }
      o := Commit(login, req, sender, receiver, decision.newFrom, decision.newTo, decision.credit, mail);
    }

    /** The checks of transfer between the lookups and the writes, which
        read nothing from the directory: the error lists as the source builds
        them, the conversion and the sufficiency check. */
    method Prepare(login: string, req: TransferRequest, rates: Reply<seq<ExchangeRateDto>>,
                   sender: CustomerDto, receiver: CustomerDto)
      returns (d: Decision)
      ensures d == Decide(rates, login, req, sender, receiver)
    {
      var fromAcc := Find(sender, req.fromCurrency);
      var toAcc := Find(receiver, req.toCurrency);
      var ownErrors, otherErrors := CheckAccounts(fromAcc, toAcc, login == req.toLogin);
      if ownErrors != [] || otherErrors != [] {
        return Halt(BuildError(ownErrors, otherErrors));
      }
      d := ChargeStep(req, rates, fromAcc.value.balance, toAcc.value.balance);
    }

    /** The account-existence step, appending to the two error lists. */
    static method CheckAccounts(fromAcc: Option<AccountDto>, toAcc: Option<AccountDto>, self: bool)
      returns (ownErrors: seq<string>, otherErrors: seq<string>)
      ensures (ownErrors, otherErrors) == AccountErrors(fromAcc, toAcc, self)
    {
      ownErrors, otherErrors := [], [];
      if fromAcc.None? {
        ownErrors := ownErrors + [SourceMissing];
      }
      assert ownErrors == if fromAcc.None? then [SourceMissing] else [];
      if toAcc.None? {
        if self {
          ownErrors := ownErrors + [DestinationMissing];
        } else {
          otherErrors := otherErrors + [DestinationMissing];
        }
      }
      assert ownErrors == AccountErrors(fromAcc, toAcc, self).0;
      assert otherErrors == AccountErrors(fromAcc, toAcc, self).1;
    }

    /** The conversion, then the sufficiency check in the source currency,
        once both accounts are known by their balances. */
    static method ChargeStep(req: TransferRequest, rates: Reply<seq<ExchangeRateDto>>, fromBalance: real, toBalance: real)
      returns (d: Decision)
      ensures d == Charge(rates, req, fromBalance, toBalance)
    {
      var ownErrors: seq<string> := [];
      var debitAmount := req.value;
      var conversion := ConvertCurrency(debitAmount, req.fromCurrency, req.toCurrency, rates);
      if conversion.Thrown? {
        ownErrors := ownErrors + [ConversionFailed + conversion.message];
        return Halt(Errors(ownErrors));
      }
      var creditAmount := conversion.value;
      if fromBalance < debitAmount {
        ownErrors := ownErrors + [InsufficientFunds];
        return Halt(Errors(ownErrors));
      }
      return Proceed(fromBalance - debitAmount, toBalance + creditAmount, creditAmount);
    }

    /** The two balance writes and the notifications. */
    method Commit(login: string, req: TransferRequest, sender: CustomerDto, receiver: CustomerDto,
                  newFrom: real, newTo: real, credit: real, mail: KafkaReplies)
      returns (o: Outcome<TransferResponse>)
      modifies customers`records, customers`updates, kafka`sent
      ensures var e := CommitSpec(old(customers.records), customers.outage, mail, login, req, sender, receiver,
                                  newFrom, newTo, credit);
              o == e.outcome && customers.records == e.records
              && customers.updates == old(customers.updates) + e.updates
              && kafka.sent == old(kafka.sent) + e.sent
    {
      var debited := customers.UpdateAccountBalance(login, req.fromCurrency, newFrom);
      if debited.Thrown? { return Raised(debited.message); }
      var credited := customers.UpdateAccountBalance(receiver.login, req.toCurrency, newTo);
      if credited.Thrown? { return Raised(credited.message); }

      var msg := TransferNote(req.value, req.fromCurrency, credit, req.toCurrency, sender.login,
                              if login == req.toLogin then sender.login else receiver.login);
      o := Notify(sender, receiver, msg, mail);
    }

    /** The notification to the sender, then (unless it is the same
        customer) the one to the receiver. Neither send is guarded: a
        failure of either raises, and the receiver's failure comes after the
        sender's notification was published. */
    method Notify(sender: CustomerDto, receiver: CustomerDto, msg: Message, mail: KafkaReplies)
      returns (o: Outcome<TransferResponse>)
      modifies kafka`sent
      ensures var toSender := Notification(sender.id, sender.name, msg);
              var toReceiver := Notification(receiver.id, receiver.name, msg);
              && (mail.toSender.Some? ==> o == Raised(mail.toSender.value) && kafka.sent == old(kafka.sent))
              && (mail.toSender.None? && sender.login == receiver.login ==>
                    o == Returned(Success()) && kafka.sent == old(kafka.sent) + [toSender])
              && (mail.toSender.None? && sender.login != receiver.login && mail.toReceiver.Some? ==>
                    o == Raised(mail.toReceiver.value) && kafka.sent == old(kafka.sent) + [toSender])
              && (mail.toSender.None? && sender.login != receiver.login && mail.toReceiver.None? ==>
                    o == Returned(Success()) && kafka.sent == old(kafka.sent) + [toSender, toReceiver])
    {
      var first := kafka.Send(Notification(sender.id, sender.name, msg), mail.toSender);
      if first.Thrown? { return Raised(first.message); }
      if sender.login != receiver.login {
        var second := kafka.Send(Notification(receiver.id, receiver.name, msg), mail.toReceiver);
        if second.Thrown? { return Raised(second.message); }
      }
      return Returned(Success());
    }
  }
}
