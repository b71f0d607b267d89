/** What transfer promises, stated over its specification. */
module TransferProperties {
  import opened Wrappers
  import opened Currencies
  import opened CustomerDtos
  import opened TransferResponses
  import opened ExchangeRates
  import opened Collaborators
  import opened Transfers

  /** A flagged sender gets "Fraud detected" and nothing else happens: the
      receiver is not looked up, nothing is written or published. */
  lemma FraudStopsTransfer(records: Records, outage: Option<string>, mail: KafkaReplies,
                           fraud: FraudGate, rates: Reply<seq<ExchangeRateDto>>,
                           login: string, req: TransferRequest, sender: CustomerDto)
    requires Lookup(records, outage, login) == Value(Some(sender))
    requires fraud.outage.None? && sender.id in fraud.flagged
    ensures TransferSpec(records, outage, mail, fraud, rates, login, req)
            == Effect(Returned(Errors([FraudDetected])), records, [], [])
  {
  }

  /** Every response transfer returns (rather than raises) is well formed:
      it reports success exactly when it carries no error. */
  lemma ReturnedResponsesWellFormed(records: Records, outage: Option<string>, mail: KafkaReplies,
                                    fraud: FraudGate, rates: Reply<seq<ExchangeRateDto>>,
                                    login: string, req: TransferRequest)
    ensures var e := TransferSpec(records, outage, mail, fraud, rates, login, req);
            e.outcome.Returned? ==> WellFormed(e.outcome.value)
  {
    ViaSettlement(records, outage, mail, fraud, rates, login, req);
  }

  /** A transfer that answers with errors has written and published nothing. */
  lemma ErrorsWriteNothing(records: Records, outage: Option<string>, mail: KafkaReplies,
                           fraud: FraudGate, rates: Reply<seq<ExchangeRateDto>>,
                           login: string, req: TransferRequest)
    ensures var e := TransferSpec(records, outage, mail, fraud, rates, login, req);
            e.outcome.Returned? && !e.outcome.value.success ==>
              e.records == records && e.updates == [] && e.sent == []
  {
    ViaSettlement(records, outage, mail, fraud, rates, login, req);
  }

  /** Both facts above, from the steps before the account lookups to the
      settlement between the two customers. */
  lemma ViaSettlement(records: Records, outage: Option<string>, mail: KafkaReplies,
                      fraud: FraudGate, rates: Reply<seq<ExchangeRateDto>>,
                      login: string, req: TransferRequest)
    ensures var e := TransferSpec(records, outage, mail, fraud, rates, login, req);
            e.outcome.Returned? ==> WellFormed(e.outcome.value)
                                    && (!e.outcome.value.success ==> e.records == records && e.updates == [] && e.sent == [])
  {
    match Lookup(records, outage, login)
    case Thrown(_) =>
    case Value(None) =>
    case Value(Some(sender)) =>
      if IsFraudster(fraud, sender.id) == Value(false) {
        var receiver: Reply<Option<CustomerDto>> := if login == req.toLogin then Value(Some(sender)) else Lookup(records, outage, req.toLogin);
        if receiver.Value? && receiver.value.Some? {
          SettlementOutcomes(records, outage, mail, rates, login, req, sender, receiver.value.value);
        }
      }
  }

  /** From the account lookups on: a returned response is well formed, and
      one that reports errors comes before any write or publication. */
  lemma SettlementOutcomes(records: Records, outage: Option<string>, mail: KafkaReplies,
                           rates: Reply<seq<ExchangeRateDto>>, login: string, req: TransferRequest,
                           sender: CustomerDto, receiver: CustomerDto)
    ensures var e := SettleSpec(records, outage, mail, rates, login, req, sender, receiver);
            e.outcome.Returned? ==> WellFormed(e.outcome.value)
                                    && (!e.outcome.value.success ==> e.records == records && e.updates == [] && e.sent == [])
  {
    var d := Decide(rates, login, req, sender, receiver);
    if d.Halt? {
      HaltsWithErrors(rates, login, req, sender, receiver);
    } else {
      CommitNotifiesParties(records, outage, mail, login, req, sender, receiver, d.newFrom, d.newTo, d.credit);
    }
  }

  /** Every decision to stop carries at least one error. */
  lemma HaltsWithErrors(rates: Reply<seq<ExchangeRateDto>>, login: string, req: TransferRequest,
                        sender: CustomerDto, receiver: CustomerDto)
    requires Decide(rates, login, req, sender, receiver).Halt?
    ensures var r := Decide(rates, login, req, sender, receiver).response;
            WellFormed(r) && !r.success
  {
  }

  /** Where the account errors go: a missing source account is always the
      initiator's; a missing destination is the initiator's on a transfer to
      oneself and the other party's otherwise; both are reported together. */
  lemma AccountErrorsAttributed(rates: Reply<seq<ExchangeRateDto>>, login: string, req: TransferRequest,
                                sender: CustomerDto, receiver: CustomerDto)
    requires Find(sender, req.fromCurrency).None? || Find(receiver, req.toCurrency).None?
    ensures var d := Decide(rates, login, req, sender, receiver);
            d.Halt? && !d.response.success
            && (SourceMissing in d.response.transferErrors <==> Find(sender, req.fromCurrency).None?)
            && (DestinationMissing in d.response.transferErrors <==>
                  Find(receiver, req.toCurrency).None? && login == req.toLogin)
            && (d.response.transferOtherErrors == [DestinationMissing] <==>
                  Find(receiver, req.toCurrency).None? && login != req.toLogin)
            && (d.response.transferOtherErrors == [] <==>
                  !(Find(receiver, req.toCurrency).None? && login != req.toLogin))
  {
  }

  /** Once both accounts exist, a conversion can fail only on the rate of USD
      or CNY or on a zero rate: account currencies are the three constants,
      and RUB is never looked up. An unknown target code therefore never
      reaches the conversion; it is reported as a missing account. */
  lemma ConversionFailureNamesTableCurrency(amount: real, sender: CustomerDto, receiver: CustomerDto,
                                            req: TransferRequest, rates: seq<ExchangeRateDto>)
    requires Find(sender, req.fromCurrency).Some? && Find(receiver, req.toCurrency).Some?
    requires ConvertCurrency(amount, req.fromCurrency, req.toCurrency, Value(rates)).Thrown?
    ensures ConvertCurrency(amount, req.fromCurrency, req.toCurrency, Value(rates)).message
            in {RateNotFound + "USD", RateNotFound + "CNY", DivisionByZero}
  {
    var from, to := Find(sender, req.fromCurrency).value.currency, Find(receiver, req.toCurrency).value.currency;
    assert req.fromCurrency == Name(from) && req.toCurrency == Name(to);
  }

  /** The integration test's scenario: a sender with a USD account asks for
      a transfer into "XYZ", which the receiver has no account for. The
      answer is a missing destination account on the other party's side, not
      a conversion failure. */
  lemma UnknownTargetCurrencyIsMissingAccount(rates: Reply<seq<ExchangeRateDto>>)
    ensures var sender := CustomerDto(1, "sender", "S", "s@x.io", None, [AccountDto(USD, "USD", "Доллар", 100.0, true)]);
            var receiver := CustomerDto(2, "receiver", "R", "r@x.io", None, [AccountDto(RUB, "RUB", "Рубль", 0.0, true)]);
            Decide(rates, "sender", TransferRequest("USD", "XYZ", 10.0, "receiver"), sender, receiver)
            == Halt(OtherErrors([DestinationMissing]))
  {
    var receiver := CustomerDto(2, "receiver", "R", "r@x.io", None, [AccountDto(RUB, "RUB", "Рубль", 0.0, true)]);
    assert Code(receiver.accounts[0].currency) != "XYZ";
  }

  /** A transfer goes ahead only when both accounts exist, and then the
      decision depends on their balances alone. */
  lemma DecideProceeds(rates: Reply<seq<ExchangeRateDto>>, login: string, req: TransferRequest,
                       sender: CustomerDto, receiver: CustomerDto)
    requires Decide(rates, login, req, sender, receiver).Proceed?
    ensures Find(sender, req.fromCurrency).Some? && Find(receiver, req.toCurrency).Some?
    ensures Decide(rates, login, req, sender, receiver)
            == Charge(rates, req, Find(sender, req.fromCurrency).value.balance, Find(receiver, req.toCurrency).value.balance)
  {
  }

  /** What a transfer that goes ahead writes: the source balance less the
      debit, never below zero, and the destination balance plus the credit. */
  lemma ChargeSplits(rates: Reply<seq<ExchangeRateDto>>, req: TransferRequest, fromBalance: real, toBalance: real)
    requires Charge(rates, req, fromBalance, toBalance).Proceed?
    ensures Charge(rates, req, fromBalance, toBalance).newFrom == fromBalance - req.value
    ensures Charge(rates, req, fromBalance, toBalance).newFrom >= 0.0
    ensures Charge(rates, req, fromBalance, toBalance).newTo == toBalance + Charge(rates, req, fromBalance, toBalance).credit
    ensures req.fromCurrency == req.toCurrency ==> Charge(rates, req, fromBalance, toBalance).credit == req.value
  {
  }

  /** The credit of a transfer that goes ahead: the debit itself between
      equal codes and otherwise the debit converted at the two rates, within
      half a unit. */
  lemma ChargeAmounts(rates: Reply<seq<ExchangeRateDto>>, req: TransferRequest, fromBalance: real, toBalance: real)
    requires Charge(rates, req, fromBalance, toBalance).Proceed?
    ensures req.fromCurrency == req.toCurrency ==> Charge(rates, req, fromBalance, toBalance).credit == req.value
    ensures req.fromCurrency != req.toCurrency ==>
              rates.Value? &&
              var fr := GetRateValue(rates.value, req.fromCurrency).value;
              var tr := GetRateValue(rates.value, req.toCurrency).value;
              var c := Charge(rates, req, fromBalance, toBalance).credit;
              tr != 0.0 && c - Exact(req.value, fr, tr) <= 0.5 && Exact(req.value, fr, tr) - c <= 0.5
  {
    ChargeCredit(rates, req, fromBalance, toBalance);
    if req.fromCurrency != req.toCurrency {
      var c := Charge(rates, req, fromBalance, toBalance).credit;
      assert rates.Value?;
      var fr := GetRateValue(rates.value, req.fromCurrency).value;
      var tr := GetRateValue(rates.value, req.toCurrency).value;
      assert tr != 0.0 && c == Credit(req.value, fr, tr);
    }
  }

  /** A transfer goes ahead only on a conversion that succeeds, and credits
      what it converted to. */
  lemma ChargeCredit(rates: Reply<seq<ExchangeRateDto>>, req: TransferRequest, fromBalance: real, toBalance: real)
    requires Charge(rates, req, fromBalance, toBalance).Proceed?
    ensures ConvertCurrency(req.value, req.fromCurrency, req.toCurrency, rates).Value?
    ensures Charge(rates, req, fromBalance, toBalance).credit
            == ConvertCurrency(req.value, req.fromCurrency, req.toCurrency, rates).value
  {
  }

  /** The unit test's conversion: 10 USD at 95 to a RUB account holding
      nothing debits 90 and credits 950. */
  lemma UsdToRubExample()
    ensures var user1 := CustomerDto(1, "user1", "Name user1", "user1@example.com", None, [AccountDto(USD, "USD", "Доллар", 100.0, true)]);
            var user2 := CustomerDto(2, "user2", "Name user2", "user2@example.com", None, [AccountDto(RUB, "RUB", "Рубль", 0.0, true)]);
            var rates := [ExchangeRateDto("Доллар", "USD", 95.0), ExchangeRateDto("Рубль", "RUB", 1.0)];
            Decide(Value(rates), "user1", TransferRequest("USD", "RUB", 10.0, "user2"), user1, user2)
            == Proceed(90.0, 950.0, 950.0)
  {
    var user1 := CustomerDto(1, "user1", "Name user1", "user1@example.com", None, [AccountDto(USD, "USD", "Доллар", 100.0, true)]);
    var user2 := CustomerDto(2, "user2", "Name user2", "user2@example.com", None, [AccountDto(RUB, "RUB", "Рубль", 0.0, true)]);
    var rates := [ExchangeRateDto("Доллар", "USD", 95.0), ExchangeRateDto("Рубль", "RUB", 1.0)];
    assert FirstIndexOfCode(user1.accounts, "USD") == 0;
    assert FirstIndexOfCode(user2.accounts, "RUB") == 0;
    assert GetRateValue(rates, "USD") == Value(95.0);
    Money.RoundHalfUpWhole(950);
    assert Credit(10.0, 95.0, 1.0) == 950.0;
  }

  /** The amount is not checked for sign: a negative amount passes the
      sufficiency check and raises the sender's balance. */
  lemma NegativeAmountAccepted()
    ensures var sender := CustomerDto(1, "a", "A", "a@x.io", None, [AccountDto(RUB, "RUB", "Рубль", 10.0, true)]);
            var receiver := CustomerDto(2, "b", "B", "b@x.io", None, [AccountDto(RUB, "RUB", "Рубль", 50.0, true)]);
            Decide(Thrown("unused"), "a", TransferRequest("RUB", "RUB", -30.0, "b"), sender, receiver)
            == Proceed(40.0, 20.0, -30.0)
  {
    var sender := CustomerDto(1, "a", "A", "a@x.io", None, [AccountDto(RUB, "RUB", "Рубль", 10.0, true)]);
    var receiver := CustomerDto(2, "b", "B", "b@x.io", None, [AccountDto(RUB, "RUB", "Рубль", 50.0, true)]);
    assert FirstIndexOfCode(sender.accounts, "RUB") == 0;
    assert FirstIndexOfCode(receiver.accounts, "RUB") == 0;
  }

  /** Both customers as the directory holds them. */
  predicate Holds(records: Records, c: CustomerDto) {
    c.login in records && records[c.login] == Some(c)
  }

  /** The directory's balance for a customer it holds is that of the
      account find picks. */
  lemma BalanceOfHeld(records: Records, c: CustomerDto, code: string)
    requires Holds(records, c)
    ensures BalanceIn(records, c.login, code)
            == if Find(c, code).Some? then Some(Find(c, code).value.balance) else None
  {
  }

  /** The two writes, when both customers and accounts exist: the
      destination reads the second value written, and the source the first
      unless source and destination are one account, which the second write
      overwrites. */
  lemma CommitBalances(records: Records, mail: KafkaReplies, req: TransferRequest,
                       sender: CustomerDto, receiver: CustomerDto, newFrom: real, newTo: real, credit: real)
    requires Holds(records, sender) && Holds(records, receiver)
    requires Find(sender, req.fromCurrency).Some? && Find(receiver, req.toCurrency).Some?
    ensures var e := CommitSpec(records, None, mail, sender.login, req, sender, receiver, newFrom, newTo, credit);
            BalanceIn(e.records, receiver.login, req.toCurrency) == Some(newTo)
            && BalanceIn(e.records, sender.login, req.fromCurrency)
               == if sender.login == receiver.login && req.fromCurrency == req.toCurrency then Some(newTo) else Some(newFrom)
  {
    var r1 := Updated(records, None, sender.login, req.fromCurrency, newFrom).value;
    UpdatedBalance(records, None, sender.login, req.fromCurrency, newFrom, receiver.login, req.toCurrency);
    UpdatedBalance(records, None, sender.login, req.fromCurrency, newFrom, sender.login, req.fromCurrency);
    assert Updated(r1, None, receiver.login, req.toCurrency, newTo).Value?;
    UpdatedBalance(r1, None, receiver.login, req.toCurrency, newTo, sender.login, req.fromCurrency);
    UpdatedBalance(r1, None, receiver.login, req.toCurrency, newTo, receiver.login, req.toCurrency);
  }

  /** Once the decision is to go ahead, the rest of transfer is the commit
      of the decided balances. */
  lemma SettleCommits(records: Records, outage: Option<string>, mail: KafkaReplies,
                      rates: Reply<seq<ExchangeRateDto>>, login: string, req: TransferRequest,
                      sender: CustomerDto, receiver: CustomerDto)
    requires Decide(rates, login, req, sender, receiver).Proceed?
    ensures var d := Decide(rates, login, req, sender, receiver);
            SettleSpec(records, outage, mail, rates, login, req, sender, receiver)
            == CommitSpec(records, outage, mail, login, req, sender, receiver, d.newFrom, d.newTo, d.credit)
  {
  }

  /** Between two different accounts, the writes move the amounts the
      decision computed: the source reads its old balance less the debit and
      the destination its old balance plus the credit. */
  lemma DistinctAccountsSettle(records: Records, mail: KafkaReplies,
                               rates: Reply<seq<ExchangeRateDto>>, req: TransferRequest,
                               sender: CustomerDto, receiver: CustomerDto)
    requires Holds(records, sender) && Holds(records, receiver)
    requires sender.login != receiver.login || req.fromCurrency != req.toCurrency
    requires Decide(rates, sender.login, req, sender, receiver).Proceed?
    ensures var d := Decide(rates, sender.login, req, sender, receiver);
            var e := SettleSpec(records, None, mail, rates, sender.login, req, sender, receiver);
            BalanceIn(e.records, sender.login, req.fromCurrency) == Some(d.newFrom)
            && BalanceIn(e.records, receiver.login, req.toCurrency) == Some(d.newTo)
  {
    var d := Decide(rates, sender.login, req, sender, receiver);
    SettleCommits(records, None, mail, rates, sender.login, req, sender, receiver);
    DecideProceeds(rates, sender.login, req, sender, receiver);
    CommitBalances(records, mail, req, sender, receiver, d.newFrom, d.newTo, d.credit);
  }

  /** A decision to go ahead debits the balance the directory holds for the
      source account and credits the one it holds for the destination. */
  lemma DecidedAmounts(records: Records, rates: Reply<seq<ExchangeRateDto>>, req: TransferRequest,
                       sender: CustomerDto, receiver: CustomerDto)
    requires Holds(records, sender) && Holds(records, receiver)
    requires Decide(rates, sender.login, req, sender, receiver).Proceed?
    ensures var d := Decide(rates, sender.login, req, sender, receiver);
            BalanceIn(records, sender.login, req.fromCurrency).Some?
            && BalanceIn(records, receiver.login, req.toCurrency).Some?
            && d.newFrom == BalanceIn(records, sender.login, req.fromCurrency).value - req.value
            && d.newTo == BalanceIn(records, receiver.login, req.toCurrency).value + d.credit
  {
    DecideProceeds(rates, sender.login, req, sender, receiver);
    ChargeSplits(rates, req, Find(sender, req.fromCurrency).value.balance, Find(receiver, req.toCurrency).value.balance);
    BalanceOfHeld(records, sender, req.fromCurrency);
    BalanceOfHeld(records, receiver, req.toCurrency);
  }

  /** The self-transfer as written: both new balances are computed from the
      balances read before either write, so when source and destination are
      one account the second write wins and the account ends up holding its
      old balance plus the amount. */
  lemma SelfTransferMints(records: Records, mail: KafkaReplies,
                          rates: Reply<seq<ExchangeRateDto>>, req: TransferRequest, me: CustomerDto)
    requires Holds(records, me)
    requires req.toLogin == me.login && req.fromCurrency == req.toCurrency
    requires Decide(rates, me.login, req, me, me).Proceed?
    ensures var e := SettleSpec(records, None, mail, rates, me.login, req, me, me);
            BalanceIn(e.records, me.login, req.fromCurrency)
              == Some(BalanceIn(records, me.login, req.fromCurrency).value + req.value)
  {
    var d := Decide(rates, me.login, req, me, me);
    DecideProceeds(rates, me.login, req, me, me);
    var b := Find(me, req.fromCurrency).value.balance;
    ChargeSplits(rates, req, b, b);
    SettleCommits(records, None, mail, rates, me.login, req, me, me);
    CommitBalances(records, mail, req, me, me, d.newFrom, d.newTo, d.credit);
    BalanceOfHeld(records, me, req.fromCurrency);
  }

  /** The corrected writes: the destination's new balance is read after the
      debit has been applied. */
  function CommitCorrected(records: Records, outage: Option<string>, login: string, req: TransferRequest,
                           receiver: CustomerDto, newFrom: real, credit: real): (r: Reply<Records>)
    ensures r.Value? ==> BalanceIn(r.value, receiver.login, req.toCurrency).Some?
  {
    match Updated(records, outage, login, req.fromCurrency, newFrom)
    case Thrown(m) => Thrown(m)
    case Value(r1) =>
      match BalanceIn(r1, receiver.login, req.toCurrency)
      case None => Thrown("Account with currency " + req.toCurrency + " not found for user " + receiver.login)
      case Some(b) =>
        var r2 := Updated(r1, outage, receiver.login, req.toCurrency, b + credit);
        if r2.Value? then
          UpdatedBalance(r1, outage, receiver.login, req.toCurrency, b + credit, receiver.login, req.toCurrency);
          r2
        else r2
  }

  /** With the correction a self-transfer in one currency leaves the balance
      as it was. */
  lemma {:induction false} CorrectedSelfTransferConserves(records: Records, rates: Reply<seq<ExchangeRateDto>>,
                                                          req: TransferRequest, me: CustomerDto)
    requires Holds(records, me)
    requires req.toLogin == me.login && req.fromCurrency == req.toCurrency
    requires Decide(rates, me.login, req, me, me).Proceed?
    ensures var d := Decide(rates, me.login, req, me, me);
            var r := CommitCorrected(records, None, me.login, req, me, d.newFrom, d.credit);
            r.Value? && BalanceIn(r.value, me.login, req.fromCurrency) == BalanceIn(records, me.login, req.fromCurrency)
  {
    var d := Decide(rates, me.login, req, me, me);
    DecideProceeds(rates, me.login, req, me, me);
    ChargeSplits(rates, req, Find(me, req.fromCurrency).value.balance, Find(me, req.toCurrency).value.balance);
    var r1 := Updated(records, None, me.login, req.fromCurrency, d.newFrom).value;
    UpdatedBalance(records, None, me.login, req.fromCurrency, d.newFrom, me.login, req.fromCurrency);
    UpdatedBalance(r1, None, me.login, req.toCurrency, d.newFrom + d.credit, me.login, req.fromCurrency);
  }

  /** Between two different accounts the correction writes what the source
      writes: the destination's balance read before the debit is the one
      read after it. */
  lemma {:induction false} CorrectionAgreesOnDistinctAccounts(records: Records, req: TransferRequest,
                                                              sender: CustomerDto, receiver: CustomerDto,
                                                              newFrom: real, credit: real)
    requires Holds(records, sender) && Holds(records, receiver)
    requires sender.login != receiver.login || req.fromCurrency != req.toCurrency
    requires Find(sender, req.fromCurrency).Some? && Find(receiver, req.toCurrency).Some?
    ensures var r1 := Updated(records, None, sender.login, req.fromCurrency, newFrom);
            r1.Value?
            && CommitCorrected(records, None, sender.login, req, receiver, newFrom, credit)
               == Updated(r1.value, None, receiver.login, req.toCurrency, Find(receiver, req.toCurrency).value.balance + credit)
  {
    BalanceOfHeld(records, receiver, req.toCurrency);
    UpdatedBalance(records, None, sender.login, req.fromCurrency, newFrom, receiver.login, req.toCurrency);
    CorrectedWrites(records, sender.login, req, receiver, newFrom, credit, Find(receiver, req.toCurrency).value.balance);
  }

  /** The corrected commit, once the debit is written and the destination
      balance read after it is `b`, is the credit written onto `b`. */
  lemma CorrectedWrites(records: Records, login: string, req: TransferRequest, receiver: CustomerDto,
                        newFrom: real, credit: real, b: real)
    requires Updated(records, None, login, req.fromCurrency, newFrom).Value?
    requires BalanceIn(Updated(records, None, login, req.fromCurrency, newFrom).value, receiver.login, req.toCurrency) == Some(b)
    ensures CommitCorrected(records, None, login, req, receiver, newFrom, credit)
            == Updated(Updated(records, None, login, req.fromCurrency, newFrom).value, None, receiver.login, req.toCurrency, b + credit)
  {
  }

  /** A commit that returns reports success, after exactly the two writes,
      having notified the sender first and then the receiver unless the two
      are the same customer. */
  lemma CommitNotifiesParties(records: Records, outage: Option<string>, mail: KafkaReplies,
                              login: string, req: TransferRequest, sender: CustomerDto, receiver: CustomerDto,
                              newFrom: real, newTo: real, credit: real)
    ensures var e := CommitSpec(records, outage, mail, login, req, sender, receiver, newFrom, newTo, credit);
            e.outcome.Returned? ==>
              e.outcome.value == Success()
              && e.updates == [BalanceUpdate(login, req.fromCurrency, newFrom), BalanceUpdate(receiver.login, req.toCurrency, newTo)]
              && |e.sent| == (if sender.login == receiver.login then 1 else 2)
              && e.sent[0].toCustomerId == sender.id
              && (sender.login != receiver.login ==> e.sent[1].toCustomerId == receiver.id)
              && e.sent[0].message == e.sent[|e.sent| - 1].message
  {
  }

  /** A notification failure surfaces as an exception after both writes
      have been applied: the caller sees an error for a transfer that took
      place. When the receiver's send is the one that fails, the sender's
      notification has already been published. */
  lemma MailFailureAfterWrites(records: Records, mail: KafkaReplies,
                               rates: Reply<seq<ExchangeRateDto>>, login: string, req: TransferRequest,
                               sender: CustomerDto, receiver: CustomerDto, newFrom: real, newTo: real, credit: real)
    requires mail.toSender.Some? || (sender.login != receiver.login && mail.toReceiver.Some?)
    requires Updated(records, None, login, req.fromCurrency, newFrom).Value?
    requires Updated(Updated(records, None, login, req.fromCurrency, newFrom).value, None,
                     receiver.login, req.toCurrency, newTo).Value?
    ensures var e := CommitSpec(records, None, mail, login, req, sender, receiver, newFrom, newTo, credit);
            e.outcome.Raised? && |e.updates| == 2
            && e.records == Updated(Updated(records, None, login, req.fromCurrency, newFrom).value, None,
                                    receiver.login, req.toCurrency, newTo).value
            && (mail.toSender.Some? ==> e.outcome.message == mail.toSender.value && e.sent == [])
            && (mail.toSender.None? ==>
                  e.outcome.message == mail.toReceiver.value
                  && |e.sent| == 1 && e.sent[0].toCustomerId == sender.id)
  {
  }

}
