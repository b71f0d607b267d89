/** The services' collaborators, reduced to the state they keep: the
    customer directory behind CustomerClient (a ledger of customer records
    and the balance overwrites it receives), the Kafka topic the services
    publish notifications to, and the fraud gate's verdicts. */
module Collaborators {
  import opened Wrappers
  import opened Currencies
  import opened CustomerDtos
  import opened CashRequests

  /** What a notification says. The %-formatted text of the source is kept
      as the values that fill it in. */
  datatype Message =
    | TransferNote(debit: real, fromCurrency: string, credit: real, toCurrency: string,
                   fromLogin: string, toLogin: string)
    | CashNote(action: CashAction, value: real, currency: string, newBalance: real)
    | Welcome(name: string)

  /** NotificationRequest: recipient id, recipient name (or e-mail), message. */
  datatype Notification = Notification(toCustomerId: int, toCustomerName: string, message: Message)

  /** One updateAccountBalance call as the directory received it. */
  datatype BalanceUpdate = BalanceUpdate(login: string, currencyCode: string, newBalance: real)

  /** The directory's records by login; None is a login the directory
      answers with an empty body, which the client reads as null. */
  type Records = map<string, Option<CustomerDto>>

  /** Records keyed by their own login. */
  predicate Keyed(records: Records) {
    forall k :: k in records && records[k].Some? ==> records[k].value.login == k
  }

  /** CustomerClient.getCustomer: the record, null, or an exception (the
      directory is down, or it has no such login). */
  function Lookup(records: Records, outage: Option<string>, login: string): (r: Reply<Option<CustomerDto>>)
    ensures outage.Some? ==> r == Thrown(outage.value)
    ensures outage.None? && login in records ==> r == Value(records[login])
    ensures outage.None? && login !in records ==> r.Thrown?
  {
    if outage.Some? then Thrown(outage.value)
    else if login in records then Value(records[login])
    else Thrown("Customer not found: " + login)
  }

  /** The directory's side of updateAccountBalance: overwrite the balance of
      the customer's first account whose currency code is `code`; an absent
      customer or account is an exception and changes nothing. */
  function Updated(records: Records, outage: Option<string>, login: string, code: string, v: real): (r: Reply<Records>)
    ensures r.Value? <==> outage.None? && login in records && records[login].Some?
                          && FirstIndexOfCode(records[login].value.accounts, code) >= 0
    ensures r.Value? ==> r.value.Keys == records.Keys
                         && forall k :: k in records && k != login ==> r.value[k] == records[k]
    ensures r.Value? ==>
              var c := records[login].value;
              var i := FirstIndexOfCode(c.accounts, code);
              r.value[login] == Some(c.(accounts := c.accounts[i := c.accounts[i].(balance := v)]))
  {
    if outage.Some? then Thrown(outage.value)
    else if login !in records || records[login].None? then Thrown("Customer not found: " + login)
    else
      var c := records[login].value;
      var i := FirstIndexOfCode(c.accounts, code);
      if i < 0 then Thrown("Account with currency " + code + " not found for user " + login)
      else Value(records[login := Some(c.(accounts := c.accounts[i := c.accounts[i].(balance := v)]))])
  }

  /** The balance the directory holds for the customer's first account with
      code `code`; None when there is no such customer or account. */
  function BalanceIn(records: Records, login: string, code: string): Option<real> {
    if login in records && records[login].Some? then
      var i := FirstIndexOfCode(records[login].value.accounts, code);
      if i < 0 then None else Some(records[login].value.accounts[i].balance)
    else None
  }

  /** An overwrite sets exactly the one balance it names: every other
      (customer, code) pair reads as before. */
  lemma UpdatedBalance(records: Records, outage: Option<string>, login: string, code: string, v: real,
                       login2: string, code2: string)
    requires Updated(records, outage, login, code, v).Value?
    ensures var r := Updated(records, outage, login, code, v).value;
            BalanceIn(r, login2, code2) == if login2 == login && code2 == code then Some(v)
                                           else BalanceIn(records, login2, code2)
  {
    var r := Updated(records, outage, login, code, v).value;
    if login2 == login {
      var a := records[login].value.accounts;
      var b := r[login].value.accounts;
      SameCurrenciesSameIndex(a, b, code2);
      var i := FirstIndexOfCode(a, code);
      var j := FirstIndexOfCode(a, code2);
      if code2 != code && j >= 0 {
        assert j != i;
        assert b[j] == a[j];
      }
    }
  }

  /** An overwrite keeps the records keyed by their logins. */
  lemma UpdatedKeepsKeyed(records: Records, outage: Option<string>, login: string, code: string, v: real)
    requires Keyed(records)
    ensures Updated(records, outage, login, code, v).Value? ==> Keyed(Updated(records, outage, login, code, v).value)
  {
  }

  /** The customer directory as the transfer and cash services see it. */
  class CustomerDirectory {
    var records: Records
    var outage: Option<string>        // Some(m): every call raises m
    var updates: seq<BalanceUpdate>   // every updateAccountBalance call, in order

    constructor (records: Records, outage: Option<string>)
      ensures this.records == records && this.outage == outage && updates == []
    {
      this.records := records;
      this.outage := outage;
      updates := [];
    }

    method GetCustomer(login: string) returns (r: Reply<Option<CustomerDto>>)
      ensures r == Lookup(records, outage, login)
    {
      if outage.Some? {
        r := Thrown(outage.value);
      } else if login in records {
        r := Value(records[login]);
      } else {
        r := Thrown("Customer not found: " + login);
      }
    }

    method UpdateAccountBalance(login: string, code: string, v: real) returns (r: Reply<()>)
      modifies this`records, this`updates
      ensures updates == old(updates) + [BalanceUpdate(login, code, v)]
      ensures match Updated(old(records), outage, login, code, v)
              case Value(m) => r == Value(()) && records == m
              case Thrown(e) => r == Thrown(e) && records == old(records)
    {
      updates := updates + [BalanceUpdate(login, code, v)];
      var u := Updated(records, outage, login, code, v);
      match u
      case Value(m) => records := m; r := Value(());
      case Thrown(e) => r := Thrown(e);
    }
  }

  /** The notification topic: every notification it accepted, in order. */
  class Outbox {
    var sent: seq<Notification>

    constructor ()
      ensures sent == []
    {
      sent := [];
    }

    /** KafkaTemplate.send: the notification is published, or the call raises
        and nothing is published. `failure` is what the broker answers to
        this one call (Some(m): the send raises m), so two sends in one
        operation may fare differently. */
    method Send(n: Notification, failure: Option<string>) returns (r: Reply<()>)
      modifies this`sent
      ensures failure.None? ==> r == Value(()) && sent == old(sent) + [n]
      ensures failure.Some? ==> r == Thrown(failure.value) && sent == old(sent)
    {
      if failure.Some? {
        r := Thrown(failure.value);
      } else {
        sent := sent + [n];
        r := Value(());
      }
    }
  }

  /** FraudClient: unreachable (Some outage) or the set of flagged ids. */
  datatype FraudGate = FraudGate(outage: Option<string>, flagged: set<int>)

  function IsFraudster(g: FraudGate, id: int): (r: Reply<bool>)
    ensures g.outage.Some? ==> r == Thrown(g.outage.value)
    ensures g.outage.None? ==> r == Value(id in g.flagged)
  {
    if g.outage.Some? then Thrown(g.outage.value) else Value(id in g.flagged)
  }
}
