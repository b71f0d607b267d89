/** CustomerService over its repository: registration behind the fraud
    gate with a welcome notification, the profile and account edit, the
    password change, and the balance overwrite the other services call. */
module CustomerServices {
  import opened Wrappers
  import opened Currencies
  import opened Dates
  import opened JavaText
  import opened Collaborators
  import opened Customers

  const FraudBlocked := "Your registration is blocked due to fraud suspicion"
  const FraudUnavailable := "Fraud service unavailable. Please try again later."
  const CustomerNotFound := "Customer not found"
  const DuplicateCurrencies := "Duplicate currencies in the accounts list"

  function CannotDelete(c: Currency): string {
    "Cannot delete account " + Name(c) + " with non-zero balance"
  }

  // ------------------------------------------------------------ repository

  /** The customers other than those with id `id`, in order. */
  function WithoutId(customers: seq<Customer>, id: int): (r: seq<Customer>)
    ensures forall x :: x in r <==> x in customers && x.id != id
    ensures |r| <= |customers|
  {
    if customers == [] then []
    else
      var last := customers[|customers| - 1];
      var r := WithoutId(customers[..|customers| - 1], id);
      assert customers == customers[..|customers| - 1] + [last];
      if last.id == id then r else r + [last]
  }

  /** Removing an id nobody else carries takes back the row just added. */
  lemma {:induction false} WithoutNewId(customers: seq<Customer>, c: Customer)
    requires forall i :: 0 <= i < |customers| ==> customers[i].id != c.id
    ensures WithoutId(customers + [c], c.id) == customers
    decreases |customers|
  {
    assert (customers + [c])[..|customers|] == customers;
    KeepsOtherIds(customers, c.id);
  }

  lemma {:induction false} KeepsOtherIds(customers: seq<Customer>, id: int)
    requires forall i :: 0 <= i < |customers| ==> customers[i].id != id
    ensures WithoutId(customers, id) == customers
    decreases |customers|
  {
    if customers != [] {
      var front := customers[..|customers| - 1];
      KeepsOtherIds(front, id);
      assert front + [customers[|customers| - 1]] == customers;
    }
  }

  /** CustomerRepository: the table in insertion order and the sequence that
      hands out ids. */
  class CustomerRepository {
    var customers: seq<Customer>
    var nextId: int

    constructor ()
      ensures customers == [] && nextId == 1
    {
      customers := [];
      nextId := 1;
    }

    /** saveAndFlush of a new customer: it is given the next id and added. */
    method SaveAndFlush(c: Customer) returns (id: int)
      modifies this
      ensures id == old(nextId) && nextId == old(nextId) + 1
      ensures customers == old(customers) + [c.(id := id)]
    {
      id := nextId;
      nextId := nextId + 1;
      customers := customers + [c.(id := id)];
    }

    /** delete: the row with the customer's id goes. */
    method Delete(id: int)
      modifies this`customers
      ensures customers == WithoutId(old(customers), id)
    {
      customers := WithoutId(customers, id);
    }

    /** save of the customer loaded from position k: its row takes the new
        state. */
    method Save(k: int, c: Customer)
      requires 0 <= k < |customers|
      modifies this`customers
      ensures customers == old(customers)[k := c]
    {
      customers := customers[k := c];
    }
  }

  // ----------------------------------------------------------- registration

  /** The customer built from a checked request: login, name, e-mail and
      birth date as given, the password's hash only when a password came,
      and the default accounts. */
  function NewCustomer(id: int, req: RegistrationRequest, hash: string): Customer
    requires req.login.Some? && req.name.Some? && req.email.Some? && req.birthdate.Some?
  {
    Customer(id, req.login.value, if req.password.Some? then Some(hash) else None,
             req.name.value, req.email.value, req.birthdate.value, DefaultAccounts())
  }

  function WelcomeFor(c: Customer): Notification {
    Notification(c.id, c.email, Welcome(c.name))
  }

  /** What registration does: the response, the table and sequence after
      it, and the notifications published. */
  datatype Registration = Registration(
    response: RegistrationResponse,
    customers: seq<Customer>,
    nextId: int,
    sent: seq<Notification>)

  /** registerCustomer. Rejected requests touch nothing. An accepted one is
      saved first; a flagged customer is deleted again; an exception from
      the fraud check or the publication ends in fraudCheckFallback with
      the customer kept. `hash` is BCrypt's result, which is not modelled. */
  function RegisterSpec(customers: seq<Customer>, nextId: int, fraud: FraudGate, mailFailure: Option<string>,
                        req: RegistrationRequest, today: Date, hash: string): Registration
    requires Valid(today)
  {
    var errors := RegistrationErrors(req, today, customers);
    if errors != [] then Registration(RegistrationResponse(false, errors), customers, nextId, [])
    else
      var c := NewCustomer(nextId, req, hash);
      var saved := customers + [c];
      match IsFraudster(fraud, nextId)
      case Thrown(_) => Registration(RegistrationResponse(false, [FraudUnavailable]), saved, nextId + 1, [])
      case Value(flagged) =>
        if flagged then Registration(RegistrationResponse(false, [FraudBlocked]), WithoutId(saved, nextId), nextId + 1, [])
        else if mailFailure.Some? then Registration(RegistrationResponse(false, [FraudUnavailable]), saved, nextId + 1, [])
        else Registration(RegistrationResponse(true, []), saved, nextId + 1, [WelcomeFor(c)])
  }

  // ----------------------------------------------------------- profile edit

  datatype EditUserAccountsRequest = EditUserAccountsRequest(
    name: Option<string>,
    birthdate: Option<Date>,
    accounts: Option<seq<string>>)

  /** What an edit does: the outcome and the table after it. */
  datatype Edit<T> = Edit(outcome: Outcome<T>, customers: seq<Customer>)

  /** The profile checks editUserProfile makes before anything else. */
  function ProfileErrors(req: EditUserAccountsRequest, today: Date): (errors: seq<string>)
    requires Valid(today)
    ensures errors == [] <==> Present(req.name) && Over18(req.birthdate, today)
  {
    (if !Present(req.name) then [NameRequired] else [])
    + (if !Over18(req.birthdate, today) then [TooYoung] else [])
  }

  /** The requested names mapped through Currency.valueOf, which raises at
      the first name that is no constant. */
  function ValuesOf(names: seq<string>): (r: Reply<seq<Currency>>)
    ensures r.Value? <==> forall i :: 0 <= i < |names| ==> ValueOf(names[i]).Some?
    ensures r.Value? ==> |r.value| == |names|
                         && forall i :: 0 <= i < |names| ==> ValueOf(names[i]) == Some(r.value[i])
    ensures r.Thrown? ==> exists i :: 0 <= i < |names| && ValueOf(names[i]).None?
                                      && r.message == NoEnumConstant(names[i])
                                      && forall j :: 0 <= j < i ==> ValueOf(names[j]).Some?
  {
    if names == [] then Value([])
    else
      assert forall i :: 1 <= i < |names| ==> names[i] == names[1..][i - 1];
      match ValueOf(names[0])
      case None => Thrown(NoEnumConstant(names[0]))
      case Some(c) =>
        var rest := ValuesOf(names[1..]);
        if rest.Thrown? then
          var i :| 0 <= i < |names[1..]| && ValueOf(names[1..][i]).None?
                   && rest.message == NoEnumConstant(names[1..][i])
                   && forall j :: 0 <= j < i ==> ValueOf(names[1..][j]).Some?;
          assert ValueOf(names[i + 1]).None?;
          rest
        else Value([c] + rest.value)
  }

  function ToSet(ds: seq<Currency>): set<Currency> {
    set c | c in ds
  }

  predicate Distinct(ds: seq<Currency>) {
    forall i, j :: 0 <= i < j < |ds| ==> ds[i] != ds[j]
  }

  /** The duplicate check compares the set's size with the list's length:
      they agree exactly when no currency repeats. */
  lemma {:induction false} SetSizeIsLength(ds: seq<Currency>)
    ensures |ToSet(ds)| <= |ds|
    ensures |ToSet(ds)| == |ds| <==> Distinct(ds)
    decreases |ds|
  {
    if ds != [] {
      var rest := ds[1..];
      SetSizeIsLength(rest);
      DistinctCons(ds);
      assert ToSet(ds) == {ds[0]} + ToSet(rest);
      if ds[0] in rest {
        assert ToSet(ds) == ToSet(rest);
      } else {
        assert |ToSet(ds)| == 1 + |ToSet(rest)|;
      }
    }
  }

  /** A list is without repeats exactly when its head does not recur and
      its tail is without repeats. */
  lemma DistinctCons(ds: seq<Currency>)
    requires ds != []
    ensures Distinct(ds) <==> ds[0] !in ds[1..] && Distinct(ds[1..])
  {
    var rest := ds[1..];
    assert forall i :: 1 <= i < |ds| ==> ds[i] == rest[i - 1];
    if ds[0] in rest {
      var j :| 0 <= j < |rest| && rest[j] == ds[0];
      assert ds[j + 1] == ds[0];
    } else if Distinct(rest) {
      forall i, j | 0 <= i < j < |ds| ensures ds[i] != ds[j] {
        if i == 0 {
          assert ds[j] == rest[j - 1];
        } else {
          assert ds[i] == rest[i - 1] && ds[j] == rest[j - 1];
        }
      }
    }
    if Distinct(ds) {
      forall i, j | 0 <= i < j < |rest| ensures rest[i] != rest[j] {
        assert rest[i] == ds[i + 1] && rest[j] == ds[j + 1];
      }
    }
  }

  /** One error per account that would be removed with money on it, in
      account order. */
  function RemovalErrors(accounts: seq<Account>, desired: set<Currency>): (errors: seq<string>)
    ensures errors == [] <==> forall i :: 0 <= i < |accounts| && accounts[i].currency !in desired
                                          ==> accounts[i].balance == 0.0
    ensures |errors| <= |accounts|
  {
    if accounts == [] then []
    else
      var front := accounts[..|accounts| - 1];
      var last := accounts[|accounts| - 1];
      assert forall i :: 0 <= i < |front| ==> front[i] == accounts[i];
      RemovalErrors(front, desired)
      + (if last.currency !in desired && last.balance != 0.0 then [CannotDelete(last.currency)] else [])
  }

  /** removeAll of the unwanted accounts: those in a desired currency stay,
      in order. */
  function Kept(accounts: seq<Account>, desired: set<Currency>): (r: seq<Account>)
    ensures forall a :: a in r <==> a in accounts && a.currency in desired
    ensures AccountsKeyed(accounts) ==> AccountsKeyed(r)
  {
    if accounts == [] then []
    else
      var front := accounts[..|accounts| - 1];
      var last := accounts[|accounts| - 1];
      assert accounts == front + [last];
      var r := Kept(front, desired);
      if last.currency in desired then
        assert AccountsKeyed(accounts) ==> forall a :: a in r ==> a.currency != last.currency by {
          if AccountsKeyed(accounts) {
            forall a | a in r ensures a.currency != last.currency {
              var i :| 0 <= i < |front| && front[i] == a;
              assert accounts[i] == a;
            }
          }
        }
        r + [last]
      else r
  }

  function CurrencySet(accounts: seq<Account>): set<Currency> {
    set a | a in accounts :: a.currency
  }

  /** The loop over the desired currencies: each one the customer does not
      hold yet is added with a zero balance. */
  function WithAdded(accounts: seq<Account>, existing: set<Currency>, ds: seq<Currency>): (r: seq<Account>)
    ensures forall a :: a in r <==> (a in accounts
                                     || exists i :: 0 <= i < |ds| && ds[i] !in existing && a == Account(ds[i], 0.0))
  {
    if ds == [] then accounts
    else
      var front := ds[..|ds| - 1];
      var last := ds[|ds| - 1];
      assert forall i :: 0 <= i < |front| ==> front[i] == ds[i];
      var r := WithAdded(accounts, existing, front);
      if last !in existing then r + [Account(last, 0.0)] else r
  }

  /** The accounts an accepted edit leaves: the kept ones, then the added
      ones. */
  function EditedAccounts(accounts: seq<Account>, ds: seq<Currency>): seq<Account> {
    var kept := Kept(accounts, ToSet(ds));
    WithAdded(kept, CurrencySet(kept), ds)
  }

  /** editUserProfile. The customer must exist; then the name and age
      checks; then the currencies, whose conversion may raise; then the
      duplicate check; then one error per account to drop that holds
      money. Only an accepted edit is saved, with the new name, birth date
      and accounts. */
  function EditProfileSpec(customers: seq<Customer>, login: string, req: EditUserAccountsRequest,
                           today: Date): Edit<seq<string>>
    requires Valid(today)
  {
    var k := IndexOfLogin(customers, login);
    if k < 0 then Edit(Raised(CustomerNotFound), customers)
    else
      var errors := ProfileErrors(req, today);
      if errors != [] then Edit(Returned(errors), customers)
      else
        match ValuesOf(if req.accounts.None? then [] else req.accounts.value)
        case Thrown(m) => Edit(Raised(m), customers)
        case Value(ds) =>
          if |ToSet(ds)| != |ds| then Edit(Returned([DuplicateCurrencies]), customers)
          else
            var c := customers[k];
            var blocked := RemovalErrors(c.accounts, ToSet(ds));
            if blocked != [] then Edit(Returned(blocked), customers)
            else
              Edit(Returned([]), customers[k := c.(name := req.name.value, birthdate := req.birthdate.value,
                                                    accounts := EditedAccounts(c.accounts, ds))])
  }

  // --------------------------------------------------------- password edit

  datatype EditPasswordRequest = EditPasswordRequest(password: Option<string>, confirmPassword: Option<string>)

  /** editPassword's checks: a password that is null or empty, and a
      confirmation that differs (two nulls count as equal). */
  function NewPasswordErrors(req: EditPasswordRequest): (errors: seq<string>)
    ensures errors == [] <==> req.password.Some? && req.password.value != [] && req.confirmPassword == req.password
    ensures |errors| <= 2
  {
    (if req.password.None? || req.password.value == [] then [PasswordEmpty] else [])
    + (if req.password != req.confirmPassword then [PasswordsDiffer] else [])
  }

  /** editPassword: the checks first, then the lookup, then the new hash. */
  function EditPasswordSpec(customers: seq<Customer>, login: string, req: EditPasswordRequest,
                            hash: string): Edit<seq<string>>
  {
    var errors := NewPasswordErrors(req);
    if errors != [] then Edit(Returned(errors), customers)
    else
      var k := IndexOfLogin(customers, login);
      if k < 0 then Edit(Raised(CustomerNotFound), customers)
      else Edit(Returned([]), customers[k := customers[k].(passwordHash := Some(hash))])
  }

  // -------------------------------------------------------- balance update

  /** The first account whose constant's code equals `code`, or -1. */
  function FirstAccountWithCode(accounts: seq<Account>, code: string): (k: int)
    ensures -1 <= k < |accounts|
    ensures k == -1 <==> forall i :: 0 <= i < |accounts| ==> Code(accounts[i].currency) != code
    ensures k >= 0 ==> Code(accounts[k].currency) == code
                       && forall i :: 0 <= i < k ==> Code(accounts[i].currency) != code
  {
    if accounts == [] then -1
    else if Code(accounts[0].currency) == code then 0
    else
      var k := FirstAccountWithCode(accounts[1..], code);
      assert forall i :: 1 <= i < |accounts| ==> accounts[i] == accounts[1..][i - 1];
      if k < 0 then -1 else k + 1
  }

  /** updateAccountBalance: overwrite the balance of the customer's first
      account with that code; a missing customer or account raises. */
  function UpdateBalanceSpec(customers: seq<Customer>, login: string, code: string, v: real): Edit<()> {
    var k := IndexOfLogin(customers, login);
    if k < 0 then Edit(Raised("Customer not found: " + login), customers)
    else
      var c := customers[k];
      var j := FirstAccountWithCode(c.accounts, code);
      if j < 0 then Edit(Raised("Account with currency " + code + " not found for user " + login), customers)
      else Edit(Returned(()), customers[k := c.(accounts := c.accounts[j := c.accounts[j].(balance := v)])])
  }

  // --------------------------------------------------------------- service

  class CustomerService {
    const repo: CustomerRepository
    const kafka: Outbox
    const fraud: FraudGate

    constructor (repo: CustomerRepository, kafka: Outbox, fraud: FraudGate)
      ensures this.repo == repo && this.kafka == kafka && this.fraud == fraud
    {
      this.repo := repo;
      this.kafka := kafka;
      this.fraud := fraud;
    }

    /** validateRegistrationRequest, appending one message per failed check. */
    method ValidateRegistrationRequest(req: RegistrationRequest, today: Date) returns (errors: seq<string>)
      requires Valid(today)
      ensures errors == RegistrationErrors(req, today, repo.customers)
    {
      errors := [];
      if req.login.None? || IsBlank(req.login.value) {
        errors := errors + [LoginEmpty];
      }
      if req.name.None? || IsBlank(req.name.value) {
        errors := errors + [NameRequired];
      }
      assert errors == (if !Present(req.login) then [LoginEmpty] else [])
                        + (if !Present(req.name) then [NameRequired] else []);
      if req.email.None? || req.email.value == [] || !ValidateEmail(req.email) {
        errors := errors + [InvalidEmail];
      }
      if !Over18(req.birthdate, today) {
        errors := errors + [TooYoung];
      }
      assert errors == FieldErrors(req, today);
      if req.password.Some? || req.confirmPassword.Some? {
        if req.password.None? || req.confirmPassword.None? {
          errors := errors + [PasswordEmpty];
        } else if req.password.value != req.confirmPassword.value {
          errors := errors + [PasswordsDiffer];
        }
      }
      assert errors == FieldErrors(req, today) + PasswordErrors(req.password, req.confirmPassword);
      var taken := [];
      if LoginTaken(repo.customers, req.login) {
        taken := taken + [LoginExists];
      }
      if EmailTaken(repo.customers, req.email) {
        taken := taken + [EmailExists];
      }
      assert taken == TakenErrors(req, repo.customers);
      errors := errors + taken;
    }

    method RegisterCustomer(req: RegistrationRequest, today: Date, hash: string, mailFailure: Option<string>)
      returns (r: RegistrationResponse)
      requires Valid(today)
      modifies repo, kafka`sent
      ensures var e := RegisterSpec(old(repo.customers), old(repo.nextId), fraud, mailFailure, req, today, hash);
              r == e.response && repo.customers == e.customers && repo.nextId == e.nextId
              && kafka.sent == old(kafka.sent) + e.sent
    {
      var errors := ValidateRegistrationRequest(req, today);
      if errors != [] {
        return RegistrationResponse(false, errors);
      }
      var customer := NewCustomer(0, req, hash);
      var id := repo.SaveAndFlush(customer);
      customer := customer.(id := id);
      var verdict := IsFraudster(fraud, id);
      if verdict.Thrown? {
        return RegistrationResponse(false, [FraudUnavailable]);
      }
      if verdict.value {
        repo.Delete(id);
        return RegistrationResponse(false, [FraudBlocked]);
      }
      var published := kafka.Send(WelcomeFor(customer), mailFailure);
      if published.Thrown? {
        return RegistrationResponse(false, [FraudUnavailable]);
      }
      r := RegistrationResponse(true, []);
    }

    /** editUserProfile, with the source's two loops: the errors for
        accounts that cannot go, and the accounts to add. */
    method EditUserProfile(login: string, req: EditUserAccountsRequest, today: Date) returns (r: Outcome<seq<string>>)
      requires Valid(today)
      modifies repo`customers
      ensures var e := EditProfileSpec(old(repo.customers), login, req, today);
              r == e.outcome && repo.customers == e.customers
    {
      var k := IndexOfLogin(repo.customers, login);
      if k < 0 {
        return Raised(CustomerNotFound);
      }
      var customer := repo.customers[k];
      var errors := [];
      if req.name.None? || IsBlank(req.name.value) {
        errors := errors + [NameRequired];
      }
      if !Over18(req.birthdate, today) {
        errors := errors + [TooYoung];
      }
      assert errors == ProfileErrors(req, today);
      if errors != [] {
        return Returned(errors);
      }
      customer := customer.(name := req.name.value, birthdate := req.birthdate.value);

      var converted := ValuesOf(if req.accounts.None? then [] else req.accounts.value);
      if converted.Thrown? {
        return Raised(converted.message);
      }
      var ds := converted.value;
      var desired := ToSet(ds);
      if |desired| != |ds| {
        return Returned([DuplicateCurrencies]);
      }

      errors := CheckRemovals(customer.accounts, desired);
      if errors != [] {
        return Returned(errors);
      }
      var kept := Kept(customer.accounts, desired);
      var accounts := AddMissing(kept, ds);
      repo.Save(k, customer.(accounts := accounts));
      r := Returned([]);
    }

    /** The loop over the accounts to remove: one error for each that holds
        money. */
    static method CheckRemovals(accounts: seq<Account>, desired: set<Currency>) returns (errors: seq<string>)
      ensures errors == RemovalErrors(accounts, desired)
    {
      errors := [];
      var i := 0;
      while i < |accounts|
        invariant 0 <= i <= |accounts|
        invariant errors == RemovalErrors(accounts[..i], desired)
      {
        assert accounts[..i + 1][..i] == accounts[..i];
        if accounts[i].currency !in desired && accounts[i].balance != 0.0 {
          errors := errors + [CannotDelete(accounts[i].currency)];
        }
        i := i + 1;
      }
      assert accounts[..i] == accounts;
    }

    /** The loop over the desired currencies: each one not among the kept
        accounts' currencies is added at zero. */
    static method AddMissing(kept: seq<Account>, ds: seq<Currency>) returns (accounts: seq<Account>)
      ensures accounts == WithAdded(kept, CurrencySet(kept), ds)
    {
      var existing := CurrencySet(kept);
      accounts := kept;
      var j := 0;
      while j < |ds|
        invariant 0 <= j <= |ds|
        invariant accounts == WithAdded(kept, existing, ds[..j])
      {
        assert ds[..j + 1][..j] == ds[..j];
        if ds[j] !in existing {
          accounts := accounts + [Account(ds[j], 0.0)];
        }
        j := j + 1;
      }
      assert ds[..j] == ds;
    }

    /** editPassword; `hash` is BCrypt's result for the new password. */
    method EditPassword(login: string, req: EditPasswordRequest, hash: string) returns (r: Outcome<seq<string>>)
      modifies repo`customers
      ensures var e := EditPasswordSpec(old(repo.customers), login, req, hash);
              r == e.outcome && repo.customers == e.customers
    {
      var errors := [];
      if req.password.None? || req.password.value == [] {
        errors := errors + [PasswordEmpty];
      }
      if req.password != req.confirmPassword {
        errors := errors + [PasswordsDiffer];
      }
      assert errors == NewPasswordErrors(req);
      if errors != [] {
        return Returned(errors);
      }
      var k := IndexOfLogin(repo.customers, login);
      if k < 0 {
        return Raised(CustomerNotFound);
      }
      repo.Save(k, repo.customers[k].(passwordHash := Some(hash)));
      r := Returned([]);
    }

    method UpdateAccountBalance(login: string, code: string, v: real) returns (r: Outcome<()>)
      modifies repo`customers
      ensures var e := UpdateBalanceSpec(old(repo.customers), login, code, v);
              r == e.outcome && repo.customers == e.customers
    {
      var k := IndexOfLogin(repo.customers, login);
      if k < 0 {
        return Raised("Customer not found: " + login);
      }
      var customer := repo.customers[k];
      var j := FirstAccountWithCode(customer.accounts, code);
      if j < 0 {
        return Raised("Account with currency " + code + " not found for user " + login);
      }
      var accounts := customer.accounts[j := customer.accounts[j].(balance := v)];
      repo.Save(k, customer.(accounts := accounts));
      r := Returned(());
    }
  }
}
