/** What the customer service guarantees: registration touches the table
    only when it accepts, the table's constraints survive every operation,
    an accepted edit leaves exactly the requested currencies, and the
    balance overwrite agrees with the directory the other services see. */
module CustomerProperties {
  import opened Wrappers
  import opened Currencies
  import opened Dates
  import opened CustomerDtos
  import opened Collaborators
  import opened Customers
  import opened CustomerServices

  // ----------------------------------------------------------- registration

  /** A rejected registration answers with its errors and changes nothing:
      no row, no id, no notification. */
  lemma RejectedRegistrationTouchesNothing(customers: seq<Customer>, nextId: int, fraud: FraudGate,
                                           mailFailure: Option<string>, req: RegistrationRequest, today: Date,
                                           hash: string)
    requires Valid(today)
    requires !Registrable(req, today, customers)
    ensures var e := RegisterSpec(customers, nextId, fraud, mailFailure, req, today, hash);
            !e.response.success && e.response.errors == RegistrationErrors(req, today, customers)
            && e.response.errors != []
            && e.customers == customers && e.nextId == nextId && e.sent == []
  {
  }

  /** Registration succeeds exactly when the request passes every check, the
      fraud gate answers and clears the new id, and the welcome goes out. */
  lemma RegistrationSucceedsExactly(customers: seq<Customer>, nextId: int, fraud: FraudGate,
                                    mailFailure: Option<string>, req: RegistrationRequest, today: Date, hash: string)
    requires Valid(today)
    ensures RegisterSpec(customers, nextId, fraud, mailFailure, req, today, hash).response.success
            <==> Registrable(req, today, customers) && IsFraudster(fraud, nextId) == Value(false) && mailFailure.None?
  {
  }

  /** A successful registration adds one customer at the end, under the
      next id, with the request's login, name and e-mail, a hash exactly
      when a password came, one zero account per currency, and welcomes
      that customer. */
  lemma SuccessfulRegistrationAddsCustomer(customers: seq<Customer>, nextId: int, fraud: FraudGate,
                                           mailFailure: Option<string>, req: RegistrationRequest, today: Date,
                                           hash: string)
    requires Valid(today)
    requires RegisterSpec(customers, nextId, fraud, mailFailure, req, today, hash).response.success
    ensures var e := RegisterSpec(customers, nextId, fraud, mailFailure, req, today, hash);
            |e.customers| == |customers| + 1 && e.customers[..|customers|] == customers
            && e.nextId == nextId + 1
            && var c := e.customers[|customers|];
               c.id == nextId && Some(c.login) == req.login && Some(c.name) == req.name
               && Some(c.email) == req.email && Some(c.birthdate) == req.birthdate
               && (c.passwordHash.Some? <==> req.password.Some?)
               && (forall cur: Currency :: FirstAccount(c.accounts, cur) >= 0)
               && (forall i :: 0 <= i < |c.accounts| ==> c.accounts[i].balance == 0.0)
               && e.sent == [Notification(nextId, c.email, Welcome(c.name))]
  {
    var e := RegisterSpec(customers, nextId, fraud, mailFailure, req, today, hash);
    assert (customers + [NewCustomer(nextId, req, hash)])[..|customers|] == customers;
  }

  /** A customer the fraud gate flags leaves no trace in a valid table: the
      saved row is deleted again and nothing is published; only the id
      sequence has moved on. */
  lemma FraudsterLeavesNoTrace(customers: seq<Customer>, nextId: int, fraud: FraudGate,
                               mailFailure: Option<string>, req: RegistrationRequest, today: Date, hash: string)
    requires Valid(today) && StoreValid(customers, nextId)
    requires Registrable(req, today, customers) && IsFraudster(fraud, nextId) == Value(true)
    ensures var e := RegisterSpec(customers, nextId, fraud, mailFailure, req, today, hash);
            e.response == RegistrationResponse(false, [FraudBlocked])
            && e.customers == customers && e.sent == [] && e.nextId == nextId + 1
  {
    WithoutNewId(customers, NewCustomer(nextId, req, hash));
  }

  /** When the fraud gate is down the fallback answers, but the customer
      saved before the check stays in the table. */
  lemma FraudOutageKeepsCustomer(customers: seq<Customer>, nextId: int, m: string,
                                 mailFailure: Option<string>, req: RegistrationRequest, today: Date, hash: string)
    requires Valid(today)
    requires Registrable(req, today, customers)
    ensures var e := RegisterSpec(customers, nextId, FraudGate(Some(m), {}), mailFailure, req, today, hash);
            e.response == RegistrationResponse(false, [FraudUnavailable])
            && |e.customers| == |customers| + 1 && Some(e.customers[|customers|].login) == req.login
            && e.sent == []
  {
  }

  /** Registration keeps the table's constraints. */
  lemma RegistrationKeepsStoreValid(customers: seq<Customer>, nextId: int, fraud: FraudGate,
                                    mailFailure: Option<string>, req: RegistrationRequest, today: Date, hash: string)
    requires Valid(today) && StoreValid(customers, nextId)
    ensures var e := RegisterSpec(customers, nextId, fraud, mailFailure, req, today, hash);
            StoreValid(e.customers, e.nextId)
  {
    if Registrable(req, today, customers) {
      var c := NewCustomer(nextId, req, hash);
      assert forall i :: 0 <= i < |customers| ==> customers[i].login != c.login && customers[i].email != c.email;
      AppendKeepsStoreValid(customers, nextId, c);
      if IsFraudster(fraud, nextId) == Value(true) {
        WithoutNewId(customers, c);
      }
    }
  }

  /** Appending a customer with the next id, a login and an e-mail no
      stored customer has, and keyed accounts keeps the table valid. */
  lemma AppendKeepsStoreValid(customers: seq<Customer>, nextId: int, c: Customer)
    requires StoreValid(customers, nextId) && c.id == nextId && AccountsKeyed(c.accounts)
    requires forall i :: 0 <= i < |customers| ==> customers[i].login != c.login && customers[i].email != c.email
    ensures StoreValid(customers + [c], nextId + 1)
  {
    var saved := customers + [c];
    assert forall i :: 0 <= i < |customers| ==> saved[i] == customers[i];
  }

  // ----------------------------------------------------------- profile edit

  /** Every edit that does not succeed leaves the table as it was. */
  lemma FailedEditKeepsTable(customers: seq<Customer>, login: string, req: EditUserAccountsRequest, today: Date)
    requires Valid(today)
    ensures var e := EditProfileSpec(customers, login, req, today);
            e.outcome != Returned([]) ==> e.customers == customers
  {
  }

  /** An account in a currency that is no longer requested, with money on
      it, blocks the edit: its error is reported and nothing changes. */
  lemma MoneyBlocksRemoval(customers: seq<Customer>, login: string, req: EditUserAccountsRequest, today: Date,
                           j: int)
    requires Valid(today)
    requires Present(req.name) && Over18(req.birthdate, today)
    requires var names := if req.accounts.None? then [] else req.accounts.value;
             ValuesOf(names).Value? && Distinct(ValuesOf(names).value)
    requires var k := IndexOfLogin(customers, login);
             var names := if req.accounts.None? then [] else req.accounts.value;
             k >= 0 && 0 <= j < |customers[k].accounts|
             && customers[k].accounts[j].currency !in ToSet(ValuesOf(names).value)
             && customers[k].accounts[j].balance != 0.0
    ensures var e := EditProfileSpec(customers, login, req, today);
            e.outcome.Returned? && e.outcome.value != [] && e.customers == customers
  {
    var names := if req.accounts.None? then [] else req.accounts.value;
    SetSizeIsLength(ValuesOf(names).value);
  }

  /** The membership facts of an accepted edit's accounts. */
  lemma EditedMembers(before: seq<Account>, ds: seq<Currency>)
    ensures var kept := Kept(before, ToSet(ds));
            var after := EditedAccounts(before, ds);
            (forall a :: a in after <==> (a in kept || exists i :: 0 <= i < |ds| && ds[i] !in CurrencySet(kept)
                                                                   && a == Account(ds[i], 0.0)))
            && (forall a :: a in kept <==> a in before && a.currency in ToSet(ds))
  {
  }

  /** The accounts an accepted edit leaves hold exactly the requested
      currencies; every kept account keeps its balance; every new account
      is at zero in a currency the customer did not hold. */
  lemma EditedAccountsAreRequested(before: seq<Account>, ds: seq<Currency>)
    ensures var after := EditedAccounts(before, ds);
            CurrencySet(after) == ToSet(ds)
            && (forall a :: a in before && a.currency in ToSet(ds) ==> a in after)
            && (forall a :: a in after && a !in before ==> a.balance == 0.0 && a.currency !in CurrencySet(before))
  {
    var kept := Kept(before, ToSet(ds));
    var after := EditedAccounts(before, ds);
    EditedMembers(before, ds);
    forall cur | cur in ToSet(ds) ensures cur in CurrencySet(after) {
      var i :| 0 <= i < |ds| && ds[i] == cur;
      if cur in CurrencySet(kept) {
        var a :| a in kept && a.currency == cur;
        assert a in after;
      } else {
        assert Account(cur, 0.0) in after;
      }
    }
    forall a | a in after && a !in before ensures a.balance == 0.0 && a.currency !in CurrencySet(before) {
      var i :| 0 <= i < |ds| && ds[i] !in CurrencySet(kept) && a == Account(ds[i], 0.0);
    }
  }

  /** Adding distinct currencies that are new keeps the accounts keyed. */
  lemma {:induction false} WithAddedKeyed(accounts: seq<Account>, existing: set<Currency>, ds: seq<Currency>)
    requires AccountsKeyed(accounts) && CurrencySet(accounts) <= existing && Distinct(ds)
    ensures AccountsKeyed(WithAdded(accounts, existing, ds))
    decreases |ds|
  {
    if ds != [] {
      var front := ds[..|ds| - 1];
      var last := ds[|ds| - 1];
      assert Distinct(front) by {
        forall i, j | 0 <= i < j < |front| ensures front[i] != front[j] {
          assert front[i] == ds[i] && front[j] == ds[j];
        }
      }
      WithAddedKeyed(accounts, existing, front);
      var r := WithAdded(accounts, existing, front);
      if last !in existing {
        forall a | a in r ensures a.currency != last {
          if a !in accounts {
            var i :| 0 <= i < |front| && front[i] !in existing && a == Account(front[i], 0.0);
            assert ds[i] == front[i];
          } else {
            assert a.currency in CurrencySet(accounts);
          }
        }
        assert forall i :: 0 <= i < |r| ==> r[i] in r;
      }
    }
  }

  /** An accepted edit keeps the table's constraints, and changes only the
      edited customer. */
  lemma EditKeepsStoreValid(customers: seq<Customer>, nextId: int, login: string, req: EditUserAccountsRequest,
                            today: Date)
    requires Valid(today) && StoreValid(customers, nextId)
    ensures var e := EditProfileSpec(customers, login, req, today);
            StoreValid(e.customers, nextId) && |e.customers| == |customers|
            && forall i :: 0 <= i < |customers| && customers[i].login != login ==> e.customers[i] == customers[i]
  {
    var e := EditProfileSpec(customers, login, req, today);
    if e.outcome == Returned([]) {
      var k := IndexOfLogin(customers, login);
      var c := customers[k];
      var ds := ValuesOf(if req.accounts.None? then [] else req.accounts.value).value;
      EditedAccountsKeyed(c.accounts, ds);
      ReplaceKeepsStoreValid(customers, nextId, k, c.(name := req.name.value, birthdate := req.birthdate.value,
                                                      accounts := EditedAccounts(c.accounts, ds)));
    }
  }

  /** Requested currencies without repeats give keyed accounts. */
  lemma EditedAccountsKeyed(before: seq<Account>, ds: seq<Currency>)
    requires AccountsKeyed(before) && |ToSet(ds)| == |ds|
    ensures AccountsKeyed(EditedAccounts(before, ds))
  {
    SetSizeIsLength(ds);
    var kept := Kept(before, ToSet(ds));
    WithAddedKeyed(kept, CurrencySet(kept), ds);
  }

  /** An accepted edit: the customer found by login gets the requested
      name, birth date and currency set; what it had in the kept
      currencies is untouched; what it gains starts at zero. */
  lemma AcceptedEditSetsAccounts(customers: seq<Customer>, login: string, req: EditUserAccountsRequest, today: Date)
    requires Valid(today)
    requires EditProfileSpec(customers, login, req, today).outcome == Returned([])
    ensures var e := EditProfileSpec(customers, login, req, today);
            var k := IndexOfLogin(customers, login);
            var names := if req.accounts.None? then [] else req.accounts.value;
            k >= 0 && ValuesOf(names).Value?
            && var ds := ValuesOf(names).value;
               var before := customers[k].accounts;
               var after := e.customers[k].accounts;
               Some(e.customers[k].name) == req.name && Some(e.customers[k].birthdate) == req.birthdate
               && CurrencySet(after) == ToSet(ds)
               && (forall a :: a in before && a.currency in ToSet(ds) ==> a in after)
               && (forall a :: a in before && a.currency !in ToSet(ds) ==> a.balance == 0.0)
               && (forall a :: a in after && a !in before ==> a.balance == 0.0 && a.currency !in CurrencySet(before))
  {
    var k := IndexOfLogin(customers, login);
    var names := if req.accounts.None? then [] else req.accounts.value;
    var ds := ValuesOf(names).value;
    EditedAccountsAreRequested(customers[k].accounts, ds);
    forall a | a in customers[k].accounts && a.currency !in ToSet(ds) ensures a.balance == 0.0 {
      var i :| 0 <= i < |customers[k].accounts| && customers[k].accounts[i] == a;
    }
  }

  // --------------------------------------------------------------- password

  /** The two password rules differ on a form without passwords:
      registration lets it through (the single-sign-on path), the password
      change reports it once. */
  lemma PasswordRulesDiffer()
    ensures PasswordErrors(None, None) == []
    ensures NewPasswordErrors(EditPasswordRequest(None, None)) == [PasswordEmpty]
  {
  }

  /** A password change touches only the hash of the customer found. */
  lemma PasswordChangeTouchesOnlyHash(customers: seq<Customer>, nextId: int, login: string,
                                      req: EditPasswordRequest, hash: string)
    requires StoreValid(customers, nextId)
    ensures var e := EditPasswordSpec(customers, login, req, hash);
            StoreValid(e.customers, nextId) && |e.customers| == |customers|
            && (forall i :: 0 <= i < |customers| ==>
                  e.customers[i].(passwordHash := customers[i].passwordHash) == customers[i])
            && (e.outcome == Returned([]) <==> NewPasswordErrors(req) == [] && IndexOfLogin(customers, login) >= 0)
            && (e.outcome == Returned([]) ==> e.customers[IndexOfLogin(customers, login)].passwordHash == Some(hash))
  {
  }

  // -------------------------------------------------------- balance update

  /** The logins in the table. */
  function Logins(customers: seq<Customer>): set<string> {
    set i | 0 <= i < |customers| :: customers[i].login
  }

  /** The directory the transfer and cash services read through
      getCustomerByLogin: each stored customer's record under its login. */
  function Directory(customers: seq<Customer>): (d: Records)
    ensures d.Keys == Logins(customers)
    ensures Keyed(d)
  {
    map l | l in Logins(customers) :: Some(ToDto(customers[IndexOfLogin(customers, l)]))
  }

  /** The directory's lookup is getCustomerByLogin: same record, same
      exception text. */
  lemma LookupIsGetCustomerByLogin(customers: seq<Customer>, login: string)
    ensures Lookup(Directory(customers), None, login)
            == match GetCustomerByLogin(customers, login)
               case Value(d) => Value(Some(d))
               case Thrown(m) => Thrown(m)
  {
    var k := IndexOfLogin(customers, login);
    if k >= 0 {
      assert login in Logins(customers);
    }
  }

  /** The account updateAccountBalance picks is the one the directory's
      model of it picks. */
  lemma SameAccountPicked(c: Customer, code: string)
    ensures FirstIndexOfCode(ToDto(c).accounts, code) == FirstAccountWithCode(c.accounts, code)
  {
    var d := ToDto(c).accounts;
    FirstIndexOfCodeIsFirstMatch(d, code);
  }

  /** updateAccountBalance does to the table what the directory's model of
      it (used by the transfer and cash services) does to their view: the
      same error with the same text, or the same new records. */
  lemma UpdateAgreesWithDirectory(customers: seq<Customer>, nextId: int, login: string, code: string, v: real)
    requires StoreValid(customers, nextId)
    ensures var e := UpdateBalanceSpec(customers, login, code, v);
            var u := Updated(Directory(customers), None, login, code, v);
            (e.outcome.Raised? <==> u.Thrown?)
            && (u.Thrown? ==> e.outcome.message == u.message)
            && (u.Value? ==> u.value == Directory(e.customers))
  {
    var k := IndexOfLogin(customers, login);
    var d0 := Directory(customers);
    if k < 0 {
      assert login !in d0;
      UpdatedUnknown(d0, login, code, v);
    } else {
      var c := customers[k];
      DirectoryEntry(customers, nextId, k);
      SameAccountPicked(c, code);
      if FirstAccountWithCode(c.accounts, code) >= 0 {
        UpdatedIsReplacement(customers, nextId, login, code, v);
      } else {
        UpdatedNoAccount(d0, login, code, v, ToDto(c));
      }
    }
  }

  /** The directory has no record under `login`: customer not found. */
  lemma UpdatedUnknown(records: Records, login: string, code: string, v: real)
    requires login !in records
    ensures Updated(records, None, login, code, v) == Thrown("Customer not found: " + login)
  {
  }

  /** The record has no account with the code: account not found. */
  lemma UpdatedNoAccount(records: Records, login: string, code: string, v: real, dto: CustomerDto)
    requires login in records && records[login] == Some(dto) && FirstIndexOfCode(dto.accounts, code) < 0
    ensures Updated(records, None, login, code, v)
            == Thrown("Account with currency " + code + " not found for user " + login)
  {
  }

  /** When the customer and the account exist, both sides overwrite the
      same balance of the same record. */
  lemma UpdatedIsReplacement(customers: seq<Customer>, nextId: int, login: string, code: string, v: real)
    requires StoreValid(customers, nextId)
    requires IndexOfLogin(customers, login) >= 0
    requires FirstAccountWithCode(customers[IndexOfLogin(customers, login)].accounts, code) >= 0
    ensures Updated(Directory(customers), None, login, code, v)
            == Value(Directory(UpdateBalanceSpec(customers, login, code, v).customers))
  {
    var k := IndexOfLogin(customers, login);
    var c := customers[k];
    var j := FirstAccountWithCode(c.accounts, code);
    var c2 := c.(accounts := c.accounts[j := c.accounts[j].(balance := v)]);
    assert UpdateBalanceSpec(customers, login, code, v).customers == customers[k := c2];
    var d0, dto := Directory(customers), ToDto(c);
    DirectoryEntry(customers, nextId, k);
    SameAccountPicked(c, code);
    UpdatedOneRecord(d0, login, code, v, dto, j);
    OverwrittenDirectory(customers, nextId, k, j, v);
  }

  /** Overwriting one balance of a stored customer overwrites the same
      balance in that customer's directory record, and nothing else. */
  lemma OverwrittenDirectory(customers: seq<Customer>, nextId: int, k: int, j: int, v: real)
    requires StoreValid(customers, nextId) && 0 <= k < |customers| && 0 <= j < |customers[k].accounts|
    ensures var c := customers[k];
            var dto := ToDto(c);
            Directory(customers[k := c.(accounts := c.accounts[j := c.accounts[j].(balance := v)])])
            == Directory(customers)[c.login := Some(dto.(accounts := dto.accounts[j := dto.accounts[j].(balance := v)]))]
  {
    var c := customers[k];
    var c2 := c.(accounts := c.accounts[j := c.accounts[j].(balance := v)]);
    assert forall x :: 0 <= x < |c.accounts| ==> c2.accounts[x].currency == c.accounts[x].currency;
    ToDtoSetBalance(c, j, v);
    ReplacedDirectory(customers, nextId, k, c2);
  }

  /** The directory's update of a record it holds, whose account with the
      code sits at `j`: that record, with that balance overwritten. */
  lemma UpdatedOneRecord(records: Records, login: string, code: string, v: real, dto: CustomerDto, j: int)
    requires login in records && records[login] == Some(dto)
    requires 0 <= j && FirstIndexOfCode(dto.accounts, code) == j
    ensures Updated(records, None, login, code, v)
            == Value(records[login := Some(dto.(accounts := dto.accounts[j := dto.accounts[j].(balance := v)]))])
  {
  }

  /** Overwriting one balance and then projecting is projecting and then
      overwriting the same row's balance. */
  lemma ToDtoSetBalance(c: Customer, j: int, v: real)
    requires 0 <= j < |c.accounts|
    ensures var d := ToDto(c);
            ToDto(c.(accounts := c.accounts[j := c.accounts[j].(balance := v)]))
            == d.(accounts := d.accounts[j := d.accounts[j].(balance := v)])
  {
    var d := ToDto(c);
    var c2 := c.(accounts := c.accounts[j := c.accounts[j].(balance := v)]);
    assert ToDto(c2).accounts == d.accounts[j := d.accounts[j].(balance := v)];
  }

  /** Replacing a customer by one with the same login, id and e-mail
      replaces that login's record in the directory and nothing else. */
  lemma ReplacedDirectory(customers: seq<Customer>, nextId: int, k: int, c2: Customer)
    requires StoreValid(customers, nextId) && 0 <= k < |customers|
    requires c2.login == customers[k].login && c2.id == customers[k].id && c2.email == customers[k].email
    requires AccountsKeyed(c2.accounts)
    ensures Directory(customers[k := c2]) == Directory(customers)[c2.login := Some(ToDto(c2))]
  {
    var d0, d1, v := Directory(customers), Directory(customers[k := c2]), Some(ToDto(c2));
    ReplacedKeys(customers, k, c2);
    ReplacedEntries(customers, nextId, k, c2);
    assert UpdatedAt(d0, d1, c2.login, v);
    ReplacedMap(d0, d1, c2.login, v);
  }

  /** `d1` has the keys of `d0` and differs from it at most under `key`,
      where it holds `v`. */
  ghost predicate UpdatedAt<K, V>(d0: map<K, V>, d1: map<K, V>, key: K, v: V) {
    d1.Keys == d0.Keys && key in d0 && d1[key] == v
    && forall l :: l in d1 && l != key ==> d1[l] == d0[l]
  }

  /** The replacement keeps the directory's logins. */
  lemma ReplacedKeys(customers: seq<Customer>, k: int, c2: Customer)
    requires 0 <= k < |customers| && c2.login == customers[k].login
    ensures Directory(customers[k := c2]).Keys == Directory(customers).Keys
    ensures c2.login in Directory(customers)
  {
    SameLogins(customers, k, c2);
    assert customers[k].login in Logins(customers);
  }

  /** The replaced login's record is the new customer's; every other
      login's record is unchanged. */
  lemma ReplacedEntries(customers: seq<Customer>, nextId: int, k: int, c2: Customer)
    requires StoreValid(customers, nextId) && 0 <= k < |customers|
    requires c2.login == customers[k].login && c2.id == customers[k].id && c2.email == customers[k].email
    requires AccountsKeyed(c2.accounts)
    ensures c2.login in Directory(customers[k := c2])
    ensures Directory(customers[k := c2])[c2.login] == Some(ToDto(c2))
    ensures forall l :: l in Directory(customers[k := c2]) && l != c2.login ==>
              l in Directory(customers) && Directory(customers[k := c2])[l] == Directory(customers)[l]
  {
    SameLogins(customers, k, c2);
    ReplacedEntry(customers, nextId, k, c2, c2.login);
    forall l | l in Directory(customers[k := c2]) && l != c2.login
      ensures l in Directory(customers) && Directory(customers[k := c2])[l] == Directory(customers)[l]
    {
      ReplacedEntry(customers, nextId, k, c2, l);
    }
  }

  /** A map with the same keys as `d0` that differs from it only under
      `key` is `d0` updated at `key`. */
  lemma ReplacedMap<K, V>(d0: map<K, V>, d1: map<K, V>, key: K, v: V)
    requires UpdatedAt(d0, d1, key, v)
    ensures d1 == d0[key := v]
  {
  }

  /** One login's record after the replacement. */
  lemma ReplacedEntry(customers: seq<Customer>, nextId: int, k: int, c2: Customer, l: string)
    requires StoreValid(customers, nextId) && 0 <= k < |customers|
    requires c2.login == customers[k].login && c2.id == customers[k].id && c2.email == customers[k].email
    requires AccountsKeyed(c2.accounts)
    requires l in Logins(customers)
    ensures l in Directory(customers) && l in Directory(customers[k := c2])
    ensures Directory(customers[k := c2])[l]
            == if l == c2.login then Some(ToDto(c2)) else Directory(customers)[l]
  {
    var after := customers[k := c2];
    ReplaceKeepsStoreValid(customers, nextId, k, c2);
    var i :| 0 <= i < |customers| && customers[i].login == l;
    DirectoryEntry(customers, nextId, i);
    DirectoryEntry(after, nextId, i);
    if l == c2.login {
      LoginIdentifies(customers, nextId, l, k);
      assert i == k;
    }
  }

  /** Under the table's constraints, a stored customer's record is found
      under its login. */
  lemma DirectoryEntry(customers: seq<Customer>, nextId: int, i: int)
    requires StoreValid(customers, nextId) && 0 <= i < |customers|
    ensures customers[i].login in Directory(customers)
    ensures Directory(customers)[customers[i].login] == Some(ToDto(customers[i]))
  {
    LoginIdentifies(customers, nextId, customers[i].login, i);
  }

  lemma ReplaceKeepsStoreValid(customers: seq<Customer>, nextId: int, k: int, c2: Customer)
    requires StoreValid(customers, nextId) && 0 <= k < |customers|
    requires c2.login == customers[k].login && c2.id == customers[k].id && c2.email == customers[k].email
    requires AccountsKeyed(c2.accounts)
    ensures StoreValid(customers[k := c2], nextId)
  {
    var after := customers[k := c2];
    assert forall x :: 0 <= x < |after| ==> after[x].login == customers[x].login && after[x].id == customers[x].id
                                            && after[x].email == customers[x].email;
  }

  lemma SameLogins(customers: seq<Customer>, k: int, c2: Customer)
    requires 0 <= k < |customers| && c2.login == customers[k].login
    ensures Logins(customers[k := c2]) == Logins(customers)
  {
    var after := customers[k := c2];
    forall l | l in Logins(customers) ensures l in Logins(after) {
      var i :| 0 <= i < |customers| && customers[i].login == l;
      assert after[i].login == l;
    }
    forall l | l in Logins(after) ensures l in Logins(customers) {
      var i :| 0 <= i < |after| && after[i].login == l;
      assert customers[i].login == l;
    }
  }

  /** The balance overwrite keeps the table's constraints. */
  lemma UpdateKeepsStoreValid(customers: seq<Customer>, nextId: int, login: string, code: string, v: real)
    requires StoreValid(customers, nextId)
    ensures StoreValid(UpdateBalanceSpec(customers, login, code, v).customers, nextId)
  {
    var k := IndexOfLogin(customers, login);
    if k >= 0 {
      var c := customers[k];
      var j := FirstAccountWithCode(c.accounts, code);
      if j >= 0 {
        var c2 := c.(accounts := c.accounts[j := c.accounts[j].(balance := v)]);
        assert forall x :: 0 <= x < |c.accounts| ==> c2.accounts[x].currency == c.accounts[x].currency;
        ReplaceKeepsStoreValid(customers, nextId, k, c2);
      }
    }
  }
}
