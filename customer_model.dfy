/** The customer service's own records and the pure rules it applies to
    them: the registration checks, the e-mail pattern, the default
    accounts, and the projections it answers other services with. */
module Customers {
  import opened Wrappers
  import opened Currencies
  import opened Dates
  import opened JavaText
  import opened CustomerDtos

  /** A stored account: its currency and balance. */
  datatype Account = Account(currency: Currency, balance: real)

  /** A stored customer. `passwordHash` is None for a customer registered
      without a password (the single-sign-on path). */
  datatype Customer = Customer(
    id: int,
    login: string,
    passwordHash: Option<string>,
    name: string,
    email: string,
    birthdate: Date,
    accounts: seq<Account>)

  /** Each currency at most once among a customer's accounts. */
  predicate AccountsKeyed(accounts: seq<Account>) {
    forall i, j :: 0 <= i < j < |accounts| ==> accounts[i].currency != accounts[j].currency
  }

  /** The table's constraints: ids below the next sequence value and
      distinct, logins and e-mails unique. Accounts keyed by currency is not
      a database constraint but an invariant the service operations keep. */
  predicate StoreValid(customers: seq<Customer>, nextId: int) {
    (forall i :: 0 <= i < |customers| ==> customers[i].id < nextId && AccountsKeyed(customers[i].accounts))
    && (forall i, j :: 0 <= i < j < |customers| ==>
          customers[i].id != customers[j].id && customers[i].login != customers[j].login
          && customers[i].email != customers[j].email)
  }

  /** findByLogin: the position of the first customer with that login, or -1. */
  function IndexOfLogin(customers: seq<Customer>, login: string): (k: int)
    ensures -1 <= k < |customers|
    ensures k == -1 <==> forall i :: 0 <= i < |customers| ==> customers[i].login != login
    ensures k >= 0 ==> customers[k].login == login && forall i :: 0 <= i < k ==> customers[i].login != login
  {
    if customers == [] then -1
    else if customers[0].login == login then 0
    else
      var k := IndexOfLogin(customers[1..], login);
      assert forall i :: 1 <= i < |customers| ==> customers[i] == customers[1..][i - 1];
      if k < 0 then -1 else k + 1
  }

  /** In a valid store the customer found by login is the only one with it. */
  lemma LoginIdentifies(customers: seq<Customer>, nextId: int, login: string, i: int)
    requires StoreValid(customers, nextId)
    requires 0 <= i < |customers| && customers[i].login == login
    ensures IndexOfLogin(customers, login) == i
  {
    var k := IndexOfLogin(customers, login);
    assert 0 <= k && customers[k].login == customers[i].login;
  }

  /** existsByLogin / existsByEmail: a null argument matches no row (both
      columns are not null). */
  predicate LoginTaken(customers: seq<Customer>, login: Option<string>) {
    login.Some? && exists i :: 0 <= i < |customers| && customers[i].login == login.value
  }

  predicate EmailTaken(customers: seq<Customer>, email: Option<string>) {
    email.Some? && exists i :: 0 <= i < |customers| && customers[i].email == email.value
  }

  // ---------------------------------------------------------------- e-mail

  /** A run of the pattern's class `[^@\s]`: no '@' and no whitespace. */
  predicate Plain(t: string) {
    forall i :: 0 <= i < |t| ==> t[i] != '@' && !IsRegexSpace(t[i])
  }

  /** The pattern ^[^@\s]+@[^@\s]+\.[^@\s]+$ read as a decomposition of the
      whole string: a local part, '@', a host, '.', a last label, none of
      the three empty. The greedy host may itself hold dots. */
  predicate MatchesEmailPattern(s: string) {
    exists a, d :: 0 < a && a + 1 < d && d + 1 < |s| && s[a] == '@' && s[d] == '.'
                   && Plain(s[..a]) && Plain(s[a + 1..d]) && Plain(s[d + 1..])
  }

  /** The same check through String operations: no whitespace, one '@'
      that is not the first character, and a '.' strictly inside the part
      after it. */
  predicate EmailShape(s: string) {
    var a := IndexOf(s, '@');
    (forall i :: 0 <= i < |s| ==> !IsRegexSpace(s[i]))
    && a > 0 && LastIndexOf(s, '@') == a && a + 2 < |s|
    && '.' in s[a + 2..|s| - 1]
  }

  /** validateEmail: a non-null e-mail matching the pattern. */
  predicate ValidateEmail(email: Option<string>) {
    email.Some? && EmailShape(email.value)
  }

  /** The String-operation check accepts exactly the strings the regular
      expression matches. */
  lemma EmailShapeIsPattern(s: string)
    ensures EmailShape(s) <==> MatchesEmailPattern(s)
  {
    if EmailShape(s) {
      ShapeMatches(s);
    }
    if MatchesEmailPattern(s) {
      MatchesShape(s);
    }
  }

  lemma ShapeMatches(s: string)
    requires EmailShape(s)
    ensures MatchesEmailPattern(s)
  {
    var a := IndexOf(s, '@');
    forall i | 0 <= i < |s| && i != a
      ensures s[i] != '@'
    {
      if i < a {
        assert s[..a][i] == s[i];
      } else {
        assert s[a + 1..][i - a - 1] == s[i];
      }
    }
    var mid := s[a + 2..|s| - 1];
    var k :| 0 <= k < |mid| && mid[k] == '.';
    var d := a + 2 + k;
    PlainRange(s, 0, a);
    PlainRange(s, a + 1, d);
    PlainRange(s, d + 1, |s|);
    assert s[d] == '.';
  }

  lemma MatchesShape(s: string)
    requires MatchesEmailPattern(s)
    ensures EmailShape(s)
  {
    var a, d :| 0 < a && a + 1 < d && d + 1 < |s| && s[a] == '@' && s[d] == '.'
                && Plain(s[..a]) && Plain(s[a + 1..d]) && Plain(s[d + 1..]);
    forall i | 0 <= i < |s| && i != a
      ensures s[i] != '@' && !IsRegexSpace(s[i])
    {
      if i < a {
        assert s[..a][i] == s[i];
      } else if a < i < d {
        assert s[a + 1..d][i - a - 1] == s[i];
      } else if d < i {
        assert s[d + 1..][i - d - 1] == s[i];
      }
    }
    assert s[a + 2..|s| - 1][d - a - 2] == '.';
  }

  /** A stretch of `s` without '@' or whitespace is a run of the class. */
  lemma PlainRange(s: string, lo: int, hi: int)
    requires 0 <= lo <= hi <= |s|
    requires forall i :: lo <= i < hi ==> s[i] != '@' && !IsRegexSpace(s[i])
    ensures Plain(s[lo..hi])
  {
  }

  // ---------------------------------------------------------- registration

  datatype RegistrationRequest = RegistrationRequest(
    login: Option<string>,
    password: Option<string>,
    confirmPassword: Option<string>,
    name: Option<string>,
    email: Option<string>,
    birthdate: Option<Date>)

  datatype RegistrationResponse = RegistrationResponse(success: bool, errors: seq<string>)

  const LoginEmpty := "Login cannot be empty"
  const NameRequired := "First and Last name are required"
  const InvalidEmail := "Invalid e-mail"
  const TooYoung := "You must be at least 18 years old"
  const PasswordEmpty := "Password cannot be empty"
  const PasswordsDiffer := "Passwords do not match"
  const LoginExists := "A user with this login already exists"
  const EmailExists := "A user with this email already exists"

  /** Not null and not blank after trim. */
  predicate Present(s: Option<string>) {
    s.Some? && !IsBlank(s.value)
  }

  /** The registration password rule: checked only when either field is
      given; then both must be given, and equal. */
  function PasswordErrors(password: Option<string>, confirm: Option<string>): (errors: seq<string>)
    ensures errors == [] <==> (password.None? && confirm.None?) || (password.Some? && confirm == password)
    ensures |errors| <= 1
  {
    if password.None? && confirm.None? then []
    else if password.None? || confirm.None? then [PasswordEmpty]
    else if password.value != confirm.value then [PasswordsDiffer]
    else []
  }

  /** Everything registration demands of a request and the store. */
  predicate Registrable(req: RegistrationRequest, today: Date, customers: seq<Customer>)
    requires Valid(today)
  {
    Present(req.login) && Present(req.name) && ValidateEmail(req.email)
    && Over18(req.birthdate, today)
    && ((req.password.None? && req.confirmPassword.None?) || (req.password.Some? && req.confirmPassword == req.password))
    && !LoginTaken(customers, req.login) && !EmailTaken(customers, req.email)
  }

  /** validateRegistrationRequest: every failed check adds its message, in
      the order login, name, e-mail, age, password, taken login, taken
      e-mail. */
  function RegistrationErrors(req: RegistrationRequest, today: Date, customers: seq<Customer>): (errors: seq<string>)
    requires Valid(today)
    ensures errors == [] <==> Registrable(req, today, customers)
    ensures |errors| <= 7
  {
    FieldErrors(req, today) + PasswordErrors(req.password, req.confirmPassword) + TakenErrors(req, customers)
  }

  /** The checks on the form's own fields: login, name, e-mail, age. */
  function FieldErrors(req: RegistrationRequest, today: Date): (errors: seq<string>)
    requires Valid(today)
    ensures errors == [] <==> Present(req.login) && Present(req.name) && ValidateEmail(req.email)
                              && Over18(req.birthdate, today)
    ensures |errors| <= 4
  {
    (if !Present(req.login) then [LoginEmpty] else [])
    + (if !Present(req.name) then [NameRequired] else [])
    + (if req.email.None? || req.email.value == [] || !ValidateEmail(req.email) then [InvalidEmail] else [])
    + (if !Over18(req.birthdate, today) then [TooYoung] else [])
  }

  /** The checks against the stored customers: login, then e-mail. */
  function TakenErrors(req: RegistrationRequest, customers: seq<Customer>): (errors: seq<string>)
    ensures errors == [] <==> !LoginTaken(customers, req.login) && !EmailTaken(customers, req.email)
    ensures |errors| <= 2
  {
    (if LoginTaken(customers, req.login) then [LoginExists] else [])
    + (if EmailTaken(customers, req.email) then [EmailExists] else [])
  }

  /** A form sent empty collects the four field errors, in order, and no
      password or duplicate error. */
  lemma EmptyFormErrors(today: Date, customers: seq<Customer>)
    requires Valid(today)
    ensures RegistrationErrors(RegistrationRequest(None, None, None, None, None, None), today, customers)
            == [LoginEmpty, NameRequired, InvalidEmail, TooYoung]
  {
  }

  /** Registration accepts an empty password confirmed as empty: the rule
      only asks for both fields and their equality. */
  lemma EmptyPasswordAccepted(p: Option<string>)
    requires p == Some("")
    ensures PasswordErrors(p, p) == []
  {
  }

  /** The accounts a new customer starts with: one per constant, in
      values() order, all at zero. */
  function DefaultAccounts(): (accounts: seq<Account>)
    ensures |accounts| == |Values()| && AccountsKeyed(accounts)
    ensures forall c: Currency :: FirstAccount(accounts, c) >= 0
    ensures forall i :: 0 <= i < |accounts| ==> accounts[i].balance == 0.0 && accounts[i].currency == Values()[i]
  {
    var vs := Values();
    var accounts := seq(|vs|, i requires 0 <= i < |vs| => Account(vs[i], 0.0));
    forall c: Currency ensures FirstAccount(accounts, c) >= 0 {
      var i :| 0 <= i < |vs| && vs[i] == c;
      assert accounts[i].currency == c;
    }
    accounts
  }

  // ------------------------------------------------------------ projections

  /** Position of the first account in currency `c`, or -1. */
  function FirstAccount(accounts: seq<Account>, c: Currency): (k: int)
    ensures -1 <= k < |accounts|
    ensures k == -1 <==> forall i :: 0 <= i < |accounts| ==> accounts[i].currency != c
    ensures k >= 0 ==> accounts[k].currency == c && forall i :: 0 <= i < k ==> accounts[i].currency != c
  {
    if accounts == [] then -1
    else if accounts[0].currency == c then 0
    else
      var k := FirstAccount(accounts[1..], c);
      assert forall i :: 1 <= i < |accounts| ==> accounts[i] == accounts[1..][i - 1];
      if k < 0 then -1 else k + 1
  }

  /** The main page's row for currency `c`: its name and title, the balance
      of the customer's account in it (zero when there is none), and
      whether there is one. */
  function AccountRow(accounts: seq<Account>, c: Currency): AccountDto {
    var k := FirstAccount(accounts, c);
    AccountDto(c, Name(c), Title(c), if k < 0 then 0.0 else accounts[k].balance, k >= 0)
  }

  datatype CurrencyDto = CurrencyDto(name: string, title: string)
  datatype UserShortDto = UserShortDto(login: string, name: string)

  /** MainPageData; the error lists are null (None) unless a caller fills
      them in. */
  datatype MainPageData = MainPageData(
    login: string,
    name: string,
    email: string,
    birthdate: Option<Date>,
    accounts: seq<AccountDto>,
    currencies: seq<CurrencyDto>,
    users: seq<UserShortDto>,
    passwordErrors: Option<seq<string>>,
    userAccountsErrors: Option<seq<string>>,
    cashErrors: Option<seq<string>>,
    transferErrors: Option<seq<string>>,
    transferOtherErrors: Option<seq<string>>)

  /** getMainData: the customer's profile, one account row per currency in
      values() order, the currency list, and every customer as a possible
      transfer target. */
  function GetMainData(customers: seq<Customer>, login: string): (r: Reply<MainPageData>)
    ensures r.Thrown? <==> forall i :: 0 <= i < |customers| ==> customers[i].login != login
    ensures r.Thrown? ==> r.message == "Customer not found " + login
  {
    var k := IndexOfLogin(customers, login);
    if k < 0 then Thrown("Customer not found " + login)
    else
      var c := customers[k];
      var vs := Values();
      Value(MainPageData(
        c.login, c.name, c.email, Some(c.birthdate),
        seq(|vs|, i requires 0 <= i < |vs| => AccountRow(c.accounts, vs[i])),
        seq(|vs|, i requires 0 <= i < |vs| => CurrencyDto(Name(vs[i]), Title(vs[i]))),
        seq(|customers|, i requires 0 <= i < |customers| => UserShortDto(customers[i].login, customers[i].name)),
        None, None, None, None, None))
  }

  /** The main page lists every currency once, in values() order, marks
      exactly the ones the customer holds, and shows their balances; every
      other currency shows zero. */
  lemma MainDataShowsEveryCurrency(customers: seq<Customer>, nextId: int, login: string, i: int)
    requires StoreValid(customers, nextId)
    requires GetMainData(customers, login).Value?
    requires 0 <= i < |Values()|
    ensures var page := GetMainData(customers, login).value;
            var c := customers[IndexOfLogin(customers, login)];
            var row := page.accounts[i];
            |page.accounts| == |Values()|
            && row.currency == Values()[i] && row.currencyCode == Code(Values()[i])
            && (row.present <==> exists j :: 0 <= j < |c.accounts| && c.accounts[j].currency == row.currency)
            && (forall j :: 0 <= j < |c.accounts| && c.accounts[j].currency == row.currency
                  ==> row.balance == c.accounts[j].balance)
            && (!row.present ==> row.balance == 0.0)
  {
    var c := customers[IndexOfLogin(customers, login)];
    forall j | 0 <= j < |c.accounts|
      ensures FirstAccount(c.accounts, c.accounts[j].currency) == j
    {
      KeyedFirstAccount(c.accounts, j);
    }
  }

  /** In keyed accounts the first account in a currency is the one. */
  lemma KeyedFirstAccount(accounts: seq<Account>, j: int)
    requires AccountsKeyed(accounts) && 0 <= j < |accounts|
    ensures FirstAccount(accounts, accounts[j].currency) == j
  {
  }

  /** The customer as the other services receive it: every account, in
      stored order, with its code and title and marked present. */
  function ToDto(c: Customer): (d: CustomerDto)
    ensures CodesConsistent(d.accounts)
    ensures d.login == c.login && d.id == c.id && |d.accounts| == |c.accounts|
    ensures forall i :: 0 <= i < |c.accounts| ==>
              d.accounts[i].currency == c.accounts[i].currency && d.accounts[i].balance == c.accounts[i].balance
              && d.accounts[i].present
  {
    CustomerDto(c.id, c.login, c.name, c.email, Some(c.birthdate),
      seq(|c.accounts|, i requires 0 <= i < |c.accounts| =>
        var a := c.accounts[i];
        AccountDto(a.currency, Code(a.currency), Title(a.currency), a.balance, true)))
  }

  /** getCustomerByLogin: the found customer's record, or the
      customer-not-found exception. */
  function GetCustomerByLogin(customers: seq<Customer>, login: string): (r: Reply<CustomerDto>)
    ensures r.Thrown? <==> forall i :: 0 <= i < |customers| ==> customers[i].login != login
    ensures r.Thrown? ==> r.message == "Customer not found: " + login
    ensures r.Value? ==> r.value.login == login
  {
    var k := IndexOfLogin(customers, login);
    if k < 0 then Thrown("Customer not found: " + login) else Value(ToDto(customers[k]))
  }
}
