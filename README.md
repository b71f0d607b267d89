# Banking services in Dafny

A model of the money-moving and validating core of a small microservice
bank: customers with one account per currency (RUB, USD, CNY), a rate
table with RUB as the base currency, a generator that feeds rate sets to it
round robin, deposits and withdrawals, transfers between customers (with a
fraud gate and currency conversion), the front end that turns the services'
answers into the error lists a page shows, and the Keycloak admin client
that creates users.

Each service is a module. Its stateful parts are classes whose methods are
proved against a pure specification function (`TransferSpec`, `CashSpec`,
`RegisterSpec`, `EditProfileSpec`, `EditPasswordSpec`, `UpdateBalanceSpec`).
The properties the services promise are then lemmas about those functions.

- `Currencies`, `CustomerDtos`, `CashRequests`, `TransferResponses` and
  `CashResponses` model the shared value types of the client library.
- `Collaborators` models what other services look like from inside one of
  them:
  - the customer directory, as records keyed by login;
  - the notification topic, as an outbox of sent notifications;
  - the fraud gate, as an outage or a set of flagged ids.
- `Money` models BigDecimal's HALF_UP rounding to whole units.
- `Dates` models the parts of `java.time.LocalDate` the age check uses.
- `JavaText` models the `String` operations the services use.
- Money and rates are exact `real` numbers.
- The clock, BCrypt hashes and the answers of remote services are
  parameters.

Where the behaviour the system documents differs from its code, the model
follows the code:
- A failing notification send in a transfer is not swallowed: it raises
  after both balance writes (`TransferProperties.MailFailureAfterWrites`).
- A transfer into a currency code that names no constant (such as "XYZ")
  ends with "Destination account not found" before any rate lookup. The
  account search matches the enum constant's code
  (`TransferProperties.UnknownTargetCurrencyIsMissingAccount`).
- A same-currency self-transfer does not conserve the balance (see
  Findings).

## Model

| member | source | states |
|---|---|---|
| Currencies.Code | clients/src/main/java/com/example/clients/customer/Currency.java:4-18 | each constant's code is its enum name, three characters long |
| Currencies.Values | clients/src/main/java/com/example/clients/customer/Currency.java:3-6 | values() lists exactly the three constants RUB, USD, CNY, each once, in declaration order |
| Currencies.EveryConstantListed | clients/src/main/java/com/example/clients/customer/Currency.java:3-6 | every constant of the enum is among RUB, USD, CNY |
| Currencies.NamedIn | clients/src/main/java/com/example/clients/customer/Currency.java:3-6 | a found constant is in the list and carries the name; no result means no constant in the list has it |
| Currencies.ValueOfMatchesName | clients/src/main/java/com/example/clients/customer/Currency.java:3-6 | valueOf(name) is the constant with that name, and fails exactly for names other than RUB, USD, CNY |
| Currencies.CodesDistinct | clients/src/main/java/com/example/clients/customer/Currency.java:4-6 | two constants share a code only when they are the same constant |
| Currencies.ValueOfName | clients/src/main/java/com/example/clients/customer/Currency.java:3-6 | valueOf inverts name() |
| CustomerDtos.FirstWithCode | clients/src/main/java/com/example/clients/customer/CustomerDto.java:20-25 | the first account whose code string equals the code, or nothing exactly when no account has it |
| CustomerDtos.FindAccountByCurrency | clients/src/main/java/com/example/clients/customer/CustomerDto.java:20-25 | finds an account exactly when some account has the code string; the found account is one of them and has that code |
| CustomerDtos.HasAccountWithCurrency | clients/src/main/java/com/example/clients/customer/CustomerDto.java:30-32 | true exactly when findAccountByCurrency finds an account, that is, when some account has the code |
| CustomerDtos.GetBalanceForCurrency | clients/src/main/java/com/example/clients/customer/CustomerDto.java:37-40 | zero without a matching account; otherwise the balance of an account carrying the code |
| CustomerDtos.FirstIndexOf | clients/src/main/java/com/example/clients/customer/CustomerDto.java:20-25 | -1 exactly when no account holds the constant, else the first position holding it |
| CustomerDtos.FirstIndexOfCode | transfer-service/src/main/java/com/example/transfer/service/TransferService.java:109-113 | a found account's constant is valueOf(code); a code of no constant finds nothing |
| CustomerDtos.CodeMatchIsValueOf | clients/src/main/java/com/example/clients/customer/Currency.java:16-18 | getCode() equals a string exactly when valueOf of that string is the constant |
| CustomerDtos.FirstIndexOfCodeIsFirstMatch | transfer-service/src/main/java/com/example/transfer/service/TransferService.java:109-113 | the constant match finds the first account whose constant's code equals the string, and -1 when none does |
| CustomerDtos.SameCurrenciesSameIndex | clients/src/main/java/com/example/clients/customer/CustomerDto.java:20-25 | two account lists with the same currencies position by position give the same match for every code |
| CustomerDtos.ConsistentLookupsAgree | clients/src/main/java/com/example/clients/customer/CustomerDto.java:20-25 | when every code string is its constant's code, the string match and the constant match pick the same account |
| CustomerDtos.MatchesCodeStringNotEnum | clients/src/main/java/com/example/clients/customer/CustomerDto.java:22 | an account whose enum is USD but whose code string is "usd" is not found under "USD" |
| CashRequests.IsValid | clients/src/main/java/com/example/clients/cash/CashOperationRequest.java:18-23 | false for a null or blank login or currency, a null or non-positive value, or a null action; true when all four hold |
| CashRequests.ValidityIgnoresSupport | clients/src/main/java/com/example/clients/cash/CashOperationRequest.java:18-23 | a request for EUR is valid: isValid does not check currency support |
| TransferResponses.Success | clients/src/main/java/com/example/clients/transfer/TransferResponse.java:23-25 | success with both lists empty, well formed |
| TransferResponses.Error | clients/src/main/java/com/example/clients/transfer/TransferResponse.java:27-29 | failure with the one message as own error, well formed |
| TransferResponses.Errors | clients/src/main/java/com/example/clients/transfer/TransferResponse.java:31-33 | failure with the list unchanged as own errors; well formed exactly when the list is not empty |
| TransferResponses.OtherError | clients/src/main/java/com/example/clients/transfer/TransferResponse.java:35-37 | failure with the one message as the other party's error, well formed |
| TransferResponses.OtherErrors | clients/src/main/java/com/example/clients/transfer/TransferResponse.java:39-41 | failure with the list unchanged as other errors; well formed exactly when the list is not empty |
| TransferResponses.FullError | clients/src/main/java/com/example/clients/transfer/TransferResponse.java:43-45 | failure with both lists unchanged; well formed exactly when one of them is not empty |
| CashResponses.Success | clients/src/main/java/com/example/clients/cash/CashOperationResponse.java:21-23 | success with no errors |
| CashResponses.Error | clients/src/main/java/com/example/clients/cash/CashOperationResponse.java:25-27 | failure with the one message |
| CashResponses.ErrorList | clients/src/main/java/com/example/clients/cash/CashOperationResponse.java:29-31 | failure with the list unchanged |
| CashResponses.NoSuccessWithErrors | clients/src/main/java/com/example/clients/cash/CashOperationResponse.java:21-31 | no factory yields a success that carries errors |
| ExchangeRates.FromDto | exchange-service/src/main/java/com/example/exchange/mapper/ExchangeRateFromDTOConverter.java:13-19 | converts exactly the names RUB, USD, CNY (valueOf throws otherwise), to the constant of that name with the same value |
| ExchangeRates.ToDto | exchange-service/src/main/java/com/example/exchange/mapper/ExchangeRateToDTOConverter.java:12-18 | the title and name of the entity's currency, with the same value |
| ExchangeRates.EntityRoundTrip | exchange-service/src/main/java/com/example/exchange/mapper/ExchangeRateToDTOConverter.java:12-18 | converting an entity to a DTO and back gives the entity |
| ExchangeRates.DtoRoundTrip | exchange-service/src/main/java/com/example/exchange/mapper/ExchangeRateFromDTOConverter.java:13-19 | DTO to entity to DTO is the identity exactly when the DTO's title was the currency's own |
| ExchangeRates.TitleIgnored | exchange-service/src/main/java/com/example/exchange/mapper/ExchangeRateFromDTOConverter.java:13-19 | the DTO's title plays no part in the conversion |
| ExchangeRates.YuanExample | exchange-service/src/main/java/com/example/exchange/mapper/ExchangeRateFromDTOConverter.java:13-19 | ("Юань", "CNY", 13.2) converts to (CNY, 13.2) |
| Exchange.RowOf | exchange-service/src/main/java/com/example/exchange/service/ExchangeService.java:50 | -1 exactly when no row has the currency, else a row for it |
| Exchange.SavedRows | exchange-service/src/main/java/com/example/exchange/service/ExchangeService.java:50 | save keeps the table keyed by currency, stores the entity, keeps every row of another currency and adds nothing else |
| Exchange.SavedAll | exchange-service/src/main/java/com/example/exchange/service/ExchangeService.java:50 | saveAll keeps the table keyed by currency |
| Exchange.SavedAllDistinct | exchange-service/src/main/java/com/example/exchange/service/ExchangeService.java:50 | entities of new, distinct currencies are appended as they are, in order |
| Exchange.SavedAllKeepsLast | exchange-service/src/main/java/com/example/exchange/service/ExchangeService.java:50 | each currency ends up with the value of its last entity |
| Exchange.SavedAllKeepsSaved | exchange-service/src/main/java/com/example/exchange/service/ExchangeService.java:50 | a stored row survives saving entities of other currencies |
| Exchange.NonRubPositions | exchange-service/src/main/java/com/example/exchange/service/ExchangeService.java:46-47 | the positions of exactly the rates not named RUB, in increasing order |
| Exchange.FirstUnknown | exchange-service/src/main/java/com/example/exchange/service/ExchangeService.java:46-48 | -1 exactly when every rate not named RUB converts; otherwise the first such rate whose name is no constant |
| Exchange.Entities | exchange-service/src/main/java/com/example/exchange/service/ExchangeService.java:46-49 | fails exactly when a non-RUB name is no constant, with valueOf's message for the first one; otherwise one entity per non-RUB rate, in input order, each that rate converted with its value |
| Exchange.EntitiesHaveNoRub | exchange-service/src/main/java/com/example/exchange/service/ExchangeService.java:47-48 | no converted entity is RUB |
| Exchange.ExchangeRepository.DeleteAll | exchange-service/src/main/java/com/example/exchange/service/ExchangeService.java:45 | the table is empty afterwards |
| Exchange.ExchangeRepository.SaveAll | exchange-service/src/main/java/com/example/exchange/service/ExchangeService.java:50 | the loop leaves the table as saveAll of the entities, one save after another |
| Exchange.ExchangeService.GetAllRates | exchange-service/src/main/java/com/example/exchange/service/ExchangeService.java:25-39 | ("Рубль", "RUB", 1.0) first, then every stored rate converted in table order; length is table size + 1 |
| Exchange.ExchangeService.UpdateRates | exchange-service/src/main/java/com/example/exchange/service/ExchangeService.java:42-52 | an unknown name raises and the transaction leaves the table as it was; otherwise the table is the converted non-RUB rates saved into an empty table |
| Exchange.SavedAllFrom | exchange-service/src/main/java/com/example/exchange/service/ExchangeService.java:50 | every row after saveAll is an old row no entity replaced, or the last entity saved for its currency |
| Exchange.LastRateStored | exchange-service/src/main/java/com/example/exchange/service/ExchangeService.java:45-50 | after an accepted update, the last rate given for a name other than RUB is converted and in the table |
| Exchange.RowFromLastRate | exchange-service/src/main/java/com/example/exchange/service/ExchangeService.java:45-50 | after an accepted update, every row is the conversion of the last rate given for its name, which is not RUB |
| Exchange.UpdatedTable | exchange-service/src/main/java/com/example/exchange/service/ExchangeService.java:42-52 | after an accepted update the table is keyed by currency and holds, for each name other than RUB, the conversion of the last rate given with that name, and nothing else |
| Exchange.UpdatedTableInOrder | exchange-service/src/main/java/com/example/exchange/service/ExchangeService.java:45-50 | when no name is given twice, the table is exactly the converted non-RUB rates, in input order |
| Exchange.SameCurrencySameName | exchange-service/src/main/java/com/example/exchange/service/ExchangeService.java:48 | two converted rates share a currency exactly when they share a name |
| Exchange.RubOnlyAtHead | exchange-service/src/main/java/com/example/exchange/service/ExchangeService.java:29-47 | after an update, the rates read back name RUB at their head and nowhere else |
| Exchange.NoRubSaved | exchange-service/src/main/java/com/example/exchange/service/ExchangeService.java:47 | saving non-RUB entities into a table without RUB adds no RUB row |
| Exchange.SavesOnlyNonRub | exchange-service/src/main/java/com/example/exchange/service/ExchangeService.java:45-50 | RUB, USD 94.0, CNY 13.2 stores exactly USD 94.0 then CNY 13.2 |
| ExchangeGenerator.DefaultRates | exchange-generator-service/src/main/java/com/example/exchangegenerator/service/ExchangeGeneratorService.java:69-73 | the fallback set is RUB 1.0, USD 95.0, CNY 13.5 |
| ExchangeGenerator.IndexAfterIsModulo | exchange-generator-service/src/main/java/com/example/exchangegenerator/service/ExchangeGeneratorService.java:56 | k ticks from an index in range advance it by k modulo the number of sets |
| ExchangeGenerator.ModStep | exchange-generator-service/src/main/java/com/example/exchangegenerator/service/ExchangeGeneratorService.java:56 | one tick: (x mod n + 1) mod n is (x + 1) mod n |
| ExchangeGenerator.ExchangeGeneratorService.constructor | exchange-generator-service/src/main/java/com/example/exchangegenerator/service/ExchangeGeneratorService.java:28-44 | the loaded sets, index 0, nothing sent, index in range |
| ExchangeGenerator.ExchangeGeneratorService.GenerateAndUpdateRates | exchange-generator-service/src/main/java/com/example/exchangegenerator/service/ExchangeGeneratorService.java:49-64 | no sets: nothing sent and the index is unchanged; otherwise the set at the old index is sent, the index moves to (index + 1) mod n even when the send fails, and stays in range |
| ExchangeGenerator.ExchangeGeneratorService.UpdateRatesFallback | exchange-generator-service/src/main/java/com/example/exchangegenerator/service/ExchangeGeneratorService.java:66-81 | the default set is sent once, whether or not the send fails |
| ExchangeGenerator.ScheduledTicks | exchange-generator-service/src/main/java/com/example/exchangegenerator/service/ExchangeGeneratorService.java:47-80 | k ticks over loaded sets send, tick by tick, the set at the index followed by the default set exactly when updateRates raised on that tick (the circuit breaker's fallback, whose own failure is swallowed), and leave the index k steps further modulo the number of sets |
| ExchangeGenerator.TickLogLength | exchange-generator-service/src/main/java/com/example/exchangegenerator/service/ExchangeGeneratorService.java:47-80 | the ticks send one set per tick plus one default set per failed tick |
| ExchangeGenerator.TickLogWithoutFailures | exchange-generator-service/src/main/java/com/example/exchangegenerator/service/ExchangeGeneratorService.java:49-62 | without failures the ticks send exactly the sets round robin from the index, and nothing else |
| ExchangeGenerator.FailedTickSendsDefaults | exchange-generator-service/src/main/java/com/example/exchangegenerator/service/ExchangeGeneratorService.java:47-80 | over sets [a, b] from index 0, a tick whose updateRates raises sends a and then the default set |
| Cash.SupportIsUpperCaseName | cash-service/src/main/java/com/example/cash/service/CashService.java:127-129 | a code is supported exactly when its upper case is the name of a constant |
| Cash.ValidationErrors | cash-service/src/main/java/com/example/cash/service/CashService.java:98-121 | empty exactly when the request is valid and its currency supported; at most five messages |
| Cash.BlankCurrencyReportedTwice | cash-service/src/main/java/com/example/cash/service/CashService.java:102-119 | a blank currency is reported as missing and again as unsupported |
| Cash.LowerCaseCodeIsValid | cash-service/src/main/java/com/example/cash/service/CashService.java:117-129 | "usd" passes validation |
| Cash.NewBalanceMovesByValue | cash-service/src/main/java/com/example/cash/service/CashService.java:134-139 | for a positive amount a deposit raises and a withdrawal lowers the balance by exactly the amount |
| Cash.CashService.constructor | cash-service/src/main/java/com/example/cash/service/CashService.java:24-25 | the service holds the given directory and topic |
| Cash.CashService.ValidateRequest | cash-service/src/main/java/com/example/cash/service/CashService.java:90-122 | the appended messages are ValidationErrors(request), in the source's order |
| Cash.CashService.ProcessCashOperation | cash-service/src/main/java/com/example/cash/service/CashService.java:30-85 | the response, the directory's records, the balance writes and the notifications are those of the step-by-step specification CashSpec |
| Cash.FailuresChangeNothing | cash-service/src/main/java/com/example/cash/service/CashService.java:36-84 | a failed operation publishes nothing and leaves the records as they were; the one write it may have issued was refused and gave the generic error |
| Cash.InvalidRequestsStopAtValidation | cash-service/src/main/java/com/example/cash/service/CashService.java:36-40 | an invalid request gets every validation message and touches nothing |
| Cash.DirectoryFailureIsGeneric | cash-service/src/main/java/com/example/cash/service/CashService.java:43-84 | once validation passes, an unreachable directory gives the single generic error whatever it raised |
| Cash.WithdrawalAgainstBalance | cash-service/src/main/java/com/example/cash/service/CashService.java:57-65 | a withdrawal above the balance is refused with the available balance and no write; one of the whole balance writes balance − value |
| Cash.SuccessWritesNewBalance | cash-service/src/main/java/com/example/cash/service/CashService.java:57-79 | a success writes the balance moved by the amount once (never negative after a withdrawal), publishes one notification exactly when the topic works, and the directory then holds the new balance |
| Cash.CompletedOperation | cash-service/src/main/java/com/example/cash/service/CashService.java:57-79 | a valid operation on a consistent account that the balance allows succeeds and writes the moved balance into that account alone |
| Cash.MovedBack | cash-service/src/main/java/com/example/cash/service/CashService.java:134-139 | raising a balance by an amount and lowering it by the same amount gives the customer back, with the currencies unchanged in between |
| Cash.ValidationIgnoresAction | cash-service/src/main/java/com/example/cash/service/CashService.java:90-122 | validation asks whether an action is given, not which one |
| Cash.DepositStep | cash-service/src/main/java/com/example/cash/service/CashService.java:30-85 | a valid deposit into a consistent account completes and raises that account's balance alone |
| Cash.DepositThenWithdrawRestores | cash-service/src/main/java/com/example/cash/service/CashService.java:30-85 | from a balance that is not negative, a deposit followed by a withdrawal of the same amount both complete and leave the directory as it was |
| Cash.DepositThenWithdrawRefused | cash-service/src/main/java/com/example/cash/service/CashService.java:30-85 | from a negative balance, the deposit completes but the withdrawal of the same amount is refused, and the deposit stays |
| Cash.MailFailureInvisible | cash-service/src/main/java/com/example/cash/service/CashService.java:144-164 | a failing topic changes neither the answer nor the writes; it only publishes nothing |
| Cash.LowerCaseCodeFindsNoAccount | cash-service/src/main/java/com/example/cash/service/CashService.java:50-119 | "usd" passes validation but finds no account of a customer whose codes are the constants' own |
| Collaborators.Lookup | clients/src/main/java/com/example/clients/customer/CustomerClient.java:42-43 | an outage raises; a known login gives its record (or null); an unknown login raises |
| Collaborators.Updated | customer-service/src/main/java/com/example/customerservice/service/CustomerService.java:301-311 | succeeds exactly when the directory is up and the customer and an account with the code exist; then only the first such account of that customer changes, to the new balance |
| Collaborators.UpdatedBalance | customer-service/src/main/java/com/example/customerservice/service/CustomerService.java:301-311 | after an overwrite the named (customer, code) reads the new balance and every other pair reads as before |
| Collaborators.UpdatedKeepsKeyed | customer-service/src/main/java/com/example/customerservice/service/CustomerService.java:301-311 | an overwrite keeps the records keyed by login |
| Collaborators.CustomerDirectory.constructor | clients/src/main/java/com/example/clients/customer/CustomerClient.java:13-45 | the given records and outage, no writes yet |
| Collaborators.CustomerDirectory.GetCustomer | clients/src/main/java/com/example/clients/customer/CustomerClient.java:42-43 | answers Lookup |
| Collaborators.CustomerDirectory.UpdateAccountBalance | clients/src/main/java/com/example/clients/customer/CustomerClient.java:35-40 | records the call and applies Updated, leaving the records unchanged when it raises |
| Collaborators.Outbox.constructor | cash-service/src/main/java/com/example/cash/service/CashService.java:25 | nothing sent yet |
| Collaborators.Outbox.Send | cash-service/src/main/java/com/example/cash/service/CashService.java:158 | publishes the notification, unless this send fails, which raises and publishes nothing |
| Collaborators.IsFraudster | transfer-service/src/main/java/com/example/transfer/service/TransferService.java:40 | an unreachable gate raises; otherwise the verdict is whether the id is flagged |
| Money.RoundHalfUp | transfer-service/src/main/java/com/example/transfer/service/TransferService.java:139-140 | the whole number within one half of x, a tie going away from zero |
| Money.RoundHalfUpOdd | transfer-service/src/main/java/com/example/transfer/service/TransferService.java:139-140 | rounding is symmetric about zero |
| Money.RoundHalfUpUnique | transfer-service/src/main/java/com/example/transfer/service/TransferService.java:139-140 | any whole number within one half of x that breaks a tie away from zero is the rounding of x |
| Money.RoundHalfUpWhole | transfer-service/src/main/java/com/example/transfer/service/TransferService.java:139-140 | whole numbers are unchanged |
| Transfers.Find | transfer-service/src/main/java/com/example/transfer/service/TransferService.java:109-113 | a found account belongs to the customer and its constant is valueOf(code); nothing exactly when no account's constant has the code |
| Transfers.BuildError | transfer-service/src/main/java/com/example/transfer/service/TransferService.java:115-125 | a failure carrying each list on its own side; well formed exactly when some error is present |
| Transfers.FirstRate | transfer-service/src/main/java/com/example/transfer/service/TransferService.java:152-156 | the value of the first table entry with the name, or nothing exactly when no entry has it |
| Transfers.GetRateValue | transfer-service/src/main/java/com/example/transfer/service/TransferService.java:147-157 | RUB is 1.0 whatever the table says; another code raises "Exchange rate not found for <code>" exactly when the table lacks it, else takes its first entry |
| Transfers.Credit | transfer-service/src/main/java/com/example/transfer/service/TransferService.java:139-140 | within one half of amount × fromRate / toRate |
| Transfers.ConvertCurrency | transfer-service/src/main/java/com/example/transfer/service/TransferService.java:127-141 | equal codes give the amount without reading the table; otherwise a table failure, the source's missing rate (reported first), the target's missing rate, or the half-up rounded conversion |
| Transfers.AccountErrors | transfer-service/src/main/java/com/example/transfer/service/TransferService.java:52-58 | no error exactly when both accounts exist; a missing source goes to own errors, a missing destination to own errors on a self-transfer and to other errors otherwise |
| Transfers.TransferService.constructor | transfer-service/src/main/java/com/example/transfer/service/TransferService.java:28-31 | the service holds the given directory and topic |
| Transfers.TransferService.Transfer | transfer-service/src/main/java/com/example/transfer/service/TransferService.java:33-106 | the outcome, the records, the writes and the notifications are those of the step-by-step specification TransferSpec |
| Transfers.TransferService.Prepare | transfer-service/src/main/java/com/example/transfer/service/TransferService.java:49-78 | the error lists built step by step, the conversion and the sufficiency check give the decision Decide |
| Transfers.TransferService.CheckAccounts | transfer-service/src/main/java/com/example/transfer/service/TransferService.java:49-61 | the own-account and other-account error lists are exactly AccountErrors: a missing source account, then a missing destination account, each on the list of whoever owns it |
| Transfers.TransferService.ChargeStep | transfer-service/src/main/java/com/example/transfer/service/TransferService.java:63-78 | once both accounts exist, the conversion failure, the insufficient-funds refusal or the go-ahead with the converted credit is exactly Charge |
| Transfers.TransferService.Commit | transfer-service/src/main/java/com/example/transfer/service/TransferService.java:84-105 | the two writes and the notifications are those of CommitSpec |
| Transfers.TransferService.Notify | transfer-service/src/main/java/com/example/transfer/service/TransferService.java:94-105 | the sender is notified first, and a failure there raises with nothing published; unless the logins are equal the receiver is notified next, and a failure there raises with only the sender's notification published; otherwise the answer is success |
| TransferProperties.FraudStopsTransfer | transfer-service/src/main/java/com/example/transfer/service/TransferService.java:38-43 | a flagged sender gets errors(["Fraud detected"]) with no write and no notification |
| TransferProperties.ReturnedResponsesWellFormed | transfer-service/src/main/java/com/example/transfer/service/TransferService.java:59-125 | every returned response reports success exactly when both lists are empty |
| TransferProperties.ErrorsWriteNothing | transfer-service/src/main/java/com/example/transfer/service/TransferService.java:38-78 | a response with errors comes with no write, no notification and the records unchanged |
| TransferProperties.ViaSettlement | transfer-service/src/main/java/com/example/transfer/service/TransferService.java:33-106 | well-formedness and no-write-on-error from the start of transfer |
| TransferProperties.SettlementOutcomes | transfer-service/src/main/java/com/example/transfer/service/TransferService.java:49-106 | well-formedness and no-write-on-error from the account lookups on |
| TransferProperties.HaltsWithErrors | transfer-service/src/main/java/com/example/transfer/service/TransferService.java:52-78 | every decision to stop carries an error and reports failure |
| TransferProperties.AccountErrorsAttributed | transfer-service/src/main/java/com/example/transfer/service/TransferService.java:52-61 | "Source account not found" is own exactly when the source is missing; "Destination account not found" is own exactly on a self-transfer and the whole other list otherwise |
| TransferProperties.ConversionFailureNamesTableCurrency | transfer-service/src/main/java/com/example/transfer/service/TransferService.java:66-157 | once both accounts exist, a conversion can fail only on a missing USD or CNY rate or a zero rate |
| TransferProperties.UnknownTargetCurrencyIsMissingAccount | transfer-service/src/test/java/com/example/transfer/service/TransferServiceKafkaIntegrationTest.java:220-258 | a transfer from USD into "XYZ" is answered with a missing destination account on the other side, not a conversion failure |
| TransferProperties.DecideProceeds | transfer-service/src/main/java/com/example/transfer/service/TransferService.java:49-78 | a transfer goes ahead only when both accounts exist, and then depends only on their balances |
| TransferProperties.ChargeSplits | transfer-service/src/main/java/com/example/transfer/service/TransferService.java:74-92 | the source becomes its balance less the debit, never negative, and the destination its balance plus the credit; equal codes credit the debit |
| TransferProperties.ChargeAmounts | transfer-service/src/main/java/com/example/transfer/service/TransferService.java:127-141 | the credit is the debit for equal codes, else within one half of debit × fromRate / toRate with a non-zero target rate |
| TransferProperties.ChargeCredit | transfer-service/src/main/java/com/example/transfer/service/TransferService.java:63-92 | a transfer that goes ahead credits the destination with exactly the value the successful conversion returned |
| TransferProperties.UsdToRubExample | transfer-service/src/test/java/com/example/transfer/service/TransferServiceTest.java:118-173 | user1 with 100 USD sending 10 USD to user2's RUB account at rates USD 95, RUB 1 goes ahead and writes 90 USD and 950 RUB |
| TransferProperties.NegativeAmountAccepted | transfer-service/src/main/java/com/example/transfer/service/TransferService.java:63-78 | a negative amount passes the sufficiency check and raises the sender's balance |
| TransferProperties.BalanceOfHeld | transfer-service/src/main/java/com/example/transfer/service/TransferService.java:109-113 | for a customer the directory holds, its balance for a code is that of the account find picks |
| TransferProperties.CommitBalances | transfer-service/src/main/java/com/example/transfer/service/TransferService.java:86-92 | after both writes the destination holds the new destination balance; the source holds its own new balance unless it is the same account, which the second write overwrote |
| TransferProperties.SettleCommits | transfer-service/src/main/java/com/example/transfer/service/TransferService.java:84-106 | once the decision is to go ahead, the rest is the commit of the decided balances |
| TransferProperties.DistinctAccountsSettle | transfer-service/src/main/java/com/example/transfer/service/TransferService.java:86-92 | between two different accounts, the source reads its new balance and the destination its new balance |
| TransferProperties.DecidedAmounts | transfer-service/src/main/java/com/example/transfer/service/TransferService.java:74-92 | the decided balances are the directory's balances less the debit and plus the credit |
| TransferProperties.SelfTransferMints | transfer-service/src/main/java/com/example/transfer/service/TransferService.java:86-92 | as written, a same-currency self-transfer leaves the account at its old balance plus the amount |
| TransferProperties.CommitCorrected | transfer-service/src/main/java/com/example/transfer/service/TransferService.java:86-92 | the corrected writes read the destination balance after the debit, and a success leaves the destination readable |
| TransferProperties.CorrectedSelfTransferConserves | transfer-service/src/main/java/com/example/transfer/service/TransferService.java:86-92 | with the correction a same-currency self-transfer leaves the balance as it was |
| TransferProperties.CorrectionAgreesOnDistinctAccounts | transfer-service/src/main/java/com/example/transfer/service/TransferService.java:86-92 | between different accounts the corrected writes are exactly the source's writes |
| TransferProperties.CorrectedWrites | transfer-service/src/main/java/com/example/transfer/service/TransferService.java:86-92 | the corrected commit is the credit written onto the balance read after the debit |
| TransferProperties.CommitNotifiesParties | transfer-service/src/main/java/com/example/transfer/service/TransferService.java:94-105 | a returned commit reports success after exactly the two writes, with one notification to the sender and a second, with the same message, to a different receiver |
| TransferProperties.MailFailureAfterWrites | transfer-service/src/main/java/com/example/transfer/service/TransferService.java:86-103 | a failing send raises after both writes have been applied; a failure of the sender's send publishes nothing, one of the receiver's leaves the sender's notification published |
| Customers.IndexOfLogin | customer-service/src/main/java/com/example/customerservice/service/CustomerService.java:279-281 | findByLogin: the first customer with the login, or -1 exactly when no customer has it |
| Customers.LoginIdentifies | customer-service/src/main/java/com/example/customerservice/service/CustomerService.java:279-281 | in a table with unique logins, the customer found by login is the one stored with it |
| Customers.EmailShapeIsPattern | customer-service/src/main/java/com/example/customerservice/service/CustomerService.java:141-144 | the String-operation check accepts exactly the strings matching ^[^@\s]+@[^@\s]+\.[^@\s]+$ |
| Customers.ShapeMatches | customer-service/src/main/java/com/example/customerservice/service/CustomerService.java:141-144 | a string with one '@' after its first character, no whitespace and a '.' inside the host matches the pattern |
| Customers.MatchesShape | customer-service/src/main/java/com/example/customerservice/service/CustomerService.java:141-144 | every string the pattern matches has that shape |
| Customers.PlainRange | customer-service/src/main/java/com/example/customerservice/service/CustomerService.java:143 | a stretch without '@' or whitespace is a run of the class [^@\s] |
| Customers.PasswordErrors | customer-service/src/main/java/com/example/customerservice/service/CustomerService.java:116-122 | no error exactly when neither password field is given or both are given and equal; at most one message |
| Customers.RegistrationErrors | customer-service/src/main/java/com/example/customerservice/service/CustomerService.java:96-133 | empty exactly when the request passes every check against today's date and the stored customers; at most seven messages |
| Customers.FieldErrors | customer-service/src/main/java/com/example/customerservice/service/CustomerService.java:99-113 | empty exactly when login and name are present after trim, the e-mail matches the pattern and the birth date is over eighteen years back |
| Customers.TakenErrors | customer-service/src/main/java/com/example/customerservice/service/CustomerService.java:124-130 | empty exactly when neither the login nor the e-mail is already stored; a null matches no row |
| Customers.EmptyFormErrors | customer-service/src/main/java/com/example/customerservice/service/CustomerService.java:96-133 | a form with every field null collects the login, name, e-mail and age messages in that order, and nothing else |
| Customers.EmptyPasswordAccepted | customer-service/src/main/java/com/example/customerservice/service/CustomerService.java:116-122 | an empty password confirmed as empty passes registration |
| Customers.DefaultAccounts | customer-service/src/main/java/com/example/customerservice/service/CustomerService.java:60-68 | one account per currency constant, in values() order, each at zero, no currency twice |
| Customers.FirstAccount | customer-service/src/main/java/com/example/customerservice/service/CustomerService.java:157-161 | the first account in the currency, or -1 exactly when there is none |
| Customers.GetMainData | customer-service/src/main/java/com/example/customerservice/service/CustomerService.java:151-153 | raises "Customer not found <login>" exactly when no customer has the login |
| Customers.MainDataShowsEveryCurrency | customer-service/src/main/java/com/example/customerservice/service/CustomerService.java:151-194 | one row per currency in values() order, marked present exactly when the customer holds an account in it, with that account's balance, and zero otherwise |
| Customers.KeyedFirstAccount | customer-service/src/main/java/com/example/customerservice/service/CustomerService.java:157-161 | with one account per currency, the first account in an account's currency is that account |
| Customers.ToDto | customer-service/src/main/java/com/example/customerservice/service/CustomerService.java:283-298 | the record keeps id, login and every account in stored order with its balance, marked present, with codes consistent with the currencies |
| Customers.GetCustomerByLogin | customer-service/src/main/java/com/example/customerservice/service/CustomerService.java:279-299 | raises "Customer not found: <login>" exactly when no customer has the login; otherwise the record of a customer with that login |
| CustomerServices.WithoutId | customer-service/src/main/java/com/example/customerservice/service/CustomerService.java:78 | delete leaves exactly the rows whose id differs, none added |
| CustomerServices.WithoutNewId | customer-service/src/main/java/com/example/customerservice/service/CustomerService.java:73-78 | deleting the row just saved under a fresh id gives back the table as it was |
| CustomerServices.KeepsOtherIds | customer-service/src/main/java/com/example/customerservice/service/CustomerService.java:78 | deleting an id no row carries changes nothing |
| CustomerServices.CustomerRepository.constructor | customer-service/src/main/java/com/example/customerservice/repository/CustomerRepository.java:8-13 | an empty table whose id sequence starts at 1 |
| CustomerServices.CustomerRepository.SaveAndFlush | customer-service/src/main/java/com/example/customerservice/service/CustomerService.java:72-73 | the new customer gets the next id, which then advances, and is appended to the table |
| CustomerServices.CustomerRepository.Delete | customer-service/src/main/java/com/example/customerservice/service/CustomerService.java:78 | the table loses the rows with the customer's id and nothing else |
| CustomerServices.CustomerRepository.Save | customer-service/src/main/java/com/example/customerservice/service/CustomerService.java:253-311 | the loaded customer's row takes the new state; every other row is unchanged |
| CustomerServices.ProfileErrors | customer-service/src/main/java/com/example/customerservice/service/CustomerService.java:202-208 | empty exactly when the name is present after trim and the birth date is over eighteen years back |
| CustomerServices.ValuesOf | customer-service/src/main/java/com/example/customerservice/service/CustomerService.java:214-216 | every name converts exactly when each is a constant's name, element by element; otherwise valueOf's exception for the first name that is not |
| CustomerServices.SetSizeIsLength | customer-service/src/main/java/com/example/customerservice/service/CustomerService.java:218-222 | the set of requested currencies is as large as the list exactly when no currency repeats |
| CustomerServices.DistinctCons | customer-service/src/main/java/com/example/customerservice/service/CustomerService.java:218-222 | a list of currencies has no repeats exactly when its head is not in its tail and its tail has no repeats |
| CustomerServices.RemovalErrors | customer-service/src/main/java/com/example/customerservice/service/CustomerService.java:224-233 | no error exactly when every account outside the desired currencies has a zero balance; at most one per account |
| CustomerServices.Kept | customer-service/src/main/java/com/example/customerservice/service/CustomerService.java:237 | removeAll keeps exactly the accounts in a desired currency, and keeps them one per currency |
| CustomerServices.WithAdded | customer-service/src/main/java/com/example/customerservice/service/CustomerService.java:239-251 | the accounts are the old ones plus a zero account for each desired currency not held before |
| CustomerServices.NewPasswordErrors | customer-service/src/main/java/com/example/customerservice/service/CustomerService.java:257-268 | no error exactly when the password is given, non-empty and equal to the confirmation; at most two messages |
| CustomerServices.FirstAccountWithCode | customer-service/src/main/java/com/example/customerservice/service/CustomerService.java:305-308 | the first account whose currency's code equals the string, or -1 exactly when there is none |
| CustomerServices.CustomerService.constructor | customer-service/src/main/java/com/example/customerservice/service/CustomerService.java:31-34 | the service holds the given repository, topic and fraud gate |
| CustomerServices.CustomerService.ValidateRegistrationRequest | customer-service/src/main/java/com/example/customerservice/service/CustomerService.java:96-133 | the appended messages are RegistrationErrors over the stored customers |
| CustomerServices.CustomerService.RegisterCustomer | customer-service/src/main/java/com/example/customerservice/service/CustomerService.java:37-139 | response, table, id sequence and published notifications are those of RegisterSpec |
| CustomerServices.CustomerService.EditUserProfile | customer-service/src/main/java/com/example/customerservice/service/CustomerService.java:197-255 | outcome and table are those of EditProfileSpec |
| CustomerServices.CustomerService.CheckRemovals | customer-service/src/main/java/com/example/customerservice/service/CustomerService.java:224-233 | the loop collects RemovalErrors for the accounts outside the desired set |
| CustomerServices.CustomerService.AddMissing | customer-service/src/main/java/com/example/customerservice/service/CustomerService.java:239-251 | the loop leaves WithAdded of the kept accounts and their currencies |
| CustomerServices.CustomerService.EditPassword | customer-service/src/main/java/com/example/customerservice/service/CustomerService.java:257-277 | outcome and table are those of EditPasswordSpec |
| CustomerServices.CustomerService.UpdateAccountBalance | customer-service/src/main/java/com/example/customerservice/service/CustomerService.java:301-314 | outcome and table are those of UpdateBalanceSpec |
| CustomerProperties.RejectedRegistrationTouchesNothing | customer-service/src/main/java/com/example/customerservice/service/CustomerService.java:40-44 | a request failing a check gets its non-empty error list; no row, no id, no notification |
| CustomerProperties.RegistrationSucceedsExactly | customer-service/src/main/java/com/example/customerservice/service/CustomerService.java:37-94 | success exactly when every check passes, the fraud gate answers "not a fraudster" for the new id and the welcome is published |
| CustomerProperties.SuccessfulRegistrationAddsCustomer | customer-service/src/main/java/com/example/customerservice/service/CustomerService.java:46-93 | success appends one customer under the next id with the request's fields, a hash exactly when a password came, a zero account per currency, and sends its welcome |
| CustomerProperties.FraudsterLeavesNoTrace | customer-service/src/main/java/com/example/customerservice/service/CustomerService.java:73-82 | a flagged customer is deleted again: the blocked answer, the table as before, nothing published, only the id used up |
| CustomerProperties.FraudOutageKeepsCustomer | customer-service/src/main/java/com/example/customerservice/service/CustomerService.java:73-139 | when the fraud gate fails the fallback answers while the saved customer stays in the table |
| CustomerProperties.RegistrationKeepsStoreValid | customer-service/src/main/java/com/example/customerservice/service/CustomerService.java:37-94 | registration keeps ids distinct and below the sequence, logins and e-mails unique, accounts one per currency |
| CustomerProperties.AppendKeepsStoreValid | customer-service/src/main/java/com/example/customerservice/service/CustomerService.java:73 | saving a new customer with fresh login and e-mail under the next id keeps the table's constraints |
| CustomerProperties.FailedEditKeepsTable | customer-service/src/main/java/com/example/customerservice/service/CustomerService.java:197-235 | every edit that does not answer the empty list leaves the table unchanged |
| CustomerProperties.MoneyBlocksRemoval | customer-service/src/main/java/com/example/customerservice/service/CustomerService.java:224-235 | an account dropped from the request with money on it yields errors and no change |
| CustomerProperties.EditedMembers | customer-service/src/main/java/com/example/customerservice/service/CustomerService.java:237-251 | the edited accounts are the kept ones plus zero accounts in the newly requested currencies |
| CustomerProperties.EditedAccountsAreRequested | customer-service/src/main/java/com/example/customerservice/service/CustomerService.java:213-251 | after an edit the customer's currencies are exactly the requested ones; kept accounts keep their balance; new ones start at zero |
| CustomerProperties.WithAddedKeyed | customer-service/src/main/java/com/example/customerservice/service/CustomerService.java:240-251 | adding distinct currencies not held keeps one account per currency |
| CustomerProperties.EditKeepsStoreValid | customer-service/src/main/java/com/example/customerservice/service/CustomerService.java:197-255 | an edit keeps the table's constraints and changes no other customer |
| CustomerProperties.EditedAccountsKeyed | customer-service/src/main/java/com/example/customerservice/service/CustomerService.java:218-251 | requested currencies without repeats leave one account per currency |
| CustomerProperties.AcceptedEditSetsAccounts | customer-service/src/main/java/com/example/customerservice/service/CustomerService.java:197-255 | an accepted edit sets the found customer's name, birth date and currency set as requested; dropped accounts held zero; new accounts start at zero |
| CustomerProperties.PasswordRulesDiffer | customer-service/src/main/java/com/example/customerservice/service/CustomerService.java:116-266 | a form without passwords passes registration but the password change reports it |
| CustomerProperties.PasswordChangeTouchesOnlyHash | customer-service/src/main/java/com/example/customerservice/service/CustomerService.java:257-277 | succeeds exactly when the checks pass and the customer exists; then only that customer's hash changes, and the table stays valid |
| CustomerProperties.Directory | customer-service/src/main/java/com/example/customerservice/service/CustomerService.java:279-299 | the records other services read are keyed by exactly the stored logins |
| CustomerProperties.LookupIsGetCustomerByLogin | clients/src/main/java/com/example/clients/customer/CustomerClient.java:42-43 | the directory lookup the other services use returns what getCustomerByLogin returns, with the same exception text |
| CustomerProperties.SameAccountPicked | customer-service/src/main/java/com/example/customerservice/service/CustomerService.java:305-308 | updateAccountBalance picks the same account by code as the other services' view of it |
| CustomerProperties.UpdateAgreesWithDirectory | clients/src/main/java/com/example/clients/customer/CustomerClient.java:35-40 | the balance overwrite fails with the same text, or yields the same records, as the directory model the transfer and cash services use |
| CustomerProperties.UpdatedUnknown | customer-service/src/main/java/com/example/customerservice/service/CustomerService.java:302-303 | no record under the login: customer not found |
| CustomerProperties.UpdatedNoAccount | customer-service/src/main/java/com/example/customerservice/service/CustomerService.java:305-308 | no account with the code: account not found, with the source's text |
| CustomerProperties.UpdatedIsReplacement | customer-service/src/main/java/com/example/customerservice/service/CustomerService.java:301-314 | when customer and account exist, both views overwrite the same balance |
| CustomerProperties.OverwrittenDirectory | customer-service/src/main/java/com/example/customerservice/service/CustomerService.java:310-311 | overwriting one balance in the table overwrites that balance in the customer's record and nothing else |
| CustomerProperties.UpdatedOneRecord | customer-service/src/main/java/com/example/customerservice/service/CustomerService.java:305-311 | the directory update of a held account replaces that record with the balance overwritten |
| CustomerProperties.ToDtoSetBalance | customer-service/src/main/java/com/example/customerservice/service/CustomerService.java:289-297 | projecting after an overwrite equals overwriting the projected row |
| CustomerProperties.ReplacedDirectory | customer-service/src/main/java/com/example/customerservice/service/CustomerService.java:311 | saving a customer with unchanged login, id and e-mail replaces only that login's record |
| CustomerProperties.ReplacedKeys | customer-service/src/main/java/com/example/customerservice/service/CustomerService.java:311 | saving a customer keeps the set of logins |
| CustomerProperties.ReplacedEntries | customer-service/src/main/java/com/example/customerservice/service/CustomerService.java:311 | the saved login's record is the new one; every other login's record is unchanged |
| CustomerProperties.ReplacedEntry | customer-service/src/main/java/com/example/customerservice/service/CustomerService.java:311 | one login's record after the save: the new one under its login, the old one elsewhere |
| CustomerProperties.DirectoryEntry | customer-service/src/main/java/com/example/customerservice/service/CustomerService.java:280-298 | under the table's constraints a stored customer's record is found under its login |
| CustomerProperties.ReplaceKeepsStoreValid | customer-service/src/main/java/com/example/customerservice/service/CustomerService.java:253-311 | saving a customer with unchanged login, id and e-mail and one account per currency keeps the table valid |
| CustomerProperties.SameLogins | customer-service/src/main/java/com/example/customerservice/service/CustomerService.java:253-311 | saving a customer with the same login keeps the set of logins |
| CustomerProperties.UpdateKeepsStoreValid | customer-service/src/main/java/com/example/customerservice/service/CustomerService.java:301-314 | the balance overwrite keeps the table's constraints |
| FrontUi.MainPageDataFallback | front-ui-service/src/main/java/com/example/frontui/FrontUiService.java:39-55 | the login kept, the placeholder name, empty e-mail, no birth date, empty lists, the unavailability message as the only password error, all other error lists null |
| FrontUi.RegisterCustomerFallback | front-ui-service/src/main/java/com/example/frontui/FrontUiService.java:78-87 | an unsuccessful registration with the one unavailability message |
| FrontUi.EditUserAccountsFallback | front-ui-service/src/main/java/com/example/frontui/FrontUiService.java:102-108 | exactly the one unavailability message |
| FrontUi.ProcessTransferOperationFallback | front-ui-service/src/main/java/com/example/frontui/FrontUiService.java:167-171 | exactly the one unavailability message |
| FrontUi.ExchangeRatesFallback | front-ui-service/src/main/java/com/example/frontui/FrontUiService.java:117-125 | the three default rates RUB 1.0, USD 95.0, CNY 13.5 with their titles, in that order |
| FrontUi.CashActionOf | front-ui-service/src/main/java/com/example/frontui/FrontUiService.java:129-130 | a deposit exactly when the form's action is "PUT"; anything else, a missing action included, is a withdrawal |
| FrontUi.CashRequestOf | front-ui-service/src/main/java/com/example/frontui/FrontUiService.java:130-131 | the request carries the form's login, currency and value unchanged and the mapped action |
| FrontUi.ProcessCashOperation | front-ui-service/src/main/java/com/example/frontui/FrontUiService.java:127-140 | nothing on success, the response's errors on a failure, one "Cash service unavailable: " line with the message on an exception |
| FrontUi.TransferErrorsShown | front-ui-service/src/main/java/com/example/frontui/FrontUiService.java:153-163 | nothing on success; on a failure the own errors followed by the other party's; one "Transfer service unavailable: " line on an exception |
| FrontUi.ShownEmptyIffSuccess | front-ui-service/src/main/java/com/example/frontui/FrontUiService.java:153-160 | for a response whose success flag matches its error lists, the page shows no error exactly when the transfer succeeded |
| FrontUi.ProcessTransferOperation | front-ui-service/src/main/java/com/example/frontui/FrontUiService.java:142-165 | the errors shown are those of the client's reply to the request built from the form |
| FrontUi.CashShownEmptyIffSuccess | front-ui-service/src/main/java/com/example/frontui/FrontUiService.java:127-140 | against the cash service's behaviour, the page shows no error exactly when the cash operation succeeded |
| FrontUi.TransferShownEmptyIffSuccess | front-ui-service/src/main/java/com/example/frontui/FrontUiService.java:142-165 | against the transfer service's behaviour, when it answers, the page shows no error exactly when the transfer succeeded |
| KeycloakAdmin.SplitFullName | front-ui-service/src/main/java/com/example/frontui/service/KeycloakAdminClientService.java:45-55 | null gives two empty names; no space keeps the whole name as first name; otherwise the trimmed parts before and after the first space |
| KeycloakAdmin.TrimIsInfix | front-ui-service/src/main/java/com/example/frontui/service/KeycloakAdminClientService.java:50-51 | trimming only removes characters |
| KeycloakAdmin.SplitJoin | front-ui-service/src/main/java/com/example/frontui/service/KeycloakAdminClientService.java:45-55 | a trimmed first name without spaces and a trimmed last name joined by a space split back into the same two |
| KeycloakAdmin.UserIdOf | front-ui-service/src/main/java/com/example/frontui/service/KeycloakAdminClientService.java:72-75 | a missing Location header raises; otherwise the suffix after the last '/', which holds no '/' |
| KeycloakAdmin.UserIdRoundTrip | front-ui-service/src/main/java/com/example/frontui/service/KeycloakAdminClientService.java:72-75 | an id appended to any path with '/' is read back unchanged |
| KeycloakAdmin.KeycloakAdminClient.constructor | front-ui-service/src/main/java/com/example/frontui/service/KeycloakAdminClientService.java:19-21 | no cached token, no request made, no user created |
| KeycloakAdmin.KeycloakAdminClient.GetToken | front-ui-service/src/main/java/com/example/frontui/service/KeycloakAdminClientService.java:24-37 | a cached token is returned without a request; otherwise one request, whose token is returned and cached |
| KeycloakAdmin.KeycloakAdminClient.CreateUser | front-ui-service/src/main/java/com/example/frontui/service/KeycloakAdminClientService.java:40-98 | the token is obtained first; with it the payload with the split name and enabled true is posted; a rejection raises its body, and one without a body completes with no value (null) and puts no password; a creation puts the password for the id read from Location and returns that id |
| KeycloakAdmin.TwoCallsOneRequest | front-ui-service/src/main/java/com/example/frontui/service/KeycloakAdminClientService.java:21-36 | after a successful fetch a second getToken returns the same token, and only one request reaches the token endpoint over both calls |
| Dates.MonthLength | customer-service/src/main/java/com/example/customerservice/service/CustomerService.java:147 | every month of LocalDate has 28 to 31 days |
| Dates.MinusYears | customer-service/src/main/java/com/example/customerservice/service/CustomerService.java:147 | LocalDate.minusYears keeps month and day, clamping 29 February to the 28th in a common year, and stays a valid date |
| Dates.IsBeforeStrictOrder | customer-service/src/main/java/com/example/customerservice/service/CustomerService.java:147 | isBefore is irreflexive, transitive and asymmetric |
| Dates.Over18Persists | customer-service/src/main/java/com/example/customerservice/service/CustomerService.java:146-148 | whoever passes the age check on a day still passes it on every later day |
| Dates.EighteenthBirthday | customer-service/src/main/java/com/example/customerservice/service/CustomerService.java:146-148 | on the eighteenth birthday itself the check fails; one day older it passes |
| Dates.LeapDayBirth | customer-service/src/main/java/com/example/customerservice/service/CustomerService.java:146-148 | someone born on 29 February 2004 fails on 28 February 2022 and passes on 1 March 2022 |
| JavaText.Leading | customer-service/src/main/java/com/example/customerservice/service/CustomerService.java:99 | the count of characters at or below U+0020 at the start, up to the first other one |
| JavaText.Trailing | customer-service/src/main/java/com/example/customerservice/service/CustomerService.java:99 | the count of characters at or below U+0020 at the end, back to the last other one |
| JavaText.Trim | customer-service/src/main/java/com/example/customerservice/service/CustomerService.java:99-101 | empty exactly when every character is at or below U+0020; otherwise starts and ends with a character above it; never longer |
| JavaText.TrimKeepsTrimmed | front-ui-service/src/main/java/com/example/frontui/service/KeycloakAdminClientService.java:50-51 | a string that starts and ends with a character above U+0020 is its own trim |
| JavaText.TrimIdempotent | front-ui-service/src/main/java/com/example/frontui/service/KeycloakAdminClientService.java:50-51 | trimming twice is trimming once |
| JavaText.IndexOf | front-ui-service/src/main/java/com/example/frontui/service/KeycloakAdminClientService.java:49 | the first position of the character, or -1 exactly when it does not occur |
| JavaText.LastIndexOf | front-ui-service/src/main/java/com/example/frontui/service/KeycloakAdminClientService.java:74 | the last position of the character, or -1 exactly when it does not occur |
| JavaText.ToUpper | cash-service/src/main/java/com/example/cash/service/CashService.java:128 | same length, each character upper-cased on its own |

## Left out

- Kafka, Feign, WebClient and JPA: the services' collaborators are state (records, an outbox, a table of rows) or parameters. Topic names, serialisation, the HTTP transport and transactions across services are not modelled. A non-2xx answer is a `Thrown` reply, except for the Keycloak user creation, where it is a `Rejected` answer carrying its body or none.
- Resilience4j circuit breakers and retries: only the fallback methods' bodies are modelled. A fallback is taken when the collaborator reports an outage; retry counts and breaker states are not.
- ExchangeGenerator.ScheduledTicks: each tick is one attempt at updateRates; the further attempts the retry policy makes before the fallback (each of which would advance the index and send again) and ticks on which an open breaker calls the fallback directly are not modelled.
- Exchange.ExchangeService.GetAllRates: findAll has no ORDER BY, so the database may return the stored rows in any order; the model fixes that order as the table's insertion order.
- Floating point: rates are `double` and money `BigDecimal` in the source. Both are exact `real` here, so `BigDecimal.valueOf(double)` representation effects are not captured.
- Message formatting: the `%.2f`/`%s` notification texts are a `Message` datatype holding the formatted values, not strings; likewise the cash service's insufficient-funds error line is `ErrorText.InsufficientFunds` holding the balance and currency it formats, not the formatted string.
- BCrypt: the password hash is a parameter of the operations that store one.
- The clock: `LocalDate.now()` is a `today` parameter.
- JDK exception texts (a NullPointerException, a BigDecimal division by zero) are named constants, not the JDK's exact wording.
- Character.toUpperCase covers the ASCII letters and the two non-ASCII letters whose upper case is an ASCII letter; other Unicode case mappings cannot affect the currency check and are not modelled.
- Controllers, security configuration, application bootstraps, the notification service, the fraud service and the Keycloak user-sync service are outside this model.
- Concurrency: every service is driven by one sequential caller, so lost updates between concurrent transfers and the generator's atomic index are not modelled.
- Transfers.TransferService.Transfer: the second look at the error lists just before the writes (transfer-service/src/main/java/com/example/transfer/service/TransferService.java:80-82) can never fire, because every earlier error has already returned; it is not a separate step.
- Cash.CashService.ValidateRequest: a null request object (cash-service/src/main/java/com/example/cash/service/CashService.java:93-96) is not modelled; the request is always present, its fields may be null.
- Customers.GetMainData: a customer whose account list is null is not modelled; stored customers always have a list, possibly empty.
- CustomerServices.CustomerService.EditUserProfile: the desired currencies are a HashSet in the source, iterated in an unspecified order; the model adds missing accounts in request order. The name and birth date assigned before a failed check are not saved in either version, so the table is the same.
- CustomerServices.CustomerRepository.SaveAndFlush: ids come from a counter starting at 1; the database sequence's allocation size and gaps are not modelled.
- FrontUiService's pass-through calls (changePassword, getMainPageData, registerCustomer, editUserAccounts, getExchangeRates) only forward to a client and are not modelled apart from their fallbacks.
- KeycloakAdmin.KeycloakAdminClient.CreateUser: Map.of raising for a null username, e-mail or password is not modelled (those are plain strings). Mono's laziness is not modelled: the calls run when the method runs.
- KeycloakAdmin.KeycloakAdminClient.GetToken: a token response without access_token counts as a failed fetch. The cache never expires, as in the source, whose comment mentions 30 seconds.
- ExchangeGenerator.ExchangeGeneratorService.constructor: reading and parsing the rate sets file is not modelled; the loaded sets are a parameter.

## Findings

| source | as written | input that shows it | evidently intended | confidence | as-written member | corrected member |
|---|---|---|---|---|---|---|
| transfer-service/src/main/java/com/example/transfer/service/TransferService.java:86-92 | both balance writes are computed from the balances read before either write, so the second overwrites the first when both name the same account | sender transfers v > 0 from their RUB account to themselves in RUB: the account ends at its old balance plus v instead of its old balance | a transfer never creates money: a same-account transfer leaves the balance unchanged | not executed | TransferProperties.SelfTransferMints | TransferProperties.CorrectedSelfTransferConserves |
