/** CashOperationRequest, the deposit/withdraw request a front end sends. */
module CashRequests {
  import opened Wrappers
  import opened JavaText

  datatype CashAction = DEPOSIT | WITHDRAW

  /** Every field may be null in the source. */
  datatype CashOperationRequest = CashOperationRequest(
    login: Option<string>,
    currency: Option<string>,
    value: Option<real>,
    action: Option<CashAction>)

  /** Not null and not whitespace-only. */
  predicate Filled(s: Option<string>) {
    s.Some? && !IsBlank(s.value)
  }

  /** isValid: the four field conditions and nothing else; in particular the
      currency is not checked against the supported list. */
  function IsValid(r: CashOperationRequest): (valid: bool)
    ensures !Filled(r.login) ==> !valid
    ensures !Filled(r.currency) ==> !valid
    ensures r.value == None || r.value.value <= 0.0 ==> !valid
    ensures r.action == None ==> !valid
    ensures Filled(r.login) && Filled(r.currency) && r.value.Some? && r.value.value > 0.0 && r.action.Some? ==> valid
  {
    r.login.Some? && !IsBlank(r.login.value)
    && r.currency.Some? && !IsBlank(r.currency.value)
    && r.value.Some? && r.value.value > 0.0
    && r.action.Some?
  }

  /** A request for an unsupported currency can still be valid. */
  lemma ValidityIgnoresSupport()
    ensures IsValid(CashOperationRequest(Some("u"), Some("EUR"), Some(1.0), Some(DEPOSIT)))
  {
    assert !IsTrimmable("u"[0]) && !IsTrimmable("EUR"[0]);
  }
}
