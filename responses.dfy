/** TransferResponse and its static factories. */
module TransferResponses {

  datatype TransferResponse = TransferResponse(
    success: bool,
    transferErrors: seq<string>,       // the initiator's own errors
    transferOtherErrors: seq<string>)  // errors attributed to the other party

  /** The agreement callers keep: success exactly when neither list holds an
      error. The type itself does not enforce it. */
  predicate WellFormed(r: TransferResponse) {
    r.success <==> (r.transferErrors == [] && r.transferOtherErrors == [])
  }

  function Success(): (r: TransferResponse)
    ensures r.success && WellFormed(r)
    ensures r.transferErrors == [] && r.transferOtherErrors == []
  {
    TransferResponse(true, [], [])
  }

  function Error(msg: string): (r: TransferResponse)
    ensures !r.success && WellFormed(r)
    ensures r.transferErrors == [msg] && r.transferOtherErrors == []
  {
    TransferResponse(false, [msg], [])
  }

  /** The list is passed through unchanged; an empty list gives a failure
      with no error at all, which is not well formed. */
  function Errors(errors: seq<string>): (r: TransferResponse)
    ensures !r.success
    ensures r.transferErrors == errors && r.transferOtherErrors == []
    ensures WellFormed(r) <==> errors != []
  {
    TransferResponse(false, errors, [])
  }

  function OtherError(msg: string): (r: TransferResponse)
    ensures !r.success && WellFormed(r)
    ensures r.transferErrors == [] && r.transferOtherErrors == [msg]
  {
    TransferResponse(false, [], [msg])
  }

  function OtherErrors(errors: seq<string>): (r: TransferResponse)
    ensures !r.success
    ensures r.transferErrors == [] && r.transferOtherErrors == errors
    ensures WellFormed(r) <==> errors != []
  {
    TransferResponse(false, [], errors)
  }

  function FullError(own: seq<string>, other: seq<string>): (r: TransferResponse)
    ensures !r.success
    ensures r.transferErrors == own && r.transferOtherErrors == other
    ensures WellFormed(r) <==> own != [] || other != []
  {
    TransferResponse(false, own, other)
  }
}

/** CashOperationResponse and its static factories. */
module CashResponses {

  /** An error line of a cash response. The insufficient-funds line is a
      formatted string in the source ("%s %s" of a BigDecimal and a code);
      it is kept here as its two arguments. */
  datatype ErrorText = Plain(text: string) | InsufficientFunds(available: real, currency: string)

  datatype CashOperationResponse = CashOperationResponse(success: bool, errors: seq<ErrorText>)

  function Success(): (r: CashOperationResponse)
    ensures r.success && r.errors == []
  {
    CashOperationResponse(true, [])
  }

  function Error(msg: ErrorText): (r: CashOperationResponse)
    ensures !r.success && r.errors == [msg]
  {
    CashOperationResponse(false, [msg])
  }

  /** error(List): the list unchanged, never a success. */
  function ErrorList(errors: seq<ErrorText>): (r: CashOperationResponse)
    ensures !r.success && r.errors == errors
  {
    CashOperationResponse(false, errors)
  }

  /** No factory yields a success that carries errors. */
  lemma NoSuccessWithErrors(msg: ErrorText, errors: seq<ErrorText>)
    ensures Success().errors == []
    ensures !Error(msg).success && !ErrorList(errors).success
  {
  }
}
