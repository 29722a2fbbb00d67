/** The single normalisation point of the resolvers: every caught error is
    turned into a list of `{field, message}` entries (`toErrorDetails` in
    graphql/resolvers.js). */
module Errors {
  import opened Common

  const ValidationCode := "VALIDATION_ERROR"
  const DuplicateKeyCode := 11000

  /** The field a duplicate-key error blames: the first key of its
      `keyPattern`, or "unknown" when there is none or it is the empty
      (falsy) string. */
  function DuplicateField(keyPattern: seq<string>): (field: string)
    ensures field != ""
    ensures |keyPattern| > 0 && keyPattern[0] != "" ==> field == keyPattern[0]
    ensures field != "unknown" ==> |keyPattern| > 0 && field == keyPattern[0]
  {
    if |keyPattern| > 0 && keyPattern[0] != "" then keyPattern[0] else "unknown"
  }

  /** True when the error carries validation details that are passed on verbatim. */
  predicate IsValidationFailure(e: Exception) {
    e.code == StrCode(ValidationCode) && e.details.Some?
  }

  /** True when the error is MongoDB's duplicate-key error. */
  predicate IsDuplicateKey(e: Exception) {
    e.code == NumCode(DuplicateKeyCode)
  }

  /** The message of the single entry a duplicate-key error becomes. */
  function UniqueMessage(field: string): string {
    field + " already exists (must be unique)"
  }

  /** The single entry any other error becomes: field "general", the error's
      message, or "Unknown error" when that message is empty. */
  function GeneralDetail(e: Exception): ErrorDetail {
    ErrorDetail("general", if e.message == "" then "Unknown error" else e.message)
  }

  /** Classifies a caught error into the entries a failure payload carries. */
  function ToErrorDetails(e: Exception): (r: seq<ErrorDetail>)
    ensures IsValidationFailure(e) ==> r == e.details.value
    ensures !IsValidationFailure(e) ==> |r| == 1
    ensures !IsValidationFailure(e) && IsDuplicateKey(e) ==>
              r[0].field == DuplicateField(e.keyPattern) && r[0].message == UniqueMessage(r[0].field)
    ensures !IsValidationFailure(e) && !IsDuplicateKey(e) ==>
              r[0].field == "general" && r[0].message != "" &&
              (e.message != "" ==> r[0].message == e.message)
    ensures !IsValidationFailure(e) && !IsDuplicateKey(e) && e.message == "" ==> r[0].message == "Unknown error"
  {
    if IsValidationFailure(e) then e.details.value
    else if IsDuplicateKey(e) then
      var field := DuplicateField(e.keyPattern);
      [ErrorDetail(field, UniqueMessage(field))]
    else [GeneralDetail(e)]
  }

  /** The classifier returns nothing only for a validation error whose details
      array is itself empty; every other error yields at least one entry. */
  lemma EmptyOnlyForEmptyDetails(e: Exception)
    ensures ToErrorDetails(e) == [] <==> IsValidationFailure(e) && e.details.value == []
  {
  }

  /** A validation error's code wins over everything else it carries: the
      details are returned even if a key pattern is present. */
  lemma ValidationWinsOverKeyPattern(details: seq<ErrorDetail>, message: string, keys: seq<string>)
    ensures ToErrorDetails(Exception(message, StrCode(ValidationCode), Some(details), keys)) == details
  {
  }

  /** The code must be the number 11000: the string "11000" falls through to
      the general entry. */
  lemma DuplicateCodeIsNumeric(message: string, keys: seq<string>)
    requires message != ""
    ensures ToErrorDetails(Exception(message, StrCode("11000"), None, keys)) == [ErrorDetail("general", message)]
  {
  }
}
