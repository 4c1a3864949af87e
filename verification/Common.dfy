/** Shared value types: optional values and the result of a call that may raise. */
module Common {

  datatype Option<+T> = None | Some(value: T)

  /** The error codes the approval service raises, plus those of the database, an `assert` and the provider. */
  datatype ErrorCode =
    | IDEMPOTENCY_CONFLICT
    | APPROVAL_NOT_FOUND
    | APPROVAL_EXPIRED
    | INVALID_APPROVAL_STATE
    | SELF_APPROVAL_FORBIDDEN
    | INVALID_REQUEST
    | POLICY_UNAVAILABLE
    | INTEGRITY_ERROR
    | ASSERTION_FAILED
    | PROVIDER_FAILED

  datatype Result<+T> = Ok(value: T) | Raised(error: ErrorCode)

  /** The characters that Python's `str.isspace`, `str.strip` and the pattern `\s` treat as white space. */
  predicate IsSpace(c: char) {
    || '\U{0009}' <= c <= '\U{000D}'
    || '\U{001C}' <= c <= '\U{0020}'
    || c == '\U{0085}' || c == '\U{00A0}' || c == '\U{1680}'
    || '\U{2000}' <= c <= '\U{200A}'
    || c == '\U{2028}' || c == '\U{2029}' || c == '\U{202F}' || c == '\U{205F}' || c == '\U{3000}'
  }
}
