/**
  Small shared vocabulary: an optional value (the source's `T | null` and
  optional properties) and the notifications the alert service shows.
 */
module Common {

  /** `None` stands for `null`/`undefined`, `Some(v)` for a present value. */
  datatype Option<+T> = None | Some(value: T)

  /** One call of the alert service: `success(text)` or `error(text)`. */
  datatype Alert = SuccessAlert(text: string) | ErrorAlert(text: string)

  /** One entry of a server `errors` array: an optional field and a message. */
  datatype ApiError = ApiError(field: Option<string>, message: string)

  /** JavaScript truthiness of an optional string: present and non-empty. */
  predicate TruthyText(s: Option<string>)
  {
    s.Some? && s.value != ""
  }

  /** The string-valued `a || b` of JavaScript for an optional string. */
  function TextOr(s: Option<string>, fallback: string): (r: string)
    ensures TruthyText(s) ==> r == s.value
    ensures !TruthyText(s) ==> r == fallback
  {
    if TruthyText(s) then s.value else fallback
  }
}
