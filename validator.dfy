/**
 * The shapes of the validation crate's result types that the service
 * consumes. Only what the service reads is kept: a field error's code and
 * optional message; of the nested kinds (a struct, a list) only that they
 * are there.
 */
module Validator {
  import opened Wrappers

  /** One failed rule on one field: its code and, when the rule set one, a message. */
  datatype ValidationError = ValidationError(code: string, message: Option<string>)

  /** What the per-field map holds for one field. */
  datatype ValidationErrorsKind =
    | Struct
    | List
    | Field(errors: seq<ValidationError>)

  /**
   * The per-field map, listed in the order the map is iterated;
   * that order is the hash map's and is taken here as given.
   */
  datatype ValidationErrors = ValidationErrors(fields: seq<(string, ValidationErrorsKind)>)
}
