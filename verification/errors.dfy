/** The failures the pipeline reports, one constructor per distinct exception or
    message in analyze.py. */
module Errors {

  /** One field-level complaint of the itinerary schema check, in the order the
      schema declares its fields. */
  datatype Violation =
    | NotAnObject
    | Missing(field: string)
    | NotAString(field: string)
    | TooShort(field: string)
    | TooLong(field: string)
    | NotAList(field: string)
    | ItemNotAString(field: string, index: nat)

  datatype Error =
    | MissingApiKey                          // the credential is unset or empty
    | ProviderFailure(reason: string)        // the completion call itself failed
    | UnexpectedFormat                       // neither access path reaches the output text
    | NotText                                // a truthy payload that is not a string has no strip()
    | EmptyOutput                            // nothing left after trimming
    | InvalidJson                            // the normalised text does not parse
    | SchemaMismatch(violations: seq<Violation>)
}
