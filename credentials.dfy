/** `validate_credentials`: both credentials must be present and 32 characters long. */
module Credentials {
  import opened Types

  /** The two `ValueError`s the check raises. */
  datatype CredentialError = MissingCredentials | InvalidFormat

  datatype Validation = Valid | Invalid(error: CredentialError)

  /** Python's `not value` on an environment variable: unset (`None`) or the empty string. */
  predicate Blank(value: Option<string>)
  {
    value.None? || value.value == ""
  }

  /** Both credentials are set, non-empty and exactly 32 characters long. */
  predicate WellFormed(clientId: Option<string>, clientSecret: Option<string>)
  {
    clientId.Some? && clientSecret.Some? && |clientId.value| == 32 && |clientSecret.value| == 32
  }

  /** `validate_credentials(client_id, client_secret)`: returns normally, or raises one of two errors. */
  function ValidateCredentials(clientId: Option<string>, clientSecret: Option<string>): (r: Validation)
    ensures r == Valid <==> WellFormed(clientId, clientSecret)
    ensures r == Invalid(MissingCredentials) <==> Blank(clientId) || Blank(clientSecret)
    ensures r == Invalid(InvalidFormat) <==> !Blank(clientId) && !Blank(clientSecret) && !WellFormed(clientId, clientSecret)
  {
    if Blank(clientId) || Blank(clientSecret) then Invalid(MissingCredentials)
    else if |clientId.value| != 32 || |clientSecret.value| != 32 then Invalid(InvalidFormat)
    else Valid
  }
}
