/** get_api_key (analyze.py:16-20): the provider credential read from the environment. */
module ApiKey {
  import opened Wrappers
  import opened Errors

  /** The environment variable that holds the credential. */
  const ApiKeyVariable := "GROQ_API_KEY"

  /** `env` is the value of the variable `ApiKeyVariable`, `None` when it is unset. An unset and an empty
      value both fail; any other value, blank or not, is returned unchanged. */
  function GetApiKey(env: Option<string>): (r: Result<string, Error>)
    ensures r.Success? <==> env.Some? && env.value != []
    ensures r.Success? ==> r.value == env.value
    ensures r.Failure? ==> r.error == MissingApiKey
  {
    match env
    case Some(key) => if key == [] then Failure(MissingApiKey) else Success(key)
    case None => Failure(MissingApiKey)
  }
}
