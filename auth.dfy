/** The API-key check of `api/middleware/auth.py`. The configured key (the
    `API_KEY` environment variable, empty when unset) and the `X-API-Key`
    header of the request are parameters; an HTTP exception is a `Failure`. */
module Auth {
  import opened Common

  /** The `HTTPException` the check raises. */
  datatype HttpError = HttpError(statusCode: int, detail: string, wwwAuthenticate: string)

  const Unauthorized := 401
  const Forbidden := 403
  const MissingKeyDetail := "API Key 缺失。请在请求头中添加 'X-API-Key'"
  const InvalidKeyDetail := "API Key 无效"
  const NoAuthKey := "no-auth"

  /** `ENABLE_AUTH`: checking is on exactly when a key is configured. */
  predicate AuthEnabled(configuredKey: string) {
    configuredKey != ""
  }

  /** The header counts as missing when absent or empty (`not api_key`). */
  predicate Supplied(apiKey: Option<string>) {
    apiKey.Some? && apiKey.value != ""
  }

  /** `verify_api_key`. With checking off every request passes, with the
      supplied key or "no-auth" as its identity. With checking on, a request
      passes exactly when it carries the configured key, and is then
      identified by it; a missing key is refused with 401 and any other key
      with 403. */
  function VerifyApiKey(configuredKey: string, apiKey: Option<string>): (r: Result<string, HttpError>)
    ensures !AuthEnabled(configuredKey) ==>
      r.Success? && r.value == if Supplied(apiKey) then apiKey.value else NoAuthKey
    ensures AuthEnabled(configuredKey) ==> (r.Success? <==> apiKey == Some(configuredKey))
    ensures AuthEnabled(configuredKey) && r.Success? ==> r.value == configuredKey
    ensures r.Failure? ==> r.error.wwwAuthenticate == "ApiKey"
    ensures r.Failure? ==>
      && (r.error.statusCode == Unauthorized <==> !Supplied(apiKey))
      && (r.error.statusCode == Forbidden <==> Supplied(apiKey))
      && (r.error.detail == if Supplied(apiKey) then InvalidKeyDetail else MissingKeyDetail)
  {
    if !AuthEnabled(configuredKey) then
      Success(if Supplied(apiKey) then apiKey.value else NoAuthKey)
    else if !Supplied(apiKey) then
      Failure(HttpError(Unauthorized, MissingKeyDetail, "ApiKey"))
    else if apiKey.value != configuredKey then
      Failure(HttpError(Forbidden, InvalidKeyDetail, "ApiKey"))
    else
      Success(apiKey.value)
  }
}
