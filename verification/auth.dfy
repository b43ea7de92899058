/**
 * Access-key authentication: the decision the `require_access_key`
 * decorator and `AccessKeyAuth.authenticate` take for a request, from the
 * key in its header and the keys the application is configured with.
 * Aborting the request is a `Reject` with its HTTP status; `Allow` stands
 * for running the handler with the key recorded for the request.
 */
module Auth {
  import opened Opt

  const DefaultHeader := "X-Access-Key"
  const MissingKeyMessage := "Missing Access Key. Include X-Access-Key header."
  const NoKeysMessage := "No Access Keys configured on server"
  const InvalidKeyMessage := "Invalid Access Key"

  /** What the Flask application's config holds: the access keys of
      `APP_CONFIG` when it is set, and the separate `ACCESS_KEYS` setting
      when that is set. */
  datatype AppContext = AppContext(appConfigKeys: Option<seq<string>>, accessKeysSetting: Option<seq<string>>)

  datatype Decision = Reject(status: int, message: string) | Allow(key: string)

  /** `get_access_keys_from_config`: `APP_CONFIG` wins whenever it is set,
      even with an empty list. */
  function ValidKeys(ctx: AppContext): (r: seq<string>)
    ensures ctx.appConfigKeys.Some? ==> r == ctx.appConfigKeys.value
    ensures ctx.appConfigKeys.None? ==> r == ctx.accessKeysSetting.GetOr([])
  {
    match ctx.appConfigKeys
    case Some(keys) => keys
    case None => ctx.accessKeysSetting.GetOr([])
  }

  /** `validate_access_key`: membership in `APP_CONFIG`'s keys when it is
      set, else in the `ACCESS_KEYS` setting, and false when neither is set. */
  function ValidateAccessKey(key: string, ctx: AppContext): (r: bool)
    ensures ctx.appConfigKeys.Some? ==> (r <==> key in ctx.appConfigKeys.value)
    ensures ctx.appConfigKeys.None? ==> (r <==> key in ctx.accessKeysSetting.GetOr([]))
    ensures ctx.appConfigKeys.None? && ctx.accessKeysSetting.None? ==> !r
  {
    key in ValidKeys(ctx)
  }

  /** The checks of `require_access_key`, in order: a key in the header,
      some configured keys, membership. */
  function RequireAccessKey(header: Option<string>, ctx: AppContext): (r: Decision)
    ensures !Truthy(header) ==> r == Reject(401, MissingKeyMessage)
    ensures Truthy(header) && ValidKeys(ctx) == [] ==> r == Reject(500, NoKeysMessage)
    ensures Truthy(header) && ValidKeys(ctx) != [] && header.value !in ValidKeys(ctx) ==>
              r == Reject(401, InvalidKeyMessage)
    ensures r.Allow? <==> Truthy(header) && header.value in ValidKeys(ctx)
    ensures r.Allow? ==> r.key == header.value && r.key != ""
  {
    if !Truthy(header) then Reject(401, MissingKeyMessage)
    else
      var keys := ValidKeys(ctx);
      if keys == [] then Reject(500, NoKeysMessage)
      else if header.value !in keys then Reject(401, InvalidKeyMessage)
      else Allow(header.value)
  }

  function MissingHeaderMessage(headerName: string): string {
    "Missing " + headerName + " header"
  }

  /** `AccessKeyAuth.authenticate`: the same checks without the one for an
      empty key list, so that case is a 401 rather than a 500. */
  function Authenticate(header: Option<string>, headerName: string, ctx: AppContext): (r: Decision)
    ensures !Truthy(header) ==> r == Reject(401, MissingHeaderMessage(headerName))
    ensures Truthy(header) && !ValidateAccessKey(header.value, ctx) ==> r == Reject(401, InvalidKeyMessage)
    ensures r.Allow? <==> Truthy(header) && ValidateAccessKey(header.value, ctx)
    ensures r.Reject? ==> r.status == 401
  {
    if !Truthy(header) then Reject(401, MissingHeaderMessage(headerName))
    else if !ValidateAccessKey(header.value, ctx) then Reject(401, InvalidKeyMessage)
    else Allow(header.value)
  }

  /** The configuration is consulted only once a key is present: without
      one, the answer is the same 401 whatever the keys. */
  lemma MissingKeyBeforeConfig(header: Option<string>, ctx1: AppContext, ctx2: AppContext)
    requires !Truthy(header)
    ensures RequireAccessKey(header, ctx1) == RequireAccessKey(header, ctx2)
    ensures RequireAccessKey(header, ctx1).status == 401
  {
  }

  /** The two entry points let through exactly the same requests; they
      differ only in what they answer when no keys are configured. */
  lemma EntryPointsAgree(header: Option<string>, ctx: AppContext)
    ensures RequireAccessKey(header, ctx).Allow? <==> Authenticate(header, DefaultHeader, ctx).Allow?
    ensures RequireAccessKey(header, ctx).Allow? ==>
              RequireAccessKey(header, ctx) == Authenticate(header, DefaultHeader, ctx)
    ensures Truthy(header) && ValidKeys(ctx) == [] ==>
              RequireAccessKey(header, ctx).status == 500 && Authenticate(header, DefaultHeader, ctx).status == 401
  {
  }

  /** A non-empty key is accepted by `validate_access_key` exactly when the
      decorator lets its request through. */
  lemma ValidateIsRequireAllow(key: string, ctx: AppContext)
    requires key != ""
    ensures ValidateAccessKey(key, ctx) <==> RequireAccessKey(Some(key), ctx).Allow?
  {
  }

  /** An application config with an empty key list locks every request out,
      even a key the separate setting would accept. */
  lemma EmptyConfigLocksOut(header: Option<string>, settingKeys: seq<string>)
    requires Truthy(header) && header.value in settingKeys
    ensures RequireAccessKey(header, AppContext(Some([]), Some(settingKeys))) == Reject(500, NoKeysMessage)
    ensures RequireAccessKey(header, AppContext(None, Some(settingKeys))) == Allow(header.value)
  {
  }
}
