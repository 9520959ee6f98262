/**
 * The credential logic of bot/utils/google_auth.py: reading the stored
 * OAuth token from the backend, deciding between the stored credentials,
 * a refresh and a fresh authorization, the OAuth `state` value that names
 * the Discord client, and the reply to an unsubscribe request.
 *
 * The backend request, the Google libraries and the consent-URL builder
 * are parameters: a `Response` value stands for what `requests` returned,
 * `parse` for `json.loads` followed by `Credentials.from_authorized_user_info`
 * (a `ParsedToken`),
 * `refreshed` for the result of `creds.refresh(Request())` and
 * `authorizationUrl` for building the flow and its consent URL.
 */
module GoogleAuth {
  import opened Wrappers
  import StateToken
  import Base64Url

  /** A backend reply body: not JSON at all, or a JSON object whose values are strings. */
  datatype Body = NotJson | Json(fields: map<string, string>)

  /**
   * What a `requests` call produced: `NoResponse` when it raised before any
   * reply arrived (connection refused, timeout); otherwise whether
   * `raise_for_status` passes (status below 400) and the body.
   */
  datatype Response = NoResponse | Response(ok: bool, body: Body)

  /** The parts of a google-auth `Credentials` object the bot looks at. */
  datatype CredentialInfo = CredentialInfo(token: string, refreshToken: Option<string>, valid: bool, expired: bool)

  /** `creds.expired and creds.refresh_token`: expired, and the refresh token is present and non-empty. */
  predicate Refreshable(info: CredentialInfo) {
    info.expired && info.refreshToken.Some? && info.refreshToken.value != ""
  }

  /** The stored token text, when the reply is a successful JSON object without "error" and with a non-empty "token". */
  function StoredToken(resp: Response): (r: Option<string>)
    ensures r.Some? <==>
      resp.Response? && resp.ok && resp.body.Json? && "error" !in resp.body.fields
      && "token" in resp.body.fields && resp.body.fields["token"] != ""
    ensures r.Some? ==> r.value == resp.body.fields["token"] && r.value != ""
  {
    match resp
    case NoResponse => None
    case Response(ok, body) =>
      if !ok then None
      else match body
        case NotJson => None
        case Json(fields) =>
          if "error" in fields then None
          else if "token" !in fields || fields["token"] == "" then None
          else Some(fields["token"])
  }

  /**
   * What `json.loads(token)` followed by `Credentials.from_authorized_user_info`
   * gives: the credentials; `Invalid` when either raises `ValueError` (text
   * that is not JSON, an object without the required entries); or
   * `NotAnObject` when the JSON is a list, number, string or null, on which
   * `info.keys()` raises `AttributeError`.
   */
  datatype ParsedToken = Parsed(info: CredentialInfo) | Invalid | NotAnObject

  /** What a call of `load_credentials` did: return credentials or `None`, or raise. */
  datatype Loaded = Loaded(creds: Option<CredentialInfo>) | LoadRaised

  /** Credentials that `get_credentials` keeps: loaded, present and valid. */
  predicate Usable(loaded: Loaded) {
    loaded.Loaded? && loaded.creds.Some? && loaded.creds.value.valid
  }

  /**
   * `load_credentials`: the credentials built from the stored token, or
   * `None` when the request fails, the status is an error, the body is not
   * JSON, the body carries "error", the token is missing or empty, or the
   * token raises `ValueError`. A token whose JSON is not an object raises
   * `AttributeError`, which neither handler catches.
   */
  function LoadCredentials(resp: Response, parse: string -> ParsedToken): (r: Loaded)
    ensures resp.NoResponse? || !resp.ok || resp.body.NotJson? ==> r == Loaded(None)
    ensures resp.Response? && resp.body.Json? && "error" in resp.body.fields ==> r == Loaded(None)
    ensures resp.Response? && resp.body.Json? && ("token" !in resp.body.fields || resp.body.fields["token"] == "") ==> r == Loaded(None)
    ensures r.LoadRaised? <==> StoredToken(resp).Some? && parse(StoredToken(resp).value).NotAnObject?
    ensures r.Loaded? && r.creds.Some? <==> StoredToken(resp).Some? && parse(StoredToken(resp).value).Parsed?
    ensures r.Loaded? && r.creds.Some? ==> parse(resp.body.fields["token"]) == Parsed(r.creds.value)
  {
    match StoredToken(resp)
    case None => Loaded(None)
    case Some(token) =>
      match parse(token)
      case Parsed(info) => Loaded(Some(info))
      case Invalid => Loaded(None)
      case NotAnObject => LoadRaised
  }

  /** A google-auth `Credentials` object, updated in place by a refresh. */
  class Credentials {
    var info: CredentialInfo

    constructor (info: CredentialInfo)
      ensures this.info == info
    {
      this.info := info;
    }

    /**
     * `creds.refresh(Request())`: on success the object holds the refreshed
     * credentials; on failure it raises (`ok` is false) and the object is
     * left as it was.
     */
    method Refresh(refreshed: Option<CredentialInfo>) returns (ok: bool)
      modifies this
      ensures ok <==> refreshed.Some?
      ensures info == if ok then refreshed.value else old(info)
    {
      if refreshed.Some? {
        info := refreshed.value;
        ok := true;
      } else {
        ok := false;
      }
    }
  }

  /** The key of the one-entry JSON object carried in `state`. */
  const StateKey := "clientid"

  /**
   * The OAuth `state`: padded base64url (section 5 of RFC 4648) of
   * `json.dumps({"clientid": clientId})`. It decodes back to the client
   * id, uses only the URL-safe alphabet and '=', and has length 4*ceil(n/3)
   * for the n bytes of the JSON text.
   */
  function State(clientId: string): (r: string)
    ensures StateToken.Carries(StateKey, clientId, r)
  {
    StateToken.TokenFacts(StateKey, clientId);
    StateToken.Encode(StateKey, clientId)
  }

  /**
   * What `get_credentials` hands back, or `Raised` when it raises: loading
   * met a token that is not a JSON object, or building the flow failed.
   */
  datatype Outcome = AuthUrl(url: string) | Error(message: string) | Creds(info: CredentialInfo) | Raised

  const RefreshFailed := "Failed to refresh credentials. Please reauthorize."

  /** The authorization branch of `get_credentials`: the consent URL for this client's `state`. */
  function StartFlow(clientId: string, authorizationUrl: string -> Option<string>): (r: Outcome)
    ensures r.AuthUrl? || r.Raised?
    ensures r.AuthUrl? <==> authorizationUrl(State(clientId)).Some?
    ensures r.AuthUrl? ==> Some(r.url) == authorizationUrl(State(clientId))
  {
    match authorizationUrl(State(clientId))
    case None => Raised
    case Some(url) => AuthUrl(url)
  }

  /**
   * `get_credentials` as a decision table over what loading did: a raise
   * passes through; absent or not valid starts the flow (never an error);
   * valid, expired and refreshable tries a refresh, whose failure is the
   * fixed error; any other valid credentials come back untouched.
   */
  function CredentialsOutcome(clientId: string, loaded: Loaded, refreshed: Option<CredentialInfo>,
                              authorizationUrl: string -> Option<string>): (r: Outcome)
    ensures loaded.LoadRaised? ==> r == Raised
    ensures loaded.Loaded? ==> (r.AuthUrl? || r.Raised? <==> !Usable(loaded))
    ensures loaded.Loaded? && !Usable(loaded) ==> r == StartFlow(clientId, authorizationUrl)
    ensures r.Error? <==> Usable(loaded) && Refreshable(loaded.creds.value) && refreshed.None?
    ensures r.Error? ==> r.message == RefreshFailed
    ensures r.Creds? ==> Usable(loaded)
    ensures r.Creds? && !Refreshable(loaded.creds.value) ==> r.info == loaded.creds.value
    ensures r.Creds? && Refreshable(loaded.creds.value) ==> Some(r.info) == refreshed
  {
    if loaded.LoadRaised? then Raised
    else if Usable(loaded) then
      if Refreshable(loaded.creds.value) then
        match refreshed
        case None => Error(RefreshFailed)
        case Some(info) => Creds(info)
      else Creds(loaded.creds.value)
    else StartFlow(clientId, authorizationUrl)
  }

  /** `get_credentials`, refreshing the loaded credentials object in place when they are expired. */
  method GetCredentials(clientId: string, loaded: Loaded, refreshed: Option<CredentialInfo>,
                        authorizationUrl: string -> Option<string>) returns (r: Outcome)
    ensures r == CredentialsOutcome(clientId, loaded, refreshed, authorizationUrl)
  {
    if loaded.LoadRaised? {
      return Raised;
    }
    if Usable(loaded) {
      var creds := new Credentials(loaded.creds.value);
      if Refreshable(creds.info) {
        var ok := creds.Refresh(refreshed);
        if !ok {
          return Error(RefreshFailed);
        }
      }
      r := Creds(creds.info);
    } else {
      r := StartFlow(clientId, authorizationUrl);
    }
  }

  /** The prefix of the message `delete_token` builds from a backend error reply. */
  const DeleteFailedPrefix := "Failed to delete token:"

  /** What `delete_token` returns (a JSON object), or `HandlerRaised` when its error handler itself fails. */
  datatype Deletion = Returned(fields: map<string, string>) | HandlerRaised

  /**
   * `delete_token`. A successful JSON reply carrying "error" becomes
   * `{"error": msg}`; any other successful JSON reply is returned unchanged.
   * An error status whose JSON body carries "error" becomes
   * `{"error": "Failed to delete token:" + msg}`. Everything else raises
   * from inside the handler: no response object, a body that is not JSON,
   * or an error body without "error".
   */
  function DeleteToken(resp: Response): (r: Deletion)
    ensures resp.Response? && resp.ok && resp.body.Json? && "error" in resp.body.fields ==>
      r == Returned(map["error" := resp.body.fields["error"]])
    ensures resp.Response? && resp.ok && resp.body.Json? && "error" !in resp.body.fields ==>
      r == Returned(resp.body.fields)
    ensures resp.Response? && !resp.ok && resp.body.Json? && "error" in resp.body.fields ==>
      r == Returned(map["error" := DeleteFailedPrefix + resp.body.fields["error"]])
    ensures r.HandlerRaised? <==>
      resp.NoResponse? || resp.body.NotJson? || (!resp.ok && "error" !in resp.body.fields)
  {
    match resp
    case NoResponse => HandlerRaised
    case Response(ok, body) =>
      match body
      case NotJson => HandlerRaised
      case Json(fields) =>
        if ok then
          if "error" in fields then Returned(map["error" := fields["error"]]) else Returned(fields)
        else if "error" in fields then Returned(map["error" := DeleteFailedPrefix + fields["error"]])
        else HandlerRaised
  }

  /** A returned deletion reply has an "error" entry exactly when the backend reported one. */
  lemma DeleteTokenReportsErrors(resp: Response)
    requires DeleteToken(resp).Returned?
    ensures "error" in DeleteToken(resp).fields <==> "error" in resp.body.fields
    ensures !resp.ok ==> "error" in DeleteToken(resp).fields
  {
  }

  /** Credentials that are valid and not refreshable are returned as they were loaded, whatever a refresh would give. */
  lemma NoRefreshWhenNotExpired(clientId: string, info: CredentialInfo, refreshed: Option<CredentialInfo>,
                                authorizationUrl: string -> Option<string>)
    requires info.valid && !Refreshable(info)
    ensures CredentialsOutcome(clientId, Loaded(Some(info)), refreshed, authorizationUrl) == Creds(info)
  {
  }

  /** The only error `get_credentials` reports is a failed refresh; not-valid credentials always lead to the flow. */
  lemma FlowNeverErrors(clientId: string, resp: Response, parse: string -> ParsedToken,
                        refreshed: Option<CredentialInfo>, authorizationUrl: string -> Option<string>)
    requires LoadCredentials(resp, parse) == Loaded(None)
    ensures CredentialsOutcome(clientId, LoadCredentials(resp, parse), refreshed, authorizationUrl) ==
      StartFlow(clientId, authorizationUrl)
  {
  }

  /**
   * A stored token whose JSON is not an object makes `get_credentials`
   * raise, whatever the refresh and the flow would give: the consent URL
   * is not offered.
   */
  lemma NonObjectTokenRaises(clientId: string, resp: Response, parse: string -> ParsedToken,
                             refreshed: Option<CredentialInfo>, authorizationUrl: string -> Option<string>)
    requires StoredToken(resp).Some? && parse(StoredToken(resp).value).NotAnObject?
    ensures CredentialsOutcome(clientId, LoadCredentials(resp, parse), refreshed, authorizationUrl) == Raised
  {
  }
}
