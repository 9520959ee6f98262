/**
 * bot/utils/google_auth_old.py, the earlier credential module: the stored
 * token is handed out as raw JSON tagged "CRED", otherwise a consent URL
 * tagged "AUTH"; its Classroom helpers re-raise instead of returning error
 * objects; and its announcement listing repeats the classroom feed with
 * the legacy (mis-encoded) material labels and no description.
 */
module GoogleAuthOld {
  import opened Wrappers
  import opened PyText
  import opened ClassroomFeed
  import StateToken
  import Base64Url
  import GoogleAuth
  import ClassroomApi

  /** A JSON value as `json.loads` builds it (numbers are integers here). */
  datatype Json =
    | Null
    | Bool(b: bool)
    | Number(n: int)
    | Str(s: string)
    | Array(elems: seq<Json>)
    | Object(fields: map<string, Json>)

  /** Python truthiness of the loaded value. */
  predicate Truthy(j: Json) {
    match j
    case Null => false
    case Bool(b) => b
    case Number(n) => n != 0
    case Str(s) => s != ""
    case Array(elems) => elems != []
    case Object(fields) => fields != map[]
  }

  /**
   * `load_credentials`: `json.loads` of the stored "token" text, or `None`
   * when the request fails, the status is an error, the body is not JSON,
   * the token is missing or empty, or it does not parse. Unlike the current
   * module it does not look for an "error" entry.
   */
  function LoadCredentials(resp: GoogleAuth.Response, loads: string -> Option<Json>): (r: Option<Json>)
    ensures resp.NoResponse? || !resp.ok || resp.body.NotJson? ==> r.None?
    ensures resp.Response? && resp.body.Json? && ("token" !in resp.body.fields || resp.body.fields["token"] == "") ==> r.None?
    ensures r.Some? <==>
      resp.Response? && resp.ok && resp.body.Json? && "token" in resp.body.fields
      && resp.body.fields["token"] != "" && loads(resp.body.fields["token"]).Some?
    ensures r.Some? ==> r == loads(resp.body.fields["token"])
  {
    match resp
    case NoResponse => None
    case Response(ok, body) =>
      if !ok then None
      else match body
        case NotJson => None
        case Json(fields) =>
          if "token" !in fields || fields["token"] == "" then None
          else loads(fields["token"])
  }

  /** A backend body that reports an error but still carries a token is loaded all the same. */
  lemma ErrorEntryIgnored(error: string, token: string, loads: string -> Option<Json>)
    requires token != ""
    ensures LoadCredentials(GoogleAuth.Response(true, GoogleAuth.Json(map["error" := error, "token" := token])), loads) == loads(token)
  {
    var fields := map["error" := error, "token" := token];
    assert "token" in fields && fields["token"] == token;
  }

  /** The key of the one-entry JSON object carried in `state` by this module. */
  const StateKey := "user_id"

  /** The OAuth `state`: padded base64url of `json.dumps({"user_id": userId})`; it decodes back to the user id. */
  function State(userId: string): (r: string)
    ensures StateToken.Carries(StateKey, userId, r)
  {
    StateToken.TokenFacts(StateKey, userId);
    StateToken.Encode(StateKey, userId)
  }

  /** The tagged object `get_credentials` returns, or `FlowRaised` when building the flow raises. */
  datatype Tagged = Cred(data: Json) | Auth(url: string) | FlowRaised

  /** The "type" entry of a tagged result. */
  function TypeName(t: Tagged): (r: string)
    requires !t.FlowRaised?
    ensures r == "CRED" <==> t.Cred?
    ensures r == "AUTH" <==> t.Auth?
  {
    if t.Cred? then "CRED" else "AUTH"
  }

  /**
   * `get_credentials`: any truthy loaded token is returned as "CRED", with
   * no validity or expiry check and no refresh; otherwise the consent URL
   * for this user's `state` is returned as "AUTH".
   */
  function GetCredentials(userId: string, loaded: Option<Json>, authorizationUrl: string -> Option<string>): (r: Tagged)
    ensures r.Cred? <==> loaded.Some? && Truthy(loaded.value)
    ensures r.Cred? ==> r.data == loaded.value
    ensures r.Auth? <==> !(loaded.Some? && Truthy(loaded.value)) && authorizationUrl(State(userId)).Some?
    ensures r.Auth? ==> Some(r.url) == authorizationUrl(State(userId))
  {
    if loaded.Some? && Truthy(loaded.value) then Cred(loaded.value)
    else match authorizationUrl(State(userId))
      case None => FlowRaised
      case Some(url) => Auth(url)
  }

  /** A stored token whose JSON is falsy (`0`, `""`, `[]`, `{}`, `null`, `false`) starts the flow as if none were stored. */
  lemma FalsyTokenStartsFlow(userId: string, resp: GoogleAuth.Response, loads: string -> Option<Json>,
                             authorizationUrl: string -> Option<string>)
    requires LoadCredentials(resp, loads).Some? && !Truthy(LoadCredentials(resp, loads).value)
    ensures GetCredentials(userId, LoadCredentials(resp, loads), authorizationUrl) ==
      GetCredentials(userId, None, authorizationUrl)
  {
  }

  /** How `delete_credentials` ends: normally, or by re-raising the failure it logged. */
  datatype Completion = Completed | Reraised

  /** `delete_credentials`: completes exactly when a reply arrived with a success status; the body is not read. */
  function DeleteCredentials(resp: GoogleAuth.Response): (r: Completion)
    ensures r.Completed? <==> resp.Response? && resp.ok
  {
    if resp.Response? && resp.ok then Completed else Reraised
  }

  /** The exception kinds the listing tells apart. */
  datatype Failure = HttpError(text: string) | OtherError

  /** A call that returns a value or raises. */
  datatype Call<T> = Done(value: T) | Threw(failure: Failure)

  /**
   * `get_classroom_service`: `Credentials.from_authorized_user_info` of
   * the tagged "data", then `build`. An "AUTH" result hands a URL string to
   * `from_authorized_user_info`, which raises, so the consent URL never
   * reaches the caller. Every failure is re-raised.
   */
  function GetClassroomService(creds: Tagged, fromInfo: Json -> Option<GoogleAuth.CredentialInfo>,
                               buildFailure: Option<Failure>): (r: Call<GoogleAuth.CredentialInfo>)
    ensures r.Done? <==> creds.Cred? && fromInfo(creds.data).Some? && buildFailure.None?
    ensures r.Done? ==> Some(r.value) == fromInfo(creds.data)
    ensures creds.Cred? && fromInfo(creds.data).Some? && buildFailure.Some? ==> r == Threw(buildFailure.value)
    ensures creds.Auth? ==> r.Threw?
  {
    match creds
    case Cred(data) =>
      (match fromInfo(data)
       case None => Threw(OtherError)
       case Some(info) => if buildFailure.None? then Done(info) else Threw(buildFailure.value))
    case Auth(_) => Threw(OtherError)
    case FlowRaised => Threw(OtherError)
  }

  /** `list_classrooms`: the courses, a missing "courses" entry read as empty; any failure is re-raised unchanged. */
  function ListClassrooms(service: Call<GoogleAuth.CredentialInfo>, fetched: Call<Option<seq<Obj>>>): (r: Call<seq<Obj>>)
    ensures service.Threw? ==> r == Threw(service.failure)
    ensures service.Done? && fetched.Threw? ==> r == Threw(fetched.failure)
    ensures r.Done? <==> service.Done? && fetched.Done?
    ensures r.Done? ==> r.value == fetched.value.GetOr([])
  {
    match service
    case Threw(f) => Threw(f)
    case Done(_) =>
      match fetched
      case Threw(f) => Threw(f)
      case Done(courses) => Done(courses.GetOr([]))
  }

  const ApiErrorPrefix := "Google API error: "

  /** The handlers of `list_announcements_by_course`: an `HttpError` is reported with its text, anything else generically. */
  function ErrorMessage(f: Failure): (r: string)
    ensures f.HttpError? ==> r == ApiErrorPrefix + f.text
    ensures f.OtherError? ==> r == ClassroomApi.ItemsFailed
  {
    match f
    case HttpError(text) => ApiErrorPrefix + text
    case OtherError => ClassroomApi.ItemsFailed
  }

  /**
   * `list_announcements_by_course` with the service obtained by a call that
   * matches the signature of `get_classroom_service(user_id)`: the shared
   * feed in the legacy style, the "no items" error for an empty feed, and
   * the handlers' messages for anything raised. The service is a built
   * service or an exception here, so the dictionary and string checks that
   * follow the call never apply.
   */
  function ListAnnouncementsByCourse(courseId: string, service: Call<GoogleAuth.CredentialInfo>,
                                     fetchAnnouncements: int -> Call<seq<Item>>, fetchMaterials: int -> Call<seq<Item>>,
                                     formatDate: string -> Option<string>): (r: ClassroomApi.Announcements)
    ensures service.Threw? ==> r == ClassroomApi.Failure(ErrorMessage(service.failure))
    ensures service.Done? && ParseInt(courseId).None? ==> r == ClassroomApi.Failure(ClassroomApi.ItemsFailed)
    ensures service.Done? && ParseInt(courseId).Some? && fetchAnnouncements(ParseInt(courseId).value).Threw? ==>
              r == ClassroomApi.Failure(ErrorMessage(fetchAnnouncements(ParseInt(courseId).value).failure))
    ensures service.Done? && ParseInt(courseId).Some? && fetchAnnouncements(ParseInt(courseId).value).Done? &&
            fetchMaterials(ParseInt(courseId).value).Threw? ==>
              r == ClassroomApi.Failure(ErrorMessage(fetchMaterials(ParseInt(courseId).value).failure))
    ensures r.Items? ==> && service.Done? && ParseInt(courseId).Some?
                         && fetchAnnouncements(ParseInt(courseId).value).Done?
                         && fetchMaterials(ParseInt(courseId).value).Done?
                         && Some(r.items) == Feed(Legacy, fetchAnnouncements(ParseInt(courseId).value).value,
                                                  fetchMaterials(ParseInt(courseId).value).value, formatDate)
    ensures r.Items? ==> 0 < |r.items| <= 3 && forall k :: 0 <= k < |r.items| ==> r.items[k].description.None?
  {
    match service
    case Threw(f) => ClassroomApi.Failure(ErrorMessage(f))
    case Done(_) =>
      match ParseInt(courseId)
      case None => ClassroomApi.Failure(ClassroomApi.ItemsFailed)
      case Some(id) =>
        match fetchAnnouncements(id)
        case Threw(f) => ClassroomApi.Failure(ErrorMessage(f))
        case Done(announcements) =>
          match fetchMaterials(id)
          case Threw(f) => ClassroomApi.Failure(ErrorMessage(f))
          case Done(materials) =>
            var feed := Feed(Legacy, announcements, materials, formatDate);
            if feed.None? then ClassroomApi.Failure(ClassroomApi.ItemsFailed)
            else if feed.value == [] then ClassroomApi.Failure(ClassroomApi.NoItems)
            else
              LegacyHasNoDescription(announcements, materials, formatDate);
              ClassroomApi.Items(feed.value)
  }

  /** The legacy feed carries no "description" entry. */
  lemma LegacyHasNoDescription(announcements: seq<Item>, materials: seq<Item>, formatDate: string -> Option<string>)
    ensures Feed(Legacy, announcements, materials, formatDate).Some? ==>
      var entries := Feed(Legacy, announcements, materials, formatDate).value;
      && |entries| == Min(3, |announcements| + |materials|)
      && forall k :: 0 <= k < |entries| ==> entries[k].description.None?
  {
    if Feed(Legacy, announcements, materials, formatDate).Some? {
      FeedEntries(Legacy, announcements, materials, formatDate);
    }
  }

  /**
   * With a service and a readable course id whose lists are fetched, the
   * corrected listing reports "no items" exactly when both lists are empty,
   * lists items exactly when a list is non-empty and every kept date
   * parses, and those items are the legacy feed of the two lists.
   */
  lemma NoItemsExactlyWhenEmpty(courseId: string, creds: GoogleAuth.CredentialInfo,
                                fetchAnnouncements: int -> Call<seq<Item>>, fetchMaterials: int -> Call<seq<Item>>,
                                formatDate: string -> Option<string>)
    requires ParseInt(courseId).Some?
    requires fetchAnnouncements(ParseInt(courseId).value).Done? && fetchMaterials(ParseInt(courseId).value).Done?
    ensures var announcements := fetchAnnouncements(ParseInt(courseId).value).value;
      var materials := fetchMaterials(ParseInt(courseId).value).value;
      var feed := Feed(Legacy, announcements, materials, formatDate);
      var r := ListAnnouncementsByCourse(courseId, Done(creds), fetchAnnouncements, fetchMaterials, formatDate);
      && (r == ClassroomApi.Failure(ClassroomApi.NoItems) <==> announcements == [] && materials == [])
      && (feed.Some? ==> (r.Items? <==> announcements != [] || materials != []))
      && (feed.None? ==> r == ClassroomApi.Failure(ClassroomApi.ItemsFailed))
  {
    var id := ParseInt(courseId).value;
    FeedEmpty(Legacy, fetchAnnouncements(id).value, fetchMaterials(id).value, formatDate);
  }

  /** The number of parameters `get_classroom_service` declares. */
  const ServiceParameters := 1

  /**
   * `list_announcements_by_course` as written: its first statement passes
   * two arguments (`user_id, username`) to `get_classroom_service`, which
   * declares one, so Python raises `TypeError` before anything else runs
   * and the generic handler turns it into the fixed error.
   */
  function ListAnnouncementsAsWritten(courseId: string, userId: string, username: string,
                                      service: Call<GoogleAuth.CredentialInfo>,
                                      fetchAnnouncements: int -> Call<seq<Item>>, fetchMaterials: int -> Call<seq<Item>>,
                                      formatDate: string -> Option<string>): (r: ClassroomApi.Announcements)
    ensures r.Failure?
  {
    var argumentsPassed := |[userId, username]|;
    if argumentsPassed != ServiceParameters then ClassroomApi.Failure(ErrorMessage(OtherError))
    else ListAnnouncementsByCourse(courseId, service, fetchAnnouncements, fetchMaterials, formatDate)
  }

  /** As written, every call ends in the generic error, whatever the service, the course and its items. */
  lemma AsWrittenAlwaysFails(courseId: string, userId: string, username: string,
                             service: Call<GoogleAuth.CredentialInfo>,
                             fetchAnnouncements: int -> Call<seq<Item>>, fetchMaterials: int -> Call<seq<Item>>,
                             formatDate: string -> Option<string>)
    ensures ListAnnouncementsAsWritten(courseId, userId, username, service, fetchAnnouncements, fetchMaterials, formatDate)
      == ClassroomApi.Failure(ClassroomApi.ItemsFailed)
  {
  }

  /**
   * A readable course id whose two calls succeed and list at least one item,
   * with working credentials and dates that all format: the corrected call
   * lists the items, the code as written reports the generic error.
   */
  lemma AsWrittenLosesTheFeed(courseId: string, userId: string, username: string, creds: GoogleAuth.CredentialInfo,
                              fetchAnnouncements: int -> Call<seq<Item>>, fetchMaterials: int -> Call<seq<Item>>,
                              formatDate: string -> Option<string>)
    requires ParseInt(courseId).Some?
    requires fetchAnnouncements(ParseInt(courseId).value).Done? && fetchMaterials(ParseInt(courseId).value).Done?
    requires fetchAnnouncements(ParseInt(courseId).value).value != [] || fetchMaterials(ParseInt(courseId).value).value != []
    requires forall s :: formatDate(s).Some?
    ensures ListAnnouncementsByCourse(courseId, Done(creds), fetchAnnouncements, fetchMaterials, formatDate).Items?
    ensures ListAnnouncementsAsWritten(courseId, userId, username, Done(creds), fetchAnnouncements, fetchMaterials, formatDate)
      == ClassroomApi.Failure(ClassroomApi.ItemsFailed)
  {
    var id := ParseInt(courseId).value;
    var announcements := fetchAnnouncements(id).value;
    var materials := fetchMaterials(id).value;
    FeedTotal(Legacy, announcements, materials, formatDate);
    FeedEmpty(Legacy, announcements, materials, formatDate);
  }
}
