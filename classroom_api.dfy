/**
 * bot/utils/classroom_api.py: turning the outcome of `get_credentials`
 * into a Classroom service, an authorization URL or an error object, and
 * the two listings built on it. The Google API calls are parameters: the
 * success of `build(...)`, and each `execute()` as an `Option` whose `None`
 * means the call raised.
 */
module ClassroomApi {
  import opened Wrappers
  import opened PyText
  import opened ClassroomFeed
  import GoogleAuth
  import StateToken

  /** What `get_classroom_service` returns: the consent URL (a bare string), an `{"error": ...}` object, or a built service. */
  datatype Service = AuthUrl(url: string) | Failed(error: string) | Built(creds: GoogleAuth.CredentialInfo)

  const ServiceFailed := "Failed to get classroom service. Please try again later."

  /**
   * `get_classroom_service`. The "auth_url" case is checked before the
   * "error" case; a refresh error is passed on as the same message; valid
   * credentials give a service when `build` succeeds. Any exception, from
   * loading the token, building the flow or building the service, becomes
   * the fixed service error.
   */
  function GetClassroomService(creds: GoogleAuth.Outcome, buildOk: bool): (r: Service)
    ensures creds.AuthUrl? ==> r == AuthUrl(creds.url)
    ensures creds.Error? ==> r == Failed(creds.message)
    ensures r.Built? <==> creds.Creds? && buildOk
    ensures r.Built? ==> r.creds == creds.info
    ensures creds.Raised? || (creds.Creds? && !buildOk) ==> r == Failed(ServiceFailed)
  {
    match creds
    case AuthUrl(url) => AuthUrl(url)
    case Error(message) => Failed(message)
    case Creds(info) => if buildOk then Built(info) else Failed(ServiceFailed)
    case Raised => Failed(ServiceFailed)
  }

  /**
   * A client without usable stored credentials never gets a service: it is
   * sent the consent URL whose `state` decodes to its own id, or the fixed
   * service error when the flow cannot be built.
   */
  lemma UnauthorizedClientGetsConsentUrl(clientId: string, loaded: GoogleAuth.Loaded,
                                         refreshed: Option<GoogleAuth.CredentialInfo>,
                                         authorizationUrl: string -> Option<string>, buildOk: bool)
    requires !GoogleAuth.Usable(loaded)
    ensures var r := GetClassroomService(GoogleAuth.CredentialsOutcome(clientId, loaded, refreshed, authorizationUrl), buildOk);
      && (r.AuthUrl? || r == Failed(ServiceFailed))
      && (r.AuthUrl? ==> exists state :: authorizationUrl(state) == Some(r.url)
                                      && StateToken.Decode(GoogleAuth.StateKey, state) == Some(clientId))
  {
    var r := GetClassroomService(GoogleAuth.CredentialsOutcome(clientId, loaded, refreshed, authorizationUrl), buildOk);
    if r.AuthUrl? {
      var state := GoogleAuth.State(clientId);
      assert authorizationUrl(state) == Some(r.url);
    }
  }

  /**
   * A stored token whose JSON is not an object ends in the fixed service
   * error: the exception escapes `load_credentials` and `get_credentials`
   * and is caught here, so the client is not sent a consent URL.
   */
  lemma NonObjectTokenGivesServiceError(clientId: string, resp: GoogleAuth.Response, parse: string -> GoogleAuth.ParsedToken,
                                        refreshed: Option<GoogleAuth.CredentialInfo>,
                                        authorizationUrl: string -> Option<string>, buildOk: bool)
    requires GoogleAuth.StoredToken(resp).Some? && parse(GoogleAuth.StoredToken(resp).value).NotAnObject?
    ensures GetClassroomService(GoogleAuth.CredentialsOutcome(clientId, GoogleAuth.LoadCredentials(resp, parse),
                                                              refreshed, authorizationUrl), buildOk)
      == Failed(ServiceFailed)
  {
    GoogleAuth.NonObjectTokenRaises(clientId, resp, parse, refreshed, authorizationUrl);
  }

  /** The result of `list_classrooms`: the course objects, or an `{"error": ...}` object. */
  datatype Classrooms = Courses(courses: seq<Obj>) | Error(message: string)

  const AuthorizeForClassrooms := "Please authorize first to access classrooms."
  const ClassroomsFailed := "Failed to fetch classrooms. Please try again later."

  /**
   * `list_classrooms`, with `fetched` the result of the courses call:
   * `None` when it raised, `Some(None)` when the reply has no "courses".
   * An error object is passed through unchanged, a bare URL asks for
   * authorization, and a missing "courses" entry is the empty list.
   */
  function ListClassrooms(service: Service, fetched: Option<Option<seq<Obj>>>): (r: Classrooms)
    ensures service.Failed? ==> r == Error(service.error)
    ensures service.AuthUrl? ==> r == Error(AuthorizeForClassrooms)
    ensures r.Courses? <==> service.Built? && fetched.Some?
    ensures r.Courses? ==> r.courses == fetched.value.GetOr([])
    ensures service.Built? && fetched.None? ==> r == Error(ClassroomsFailed)
  {
    match service
    case Failed(error) => Error(error)
    case AuthUrl(_) => Error(AuthorizeForClassrooms)
    case Built(_) =>
      match fetched
      case None => Error(ClassroomsFailed)
      case Some(courses) => Courses(courses.GetOr([]))
  }

  /** The result of `list_announcements`: the numbered top items, or an `{"error": ...}` object. */
  datatype Announcements = Items(items: seq<TopItem>) | Failure(message: string)

  const AuthorizeForClassroom := "Please authorize first to access Google Classroom."
  const NoItems := "No items found for this course."
  const ItemsFailed := "Failed to fetch items. Please try again later."

  /**
   * `list_announcements` as a value. `fetchAnnouncements` and
   * `fetchMaterials` take the course id as `int(course_id)` reads it and
   * give the listed items (absent lists already read as empty), or `None`
   * when the call raised. A course id that is not an integer, a failed
   * call or a creation time that does not parse is the generic error.
   */
  function AnnouncementsResult(courseId: string, service: Service,
                               fetchAnnouncements: int -> Option<seq<Item>>, fetchMaterials: int -> Option<seq<Item>>,
                               formatDate: string -> Option<string>): (r: Announcements)
    ensures service.Failed? ==> r == Failure(service.error)
    ensures service.AuthUrl? ==> r == Failure(AuthorizeForClassroom)
    ensures service.Built? && ParseInt(courseId).None? ==> r == Failure(ItemsFailed)
    ensures service.Built? && ParseInt(courseId).Some? &&
            (fetchAnnouncements(ParseInt(courseId).value).None? || fetchMaterials(ParseInt(courseId).value).None?)
            ==> r == Failure(ItemsFailed)
    ensures r.Items? ==> 0 < |r.items| <= 3
    ensures r.Items? ==> service.Built? && ParseInt(courseId).Some?
  {
    match service
    case Failed(error) => Failure(error)
    case AuthUrl(_) => Failure(AuthorizeForClassroom)
    case Built(_) =>
      match ParseInt(courseId)
      case None => Failure(ItemsFailed)
      case Some(id) =>
        match (fetchAnnouncements(id), fetchMaterials(id))
        case (Some(announcements), Some(materials)) =>
          var feed := Feed(Current, announcements, materials, formatDate);
          if feed.None? then Failure(ItemsFailed)
          else if feed.value == [] then Failure(NoItems)
          else
            FeedEntries(Current, announcements, materials, formatDate);
            Items(feed.value)
        case _ => Failure(ItemsFailed)
  }

  /**
   * With a service and a readable course id whose lists are fetched, the
   * "no items" error comes exactly when both lists are empty; when every
   * kept item's date parses there are items exactly when a list is
   * non-empty; items are always the feed of those lists, and a date that
   * does not parse is the generic error.
   */
  lemma NoItemsExactlyWhenEmpty(courseId: string, creds: GoogleAuth.CredentialInfo,
                                fetchAnnouncements: int -> Option<seq<Item>>, fetchMaterials: int -> Option<seq<Item>>,
                                formatDate: string -> Option<string>)
    requires ParseInt(courseId).Some?
    requires fetchAnnouncements(ParseInt(courseId).value).Some? && fetchMaterials(ParseInt(courseId).value).Some?
    ensures var announcements := fetchAnnouncements(ParseInt(courseId).value).value;
      var materials := fetchMaterials(ParseInt(courseId).value).value;
      var feed := Feed(Current, announcements, materials, formatDate);
      var r := AnnouncementsResult(courseId, Built(creds), fetchAnnouncements, fetchMaterials, formatDate);
      && (r == Failure(NoItems) <==> announcements == [] && materials == [])
      && (feed.Some? ==> (r.Items? <==> announcements != [] || materials != []))
      && (r.Items? ==> Some(r.items) == feed)
      && (feed.None? ==> r == Failure(ItemsFailed))
  {
    var id := ParseInt(courseId).value;
    FeedEmpty(Current, fetchAnnouncements(id).value, fetchMaterials(id).value, formatDate);
  }

  /** `list_announcements`: fetch both lists, then assemble the feed with its loops. */
  method ListAnnouncements(courseId: string, service: Service,
                           fetchAnnouncements: int -> Option<seq<Item>>, fetchMaterials: int -> Option<seq<Item>>,
                           formatDate: string -> Option<string>) returns (r: Announcements)
    ensures r == AnnouncementsResult(courseId, service, fetchAnnouncements, fetchMaterials, formatDate)
  {
    if service.Failed? {
      return Failure(service.error);
    } else if service.AuthUrl? {
      return Failure(AuthorizeForClassroom);
    }
    var id := ParseInt(courseId);
    if id.None? {
      return Failure(ItemsFailed);
    }
    var announcements := fetchAnnouncements(id.value);
    if announcements.None? {
      return Failure(ItemsFailed);
    }
    var materials := fetchMaterials(id.value);
    if materials.None? {
      return Failure(ItemsFailed);
    }
    var top := AssembleFeed(Current, announcements.value, materials.value, formatDate);
    if top.None? {
      return Failure(ItemsFailed);
    }
    if top.value == [] {
      return Failure(NoItems);
    }
    r := Items(top.value);
  }
}
