/** The `handler` of the serverless function: the status code and body it returns for a
    request, given what the spreadsheet collaborators deliver. The collaborators are inputs:
    a collaborator that throws is an absent value. */
module Api {
  import opened Wrappers
  import opened Text
  import opened Sheet
  import opened Login
  import opened Permissions

  /** The fields of the JSON body the handler reads. */
  datatype Payload = Payload(action: string, username: string, password: string)

  /** One invocation: the HTTP method and the parsed body (`None` when `JSON.parse` throws). */
  datatype Event = Event(httpMethod: string, payload: Option<Payload>)

  /** What the collaborators deliver on this invocation: whether the service-account
      credentials parse, the user sheet `ข้อมูลusername & password` and the sheet
      `permissionDashboard` (`None` when the document cannot be loaded or the tab is missing). */
  datatype Backend = Backend(credentialsConfigured: bool, users: Option<Table>, permissions: Option<Table>)

  /** The responses the handler produces. */
  datatype Response =
    | Preflight                              // OPTIONS: 204, empty body
    | LoginOk(permissions: seq<string>)      // 200, { success: true, permissions }
    | LoginRejected                          // 401, { success: false, message }
    | InvalidAction                          // 400, { success: false, message: 'Invalid action' }
    | InternalError                          // 500, { success: false, message }

  function StatusCode(r: Response): (code: int)
    ensures code in {200, 204, 400, 401, 500}
    ensures (code == 200) == r.LoginOk?
  {
    match r
    case Preflight => 204
    case LoginOk(_) => 200
    case LoginRejected => 401
    case InvalidAction => 400
    case InternalError => 500
  }

  /** The request gets past the parts of the `try` block that can fail before the action is
      looked at: the body parses and the service-account credentials are configured. */
  predicate Admitted(event: Event, backend: Backend) {
    event.httpMethod != "OPTIONS" && event.payload.Some? && backend.credentialsConfigured
  }

  /** A `login` request that reaches the credential check: the user sheet was loaded. */
  predicate LoginAttempted(event: Event, backend: Backend) {
    Admitted(event, backend) && event.payload.value.action == "login" && backend.users.Some?
  }

  /** The credential check of a login attempt finds a matching user row. */
  predicate Authenticated(event: Event, backend: Backend)
    requires LoginAttempted(event, backend)
  {
    var p := event.payload.value;
    FindUser(backend.users.value, p.username, p.password).Some?
  }

  /** The handler's decision. OPTIONS is answered before anything else; every collaborator
      failure inside the `try` block becomes a 500; a `login` whose credentials match no user
      row is a 401 and never reaches the permission sheet. */
  function Handle(event: Event, backend: Backend): (r: Response)
    ensures StatusCode(r) == 204 <==> event.httpMethod == "OPTIONS"
    ensures StatusCode(r) == 400 <==> Admitted(event, backend) && event.payload.value.action != "login"
    ensures StatusCode(r) == 401 <==> LoginAttempted(event, backend) && !Authenticated(event, backend)
    ensures StatusCode(r) == 200 <==>
      LoginAttempted(event, backend) && Authenticated(event, backend) && backend.permissions.Some?
    ensures StatusCode(r) == 500 <==>
      || (event.httpMethod != "OPTIONS" && !Admitted(event, backend))
      || (Admitted(event, backend) && event.payload.value.action == "login" && backend.users.None?)
      || (LoginAttempted(event, backend) && Authenticated(event, backend) && backend.permissions.None?)
    ensures r.LoginOk? ==>
      r.permissions == PermissionsFor(backend.permissions.value, event.payload.value.username)
  {
    if event.httpMethod == "OPTIONS" then Preflight
    else if event.payload.None? || !backend.credentialsConfigured then InternalError
    else
      var p := event.payload.value;
      if p.action == "login" then
        match backend.users
        case None => InternalError
        case Some(users) =>
          if FindUser(users, p.username, p.password).Some? then
            match backend.permissions
            case None => InternalError
            case Some(permissions) => LoginOk(PermissionsFor(permissions, p.username))
          else
            LoginRejected
      else
        InvalidAction
  }

  /** A rejected login never consults the permission sheet: whatever that sheet holds, or
      whether it can be loaded at all, the response stays 401 with no permissions. */
  lemma RejectionIgnoresPermissionSheet(event: Event, backend: Backend, other: Option<Table>)
    requires LoginAttempted(event, backend) && !Authenticated(event, backend)
    ensures Handle(event, backend.(permissions := other)) == LoginRejected
  {
  }

  /** Whitespace around the submitted username does not stop the login, but the permission
      lookup compares the untrimmed username with trimmed cells and so finds no row: a caller
      who logs in with a padded username always receives an empty permission list. */
  lemma {:induction false} PaddedUsernameLogsInWithoutPermissions(
    event: Event, backend: Backend, a: string, b: string)
    requires LoginAttempted(event, backend) && Authenticated(event, backend)
    requires backend.permissions.Some?
    requires AllSpace(a) && AllSpace(b) && a + b != []
    ensures var p := event.payload.value;
      Handle(event.(payload := Some(p.(username := a + p.username + b))), backend) == LoginOk([])
  {
    var p := event.payload.value;
    var padded := a + p.username + b;
    LoginIgnoresSurroundingWhitespace(backend.users.value, p.username, p.password, a, b, [], []);
    assert [] + p.password + [] == p.password;
    assert !Trimmed(padded) by {
      if a != [] {
        assert padded[0] == a[0];
      } else {
        assert padded[|padded| - 1] == b[|b| - 1];
      }
    }
    UntrimmedUsernameHasNoPermissions(backend.permissions.value, padded);
  }
}
