/**
 * The authentication store: the signed-in user, the API token, the copy of
 * the token kept in local storage and the `Authorization` header installed
 * on the API client. The two network calls are inputs: the reply of
 * `POST /auth/login/` and the reply of `GET /auth/me/`.
 */
module Auth {
  import opened Wrappers

  datatype Role = Admin | Interviewer | ContactRole

  datatype User = User(id: int, username: string, email: string, role: Role,
                       phone: Option<string>, createdAt: string)

  /** The body of a successful login reply; either field may be missing. */
  datatype LoginData = LoginData(token: Option<string>, user: Option<User>)

  /** Everything the store and its side effects hold. `failed` stands for a
      non-null `error`. */
  datatype AuthState = AuthState(
    token: Option<string>,
    user: Option<User>,
    storedToken: Option<string>,
    authHeader: Option<string>,
    failed: bool)

  /** Only administrators and interviewers may use the app. */
  predicate AllowedRole(role: Role) {
    role == Admin || role == Interviewer
  }

  /** `!!token.value`: present and non-empty. */
  predicate HasToken(s: AuthState) {
    s.token.Some? && s.token.value != ""
  }

  predicate IsAuthenticated(s: AuthState) {
    HasToken(s) && s.user.Some?
  }

  predicate IsAdmin(s: AuthState) {
    s.user.Some? && s.user.value.role == Admin
  }

  predicate IsInterviewer(s: AuthState) {
    s.user.Some? && s.user.value.role == Interviewer
  }

  predicate CanLogin(s: AuthState) {
    s.user.Some? && AllowedRole(s.user.value.role)
  }

  /** The text a template literal or `localStorage.setItem` makes of the
      token: a missing token becomes "undefined". */
  function TokenText(token: Option<string>): string {
    if token.Some? then token.value else "undefined"
  }

  function Header(token: Option<string>): string {
    "Token " + TokenText(token)
  }

  /** What the store keeps true between calls: a user is only ever kept when
      its role may log in, an installed header carries the current token, and
      a token in memory is the one in local storage. */
  ghost predicate Consistent(s: AuthState) {
    (s.user.Some? ==> AllowedRole(s.user.value.role))
    && (s.authHeader.Some? ==> s.authHeader == Some(Header(s.token)))
    && (s.token.Some? ==> s.storedToken == s.token)
  }

  /** The state when the app starts: the token read back from local storage. */
  function Initial(stored: Option<string>): (s: AuthState)
    ensures Consistent(s) && !IsAuthenticated(s)
    ensures s.token == stored && s.storedToken == stored && s.user.None?
    ensures s.authHeader.None? && !s.failed
  {
    AuthState(stored, None, stored, None, false)
  }

  /** `logout()`: user, token, stored token and header all removed. */
  function LoggedOut(s: AuthState): AuthState {
    s.(token := None, user := None, storedToken := None, authHeader := None)
  }

  /** `login(username, password)` given the reply of the login request: the
      new state and the returned boolean. */
  function LoginResult(s: AuthState, reply: Reply<LoginData>): (AuthState, bool) {
    match reply
    case Ok(data) =>
      if data.user.Some? && AllowedRole(data.user.value.role) then
        (s.(token := data.token, user := data.user,
            storedToken := Some(TokenText(data.token)),
            authHeader := Some(Header(data.token)), failed := false), true)
      else
        (LoggedOut(s).(failed := true), false)
    case Failed =>
      (LoggedOut(s).(failed := true), false)
  }

  /** Whether `checkAuth()` asks the server at all. */
  predicate ChecksServer(s: AuthState) {
    HasToken(s)
  }

  /** `checkAuth()` given the reply of `GET /auth/me/`: the new state and the
      returned boolean. */
  function CheckAuthResult(s: AuthState, reply: Reply<Option<User>>): (AuthState, bool) {
    if !HasToken(s) then (s, false)
    else
      var h := s.(authHeader := Some(Header(s.token)));
      match reply
      case Failed => (LoggedOut(h), false)
      case Ok(u) =>
        if u.Some? && AllowedRole(u.value.role) then (h.(user := u), true)
        else (LoggedOut(h.(user := u)), false)
  }

  /** The role predicates: a user who can log in is an administrator or an
      interviewer, and never both. */
  lemma RolePredicates(s: AuthState)
    ensures CanLogin(s) <==> IsAdmin(s) || IsInterviewer(s)
    ensures !(IsAdmin(s) && IsInterviewer(s))
    ensures IsAuthenticated(s) ==> s.user.Some?
  {
  }

  /** In a consistent state every signed-in user may log in. */
  lemma AuthenticatedCanLogin(s: AuthState)
    requires Consistent(s)
    ensures IsAuthenticated(s) ==> CanLogin(s)
    ensures s.user.Some? <==> CanLogin(s)
  {
  }

  /** Logging out signs out, clears every trace of the token and keeps the
      state consistent; doing it twice is the same as once. */
  lemma LogoutSpec(s: AuthState)
    ensures !IsAuthenticated(LoggedOut(s)) && !CanLogin(LoggedOut(s))
    ensures Consistent(LoggedOut(s))
    ensures LoggedOut(s).storedToken.None? && LoggedOut(s).authHeader.None?
    ensures LoggedOut(LoggedOut(s)) == LoggedOut(s)
    ensures LoggedOut(s).failed == s.failed
  {
  }

  /** Login succeeds exactly when the server answers with a user whose role
      may log in; then the token is stored and installed as the header.
      Otherwise everything is cleared and the error is set. */
  lemma LoginSpec(s: AuthState, reply: Reply<LoginData>)
    ensures LoginResult(s, reply).1 <==>
      reply.Ok? && reply.payload.user.Some? && AllowedRole(reply.payload.user.value.role)
    ensures LoginResult(s, reply).1 ==>
      var t := LoginResult(s, reply).0;
      CanLogin(t) && t.user == reply.payload.user && t.token == reply.payload.token
      && t.storedToken == Some(TokenText(reply.payload.token))
      && t.authHeader == Some("Token " + TokenText(reply.payload.token)) && !t.failed
      && (IsAuthenticated(t) <==> reply.payload.token.Some? && reply.payload.token.value != "")
    ensures !LoginResult(s, reply).1 ==>
      var t := LoginResult(s, reply).0;
      t.failed && !IsAuthenticated(t) && t.user.None? && t.token.None?
      && t.storedToken.None? && t.authHeader.None?
    ensures Consistent(LoginResult(s, reply).0)
  {
  }

  /** Without a token `checkAuth` answers false and changes nothing. With one
      it installs the header and answers true exactly when the server returns
      a user whose role may log in, who then becomes the user; otherwise it
      logs out. It never touches the error. */
  lemma CheckAuthSpec(s: AuthState, reply: Reply<Option<User>>)
    requires Consistent(s)
    ensures !ChecksServer(s) ==> CheckAuthResult(s, reply) == (s, false)
    ensures ChecksServer(s) ==>
      (CheckAuthResult(s, reply).1 <==>
        reply.Ok? && reply.payload.Some? && AllowedRole(reply.payload.value.role))
    ensures CheckAuthResult(s, reply).1 ==>
      var t := CheckAuthResult(s, reply).0;
      IsAuthenticated(t) && CanLogin(t) && t.user == reply.payload
      && t.token == s.token && t.authHeader == Some("Token " + s.token.value)
    ensures ChecksServer(s) && !CheckAuthResult(s, reply).1 ==>
      CheckAuthResult(s, reply).0 == LoggedOut(s)
    ensures CheckAuthResult(s, reply).0.failed == s.failed
    ensures Consistent(CheckAuthResult(s, reply).0)
  {
  }

  /** The store, with local storage and the API client's default header as
      two more fields it writes. */
  class AuthStore {
    var token: Option<string>
    var user: Option<User>
    var storedToken: Option<string>
    var authHeader: Option<string>
    var failed: bool

    function State(): AuthState
      reads this
    {
      AuthState(token, user, storedToken, authHeader, failed)
    }

    ghost predicate Valid()
      reads this
    {
      Consistent(State())
    }

    /** The store is created with the token found in local storage. */
    constructor (stored: Option<string>)
      ensures Valid()
      ensures State() == Initial(stored)
    {
      token := stored;
      user := None;
      storedToken := stored;
      authHeader := None;
      failed := false;
    }

    /** `login(username, password)`; the credentials only shape the request. */
    method Login(reply: Reply<LoginData>) returns (ok: bool)
      requires Valid()
      modifies this
      ensures Valid()
      ensures (State(), ok) == LoginResult(old(State()), reply)
    {
      failed := false;
      var clear := true;
      if reply.Ok? {
        token := reply.payload.token;
        user := reply.payload.user;
        if user.Some? && AllowedRole(user.value.role) {
          storedToken := Some(TokenText(token));
          authHeader := Some(Header(token));
          clear := false;
        }
      }
      if clear {
        failed := true;
        token := None;
        user := None;
        storedToken := None;
        authHeader := None;
        ok := false;
      } else {
        ok := true;
      }
      LoginSpec(old(State()), reply);
    }

    /** `logout()` */
    method Logout()
      modifies this
      ensures Valid()
      ensures State() == LoggedOut(old(State()))
    {
      user := None;
      token := None;
      storedToken := None;
      authHeader := None;
    }

    /** `checkAuth()`; `requested` says whether the server was asked. */
    method CheckAuth(reply: Reply<Option<User>>) returns (ok: bool, requested: bool)
      requires Valid()
      modifies this
      ensures Valid()
      ensures requested == ChecksServer(old(State()))
      ensures (State(), ok) == CheckAuthResult(old(State()), reply)
    {
      CheckAuthSpec(State(), reply);
      if token.None? || token.value == "" {
        return false, false;
      }
      requested := true;
      authHeader := Some("Token " + token.value);
      if reply.Failed? {
        Logout();
        return false, true;
      }
      user := reply.payload;
      if user.None? || !AllowedRole(user.value.role) {
        Logout();
        return false, true;
      }
      ok := true;
    }
  }
}
