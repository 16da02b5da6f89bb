/**
 * The authentication store: the demo credential table, the login lookup,
 * the session check over a stored token, and the four-field auth state with
 * its transitions. The state keeps `isAuthenticated` exactly when a user is set.
 */
module AuthSlice {
  import opened Wrappers

  /** The user a session carries: never the password. */
  datatype AuthUser = AuthUser(username: string, name: string, role: string)

  /** One entry of the credential table. */
  datatype Account = Account(username: string, password: string, name: string, role: string)

  /** The two demo accounts, in table order. */
  const Accounts := [
    Account("admin", "admin123", "Admin User", "admin"),
    Account("user", "user123", "Regular User", "user")
  ]

  const InvalidCredentials := "Invalid credentials"

  predicate Matches(a: Account, username: string, password: string)
  {
    a.username == username && a.password == password
  }

  /** `accounts.find(u => u.username === username && u.password === password)`. */
  function FindAccount(accounts: seq<Account>, username: string, password: string): (r: Option<Account>)
    ensures r.None? <==> forall i :: 0 <= i < |accounts| ==> !Matches(accounts[i], username, password)
    ensures r.Some? ==> r.value in accounts && Matches(r.value, username, password)
    decreases |accounts|
  {
    if accounts == [] then None
    else if Matches(accounts[0], username, password) then Some(accounts[0])
    else
      assert forall i :: 1 <= i < |accounts| ==> accounts[i] == accounts[1..][i - 1];
      FindAccount(accounts[1..], username, password)
  }

  /** The session user built from an account: its name fields, without the password. */
  function SessionUser(a: Account): AuthUser
  {
    AuthUser(a.username, a.name, a.role)
  }

  /**
   * `login` with the delay and token storage removed: succeeds exactly when
   * some account matches both username and password, with that account's
   * username, name and role; otherwise rejects with "Invalid credentials".
   */
  function Login(username: string, password: string): (r: Result<AuthUser, string>)
    ensures r.Success? <==> exists i :: 0 <= i < |Accounts| && Matches(Accounts[i], username, password)
    ensures r.Success? ==> exists a :: a in Accounts && Matches(a, username, password) && r.value == SessionUser(a)
    ensures r.Success? ==> r.value.username == username
    ensures r.Failure? ==> r.error == InvalidCredentials
  {
    match FindAccount(Accounts, username, password)
    case None => Failure(InvalidCredentials)
    case Some(a) => Success(SessionUser(a))
  }

  /** The two demo logins, and a wrong password for a known name. */
  lemma LoginExamples()
    ensures Login("admin", "admin123") == Success(AuthUser("admin", "Admin User", "admin"))
    ensures Login("user", "user123") == Success(AuthUser("user", "Regular User", "user"))
    ensures Login("admin", "user123") == Failure(InvalidCredentials)
  {
    assert !Matches(Accounts[0], "admin", "user123");
    assert !Matches(Accounts[1], "admin", "user123");
  }

  /** A successful login's name fields are those of the one account with that username. */
  lemma LoginUserIsTableEntry(username: string, password: string)
    requires Login(username, password).Success?
    ensures username == "admin" ==> Login(username, password).value == AuthUser("admin", "Admin User", "admin")
    ensures username == "user" ==> Login(username, password).value == AuthUser("user", "Regular User", "user")
    ensures username == "admin" || username == "user"
  {
  }

  /** What local storage holds under the token key: nothing, or a string whose decoding may fail. */
  datatype StoredToken = NoToken | Token(text: string, decoded: Option<AuthUser>)

  /** `checkAuth`: no token, an empty token or one that does not decode gives null; otherwise the decoded user. */
  function CheckAuth(t: StoredToken): (r: Option<AuthUser>)
    ensures r.Some? <==> t.Token? && t.text != "" && t.decoded.Some?
    ensures r.Some? ==> r == t.decoded
  {
    match t
    case NoToken => None
    case Token(text, decoded) => if text == "" then None else decoded
  }

  // ---------------------------------------------------------------------------
  // The auth state and its transitions

  datatype AuthSnapshot = AuthSnapshot(user: Option<AuthUser>, isAuthenticated: bool, isLoading: bool, error: Option<string>)

  /** Nobody signed in, the session check still to run. */
  const InitialAuth := AuthSnapshot(None, false, true, None)

  /** The actions the auth reducer handles. */
  datatype AuthAction =
    | ClearError
    | LoginPending
    | LoginFulfilled(payload: AuthUser)
    | LoginRejected(rejection: Option<string>)
    | LogoutFulfilled
    | CheckAuthPending
    | CheckAuthFulfilled(session: Option<AuthUser>)

  /** The auth invariant: signed in exactly when a user is set. */
  predicate Consistent(s: AuthSnapshot)
  {
    s.isAuthenticated <==> s.user.Some?
  }

  /** One reducer step. */
  function Step(s: AuthSnapshot, a: AuthAction): (r: AuthSnapshot)
    ensures Consistent(s) ==> Consistent(r)
  {
    match a
    case ClearError => s.(error := None)
    case LoginPending => s.(isLoading := true, error := None)
    case LoginFulfilled(u) => s.(isLoading := false, isAuthenticated := true, user := Some(u), error := None)
    case LoginRejected(e) => s.(isLoading := false, isAuthenticated := false, user := None, error := e)
    case LogoutFulfilled => s.(isAuthenticated := false, user := None)
    case CheckAuthPending => s.(isLoading := true)
    case CheckAuthFulfilled(u) => s.(isLoading := false, isAuthenticated := u.Some?, user := u)
  }

  /** The steps that set both user and flag restore the invariant from any state, not only a consistent one. */
  lemma SessionStepsRestoreConsistency(s: AuthSnapshot, a: AuthAction)
    requires a.LoginFulfilled? || a.LoginRejected? || a.LogoutFulfilled? || a.CheckAuthFulfilled?
    ensures Consistent(Step(s, a))
    ensures a.LogoutFulfilled? ==> Step(s, a).isLoading == s.isLoading && Step(s, a).error == s.error
    ensures a.LoginRejected? ==> Step(s, a).user.None? && Step(s, a).error == a.rejection
  {
  }

  /** The state after a sequence of actions. */
  function Run(s: AuthSnapshot, actions: seq<AuthAction>): AuthSnapshot
    decreases |actions|
  {
    if actions == [] then s else Run(Step(s, actions[0]), actions[1..])
  }

  /** Every state reachable from the initial one keeps the invariant. */
  lemma {:induction false} RunKeepsConsistency(s: AuthSnapshot, actions: seq<AuthAction>)
    requires Consistent(s)
    ensures Consistent(Run(s, actions))
    decreases |actions|
  {
    if actions != [] {
      RunKeepsConsistency(Step(s, actions[0]), actions[1..]);
    }
  }

  lemma ReachableStatesConsistent(actions: seq<AuthAction>)
    ensures Consistent(Run(InitialAuth, actions))
  {
    RunKeepsConsistency(InitialAuth, actions);
  }

  class AuthState {
    var user: Option<AuthUser>
    var isAuthenticated: bool
    var isLoading: bool
    var error: Option<string>

    function State(): AuthSnapshot
      reads this
    {
      AuthSnapshot(user, isAuthenticated, isLoading, error)
    }

    predicate Valid()
      reads this
    {
      Consistent(State())
    }

    constructor()
      ensures State() == InitialAuth && Valid()
    {
      user := None;
      isAuthenticated := false;
      isLoading := true;
      error := None;
    }

    /** Applies one action, as the store does on dispatch. */
    method Dispatch(a: AuthAction)
      modifies this
      ensures State() == Step(old(State()), a)
      ensures old(Valid()) ==> Valid()
    {
      match a
      case ClearError =>
        error := None;
      case LoginPending =>
        isLoading := true;
        error := None;
      case LoginFulfilled(u) =>
        isLoading := false;
        isAuthenticated := true;
        user := Some(u);
        error := None;
      case LoginRejected(e) =>
        isLoading := false;
        isAuthenticated := false;
        user := None;
        error := e;
      case LogoutFulfilled =>
        isAuthenticated := false;
        user := None;
      case CheckAuthPending =>
        isLoading := true;
      case CheckAuthFulfilled(u) =>
        isLoading := false;
        isAuthenticated := u.Some?;
        user := u;
    }

    /** Dispatching `login`: signed in as the matching account, or signed out with "Invalid credentials". */
    method RunLogin(username: string, password: string)
      modifies this
      ensures Valid() && !isLoading
      ensures isAuthenticated <==> Login(username, password).Success?
      ensures Login(username, password).Success? ==> user == Some(Login(username, password).value) && error == None
      ensures Login(username, password).Failure? ==> user == None && error == Some(InvalidCredentials)
    {
      Dispatch(LoginPending);
      match Login(username, password)
      case Success(u) => Dispatch(LoginFulfilled(u));
      case Failure(e) => Dispatch(LoginRejected(Some(e)));
    }

    /** Dispatching `logout`: signed out; the loading flag and the error stay. */
    method RunLogout()
      modifies this
      ensures State() == old(State()).(isAuthenticated := false, user := None)
      ensures Valid()
    {
      Dispatch(LogoutFulfilled);
    }

    /** Dispatching `checkAuth`: signed in exactly when the stored token decodes to a user. */
    method RunCheckAuth(t: StoredToken)
      modifies this
      ensures Valid() && !isLoading
      ensures user == CheckAuth(t) && error == old(error)
      ensures isAuthenticated <==> t.Token? && t.text != "" && t.decoded.Some?
    {
      Dispatch(CheckAuthPending);
      Dispatch(CheckAuthFulfilled(CheckAuth(t)));
    }
  }
}
