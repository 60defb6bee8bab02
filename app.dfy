/**
 * The application shell: the session flags that say who is signed in, login
 * and logout, the redirect from "/", and whether the navigation bar and
 * footer are shown.
 */
module App {

  const LOGGED_IN_KEY := "loggedIn"
  const ROLE_KEY := "role"

  /** Where `RedirectLogic` sends "/". */
  datatype Route = AdminDashboard | Home | LoginSelector

  /** Signed in as "admin": the admin dashboard; signed in otherwise: home; signed out: the login selector. */
  function RedirectTarget(loggedIn: bool, role: string): (r: Route)
    ensures r == AdminDashboard <==> loggedIn && role == "admin"
    ensures r == Home <==> loggedIn && role != "admin"
    ensures r == LoginSelector <==> !loggedIn
  {
    if loggedIn then (if role == "admin" then AdminDashboard else Home) else LoginSelector
  }

  /** The navigation bar and the footer are rendered for every role but "admin". */
  predicate ShowsChrome(role: string) {
    role != "admin"
  }

  /** The initial state read from session storage: `loggedIn === "true"` and `role || ""`. */
  function FromSession(items: map<string, string>): (r: (bool, string))
    ensures r.0 <==> LOGGED_IN_KEY in items && items[LOGGED_IN_KEY] == "true"
    ensures ROLE_KEY in items ==> r.1 == items[ROLE_KEY]
    ensures ROLE_KEY !in items ==> r.1 == ""
  {
    (LOGGED_IN_KEY in items && items[LOGGED_IN_KEY] == "true", if ROLE_KEY in items then items[ROLE_KEY] else "")
  }

  /** What `handleLogin(role)` writes to session storage. */
  function AfterLogin(items: map<string, string>, role: string): map<string, string> {
    items[LOGGED_IN_KEY := "true"][ROLE_KEY := role]
  }

  /** What `handleLogout` leaves in session storage. */
  function AfterLogout(items: map<string, string>): map<string, string> {
    items - {LOGGED_IN_KEY, ROLE_KEY}
  }

  /** A reload after login restores the same signed-in state. */
  lemma LoginSurvivesReload(items: map<string, string>, role: string)
    ensures FromSession(AfterLogin(items, role)) == (true, role)
  {
  }

  /** A reload after logout restores the signed-out state, whatever was stored before. */
  lemma LogoutSurvivesReload(items: map<string, string>)
    ensures FromSession(AfterLogout(items)) == (false, "")
  {
  }

  /** The two login pages: the admin lands on the dashboard without the chrome, a student on home with it. */
  lemma LoginRoutes()
    ensures RedirectTarget(true, "admin") == AdminDashboard && !ShowsChrome("admin")
    ensures RedirectTarget(true, "student") == Home && ShowsChrome("student")
  {
  }

  /** The browser's session storage. */
  class Session {
    var items: map<string, string>

    constructor (initial: map<string, string>)
      ensures items == initial
    {
      items := initial;
    }
  }

  class Shell {
    const session: Session
    var loggedIn: bool
    var role: string

    /** The state agrees with what a reload would read back. */
    ghost predicate InSync()
      reads this, session
    {
      (loggedIn, role) == FromSession(session.items)
    }

    constructor (session: Session)
      ensures this.session == session
      ensures (loggedIn, role) == FromSession(session.items)
      ensures InSync()
    {
      this.session := session;
      var s := FromSession(session.items);
      loggedIn := s.0;
      role := s.1;
    }

    /** `handleLogin(userRole)`: signed in with that role, in the state and in session storage. */
    method HandleLogin(userRole: string)
      modifies this, session
      ensures loggedIn && role == userRole
      ensures session.items == AfterLogin(old(session.items), userRole)
      ensures InSync()
    {
      loggedIn := true;
      role := userRole;
      session.items := AfterLogin(session.items, userRole);
      LoginSurvivesReload(old(session.items), userRole);
    }

    /** `handleLogout`: signed out with no role, both session flags removed. */
    method HandleLogout()
      modifies this, session
      ensures !loggedIn && role == ""
      ensures session.items == AfterLogout(old(session.items))
      ensures InSync()
    {
      loggedIn := false;
      role := "";
      session.items := AfterLogout(session.items);
      LogoutSurvivesReload(old(session.items));
    }

    /** The student login page's callback. */
    method StudentLogin()
      modifies this, session
      ensures loggedIn && role == "student" && ShowsChrome(role)
      ensures RedirectTarget(loggedIn, role) == Home
      ensures session.items == AfterLogin(old(session.items), "student")
    {
      HandleLogin("student");
    }

    /** The admin login page's callback. */
    method AdminLogin()
      modifies this, session
      ensures loggedIn && role == "admin" && !ShowsChrome(role)
      ensures RedirectTarget(loggedIn, role) == AdminDashboard
      ensures session.items == AfterLogin(old(session.items), "admin")
    {
      HandleLogin("admin");
    }
  }
}
