/** The shared `AuthManager` of the stand-alone pages: two fields caching who
    is signed in, the request bodies it sends, and the page it navigates to,
    chosen by substring tests on the current path. The server's replies are
    parameters; a `fetch` that throws is the `Thrown` reply. The user record
    the server sends is opaque here, hence the type parameter. */
module AuthManager {
  import opened Wrappers
  import opened Text

  /** The JSON body of a reply: `data.user`, `data.message`, `data.error`. */
  datatype Body<User> = Body(user: Option<User>, message: Option<string>, error: Option<string>)

  /** A request either gets a response (`response.ok` and its body) or throws. */
  datatype Reply<User> = Answer(ok: bool, body: Body<User>) | Thrown(message: string)

  /** The object `login` and `register` resolve to. */
  datatype Outcome<User> = Success(user: Option<User>, message: Option<string>) | Failure(error: string)

  /** `data.error || fallback`: a missing or empty error falls back. */
  function ErrorText(error: Option<string>, fallback: string): string {
    if error.Some? && error.value != "" then error.value else fallback
  }

  /** The outcome of a login or register request for a given reply. */
  function OutcomeOf<User>(reply: Reply<User>, fallback: string): (o: Outcome<User>)
    ensures o.Success? <==> reply.Answer? && reply.ok
    ensures o.Success? ==> o == Success(reply.body.user, reply.body.message)
    ensures reply.Answer? && !reply.ok ==>
      o.error == (if reply.body.error.Some? && reply.body.error.value != "" then reply.body.error.value else fallback)
    ensures reply.Thrown? ==> o == Failure("Network error: " + reply.message)
  {
    match reply
    case Thrown(message) => Failure("Network error: " + message)
    case Answer(ok, body) =>
      if ok then Success(body.user, body.message) else Failure(ErrorText(body.error, fallback))
  }

  // ---------------------------------------------------------------------------
  // The register request body
  // ---------------------------------------------------------------------------

  datatype RegisterRequest = RegisterRequest(email: string, password: string, name: string, phone: Option<string>)

  /** `requestData`: e-mail and name trimmed, the password as typed, and a
      `phone` key only when the phone is present and not blank. */
  function RegisterBody(email: string, password: string, name: string, phone: Option<string>): (r: RegisterRequest)
    ensures r.email == Trim(email) && r.name == Trim(name) && r.password == password
    ensures r.phone.Some? <==> phone.Some? && !AllSpace(phone.value)
    ensures r.phone.Some? ==> r.phone.value == Trim(phone.value) && r.phone.value != []
  {
    var phoneField := if phone.Some? && Trim(phone.value) != [] then Some(Trim(phone.value)) else None;
    RegisterRequest(Trim(email), password, Trim(name), phoneField)
  }

  /** Building the body from a body already built changes nothing: the fields
      are already trimmed and a phone present is never blank. */
  lemma RegisterBodyStable(email: string, password: string, name: string, phone: Option<string>)
    ensures var r := RegisterBody(email, password, name, phone);
      RegisterBody(r.email, r.password, r.name, r.phone) == r
  {
    var r := RegisterBody(email, password, name, phone);
    TrimIdempotent(email);
    TrimIdempotent(name);
    if r.phone.Some? {
      TrimIdempotent(phone.value);
    }
  }

  /** Surrounding white space in the e-mail and name is never sent. */
  lemma RegisterIgnoresMargins(email: string, password: string, name: string, phone: Option<string>)
    ensures RegisterBody(Trim(email), password, Trim(name), phone) == RegisterBody(email, password, name, phone)
  {
    TrimIdempotent(email);
    TrimIdempotent(name);
  }

  // ---------------------------------------------------------------------------
  // The cached session
  // ---------------------------------------------------------------------------

  class Manager<User> {
    var currentUser: Option<User>
    var isLoggedIn: bool

    /** A user is cached only while signed in. */
    predicate Valid()
      reads this
    {
      !isLoggedIn ==> currentUser.None?
    }

    /** The constructor starts signed out; the state load it then starts is
        `LoadAuthState`. */
    constructor()
      ensures Valid()
      ensures currentUser.None? && !isLoggedIn
    {
      currentUser := None;
      isLoggedIn := false;
    }

    /** `loadAuthState`: a successful `/auth/me/` reply signs in with its user;
        anything else signs out. */
    method LoadAuthState(reply: Reply<User>)
      modifies this
      ensures Valid()
      ensures reply.Answer? && reply.ok ==> currentUser == reply.body.user && isLoggedIn
      ensures !(reply.Answer? && reply.ok) ==> currentUser.None? && !isLoggedIn
    {
      if reply.Answer? && reply.ok {
        currentUser := reply.body.user;
        isLoggedIn := true;
      } else {
        currentUser := None;
        isLoggedIn := false;
      }
    }

    /** `login`: a successful reply signs in; a failed one changes nothing. */
    method Login(reply: Reply<User>) returns (outcome: Outcome<User>)
      requires Valid()
      modifies this
      ensures Valid()
      ensures outcome == OutcomeOf(reply, "Login failed")
      ensures outcome.Success? ==> currentUser == reply.body.user && isLoggedIn
      ensures outcome.Failure? ==> currentUser == old(currentUser) && isLoggedIn == old(isLoggedIn)
    {
      outcome := SignIn(reply, "Login failed");
    }

    /** `register`: sends the body `RegisterBody` builds, then behaves as
        `login` with its own fallback message. */
    method Register(email: string, password: string, name: string, phone: Option<string>, reply: Reply<User>)
      returns (request: RegisterRequest, outcome: Outcome<User>)
      requires Valid()
      modifies this
      ensures Valid()
      ensures request == RegisterBody(email, password, name, phone)
      ensures outcome == OutcomeOf(reply, "Registration failed")
      ensures outcome.Success? ==> currentUser == reply.body.user && isLoggedIn
      ensures outcome.Failure? ==> currentUser == old(currentUser) && isLoggedIn == old(isLoggedIn)
    {
      request := RegisterBody(email, password, name, phone);
      outcome := SignIn(reply, "Registration failed");
    }

    /** The part `login` and `register` share. */
    method SignIn(reply: Reply<User>, fallback: string) returns (outcome: Outcome<User>)
      requires Valid()
      modifies this
      ensures Valid()
      ensures outcome == OutcomeOf(reply, fallback)
      ensures outcome.Success? ==> currentUser == reply.body.user && isLoggedIn
      ensures outcome.Failure? ==> currentUser == old(currentUser) && isLoggedIn == old(isLoggedIn)
    {
      outcome := OutcomeOf(reply, fallback);
      if outcome.Success? {
        currentUser := reply.body.user;
        isLoggedIn := true;
      }
    }

    /** `logout`: the `finally` block signs out whatever the request did. */
    method Logout()
      modifies this
      ensures Valid()
      ensures currentUser.None? && !isLoggedIn
    {
      currentUser := None;
      isLoggedIn := false;
    }

    /** `getCurrentUser`: the cached user when signed in with one; otherwise
        the state is reloaded with `reload` and the reloaded user returned. */
    method GetCurrentUser(reload: Reply<User>) returns (user: Option<User>)
      modifies this
      ensures Valid()
      ensures old(isLoggedIn && currentUser.Some?) ==>
        user == old(currentUser) && currentUser == old(currentUser) && isLoggedIn
      ensures !old(isLoggedIn && currentUser.Some?) ==>
        user == currentUser
        && (reload.Answer? && reload.ok ==> currentUser == reload.body.user && isLoggedIn)
        && (!(reload.Answer? && reload.ok) ==> currentUser.None? && !isLoggedIn)
    {
      if isLoggedIn && currentUser.Some? {
        return currentUser;
      }
      LoadAuthState(reload);
      user := currentUser;
    }
  }

  // ---------------------------------------------------------------------------
  // Redirect targets
  // ---------------------------------------------------------------------------

  /** An `href`: absolute (starting with `/`) or relative, and its
      `/`-separated segments; `Href(false, ["..", "auth", "signin", "index.html"])`
      is `"../auth/signin/index.html"`. */
  datatype Href = Href(absolute: bool, segments: seq<string>)

  /** Where `window.location` is sent: a new address, or a reload. */
  datatype Navigation = GoTo(target: Href) | Reload

  const SignInPage: seq<string> := ["frontend", "auth", "signin", "index.html"]
  const HomePage: seq<string> := ["frontend", "homePage", "Index.html"]

  /** The `href` `redirectToLogin` assigns for the current path, as written. */
  function LoginTarget(path: string): Href {
    if Contains(path, "/frontend/") then
      if Contains(path, "/auth/") then Href(false, ["signin", "index.html"])
      else Href(false, ["..", "auth", "signin", "index.html"])
    else Href(true, SignInPage)
  }

  /** `redirectToHome`: `/auth/` is tested before `/homePage/`, and a page
      under `/homePage/` is reloaded. */
  function HomeNavigation(path: string): Navigation {
    if Contains(path, "/frontend/") then
      if Contains(path, "/auth/") then GoTo(Href(false, ["..", "..", "homePage", "Index.html"]))
      else if Contains(path, "/homePage/") then Reload
      else GoTo(Href(false, ["..", "homePage", "Index.html"]))
    else GoTo(Href(true, HomePage))
  }

  /** Following relative steps from a directory, given as its segments below
      the site root: `..` climbs one level (never above the root), `.` stays,
      any other segment descends. */
  function Walk(dir: seq<string>, steps: seq<string>): seq<string>
    decreases steps
  {
    if steps == [] then dir
    else if steps[0] == ".." then Walk(if dir == [] then [] else dir[..|dir| - 1], steps[1..])
    else if steps[0] == "." then Walk(dir, steps[1..])
    else Walk(dir + [steps[0]], steps[1..])
  }

  /** The page an `href` leads to from a page in directory `dir`: an absolute
      target starts from the root. */
  function Resolve(dir: seq<string>, target: Href): seq<string> {
    Walk(if target.absolute then [] else dir, target.segments)
  }

  /** Outside `/frontend/` both redirects use absolute targets, which lead to
      the sign-in page and the home page from wherever the current page is. */
  lemma OutsideFrontendAbsolute(path: string, dir: seq<string>)
    requires !Contains(path, "/frontend/")
    ensures Resolve(dir, LoginTarget(path)) == SignInPage
    ensures HomeNavigation(path).GoTo? && Resolve(dir, HomeNavigation(path).target) == HomePage
  {
  }

  /** From a page in a folder directly below `frontend` other than `auth`,
      the login target climbs one level and leads to the sign-in page. */
  lemma LoginFromFrontendFolder(path: string, root: seq<string>, folder: string)
    requires Contains(path, "/frontend/") && !Contains(path, "/auth/")
    ensures Resolve(root + ["frontend", folder], LoginTarget(path)) == root + SignInPage
  {
    var dir := root + ["frontend", folder];
    assert dir[..|dir| - 1] == root + ["frontend"];
  }

  /** From a page in a folder directly below `frontend` other than `auth` and
      `homePage`, the home target climbs one level and leads to the home
      page; on a `/homePage/` path the page reloads instead. */
  lemma HomeFromFrontendFolder(path: string, root: seq<string>, folder: string)
    requires Contains(path, "/frontend/") && !Contains(path, "/auth/")
    ensures Contains(path, "/homePage/") <==> HomeNavigation(path).Reload?
    ensures !Contains(path, "/homePage/") ==>
      Resolve(root + ["frontend", folder], HomeNavigation(path).target) == root + HomePage
  {
    var dir := root + ["frontend", folder];
    assert dir[..|dir| - 1] == root + ["frontend"];
  }

  /** From a page two levels deep in `frontend/auth/<folder>/` the home target
      climbs two levels and leads to the home page, even when the path also
      contains `/homePage/`. */
  lemma HomeFromAuthPage(path: string, root: seq<string>, folder: string)
    requires Contains(path, "/frontend/") && Contains(path, "/auth/")
    ensures HomeNavigation(path).GoTo?
    ensures Resolve(root + ["frontend", "auth", folder], HomeNavigation(path).target) == root + HomePage
  {
    var dir := root + ["frontend", "auth", folder];
    assert dir[..|dir| - 1] == root + ["frontend", "auth"];
    assert dir[..|dir| - 1][..|dir| - 2] == root + ["frontend"];
  }

  /** From the same `frontend/auth/<folder>/` pages the login target, as
      written, descends into `<folder>/signin/` instead of reaching the
      sign-in page. */
  lemma LoginFromAuthPageMissesSignIn(path: string, root: seq<string>, folder: string)
    requires Contains(path, "/frontend/") && Contains(path, "/auth/")
    ensures Resolve(root + ["frontend", "auth", folder], LoginTarget(path))
         == root + ["frontend", "auth", folder, "signin", "index.html"]
    ensures Resolve(root + ["frontend", "auth", folder], LoginTarget(path)) != root + SignInPage
  {
    var r := root + ["frontend", "auth", folder, "signin", "index.html"];
    assert |r| != |root + SignInPage|;
  }

  /** The sign-up page is such a page. */
  lemma SignupPageLoginTarget()
    ensures LoginTarget("/frontend/auth/signup/index.html") == Href(false, ["signin", "index.html"])
    ensures Resolve(["frontend", "auth", "signup"], LoginTarget("/frontend/auth/signup/index.html"))
         == ["frontend", "auth", "signup", "signin", "index.html"]
  {
    var path := "/frontend/auth/signup/index.html";
    assert StartsWith(path, "/frontend/");
    assert StartsWith(path[9..], "/auth/");
    ContainsAt(path, "/auth/", 9);
    LoginFromAuthPageMissesSignIn(path, [], "signup");
  }

  /** `redirectToLogin` with the relative target the home redirect implies:
      one level up from a page in `auth/<folder>/`. */
  function LoginTargetFixed(path: string): Href {
    if Contains(path, "/frontend/") then
      if Contains(path, "/auth/") then Href(false, ["..", "signin", "index.html"])
      else Href(false, ["..", "auth", "signin", "index.html"])
    else Href(true, SignInPage)
  }

  /** With the corrected target every page under `frontend/<folder>/` or
      `frontend/auth/<folder>/` is sent to the sign-in page. */
  lemma FixedLoginReachesSignIn(path: string, root: seq<string>, folder: string)
    requires Contains(path, "/frontend/")
    ensures Contains(path, "/auth/") ==>
      Resolve(root + ["frontend", "auth", folder], LoginTargetFixed(path)) == root + SignInPage
    ensures !Contains(path, "/auth/") ==>
      Resolve(root + ["frontend", folder], LoginTargetFixed(path)) == root + SignInPage
  {
    var d1 := root + ["frontend", "auth", folder];
    assert d1[..|d1| - 1] == root + ["frontend", "auth"];
    var d2 := root + ["frontend", folder];
    assert d2[..|d2| - 1] == root + ["frontend"];
  }
}
