/** HttpServer::handleClient of http-server-cpp/src/HttpServer.cpp: routing on the text of the
    request, over the cookie parser and the session table. */
module HttpServer {
  import opened Sync
  import opened Text
  import CookieUtil
  import opened SessionManager

  /** What one request takes from outside: the clock as read first and second, the random
      digits, and the login page as read from disk. */
  datatype Env = Env(now: int, later: int, random: seq<HexDigit>, loginHtml: string)

  datatype Route = LoginForm | Login | Logout | Home | NotFound

  /** What the handler reads out of the text of a request. */
  datatype Request = Request(route: Route, sessionId: string)

  predicate Has(text: string, pattern: string) { Find(text, pattern, 0).Some? }

  function RouteOf(text: string): Route {
    if Has(text, "GET /login.html") then LoginForm
    else if Has(text, "POST /login") then Login
    else if Has(text, "GET /logout") then Logout
    else if Has(text, "GET / HTTP") || Has(text, "GET /?") then Home
    else NotFound
  }

  // What a request asks for: the first of these patterns, in this order, that it contains.

  ghost predicate AsksForm(text: string) { Contains(text, "GET /login.html") }

  ghost predicate AsksLogin(text: string) { !AsksForm(text) && Contains(text, "POST /login") }

  ghost predicate AsksLogout(text: string) {
    !AsksForm(text) && !AsksLogin(text) && Contains(text, "GET /logout")
  }

  ghost predicate AsksHome(text: string) {
    && !AsksForm(text) && !AsksLogin(text) && !AsksLogout(text)
    && (Contains(text, "GET / HTTP") || Contains(text, "GET /?"))
  }

  ghost predicate AsksElse(text: string) {
    !AsksForm(text) && !AsksLogin(text) && !AsksLogout(text) && !AsksHome(text)
  }

  lemma HasIff(text: string, pattern: string)
    ensures Has(text, pattern) <==> Contains(text, pattern)
  {
    if Has(text, pattern) {
      assert OccursAt(text, pattern, Find(text, pattern, 0).value);
    }
  }

  lemma Routes(text: string)
    ensures RouteOf(text) == LoginForm <==> AsksForm(text)
    ensures RouteOf(text) == Login <==> AsksLogin(text)
    ensures RouteOf(text) == Logout <==> AsksLogout(text)
    ensures RouteOf(text) == Home <==> AsksHome(text)
    ensures RouteOf(text) == NotFound <==> AsksElse(text)
  {
    hide Has, Contains;
    HasIff(text, "GET /login.html");
    HasIff(text, "POST /login");
    HasIff(text, "GET /logout");
    HasIff(text, "GET / HTTP");
    HasIff(text, "GET /?");
  }

  /** cookies["SESSIONID"], which is empty when there is none. */
  function SessionIdOf(cookies: CookieUtil.CookieMap): string {
    if "SESSIONID" in cookies then cookies["SESSIONID"] else ""
  }

  function ReadRequest(text: string): Request {
    Request(RouteOf(text), SessionIdOf(CookieUtil.Parse(text)))
  }

  datatype Response =
    | FormPage(html: string)
    | LoggedIn(sessionId: string)
    | LoggedOut
    | WelcomePage(username: string)
    | LoginNeeded
    | NotFoundPage

  /** The text that goes back to the client. */
  function Render(r: Response): string {
    match r
    case FormPage(html) => PageHead() + html
    case LoggedIn(id) => Redirect(CookieUtil.BuildSetCookie(KEY, id, TIMEOUT), "/")
    case LoggedOut => Redirect(CookieUtil.BuildClearCookie(KEY), "/login.html")
    case WelcomePage(username) => PageHead() + WelcomeText(username)
    case LoginNeeded => Redirect("", "/login.html")
    case NotFoundPage => NotFoundText()
  }

  function Redirect(header: string, location: string): string {
    "HTTP/1.1 302 Found\r\n" + header + "Location: " + location + "\r\n\r\n"
  }

  function PageHead(): string {
    "HTTP/1.1 200 OK\r\n" + "Content-Type: text/html; charset=utf-8\r\n" + "Connection: close\r\n" + "\r\n"
  }

  function WelcomeText(username: string): string {
    "<h1>Hello World! 🎉</h1>" + "<p>欢迎你，" + username + "！你已经成功登录啦~</p>"
    + "<a href='/logout'>点击这里登出</a>"
  }

  function NotFoundText(): string {
    "HTTP/1.1 404 Not Found\r\n" + "Content-Type: text/html; charset=utf-8\r\n" + "Connection: close\r\n"
    + "\r\n<h1>404 页面不存在</h1>"
  }

  const TIMEOUT := 3600
  const USER := "test_user"
  const KEY := "SESSIONID"

  /** The session table after one request. */
  function TableAfter(s: Sessions, q: Request, env: Env): Sessions {
    match q.route
    case Login => Serve(s, Create(SessionId(env.now, env.random), USER, env.later + TIMEOUT)).0
    case Logout => Serve(s, Destroy(q.sessionId)).0
    case Home => Serve(s, IsValid(q.sessionId, env.now)).0
    case _ => s
  }

  /** The response to one request. */
  function ResponseTo(s: Sessions, q: Request, env: Env): Response {
    match q.route
    case LoginForm => FormPage(env.loginHtml)
    case Login => LoggedIn(SessionId(env.now, env.random))
    case Logout => LoggedOut
    case Home =>
      var (s', answer) := Serve(s, IsValid(q.sessionId, env.now));
      if answer == Valid(true) then WelcomePage(Serve(s', GetUsername(q.sessionId)).1.username)
      else LoginNeeded
    case NotFound => NotFoundPage
  }

  /** What the handler does with each kind of request text. */
  lemma Handled(s: Sessions, text: string, env: Env)
    ensures var q := ReadRequest(text);
            var (answer, table, id) := (ResponseTo(s, q, env), TableAfter(s, q, env), SessionIdOf(CookieUtil.Parse(text)));
            && (AsksForm(text) ==> answer == FormPage(env.loginHtml) && table == s)
            && (AsksLogin(text) ==>
                  var newId := SessionId(env.now, env.random);
                  answer == LoggedIn(newId) && table == s[newId := SessionData("test_user", env.later + 3600)])
            && (AsksLogout(text) ==> answer == LoggedOut && table == s - {id})
            && (AsksHome(text) ==>
                  if id in s && env.now <= s[id].expireTime
                  then answer == WelcomePage(s[id].username) && table == s
                  else answer == LoginNeeded && table == s - {id})
            && (AsksElse(text) ==> answer == NotFoundPage && table == s)
  {
    hide RouteOf, SessionIdOf, AsksForm, AsksLogin, AsksLogout, AsksHome, AsksElse, SessionId, CookieUtil.Parse;
    Routes(text);
  }

  class HttpServer {
    const sessionMgr: SessionManager

    constructor (sessionMgr: SessionManager)
      ensures this.sessionMgr == sessionMgr
    {
      this.sessionMgr := sessionMgr;
    }

    /** `text` is what was read from the client; what is written back is Render(response). */
    method HandleClient(text: StdString, env: Env) returns (response: Response)
      requires |env.random| == 16
      modifies sessionMgr
      ensures sessionMgr.sessions == TableAfter(old(sessionMgr.sessions), ReadRequest(text), env)
      ensures response == ResponseTo(old(sessionMgr.sessions), ReadRequest(text), env)
      ensures AsksForm(text) ==> response == FormPage(env.loginHtml)
      ensures AsksLogin(text) ==> response == LoggedIn(SessionId(env.now, env.random))
      ensures AsksLogout(text) ==> response == LoggedOut
      ensures AsksHome(text) ==> response.WelcomePage? || response.LoginNeeded?
      ensures AsksElse(text) ==> response == NotFoundPage
    {
      Routes(text);
      hide Contains, SessionIdOf, Has, AsksForm, AsksLogin, AsksLogout, AsksHome, AsksElse, SessionId, CookieUtil.Parse;
      var cookies := CookieUtil.ParseCookies(text);
      var sessionId := SessionIdOf(cookies);
      if Has(text, "GET /login.html") {
        response := FormPage(env.loginHtml);
      } else if Has(text, "POST /login") {
        var newSessionId := sessionMgr.CreateSession(USER, TIMEOUT, env.now, env.later, env.random);
        response := LoggedIn(newSessionId);
      } else if Has(text, "GET /logout") {
        sessionMgr.DestroySession(sessionId);
        response := LoggedOut;
      } else if Has(text, "GET / HTTP") || Has(text, "GET /?") {
        var valid := sessionMgr.IsSessionValid(sessionId, env.now);
        if valid {
          var username := sessionMgr.UsernameOf(sessionId);
          response := WelcomePage(username);
        } else {
          response := LoginNeeded;
        }
      } else {
        response := NotFoundPage;
      }
    }
  }
}
