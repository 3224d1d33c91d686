/** Server, cookies and a user agent together: what a client that follows RFC 6265 sees from
    login to logout or expiry. */
module LoginFlow {
  import opened Sync
  import opened Text
  import opened CookieUtil
  import opened UserAgent
  import opened SessionManager
  import opened HttpServer

  // ---------------------------------------------------------------- one cookie, there and back

  /** A pattern is first found where its first character first occurs. */
  lemma FindFirst(status: string, pattern: string, tail: string)
    requires pattern != "" && pattern[0] !in status
    ensures Find(status + pattern + tail, pattern, 0) == Some(|status|)
  {
    var r, p := status + pattern + tail, |status|;
    assert r[p..p + |pattern|] == pattern;
    forall j | 0 <= j < p
      ensures !OccursAt(r, pattern, j)
    {
      assert r[j] == status[j];
      if j + |pattern| <= |r| {
        assert r[j..j + |pattern|][0] == r[j];
      }
    }
    FindIs(r, pattern, 0, p);
  }

  lemma MiddleOf(head: string, value: string, tail: string)
    ensures (head + value + tail)[|head|..|head| + |value|] == value
  {
  }

  lemma ValueCut(head: string, value: string, rest: string)
    requires NoCrLf(value)
    requires value != "" ==> !IsWsp(value[0]) && !IsWsp(value[|value| - 1])
    ensures var r := head + value + "\r\n" + rest;
            && Find(r, "\r\n", |head|) == Some(|head| + |value|)
            && Strip(r[|head|..|head| + |value|]) == value
  {
    FindCrLf(head, value, rest);
    Assoc(head + value, "\r\n", rest);
    MiddleOf(head, value, "\r\n" + rest);
    StripClean(value);
  }

  lemma PatternFound(status: string, pattern: string, value: string, rest: string)
    requires pattern != "" && pattern[0] !in status
    ensures Find(status + pattern + value + "\r\n" + rest, pattern, 0) == Some(|status|)
  {
    FindFirst(status, pattern, value + "\r\n" + rest);
    Assoc(status + pattern, value, "\r\n");
    Assoc(status + pattern, value + "\r\n", rest);
  }

  lemma FieldFound(status: string, pattern: string, value: string, rest: string)
    requires pattern != "" && pattern[0] !in status && NoCrLf(value)
    requires value != "" ==> !IsWsp(value[0]) && !IsWsp(value[|value| - 1])
    ensures FieldValue(status + pattern + value + "\r\n" + rest, pattern) == Some(value)
  {
    PatternFound(status, pattern, value, rest);
    ValueCut(status + pattern, value, rest);
  }

  /** What the user agent keeps of a response that sets a cookie. */
  function Store(response: string): Option<StoredCookie> {
    match FieldValue(response, "\r\nSet-Cookie:")
    case None => None
    case Some(v) => ReadSetCookie(v)
  }

  function SetCookieValue(key: string, value: string, maxAge: int): string {
    key + "=" + value + "; Path=/; HttpOnly; Max-Age=" + Decimal(maxAge)
  }

  lemma BuildRegrouped(key: string, value: string, maxAge: int)
    ensures BuildSetCookie(key, value, maxAge) == "Set-Cookie:" + SetCookieValue(key, value, maxAge) + "\r\n"
  {
    assert "Set-Cookie:" + key + "=" + value == "Set-Cookie:" + (key + "=" + value);
  }

  lemma ResponseRegrouped(status: string, v: string, rest: string)
    ensures status + "\r\n" + ("Set-Cookie:" + v + "\r\n") + rest
            == status + "\r\nSet-Cookie:" + v + "\r\n" + rest
  {
    assert "\r\nSet-Cookie:" == "\r\n" + "Set-Cookie:";
  }

  lemma SetCookieStored(status: string, key: string, value: string, maxAge: int, rest: string)
    requires '\r' !in status
    requires key != "" && Plain(key) && '=' !in key && Plain(value)
    ensures Store(status + "\r\n" + BuildSetCookie(key, value, maxAge) + rest)
            == Some(StoredCookie(key, value, ServerAttributes(maxAge)))
  {
    FieldIsClean(key, value, maxAge);
    FieldFound(status, "\r\nSet-Cookie:", SetCookieValue(key, value, maxAge), rest);
    BuildRegrouped(key, value, maxAge);
    ResponseRegrouped(status, SetCookieValue(key, value, maxAge), rest);
    ReadsSetCookie(key, value, maxAge);
  }

  lemma FieldIsClean(key: string, value: string, maxAge: int)
    requires key != "" && Plain(key) && Plain(value)
    ensures var v := SetCookieValue(key, value, maxAge);
            NoCrLf(v) && !IsWsp(v[0]) && !IsWsp(v[|v| - 1])
  {
    DecimalIsPlain(maxAge);
    var d := Decimal(maxAge);
    var front := key + "=" + value;
    var middle := "; Path=/; HttpOnly; Max-Age=";
    assert '\r' !in front && '\r' !in middle && '\r' !in d;
    var v := front + middle + d;
    assert v[|v| - 1] == d[|d| - 1];
    assert '\r' !in v;
  }

  lemma PlainIsPrintable(key: string, value: string)
    requires Plain(key) && '=' !in key && Plain(value)
    ensures AllPrintable([(key, value)])
  {
  }

  /** Set-Cookie round trip: what the server sets, the agent keeps with the same Max-Age, sends
      back, and the server reads from the agent's request, for every name and value allowed by
      section 4.1.1. */
  lemma SetCookieRoundTrip(status: string, key: string, value: string, maxAge: int, rest: string,
                           before: string, after: string)
    requires '\r' !in status && IsToken(key) && IsCookieValue(value)
    requires Find(before + "Cookie: " + (key + "=" + value) + "\r\n" + after, "Cookie:", 0) == Some(|before|)
    ensures var stored := Store(status + "\r\n" + BuildSetCookie(key, value, maxAge) + rest);
            && stored.Some?
            && MaxAge(stored.value.attributes) == Some(maxAge)
            && Parse(before + "Cookie: " + CookieString(stored.value) + "\r\n" + after) == map[key := value]
  {
    TokensArePlain(key);
    ValuesArePlain(value);
    SetCookieStored(status, key, value, maxAge, rest);
    MaxAgeReads(maxAge);
    SentBack(key, value, before, after);
  }

  lemma SentBack(key: string, value: string, before: string, after: string)
    requires Plain(key) && '=' !in key && Plain(value)
    requires Find(before + "Cookie: " + (key + "=" + value) + "\r\n" + after, "Cookie:", 0) == Some(|before|)
    ensures Parse(before + "Cookie: " + (key + "=" + value) + "\r\n" + after) == map[key := value]
  {
    var pairs := [(key, value)];
    PlainIsPrintable(key, value);
    assert Print(pairs) == key + "=" + value;
    CookieRoundTrip(before, pairs, after);
    assert pairs[1..] == [];
    assert LastWins(map[], pairs) == map[key := value];
  }

  /** The header that clears a cookie makes the agent keep an empty value that has expired. */
  lemma ClearCookieExpires(status: string, key: string, rest: string)
    requires '\r' !in status && IsToken(key)
    ensures var stored := Store(status + "\r\n" + BuildClearCookie(key) + rest);
            && stored == Some(StoredCookie(key, "", ServerAttributes(0)))
            && MaxAge(stored.value.attributes) == Some(0)
  {
    TokensArePlain(key);
    SetCookieStored(status, key, "", 0, rest);
    MaxAgeReads(0);
    ClearIsEmptySet(key);
  }

  lemma ClearIsEmptySet(key: string)
    ensures BuildClearCookie(key) == BuildSetCookie(key, "", 0)
  {
    var k := "Set-Cookie:" + key + "=";
    var tail := "; Path=/; HttpOnly; Max-Age=";
    assert Decimal(0) == "0";
    assert k + "" == k;
    assert "Set-Cookie:" + key + ("=" + tail + "0" + "\r\n") == k + tail + "0" + "\r\n";
  }

  // ---------------------------------------------------------------- runs of the server

  /** A request as the handler reads it, and what it takes from outside. */
  datatype Event = Event(q: Request, env: Env)

  function Run(s: Sessions, events: seq<Event>): Sessions
    decreases |events|
  {
    if events == [] then s else Run(TableAfter(s, events[0].q, events[0].env), events[1..])
  }

  /** Requests are handled one after the other and the clock does not run backwards. */
  predicate InOrder(clock: int, events: seq<Event>)
    decreases |events|
  {
    events == [] ||
    (clock <= events[0].env.now <= events[0].env.later && InOrder(events[0].env.later, events[1..]))
  }

  function ClockAfter(clock: int, events: seq<Event>): int {
    if events == [] then clock else events[|events| - 1].env.later
  }

  /** The request neither logs this session out nor creates another one with the same id. */
  predicate Spares(id: string, e: Event) {
    !(e.q.route == Logout && e.q.sessionId == id) && !Recreates(id, e)
  }

  predicate Recreates(id: string, e: Event) {
    e.q.route == Login && SessionId(e.env.now, e.env.random) == id
  }

  /** The session is in the table, or has been dropped because it had expired. */
  ghost predicate Kept(s: Sessions, id: string, data: SessionData, clock: int) {
    if id in s then s[id] == data else data.expireTime < clock
  }

  lemma EventKeeps(s: Sessions, e: Event, id: string, data: SessionData, clock: int)
    requires Kept(s, id, data, clock) && clock <= e.env.now <= e.env.later && Spares(id, e)
    ensures Kept(TableAfter(s, e.q, e.env), id, data, e.env.later)
  {
  }

  lemma {:induction false} RunKeeps(s: Sessions, events: seq<Event>, id: string, data: SessionData, clock: int)
    requires Kept(s, id, data, clock) && InOrder(clock, events)
    requires forall i | 0 <= i < |events| :: Spares(id, events[i])
    ensures Kept(Run(s, events), id, data, ClockAfter(clock, events))
    ensures clock <= ClockAfter(clock, events)
    decreases |events|
  {
    if events != [] {
      var e := events[0];
      EventKeeps(s, e, id, data, clock);
      RunKeeps(TableAfter(s, e.q, e.env), events[1..], id, data, e.env.later);
    }
  }

  lemma EventLeavesGone(s: Sessions, e: Event, id: string)
    requires id !in s && !Recreates(id, e)
    ensures id !in TableAfter(s, e.q, e.env)
  {
  }

  lemma {:induction false} RunStaysGone(s: Sessions, events: seq<Event>, id: string)
    requires id !in s
    requires forall i | 0 <= i < |events| :: !Recreates(id, events[i])
    ensures id !in Run(s, events)
    decreases |events|
  {
    if events != [] {
      EventLeavesGone(s, events[0], id);
      RunStaysGone(TableAfter(s, events[0].q, events[0].env), events[1..], id);
    }
  }

  // ---------------------------------------------------------------- login, logout, expiry

  lemma IdIsPlain(now: int, random: seq<HexDigit>)
    requires |random| == 16
    ensures Plain(SessionId(now, random))
  {
    IdForm(now, random);
    var id := SessionId(now, random);
    assert forall i | 0 <= i < |id| :: IsIdChar(id[i]);
  }

  lemma KeyIsPlain()
    ensures KEY != "" && Plain(KEY) && '=' !in KEY
  {
  }

  /** The cookie of a session, as the agent keeps it. */
  function SessionCookie(id: string): StoredCookie { StoredCookie(KEY, id, ServerAttributes(TIMEOUT)) }

  lemma RedirectStored(value: string, maxAge: int, location: string)
    requires Plain(value)
    ensures Store(Redirect(BuildSetCookie(KEY, value, maxAge), location))
            == Some(StoredCookie(KEY, value, ServerAttributes(maxAge)))
  {
    hide Store, Redirect, BuildSetCookie;
    KeyIsPlain();
    SetCookieStored("HTTP/1.1 302 Found", KEY, value, maxAge, "Location: " + location + "\r\n\r\n");
    RedirectRegrouped(BuildSetCookie(KEY, value, maxAge), location);
  }

  lemma RedirectsRendered(id: string)
    ensures Render(LoggedIn(id)) == Redirect(BuildSetCookie(KEY, id, TIMEOUT), "/")
    ensures Render(LoggedOut) == Redirect(BuildSetCookie(KEY, "", 0), "/login.html")
    ensures Render(LoginNeeded) == Redirect("", "/login.html")
  {
    hide Redirect, BuildSetCookie, BuildClearCookie, PageHead, WelcomeText, NotFoundText;
    ClearIsEmptySet(KEY);
  }

  /** What the agent stores of the response to a login. */
  lemma LoginCookie(id: string)
    requires Plain(id)
    ensures Store(Render(LoggedIn(id))) == Some(StoredCookie("SESSIONID", id, ServerAttributes(3600)))
    ensures MaxAge(ServerAttributes(3600)) == Some(3600)
  {
    hide Store, Render, MaxAge;
    MaxAgeReads(3600);
    RedirectsRendered(id);
    RedirectStored(id, TIMEOUT, "/");
  }

  /** What the agent stores of the response to a logout: an empty value, to be dropped at once. */
  lemma LogoutCookie()
    ensures Store(Render(LoggedOut)) == Some(StoredCookie("SESSIONID", "", ServerAttributes(0)))
    ensures MaxAge(ServerAttributes(0)) == Some(0)
  {
    hide Store, Render, MaxAge;
    RedirectsRendered("");
    RedirectStored("", 0, "/login.html");
    MaxAgeReads(0);
  }

  lemma RedirectRegrouped(header: string, location: string)
    ensures Redirect(header, location)
            == "HTTP/1.1 302 Found" + "\r\n" + header + ("Location: " + location + "\r\n\r\n")
  {
    assert "HTTP/1.1 302 Found\r\n" == "HTTP/1.1 302 Found" + "\r\n";
    var front := "HTTP/1.1 302 Found\r\n" + header;
    Assoc(front, "Location: ", location);
    Assoc(front, "Location: " + location, "\r\n\r\n");
  }

  /** The Location field comes first right after the other header. */
  lemma LocationFound(header: string, location: string)
    requires 'L' !in header
    requires header == "" || (|header| >= 2 && header[|header| - 2..] == "\r\n")
    ensures Find(Redirect(header, location), "\r\nLocation:", 0) == Some(18 + |header|)
  {
    var front := "HTTP/1.1 302 Found\r\n" + header;
    var r, p := Redirect(header, location), 18 + |header|;
    assert front[p..] == "\r\n";
    assert r == front[..p] + (front[p..] + "Location:") + (" " + location + "\r\n\r\n");
    assert r[p..p + 11] == "\r\nLocation:";
    forall j | 0 <= j < p
      ensures !OccursAt(r, "\r\nLocation:", j)
    {
      assert r[j + 2] == front[j + 2];
      DiffersAt(r, "\r\nLocation:", j, 2);
    }
    FindIs(r, "\r\nLocation:", 0, p);
  }

  lemma LocationRead(header: string, location: string)
    requires 'L' !in header
    requires header == "" || (|header| >= 2 && header[|header| - 2..] == "\r\n")
    requires location != "" && Plain(location)
    ensures FieldValue(Redirect(header, location), "\r\nLocation:") == Some(location)
  {
    hide Find, Strip;
    LocationFound(header, location);
    var before := "HTTP/1.1 302 Found\r\n" + header + "Location:";
    var r := Redirect(header, location);
    assert r == before + (" " + location) + "\r\n" + "\r\n";
    FindCrLf(before, " " + location, "\r\n");
    MiddleOf(before, " " + location, "\r\n" + "\r\n");
    Assoc(before + (" " + location), "\r\n", "\r\n");
    StripSpaced(location);
  }

  /** Where each redirect sends the client: to the home page after a login, to the login page
      after a logout or without a valid session. */
  lemma RedirectTargets(now: int, random: seq<HexDigit>)
    requires |random| == 16
    ensures FieldValue(Render(LoggedIn(SessionId(now, random))), "\r\nLocation:") == Some("/")
    ensures FieldValue(Render(LoggedOut), "\r\nLocation:") == Some("/login.html")
    ensures FieldValue(Render(LoginNeeded), "\r\nLocation:") == Some("/login.html")
  {
    hide FieldValue, Render, Redirect, BuildSetCookie;
    var id := SessionId(now, random);
    IdForm(now, random);
    RedirectsRendered(id);
    CookieHeaderShape(id, TIMEOUT);
    CookieHeaderShape("", 0);
    LocationRead(BuildSetCookie(KEY, id, TIMEOUT), "/");
    LocationRead(BuildSetCookie(KEY, "", 0), "/login.html");
    LocationRead("", "/login.html");
  }

  lemma CookieHeaderShape(id: string, maxAge: nat)
    requires forall i | 0 <= i < |id| :: IsIdChar(id[i])
    ensures var h := BuildSetCookie(KEY, id, maxAge);
            'L' !in h && |h| >= 2 && h[|h| - 2..] == "\r\n"
  {
    DecimalNatReads(maxAge);
    var d := Decimal(maxAge);
    assert forall i | 0 <= i < |d| :: IsDigit(d[i]);
    assert 'L' !in d && 'L' !in id;
    assert 'L' !in "Set-Cookie:" + KEY + "=";
    assert 'L' !in "Set-Cookie:" + KEY + "=" + id + "; Path=/; HttpOnly; Max-Age=";
  }

  /** A request text with a Cookie header that returns `cookie`. */
  function Carrying(cookie: StoredCookie, before: string, after: string): string {
    before + "Cookie: " + CookieString(cookie) + "\r\n" + after
  }

  /** Any request that carries the stored cookie first is recognised by its id. */
  lemma CookieRecognised(cookie: StoredCookie, before: string, after: string)
    requires cookie.name == KEY && Plain(cookie.value)
    requires Find(Carrying(cookie, before, after), "Cookie:", 0) == Some(|before|)
    ensures ReadRequest(Carrying(cookie, before, after)).sessionId == cookie.value
  {
    KeyIsPlain();
    SentBack(KEY, cookie.value, before, after);
  }

  lemma HomeAnswer(s: Sessions, id: string, data: SessionData, clock: int, q: Request, env: Env)
    requires Kept(s, id, data, clock) && clock <= env.now
    requires q == Request(Home, id)
    ensures ResponseTo(s, q, env)
            == if env.now <= data.expireTime then WelcomePage(data.username) else LoginNeeded
  {
  }

  lemma LoginCreates(s: Sessions, q: Request, env: Env)
    requires q.route == Login
    ensures Kept(TableAfter(s, q, env), SessionId(env.now, env.random), SessionData(USER, env.later + TIMEOUT), env.later)
  {
  }

  // ---------------------------------------------------------------- what the client is shown

  /** A page with this status line and, after an empty line, this body. */
  predicate Shows(page: string, status: string, body: string) {
    && status + "\r\n" <= page && |status| + 2 + 4 + |body| <= |page|
    && page[|page| - |body| - 4..] == "\r\n\r\n" + body
  }

  /** The welcome page of this user, with the link to log out. */
  ghost predicate Welcomes(page: string, username: string) {
    exists body ::
      Shows(page, "HTTP/1.1 200 OK", body) && Contains(body, username) && Contains(body, "<a href='/logout'>")
  }

  /** A redirect to the login page. */
  predicate SendsToLogin(page: string) {
    "HTTP/1.1 302 Found" + "\r\n" <= page && FieldValue(page, "\r\nLocation:") == Some("/login.html")
  }

  lemma HeadShows(status: string, page: string, body: string)
    requires page == status + "\r\n" + "Content-Type: text/html; charset=utf-8\r\n" + "Connection: close\r\n"
                     + ("\r\n" + body)
    ensures Shows(page, status, body)
  {
    var t, c := "Content-Type: text/html; charset=utf-8\r\n", "Connection: close";
    assert "Connection: close\r\n" == c + "\r\n";
    assert page == status + "\r\n" + (t + "Connection: close\r\n" + ("\r\n" + body));
    assert "\r\n" + "\r\n" == "\r\n\r\n";
    assert page == (status + "\r\n" + t + c) + ("\r\n" + "\r\n" + body);
    assert page[|status + "\r\n" + t + c|..] == "\r\n" + "\r\n" + body;
  }

  lemma OkShows(body: string)
    ensures Shows(PageHead() + body, "HTTP/1.1 200 OK", body)
  {
    assert "HTTP/1.1 200 OK\r\n" == "HTTP/1.1 200 OK" + "\r\n";
    HeadShows("HTTP/1.1 200 OK", PageHead() + body, body);
  }

  lemma ContainsMiddle(head: string, middle: string, tail: string)
    ensures Contains(head + middle + tail, middle)
  {
    assert OccursAt(head + middle + tail, middle, |head|);
  }

  lemma WelcomeBody(username: string)
    ensures Contains(WelcomeText(username), username) && Contains(WelcomeText(username), "<a href='/logout'>")
  {
    var head, bye, link := "<h1>Hello World! 🎉</h1>" + "<p>欢迎你，", "！你已经成功登录啦~</p>", "<a href='/logout'>";
    var last := "<a href='/logout'>点击这里登出</a>";
    assert last == link + "点击这里登出</a>";
    ContainsMiddle(head, username, bye + last);
    ContainsMiddle(head + username + bye, link, "点击这里登出</a>");
    assert head + username + (bye + last) == WelcomeText(username);
    assert head + username + bye + link + "点击这里登出</a>" == WelcomeText(username);
  }

  lemma PagesRendered(html: string, username: string)
    ensures Render(FormPage(html)) == PageHead() + html
    ensures Render(WelcomePage(username)) == PageHead() + WelcomeText(username)
  {
    hide PageHead, WelcomeText, NotFoundText, Redirect, BuildSetCookie, BuildClearCookie;
  }

  /** What the pages say. */
  lemma PagesShow(html: string, username: string)
    ensures Shows(Render(FormPage(html)), "HTTP/1.1 200 OK", html)
    ensures Welcomes(Render(WelcomePage(username)), username)
  {
    hide PageHead, WelcomeText, Render, Shows, Contains;
    PagesRendered(html, username);
    OkShows(html);
    OkShows(WelcomeText(username));
    WelcomeBody(username);
  }

  lemma NotFoundShows()
    ensures Shows(Render(NotFoundPage), "HTTP/1.1 404 Not Found", "<h1>404 页面不存在</h1>")
  {
    NotFoundRendered();
    var body := "<h1>404 页面不存在</h1>";
    assert "HTTP/1.1 404 Not Found\r\n" == "HTTP/1.1 404 Not Found" + "\r\n";
    assert "\r\n<h1>404 页面不存在</h1>" == "\r\n" + body;
    HeadShows("HTTP/1.1 404 Not Found", NotFoundText(), body);
  }

  lemma NotFoundRendered()
    ensures Render(NotFoundPage) == NotFoundText()
  {
    hide PageHead, WelcomeText, NotFoundText, Redirect, BuildSetCookie, BuildClearCookie;
  }

  lemma LoginNeededShows()
    ensures SendsToLogin(Render(LoginNeeded))
  {
    hide FieldValue, Redirect, Render;
    RedirectsRendered("");
    LocationRead("", "/login.html");
    RedirectStatus("", "/login.html");
  }

  lemma RedirectStatus(header: string, location: string)
    ensures "HTTP/1.1 302 Found" + "\r\n" <= Redirect(header, location)
  {
    var rest := header + "Location: " + location + "\r\n\r\n";
    assert Redirect(header, location) == "HTTP/1.1 302 Found" + "\r\n" + rest;
  }

  // ---------------------------------------------------------------- end to end

  /** Login end to end, on the texts that go over the line. After a request text that asks for
      POST /login, whatever requests other clients make in between (with a clock that does not
      run backwards, no colliding id, and nobody logging this session out), a text that asks
      for the home page and carries the cookie that the agent stored is answered with the
      welcome page for 3600 seconds, the last one included, and with the redirect to the login
      page afterwards. */
  lemma LoginEndToEnd(s: Sessions, login: string, start: Env, cookie: StoredCookie, events: seq<Event>,
                      home: string, env: Env, before: string, after: string)
    requires AsksLogin(login) && |start.random| == 16
    requires Store(Render(ResponseTo(s, ReadRequest(login), start))) == Some(cookie)
    requires InOrder(start.later, events) && ClockAfter(start.later, events) <= env.now
    requires forall i | 0 <= i < |events| :: Spares(cookie.value, events[i])
    requires AsksHome(home) && home == Carrying(cookie, before, after) && Find(home, "Cookie:", 0) == Some(|before|)
    ensures var table := Run(TableAfter(s, ReadRequest(login), start), events);
            var page := Render(ResponseTo(table, ReadRequest(home), env));
            if env.now <= start.later + 3600 then Welcomes(page, "test_user") else SendsToLogin(page)
  {
    hide Render, Store, Carrying, RouteOf, ReadRequest, AsksLogin, AsksHome, Welcomes, SendsToLogin;
    var first := Event(ReadRequest(login), start);
    RouteOfRequest(login);
    RouteOfRequest(home);
    var id := SessionId(start.now, start.random);
    CookieOfLogin(s, first, cookie);
    SessionEndToEnd(s, first, id, events, home, env, before, after);
    PagesShow("", "test_user");
    LoginNeededShows();
  }

  lemma RouteOfRequest(text: string)
    ensures ReadRequest(text).route == RouteOf(text)
    ensures AsksLogin(text) ==> RouteOf(text) == Login
    ensures AsksLogout(text) ==> RouteOf(text) == Logout
    ensures AsksHome(text) ==> RouteOf(text) == Home
  {
    hide RouteOf, AsksForm, AsksLogin, AsksLogout, AsksHome, AsksElse, Parse, SessionIdOf;
    Routes(text);
  }

  lemma CookieOfLogin(s: Sessions, login: Event, cookie: StoredCookie)
    requires login.q.route == Login && |login.env.random| == 16
    requires Store(Render(ResponseTo(s, login.q, login.env))) == Some(cookie)
    ensures var id := SessionId(login.env.now, login.env.random); cookie == SessionCookie(id) && Plain(id)
  {
    hide Render, Store;
    IdIsPlain(login.env.now, login.env.random);
    LoginCookie(SessionId(login.env.now, login.env.random));
  }

  lemma SessionEndToEnd(s: Sessions, login: Event, id: string, events: seq<Event>,
                        home: string, env: Env, before: string, after: string)
    requires login.q.route == Login && id == SessionId(login.env.now, login.env.random) && Plain(id)
    requires InOrder(login.env.later, events) && ClockAfter(login.env.later, events) <= env.now
    requires forall i | 0 <= i < |events| :: Spares(id, events[i])
    requires home == Carrying(SessionCookie(id), before, after) && Find(home, "Cookie:", 0) == Some(|before|)
    requires ReadRequest(home).route == Home
    ensures ResponseTo(Run(TableAfter(s, login.q, login.env), events), ReadRequest(home), env)
            == if env.now <= login.env.later + TIMEOUT then WelcomePage(USER) else LoginNeeded
  {
    assert ReadRequest(home) == Request(Home, id) by {
      CookieRecognised(SessionCookie(id), before, after);
    }
    LoginCreates(s, login.q, login.env);
    LaterAnswer(TableAfter(s, login.q, login.env), id, SessionData(USER, login.env.later + TIMEOUT),
                login.env.later, events, env);
  }

  lemma LaterAnswer(s: Sessions, id: string, data: SessionData, clock: int, events: seq<Event>, env: Env)
    requires Kept(s, id, data, clock) && InOrder(clock, events) && ClockAfter(clock, events) <= env.now
    requires forall i | 0 <= i < |events| :: Spares(id, events[i])
    ensures ResponseTo(Run(s, events), Request(Home, id), env)
            == if env.now <= data.expireTime then WelcomePage(data.username) else LoginNeeded
  {
    RunKeeps(s, events, id, data, clock);
    HomeAnswer(Run(s, events), id, data, ClockAfter(clock, events), Request(Home, id), env);
  }

  lemma LogoutRemoves(s: Sessions, logout: Event, events: seq<Event>, id: string, env: Env)
    requires logout.q == Request(Logout, id)
    requires forall i | 0 <= i < |events| :: !Recreates(id, events[i])
    ensures ResponseTo(Run(TableAfter(s, logout.q, logout.env), events), Request(Home, id), env)
            == LoginNeeded
  {
    var s1 := TableAfter(s, logout.q, logout.env);
    RunStaysGone(s1, events, id);
    GoneAnswer(Run(s1, events), id, env);
  }

  /** After a text that asks for GET /logout and carries a session cookie, a text that asks for
      the home page with the same cookie is redirected to the login page, until the same id is
      handed out again. */
  lemma LogoutEndsSession(s: Sessions, logout: string, stop: Env, cookie: StoredCookie, events: seq<Event>,
                          home: string, env: Env, b1: string, a1: string, b2: string, a2: string)
    requires cookie.name == "SESSIONID" && Plain(cookie.value)
    requires AsksLogout(logout) && logout == Carrying(cookie, b1, a1) && Find(logout, "Cookie:", 0) == Some(|b1|)
    requires forall i | 0 <= i < |events| :: !Recreates(cookie.value, events[i])
    requires AsksHome(home) && home == Carrying(cookie, b2, a2) && Find(home, "Cookie:", 0) == Some(|b2|)
    ensures var table := Run(TableAfter(s, ReadRequest(logout), stop), events);
            SendsToLogin(Render(ResponseTo(table, ReadRequest(home), env)))
  {
    hide Render, Carrying, RouteOf, ReadRequest, AsksLogout, AsksHome, SendsToLogin, Plain;
    RouteOfRequest(logout);
    RouteOfRequest(home);
    CookieRecognised(cookie, b1, a1);
    CookieRecognised(cookie, b2, a2);
    LogoutRemoves(s, Event(ReadRequest(logout), stop), events, cookie.value, env);
    LoginNeededShows();
  }

  lemma GoneAnswer(s: Sessions, id: string, env: Env)
    requires id !in s
    ensures ResponseTo(s, Request(Home, id), env) == LoginNeeded
  {
  }

  /** A text that asks for the home page and has no "Cookie:" at all, or no SESSIONID among its
      cookies, is redirected in every run, because no stored id is empty. */
  lemma NoCookieNoWelcome(events: seq<Event>, home: string, env: Env)
    requires forall i | 0 <= i < |events| :: |events[i].env.random| == 16
    requires AsksHome(home) && (!Contains(home, "Cookie:") || "SESSIONID" !in Parse(home))
    ensures SendsToLogin(Render(ResponseTo(Run(map[], events), ReadRequest(home), env)))
  {
    hide Render, RouteOf, AsksHome, SendsToLogin, Contains, Parse;
    forall i | 0 <= i < |events|
      ensures !Recreates("", events[i])
    {
      IdForm(events[i].env.now, events[i].env.random);
    }
    RunStaysGone(map[], events, "");
    GoneAnswer(Run(map[], events), "", env);
    if !Contains(home, "Cookie:") {
      NoLineNoCookies(home);
    }
    RouteOfRequest(home);
    assert ReadRequest(home) == Request(Home, "");
    LoginNeededShows();
  }

  // ---------------------------------------------------------------- such requests exist

  /** A request with nothing but a session cookie: `head` up to the '=', then the id. */
  function PlainRequest(head: string, id: string): string { head + id + "\r\n\r\n" }

  const HOME_HEAD := "GET / HTTP/1.1\r\nCookie: SESSIONID="
  const LOGOUT_HEAD := "GET /logout HTTP/1.1\r\nCookie: SESSIONID="
  const LOGIN_TEXT := "POST /login HTTP/1.1\r\n\r\n"

  /** A capital letter of it stands in its head. */
  lemma CapitalsInHead(head: string, id: string, i: nat)
    requires forall i | 0 <= i < |id| :: IsIdChar(id[i])
    requires i < |PlainRequest(head, id)| && 'A' <= PlainRequest(head, id)[i] <= 'Z'
    ensures i < |head| && head[i] == PlainRequest(head, id)[i]
  {
    var r := PlainRequest(head, id);
    assert forall j | |head| <= j < |head| + |id| :: r[j] == id[j - |head|];
  }

  lemma DiffersAt(r: string, pattern: string, i: nat, k: nat)
    requires k < |pattern| && (i + k < |r| ==> r[i + k] != pattern[k])
    ensures !OccursAt(r, pattern, i)
  {
    if i + |pattern| <= |r| {
      assert r[i..i + |pattern|][k] == r[i + k];
    }
  }

  /** The capitals 'G', 'P' and 'C' of the two heads. */
  lemma HeadCapitals(i: nat)
    ensures i < |HOME_HEAD| && HOME_HEAD[i] == 'G' ==> i == 0
    ensures i < |HOME_HEAD| && HOME_HEAD[i] == 'P' ==> i == 9
    ensures i < |HOME_HEAD| && HOME_HEAD[i] == 'C' ==> i == 16
  {
  }

  lemma LogoutCapitals(i: nat)
    ensures i < |LOGOUT_HEAD| && LOGOUT_HEAD[i] == 'G' ==> i == 0
    ensures i < |LOGOUT_HEAD| && LOGOUT_HEAD[i] == 'P' ==> i == 15
    ensures i < |LOGOUT_HEAD| && LOGOUT_HEAD[i] == 'C' ==> i == 22
  {
  }

  /** None of the patterns that come earlier occurs in a plain home request. */
  lemma NotElsewhere(id: string, i: nat)
    requires forall i | 0 <= i < |id| :: IsIdChar(id[i])
    ensures var r := PlainRequest(HOME_HEAD, id);
            && !OccursAt(r, "GET /login.html", i) && !OccursAt(r, "GET /logout", i)
            && !OccursAt(r, "POST /login", i) && (i != 16 ==> !OccursAt(r, "Cookie:", i))
  {
    hide OccursAt;
    var r := PlainRequest(HOME_HEAD, id);
    assert r[5] == HOME_HEAD[5] == ' ' && r[10] == HOME_HEAD[10] == '/';
    if i < |r| && 'A' <= r[i] <= 'Z' {
      CapitalsInHead(HOME_HEAD, id, i);
      HeadCapitals(i);
    }
    DiffersAt(r, "GET /login.html", i, if i == 0 then 5 else 0);
    DiffersAt(r, "GET /logout", i, if i == 0 then 5 else 0);
    DiffersAt(r, "POST /login", i, if i == 9 then 1 else 0);
    if i != 16 {
      DiffersAt(r, "Cookie:", i, 0);
    }
  }

  lemma LogoutNotElsewhere(id: string, i: nat)
    requires forall i | 0 <= i < |id| :: IsIdChar(id[i])
    ensures var r := PlainRequest(LOGOUT_HEAD, id);
            && !OccursAt(r, "GET /login.html", i) && !OccursAt(r, "POST /login", i)
            && (i != 22 ==> !OccursAt(r, "Cookie:", i))
  {
    hide OccursAt;
    var r := PlainRequest(LOGOUT_HEAD, id);
    assert r[8] == LOGOUT_HEAD[8] == 'o' && r[16] == LOGOUT_HEAD[16] == '/';
    if i < |r| && 'A' <= r[i] <= 'Z' {
      CapitalsInHead(LOGOUT_HEAD, id, i);
      LogoutCapitals(i);
    }
    DiffersAt(r, "GET /login.html", i, if i == 0 then 8 else 0);
    DiffersAt(r, "POST /login", i, if i == 15 then 1 else 0);
    if i != 22 {
      DiffersAt(r, "Cookie:", i, 0);
    }
  }

  lemma OccursInHead(head: string, id: string, pattern: string, i: nat)
    requires i + |pattern| <= |head| && head[i..i + |pattern|] == pattern
    ensures OccursAt(PlainRequest(head, id), pattern, i)
  {
    assert PlainRequest(head, id)[i..i + |pattern|] == head[i..i + |pattern|];
  }

  /** A plain GET / with a session cookie asks for the home page. */
  lemma HomeRequestIsHome(id: string)
    requires forall i | 0 <= i < |id| :: IsIdChar(id[i])
    ensures AsksHome(PlainRequest(HOME_HEAD, id))
    ensures Find(PlainRequest(HOME_HEAD, id), "Cookie:", 0) == Some(16)
  {
    hide OccursAt, PlainRequest;
    var r := PlainRequest(HOME_HEAD, id);
    forall i: nat
      ensures !OccursAt(r, "GET /login.html", i) && !OccursAt(r, "GET /logout", i)
      ensures !OccursAt(r, "POST /login", i) && (i != 16 ==> !OccursAt(r, "Cookie:", i))
    {
      NotElsewhere(id, i);
    }
    assert HOME_HEAD[0..10] == "GET / HTTP" && HOME_HEAD[16..23] == "Cookie:";
    OccursInHead(HOME_HEAD, id, "GET / HTTP", 0);
    OccursInHead(HOME_HEAD, id, "Cookie:", 16);
    FindIs(r, "Cookie:", 0, 16);
  }

  /** A plain GET /logout with a session cookie asks for the logout. */
  lemma LogoutRequestIsLogout(id: string)
    requires forall i | 0 <= i < |id| :: IsIdChar(id[i])
    ensures AsksLogout(PlainRequest(LOGOUT_HEAD, id))
    ensures Find(PlainRequest(LOGOUT_HEAD, id), "Cookie:", 0) == Some(22)
  {
    hide OccursAt, PlainRequest;
    var r := PlainRequest(LOGOUT_HEAD, id);
    forall i: nat
      ensures !OccursAt(r, "GET /login.html", i) && !OccursAt(r, "POST /login", i)
      ensures i != 22 ==> !OccursAt(r, "Cookie:", i)
    {
      LogoutNotElsewhere(id, i);
    }
    assert LOGOUT_HEAD[0..11] == "GET /logout" && LOGOUT_HEAD[22..29] == "Cookie:";
    OccursInHead(LOGOUT_HEAD, id, "GET /logout", 0);
    OccursInHead(LOGOUT_HEAD, id, "Cookie:", 22);
    FindIs(r, "Cookie:", 0, 22);
  }

  /** A plain POST /login asks for the login. */
  lemma LoginRequestIsLogin()
    ensures AsksLogin(LOGIN_TEXT)
  {
    assert OccursAt(LOGIN_TEXT, "POST /login", 0);
    forall i: nat
      ensures !OccursAt(LOGIN_TEXT, "GET /login.html", i)
    {
      DiffersAt(LOGIN_TEXT, "GET /login.html", i, 0);
    }
  }

  /** So for every id there are a login, a home and a logout request that meet the hypotheses of
      LoginEndToEnd and LogoutEndsSession. */
  lemma PlainRequests(now: int, random: seq<HexDigit>, attributes: seq<Attribute>)
    requires |random| == 16
    ensures AsksLogin(LOGIN_TEXT)
    ensures var cookie, before := StoredCookie("SESSIONID", SessionId(now, random), attributes), "GET / HTTP/1.1\r\n";
            var home := Carrying(cookie, before, "\r\n");
            AsksHome(home) && Find(home, "Cookie:", 0) == Some(|before|)
    ensures var cookie, before := StoredCookie("SESSIONID", SessionId(now, random), attributes), "GET /logout HTTP/1.1\r\n";
            var logout := Carrying(cookie, before, "\r\n");
            AsksLogout(logout) && Find(logout, "Cookie:", 0) == Some(|before|)
  {
    hide AsksLogin, AsksHome, AsksLogout, Find, SessionId;
    var id := SessionId(now, random);
    IdForm(now, random);
    LoginRequestIsLogin();
    HomeRequestIsHome(id);
    LogoutRequestIsLogout(id);
    CarriesPlainly("GET / HTTP/1.1\r\n", id, attributes);
    CarriesPlainly("GET /logout HTTP/1.1\r\n", id, attributes);
    assert "GET / HTTP/1.1\r\n" + "Cookie: SESSIONID=" == HOME_HEAD;
    assert "GET /logout HTTP/1.1\r\n" + "Cookie: SESSIONID=" == LOGOUT_HEAD;
  }

  lemma CarriesPlainly(before: string, id: string, attributes: seq<Attribute>)
    ensures Carrying(StoredCookie("SESSIONID", id, attributes), before, "\r\n")
            == PlainRequest(before + "Cookie: SESSIONID=", id)
  {
    var k := "Cookie: SESSIONID=";
    assert before + "Cookie: " + ("SESSIONID" + "=" + id) == before + k + id;
    assert "\r\n\r\n" == "\r\n" + "\r\n";
    Assoc(before + k + id, "\r\n", "\r\n");
  }
}
