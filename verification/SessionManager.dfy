/** http-server-cpp/src/SessionManager.cpp. Readings of the clock and random digits are
    inputs. */
module SessionManager {
  import opened Sync
  import opened Text

  datatype SessionData = SessionData(username: string, expireTime: int)

  type Sessions = map<string, SessionData>

  type HexDigit = d: nat | d < 16

  function HexChar(d: HexDigit): char {
    if d < 10 then '0' + d as char else 'a' + (d - 10) as char
  }

  /** The digit a hexadecimal character stands for. */
  function HexValue(c: char): int {
    if '0' <= c <= '9' then c as int - '0' as int
    else if 'a' <= c <= 'f' then c as int - 'a' as int + 10
    else -1
  }

  function Hex(digits: seq<HexDigit>): (s: string)
    ensures |s| == |digits|
    ensures forall i | 0 <= i < |s| :: s[i] == HexChar(digits[i])
  {
    seq(|digits|, i requires 0 <= i < |digits| => HexChar(digits[i]))
  }

  function SessionId(now: int, digits: seq<HexDigit>): string {
    Decimal(now) + "_" + Hex(digits)
  }

  // ---------------------------------------------------------------- what each call does

  datatype Call =
    | Create(id: string, username: string, expireTime: int)
    | IsValid(id: string, now: int)
    | GetUsername(id: string)
    | Destroy(id: string)
    | Clear(now: int)

  datatype Answer = Done | Valid(ok: bool) | Name(username: string)

  function Live(s: Sessions, now: int): Sessions {
    map id | id in s && s[id].expireTime >= now :: s[id]
  }

  /** The table and the answer after one call. */
  function Serve(s: Sessions, c: Call): (Sessions, Answer) {
    match c
    case Create(id, username, expireTime) => (s[id := SessionData(username, expireTime)], Done)
    case IsValid(id, now) =>
      if id !in s then (s, Valid(false))
      else if s[id].expireTime < now then (s - {id}, Valid(false))
      else (s, Valid(true))
    case GetUsername(id) => (s, Name(if id in s then s[id].username else ""))
    case Destroy(id) => (s - {id}, Done)
    case Clear(now) => (Live(s, now), Done)
  }

  class SessionManager {
    var sessions: Sessions

    constructor ()
      ensures sessions == map[]
    {
      sessions := map[];
    }

    method GenerateSessionId(now: int, random: seq<HexDigit>) returns (id: string)
      requires |random| == 16
      ensures id == SessionId(now, random)
    {
      id := Decimal(now) + "_";
      for i := 0 to 16
        invariant id == Decimal(now) + "_" + Hex(random)[..i]
      {
        id := id + [HexChar(random[i])];
      }
    }

    /** The clock is read twice: once for the id, once for the expiry time. */
    method CreateSession(username: string, timeout: int, now: int, later: int, random: seq<HexDigit>)
      returns (sessionId: string)
      requires |random| == 16
      modifies this
      ensures sessionId == SessionId(now, random)
      ensures sessions == Serve(old(sessions), Create(sessionId, username, later + timeout)).0
      ensures sessions == old(sessions)[sessionId := SessionData(username, later + timeout)]
    {
      sessionId := GenerateSessionId(now, random);
      var data := SessionData(username, later + timeout);
      sessions := sessions[sessionId := data];
    }

    method IsSessionValid(sessionId: string, now: int) returns (ok: bool)
      modifies this
      ensures (sessions, Valid(ok)) == Serve(old(sessions), IsValid(sessionId, now))
      ensures ok <==> sessionId in old(sessions) && now <= old(sessions)[sessionId].expireTime
      ensures sessions == if ok then old(sessions) else old(sessions) - {sessionId}
    {
      if sessionId !in sessions {
        return false;
      }
      if sessions[sessionId].expireTime < now {
        sessions := sessions - {sessionId};
        return false;
      }
      return true;
    }

    method UsernameOf(sessionId: string) returns (username: string)
      ensures (sessions, Name(username)) == Serve(sessions, GetUsername(sessionId))
      ensures sessionId in sessions ==> username == sessions[sessionId].username
      ensures sessionId !in sessions ==> username == ""
    {
      if sessionId in sessions {
        return sessions[sessionId].username;
      }
      return "";
    }

    method DestroySession(sessionId: string)
      modifies this
      ensures sessions == Serve(old(sessions), Destroy(sessionId)).0
      ensures sessions == old(sessions) - {sessionId}
    {
      sessions := sessions - {sessionId};
    }

    /** Visits every entry once, in whatever order the table yields them, erasing as it goes. */
    method ClearExpiredSession(now: int)
      modifies this
      ensures sessions == Serve(old(sessions), Clear(now)).0
      ensures forall id :: id in sessions <==> id in old(sessions) && now <= old(sessions)[id].expireTime
      ensures forall id | id in sessions :: sessions[id] == old(sessions)[id]
    {
      var ahead := sessions.Keys;
      while ahead != {}
        invariant ahead <= sessions.Keys
        invariant forall id :: id in sessions <==>
                    id in ahead || (id in old(sessions) && old(sessions)[id].expireTime >= now)
        invariant forall id | id in sessions :: id in old(sessions) && sessions[id] == old(sessions)[id]
        decreases ahead
      {
        var it :| it in ahead;
        ahead := ahead - {it};
        if sessions[it].expireTime < now {
          sessions := sessions - {it};
        }
      }
      assert sessions.Keys == Live(old(sessions), now).Keys;
    }
  }

  // ---------------------------------------------------------------- session ids

  /** Two ids are equal only when made in the same second from the same digits. */
  lemma IdsDiffer(t1: int, d1: seq<HexDigit>, t2: int, d2: seq<HexDigit>)
    requires |d1| == |d2| == 16
    ensures SessionId(t1, d1) == SessionId(t2, d2) <==> t1 == t2 && d1 == d2
  {
    if SessionId(t1, d1) == SessionId(t2, d2) {
      var id := SessionId(t1, d1);
      assert id[..|id| - 17] == Decimal(t1) && id[..|id| - 17] == Decimal(t2);
      DecimalInjective(t1, t2);
      assert id[|id| - 16..] == Hex(d1) && id[|id| - 16..] == Hex(d2);
      forall i | 0 <= i < 16
        ensures d1[i] == d2[i]
      {
        assert HexChar(d1[i]) == HexChar(d2[i]);
      }
    }
  }

  predicate IsIdChar(c: char) { IsDigit(c) || 'a' <= c <= 'f' || c == '_' || c == '-' }

  /** An id is a decimal number, '_' and sixteen hexadecimal digits. */
  lemma IdForm(now: int, digits: seq<HexDigit>)
    requires |digits| == 16
    ensures var id := SessionId(now, digits);
            && |id| >= 18
            && (forall i | 0 <= i < |id| :: IsIdChar(id[i]))
            && (now >= 0 ==> AllDigits(id[..|id| - 17]) && ReadNat(id[..|id| - 17]) == now)
            && id[|id| - 17] == '_'
  {
    var id, d := SessionId(now, digits), DecimalNat(if now < 0 then -now else now);
    DecimalNatReads(if now < 0 then -now else now);
    assert forall i | 0 <= i < |d| :: IsDigit(d[i]);
    assert id[..|id| - 17] == Decimal(now);
    if now < 0 {
      assert Decimal(now)[1..] == d;
      assert forall i | 1 <= i < |Decimal(now)| :: Decimal(now)[i] == d[i - 1];
    }
    forall i | 0 <= i < |id|
      ensures IsIdChar(id[i])
    {
      if i < |id| - 17 {
        assert id[i] == Decimal(now)[i];
      } else if i > |id| - 17 {
        assert id[i] == HexChar(digits[i - (|id| - 16)]);
      }
    }
  }

  /** Read as hexadecimal characters, its last sixteen are the digits it was made from. */
  lemma IdDigits(now: int, digits: seq<HexDigit>)
    requires |digits| == 16
    ensures var id := SessionId(now, digits);
            |id| >= 16 && forall i | 0 <= i < 16 :: HexValue(id[|id| - 16 + i]) == digits[i]
  {
    hide Decimal;
    var id := SessionId(now, digits);
    assert id[|id| - 16..] == Hex(digits);
    assert forall i | 0 <= i < 16 :: id[|id| - 16 + i] == Hex(digits)[i];
  }

  // ---------------------------------------------------------------- cleanup is unobservable

  /** A table from which nothing expired is ever removed. */
  function Remember(h: Sessions, c: Call): (Sessions, Answer) {
    match c
    case Create(id, username, expireTime) => (h[id := SessionData(username, expireTime)], Done)
    case IsValid(id, now) => (h, Valid(id in h && h[id].expireTime >= now))
    case GetUsername(id) => (h, Name(if id in h then h[id].username else ""))
    case Destroy(id) => (h - {id}, Done)
    case Clear(_) => (h, Done)
  }

  /** The clock reading a call uses, if any. */
  function Reading(c: Call): Option<int> {
    match c
    case IsValid(_, now) => Some(now)
    case Clear(now) => Some(now)
    case _ => None
  }

  /** No reading is earlier than `clock` or than a reading before it. */
  predicate ClockRuns(clock: int, calls: seq<Call>)
    decreases |calls|
  {
    calls == [] ||
    match Reading(calls[0])
    case None => ClockRuns(clock, calls[1..])
    case Some(now) => clock <= now && ClockRuns(now, calls[1..])
  }

  function Tick(clock: int, c: Call): int {
    match Reading(c) case None => clock case Some(now) => now
  }

  /** The answers that the program looks at: every isSessionValid, and a getUsername that
      comes straight after a true answer for the same id (`confirmed`). */
  function Observed(s: Sessions, confirmed: Option<string>, calls: seq<Call>): seq<Answer>
    decreases |calls|
  {
    if calls == [] then []
    else
      var (s', answer) := Serve(s, calls[0]);
      Shown(calls[0], confirmed, answer) + Observed(s', Confirms(calls[0], answer), calls[1..])
  }

  function ObservedIdeally(h: Sessions, confirmed: Option<string>, calls: seq<Call>): seq<Answer>
    decreases |calls|
  {
    if calls == [] then []
    else
      var (h', answer) := Remember(h, calls[0]);
      Shown(calls[0], confirmed, answer) + ObservedIdeally(h', Confirms(calls[0], answer), calls[1..])
  }

  function Shown(c: Call, confirmed: Option<string>, answer: Answer): seq<Answer> {
    if c.IsValid? || (c.GetUsername? && confirmed == Some(c.id)) then [answer] else []
  }

  function Confirms(c: Call, answer: Answer): Option<string> {
    if c.IsValid? && answer == Valid(true) then Some(c.id) else None
  }

  /** The pruned table agrees with the full one except for entries expired by now. */
  ghost predicate Agrees(s: Sessions, h: Sessions, clock: int) {
    && (forall id | id in s :: id in h && s[id] == h[id])
    && (forall id | id in h && id !in s :: h[id].expireTime < clock)
  }

  lemma CallAgrees(s: Sessions, h: Sessions, clock: int, c: Call)
    requires Agrees(s, h, clock) && clock <= Tick(clock, c)
    ensures Agrees(Serve(s, c).0, Remember(h, c).0, Tick(clock, c))
    ensures c.IsValid? ==> Serve(s, c).1 == Remember(h, c).1
    ensures c.GetUsername? && c.id in s ==> Serve(s, c).1 == Remember(h, c).1
  {
  }

  lemma {:induction false} ObservedAgrees(s: Sessions, h: Sessions, clock: int, confirmed: Option<string>, calls: seq<Call>)
    requires Agrees(s, h, clock) && ClockRuns(clock, calls)
    requires confirmed.Some? ==> confirmed.value in s
    ensures Observed(s, confirmed, calls) == ObservedIdeally(h, confirmed, calls)
    decreases |calls|
  {
    if calls != [] {
      var c := calls[0];
      CallAgrees(s, h, clock, c);
      var (s', a) := Serve(s, c);
      var (h', b) := Remember(h, c);
      ObservedAgrees(s', h', Tick(clock, c), Confirms(c, a), calls[1..]);
    }
  }

  /** However calls are mixed with lazy and explicit cleanup, as long as the clock does not run
      backwards the program sees what a table that is never pruned would show it. */
  lemma CleanupIsUnobservable(s: Sessions, clock: int, calls: seq<Call>)
    requires ClockRuns(clock, calls)
    ensures Observed(s, None, calls) == ObservedIdeally(s, None, calls)
  {
    ObservedAgrees(s, s, clock, None, calls);
  }

  function WithoutClears(calls: seq<Call>): seq<Call> {
    if calls == [] then []
    else (if calls[0].Clear? then [] else [calls[0]]) + WithoutClears(calls[1..])
  }

  /** Answers of isSessionValid only. */
  function Verdicts(s: Sessions, calls: seq<Call>): seq<Answer>
    decreases |calls|
  {
    if calls == [] then []
    else
      var (s', answer) := Serve(s, calls[0]);
      (if calls[0].IsValid? then [answer] else []) + Verdicts(s', calls[1..])
  }

  lemma {:induction false} VerdictsAgree(s: Sessions, h: Sessions, clock: int, calls: seq<Call>)
    requires Agrees(s, h, clock) && ClockRuns(clock, calls)
    ensures Verdicts(s, calls) == Verdicts(h, WithoutClears(calls))
    decreases |calls|
  {
    if calls != [] {
      var c := calls[0];
      if c.Clear? {
        VerdictsAgree(Live(s, c.now), h, c.now, calls[1..]);
        assert WithoutClears(calls) == WithoutClears(calls[1..]);
      } else {
        BothServe(s, h, clock, c);
        VerdictsAgree(Serve(s, c).0, Serve(h, c).0, Tick(clock, c), calls[1..]);
        assert WithoutClears(calls) == [c] + WithoutClears(calls[1..]);
      }
    }
  }

  lemma BothServe(s: Sessions, h: Sessions, clock: int, c: Call)
    requires Agrees(s, h, clock) && clock <= Tick(clock, c) && !c.Clear?
    ensures Agrees(Serve(s, c).0, Serve(h, c).0, Tick(clock, c))
    ensures c.IsValid? ==> Serve(s, c).1 == Serve(h, c).1
  {
  }

  /** Calls of clearExpiredsession can be inserted or left out anywhere. */
  lemma ClearsAreUnobservable(s: Sessions, clock: int, calls: seq<Call>)
    requires ClockRuns(clock, calls)
    ensures Verdicts(s, calls) == Verdicts(s, WithoutClears(calls))
  {
    VerdictsAgree(s, s, clock, calls);
  }

  /** With a clock that runs backwards the lazy erase shows. */
  lemma ClockMatters()
    ensures var s, calls := map["k" := SessionData("u", 5)], [IsValid("k", 6), IsValid("k", 4)];
            Observed(s, None, calls) != ObservedIdeally(s, None, calls)
  {
    var s, calls := map["k" := SessionData("u", 5)], [IsValid("k", 6), IsValid("k", 4)];
    var rest := calls[1..];
    assert rest == [IsValid("k", 4)] && rest[1..] == [];
    assert Observed(s - {"k"}, None, rest) == [Valid(false)];
    assert Observed(s, None, calls) == [Valid(false), Valid(false)];
    assert ObservedIdeally(s, None, calls) == [Valid(false), Valid(true)];
  }
}
