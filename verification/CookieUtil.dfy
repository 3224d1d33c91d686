/** http-server-cpp/src/CookieUtil.cpp. */
module CookieUtil {
  import opened Sync
  import opened Text

  type CookieMap = map<string, string>

  /** What one ';'-separated piece of the Cookie line adds to the map. */
  function Insert(m: CookieMap, piece: string): CookieMap {
    var pair := DropTrailingSpaces(DropLeadingSpaces(piece));
    match Find(pair, "=", 0)
    case None => m
    case Some(eq) => m[pair[..eq] := pair[eq + 1..]]
  }

  /** The pieces of `text` in order, as getline with delimiter ';' yields them: nothing after
      a final ';', nothing for an empty text. */
  function Scan(m: CookieMap, text: string): CookieMap
    decreases |text|
  {
    if text == "" then m
    else
      match Find(text, ";", 0)
      case None => Insert(m, text)
      case Some(i) => Scan(Insert(m, text[..i]), text[i + 1..])
  }

  /** Positions of the first "Cookie:" and of the CRLF after it. */
  function CookieLine(request: string): (r: Option<(nat, nat)>)
    ensures r.Some? ==> r.value.0 + 7 <= r.value.1 && r.value.1 + 2 <= |request|
  {
    match Find(request, "Cookie:", 0)
    case None => None
    case Some(c) => (
      match Find(request, "\r\n", c)
      case None => None
      case Some(e) =>
        HeaderNameHasNoCrLf(request, c, e);
        Some((c, e)))
  }

  lemma HeaderNameHasNoCrLf(request: string, c: nat, e: nat)
    requires OccursAt(request, "Cookie:", c) && OccursAt(request, "\r\n", e) && c <= e
    ensures c + 7 <= e
  {
    CrLfOccurs(request, e);
    assert forall i | c <= i < c + 7 :: request[i] == request[c..c + 7][i - c] && request[i] != '\r';
  }

  /** The text cut out of the request. The eighth character after the name, normally a space,
      is skipped unread; when the line is just "Cookie:" the length wraps around and the text
      runs on to the end of the request. */
  function CookieText(request: string, c: nat, e: nat): string
    requires c + 7 <= e && e + 2 <= |request|
  {
    Substr(request, c + 8, SizeMinus(e, c + 8))
  }

  function Parse(request: string): CookieMap {
    match CookieLine(request)
    case None => map[]
    case Some((c, e)) => Scan(map[], CookieText(request, c, e))
  }

  /** There is no "Cookie:", or no line break after the first one. */
  ghost predicate NoCookieLine(request: string) {
    || !Contains(request, "Cookie:")
    || exists c: nat ::
         && OccursAt(request, "Cookie:", c) && (forall j | 0 <= j < c :: !OccursAt(request, "Cookie:", j))
         && forall j: nat | c <= j :: !OccursAt(request, "\r\n", j)
  }

  /** Then there are no cookies. */
  lemma NoLineNoCookies(request: string)
    requires NoCookieLine(request)
    ensures CookieLine(request) == None && Parse(request) == map[]
  {
    match Find(request, "Cookie:", 0)
    case None =>
    case Some(c) =>
      assert OccursAt(request, "Cookie:", c);
  }

  /** parseCookies. */
  method ParseCookies(request: StdString) returns (cookieMap: CookieMap)
    ensures cookieMap == Parse(request)
    ensures NoCookieLine(request) ==> cookieMap == map[]
  {
    hide NoCookieLine, Erase, FindFirstNotOf, FindLastNotOf, DropLeadingSpaces, DropTrailingSpaces, SizePlus, SizeMinus, Npos;
    if NoCookieLine(request) {
      NoLineNoCookies(request);
    }
    cookieMap := map[];
    var cookiePos := Find(request, "Cookie:", 0);
    if cookiePos.None? {
      return;
    }
    var endPos := Find(request, "\r\n", cookiePos.value);
    if endPos.None? {
      return;
    }
    HeaderNameHasNoCrLf(request, cookiePos.value, endPos.value);
    var cookieStr := Substr(request, cookiePos.value + 8, SizeMinus(endPos.value, cookiePos.value + 8));

    ghost var expected := Parse(request);
    assert expected == Scan(cookieMap, cookieStr);
    var rest := cookieStr;
    while rest != ""
      invariant Scan(cookieMap, rest) == expected && |rest| <= |request|
      decreases |rest|
    {
      var pair;
      var semicolon := Find(rest, ";", 0);
      if semicolon.Some? {
        pair, rest := rest[..semicolon.value], rest[semicolon.value + 1..];
      } else {
        pair, rest := rest, "";
      }
      EraseLeading(pair);
      pair := Erase(pair, 0, Npos(FindFirstNotOf(pair)));
      EraseTrailing(pair);
      pair := Erase(pair, SizePlus(Npos(FindLastNotOf(pair)), 1), NPOS);
      if pair == "" {
        continue;
      }
      var eqPos := Find(pair, "=", 0);
      if eqPos.None? {
        continue;
      }
      var key := pair[..eqPos.value];
      var value := pair[eqPos.value + 1..];
      cookieMap := cookieMap[key := value];
    }
  }

  /** buildSetCookie. */
  function BuildSetCookie(key: string, value: string, maxAge: int): string {
    "Set-Cookie:" + key + "=" + value + "; Path=/; HttpOnly; Max-Age=" + Decimal(maxAge) + "\r\n"
  }

  /** buildClearCookie. */
  function BuildClearCookie(key: string): string {
    "Set-Cookie:" + key + "=; Path=/; HttpOnly; Max-Age=0\r\n"
  }

  // ---------------------------------------------------------------- printing a Cookie header

  /** The cookie-string of RFC 6265, section 4.2.1. */
  function Print(pairs: seq<(string, string)>): string {
    if pairs == [] then ""
    else if |pairs| == 1 then pairs[0].0 + "=" + pairs[0].1
    else pairs[0].0 + "=" + pairs[0].1 + "; " + Print(pairs[1..])
  }

  function Header(pairs: seq<(string, string)>): string {
    "Cookie: " + Print(pairs) + "\r\n"
  }

  /** Later pairs win. */
  function LastWins(m: CookieMap, pairs: seq<(string, string)>): CookieMap
    decreases |pairs|
  {
    if pairs == [] then m else LastWins(m[pairs[0].0 := pairs[0].1], pairs[1..])
  }

  /** Keys and values the line format can carry, line breaks aside. */
  predicate Carries(k: string, v: string) {
    && '=' !in k && ';' !in k && ';' !in v
    && (k != "" ==> k[0] != ' ')
    && (v != "" ==> v[|v| - 1] != ' ')
  }

  predicate Printable(k: string, v: string) {
    Carries(k, v) && NoCrLf(k) && NoCrLf(v)
  }

  predicate AllPrintable(pairs: seq<(string, string)>) {
    forall i | 0 <= i < |pairs| :: Printable(pairs[i].0, pairs[i].1)
  }

  /** A space in front of a piece changes nothing. */
  lemma InsertSpaced(m: CookieMap, piece: string)
    ensures Insert(m, " " + piece) == Insert(m, piece)
  {
    var spaced := " " + piece;
    assert spaced[0] == ' ' && spaced[1..] == piece;
  }

  lemma InsertPair(m: CookieMap, k: string, v: string)
    requires Carries(k, v)
    ensures Insert(m, k + "=" + v) == m[k := v]
  {
    var pair := k + "=" + v;
    assert pair[0] != ' ' && pair[|pair| - 1] != ' ';
    FindCharAfter(k, '=', v);
    assert pair[..|k|] == k && pair[|k| + 1..] == v;
  }

  lemma ScanLast(m: CookieMap, piece: string)
    requires ';' !in piece
    ensures Scan(m, piece) == if piece == "" then m else Insert(m, piece)
  {
    FindCharNone(piece, ';');
  }

  lemma ScanFirst(m: CookieMap, piece: string, tail: string)
    requires ';' !in piece
    ensures Scan(m, piece + ";" + tail) == Scan(Insert(m, piece), tail)
  {
    var text := piece + ";" + tail;
    FindCharAfter(piece, ';', tail);
    assert text[..|piece|] == piece && text[|piece| + 1..] == tail;
  }

  lemma PieceHasNoSemicolon(k: string, v: string)
    requires Carries(k, v)
    ensures ';' !in k + "=" + v && ';' !in " " + (k + "=" + v)
  {
  }

  lemma PrintMore(pairs: seq<(string, string)>)
    requires |pairs| > 1
    ensures var pair, tail := pairs[0].0 + "=" + pairs[0].1, " " + Print(pairs[1..]);
            && Print(pairs) == pair + ";" + tail
            && " " + Print(pairs) == " " + pair + ";" + tail
  {
    var pair, rest := pairs[0].0 + "=" + pairs[0].1, Print(pairs[1..]);
    assert "; " == ";" + " ";
    Assoc(pair, ";", " ");
    Assoc(pair + ";", " ", rest);
    Assoc(" ", pair, ";");
    Assoc(" ", pair + ";", " " + rest);
  }

  /** A pair, maybe after a space, then more text. */
  lemma ScanPair(m: CookieMap, spaced: bool, k: string, v: string, tail: string)
    requires Carries(k, v)
    ensures var piece := if spaced then " " + (k + "=" + v) else k + "=" + v;
            Scan(m, piece) == m[k := v] && Scan(m, piece + ";" + tail) == Scan(m[k := v], tail)
  {
    var pair := k + "=" + v;
    var piece := if spaced then " " + pair else pair;
    PieceHasNoSemicolon(k, v);
    InsertSpaced(m, pair);
    InsertPair(m, k, v);
    ScanLast(m, piece);
    ScanFirst(m, piece, tail);
  }

  /** The text of a list, and the same after a "; ". */
  lemma {:induction false} ScanPrint(m: CookieMap, spaced: bool, pairs: seq<(string, string)>)
    requires pairs != [] && forall i | 0 <= i < |pairs| :: Carries(pairs[i].0, pairs[i].1)
    ensures Scan(m, if spaced then " " + Print(pairs) else Print(pairs)) == LastWins(m, pairs)
    decreases |pairs|
  {
    var (k, v) := pairs[0];
    if |pairs| == 1 {
      ScanPair(m, spaced, k, v, "");
      assert pairs[1..] == [];
    } else {
      PrintMore(pairs);
      ScanPair(m, spaced, k, v, " " + Print(pairs[1..]));
      ScanPrint(m[k := v], true, pairs[1..]);
    }
  }

  lemma {:induction false} PrintNoCrLf(pairs: seq<(string, string)>)
    requires AllPrintable(pairs)
    ensures NoCrLf(Print(pairs))
    decreases |pairs|
  {
    if pairs != [] {
      var head := pairs[0].0 + "=" + pairs[0].1;
      assert NoCrLf(head);
      if |pairs| > 1 {
        PrintNoCrLf(pairs[1..]);
        assert NoCrLf(head + "; ");
      }
    }
  }

  lemma NamedNoCrLf(text: string)
    requires NoCrLf(text)
    ensures NoCrLf("Cookie: " + text)
  {
  }

  /** A request whose first "Cookie:" starts the header is read back as that header's text. */
  lemma HeaderText(before: string, text: string, after: string)
    requires NoCrLf(text)
    requires Find(before + "Cookie: " + text + "\r\n" + after, "Cookie:", 0) == Some(|before|)
    ensures var request := before + "Cookie: " + text + "\r\n" + after;
            && CookieLine(request) == Some((|before|, |before| + 8 + |text|))
            && CookieText(request, |before|, |before| + 8 + |text|) == text
  {
    hide Find, NoCrLf;
    var request := before + "Cookie: " + text + "\r\n" + after;
    NamedNoCrLf(text);
    FindCrLf(before, "Cookie: " + text, after);
    Assoc(before, "Cookie: ", text);
    assert request[|before| + 8..|before| + 8 + |text|] == text;
  }

  /** Round trip: parsing any request whose first Cookie header prints a list of pairs gives
      the map of that list. */
  lemma CookieRoundTrip(before: string, pairs: seq<(string, string)>, after: string)
    requires AllPrintable(pairs)
    requires Find(before + "Cookie: " + Print(pairs) + "\r\n" + after, "Cookie:", 0) == Some(|before|)
    ensures Parse(before + "Cookie: " + Print(pairs) + "\r\n" + after) == LastWins(map[], pairs)
  {
    PrintNoCrLf(pairs);
    HeaderText(before, Print(pairs), after);
    if pairs != [] {
      ScanPrint(map[], false, pairs);
    }
  }

  // ---------------------------------------------------------------- what parsing yields

  ghost predicate MapCarries(m: CookieMap) {
    forall k | k in m :: Carries(k, m[k])
  }

  ghost predicate MapNoCrLf(m: CookieMap) {
    forall k | k in m :: NoCrLf(k) && NoCrLf(m[k])
  }

  /** The trimmed piece is a stretch of the piece, with no space at either end. */
  lemma Trimmed(piece: string) returns (i: nat)
    ensures var pair := DropTrailingSpaces(DropLeadingSpaces(piece));
            i + |pair| <= |piece| && pair == piece[i..i + |pair|]
    ensures var pair := DropTrailingSpaces(DropLeadingSpaces(piece));
            pair != "" ==> pair[0] != ' ' && pair[|pair| - 1] != ' '
  {
    DroppedLeading(piece);
    var left := DropLeadingSpaces(piece);
    DroppedTrailing(left);
    var pair := DropTrailingSpaces(left);
    i := |piece| - |left|;
    assert pair == piece[i..i + |pair|];
  }

  lemma SplitCarries(pair: string, eq: nat)
    requires eq < |pair| && pair[eq] == '=' && '=' !in pair[0..eq] && ';' !in pair
    requires pair[0] != ' ' && pair[|pair| - 1] != ' '
    ensures Carries(pair[..eq], pair[eq + 1..])
    ensures NoCrLf(pair) ==> NoCrLf(pair[..eq]) && NoCrLf(pair[eq + 1..])
  {
    assert pair[0..eq] == pair[..eq];
    var k, v := pair[..eq], pair[eq + 1..];
    assert v != "" ==> v[|v| - 1] == pair[|pair| - 1];
    assert forall i | 0 <= i < |v| :: v[i] == pair[eq + 1 + i];
  }

  lemma InsertCarries(m: CookieMap, piece: string)
    requires ';' !in piece && MapCarries(m)
    ensures MapCarries(Insert(m, piece))
    ensures NoCrLf(piece) && MapNoCrLf(m) ==> MapNoCrLf(Insert(m, piece))
  {
    hide DropLeadingSpaces, DropTrailingSpaces;
    var i := Trimmed(piece);
    var pair := DropTrailingSpaces(DropLeadingSpaces(piece));
    assert forall j | 0 <= j < |pair| :: pair[j] == piece[i + j];
    FindChar(pair, '=', 0);
    var eq := Find(pair, "=", 0);
    if eq.Some? {
      SplitCarries(pair, eq.value);
    }
  }

  lemma {:induction false} ScanCarries(m: CookieMap, text: string)
    requires MapCarries(m)
    ensures MapCarries(Scan(m, text))
    ensures NoCrLf(text) && MapNoCrLf(m) ==> MapNoCrLf(Scan(m, text))
    decreases |text|
  {
    if text != "" {
      FindChar(text, ';', 0);
      match Find(text, ";", 0)
      case None =>
        assert text[0..] == text;
        InsertCarries(m, text);
      case Some(i) =>
        assert text[0..i] == text[..i];
        InsertCarries(m, text[..i]);
        ScanCarries(Insert(m, text[..i]), text[i + 1..]);
    }
  }

  /** The line is "Cookie:" with its line break right behind it. */
  predicate Wrapped(request: string) {
    match CookieLine(request)
    case None => false
    case Some((c, e)) => e == c + 7
  }

  /** Every position parseCookies cuts at is inside the request, for every request; only in the
      wrapped case does the cut reach past the end of the line. */
  lemma CutsAreInRange(request: string)
    requires |request| <= NPOS
    ensures match CookieLine(request)
            case None => true
            case Some((c, e)) =>
              && c + 8 <= |request|
              && CookieText(request, c, e) == if Wrapped(request) then request[c + 8..] else request[c + 8..e]
  {
  }

  /** What parsing yields can always be printed again, except that in the wrapped case a key
      or value may hold a line break. */
  lemma ParseYields(request: string)
    ensures MapCarries(Parse(request))
    ensures !Wrapped(request) ==> MapNoCrLf(Parse(request))
  {
    match CookieLine(request)
    case None =>
    case Some((c, e)) =>
      var text := CookieText(request, c, e);
      ScanCarries(map[], text);
      if e > c + 7 {
        assert text == request[c + 8..e];
        forall i | 0 <= i < |text| - 1
          ensures !(text[i] == '\r' && text[i + 1] == '\n')
        {
          CrLfOccurs(request, c + 8 + i);
          assert !OccursAt(request, "\r\n", c + 8 + i);
        }
      }
  }

  // ---------------------------------------------------------------- parse, print, parse

  /** `pairs` lists exactly the entries of m, in some order. */
  ghost predicate Lists(pairs: seq<(string, string)>, m: CookieMap) {
    && (forall i | 0 <= i < |pairs| :: pairs[i].0 in m && m[pairs[i].0] == pairs[i].1)
    && (forall k | k in m :: exists i :: 0 <= i < |pairs| && pairs[i].0 == k)
  }

  lemma {:induction false} ListingExists(m: CookieMap) returns (pairs: seq<(string, string)>)
    ensures Lists(pairs, m)
    decreases |m|
  {
    if m == map[] {
      pairs := [];
    } else {
      var k :| k in m;
      var smaller := m - {k};
      assert m.Keys == smaller.Keys + {k};
      var rest := ListingExists(smaller);
      pairs := rest + [(k, m[k])];
      forall k' | k' in m
        ensures exists i :: 0 <= i < |pairs| && pairs[i].0 == k'
      {
        if k' == k {
          assert pairs[|rest|].0 == k;
        } else {
          assert k' in smaller;
          var i :| 0 <= i < |rest| && rest[i].0 == k';
          assert pairs[i].0 == k';
        }
      }
    }
  }

  lemma {:induction false} LastWinsOfListing(m0: CookieMap, pairs: seq<(string, string)>, m: CookieMap)
    requires forall i | 0 <= i < |pairs| :: pairs[i].0 in m && m[pairs[i].0] == pairs[i].1
    ensures var r := LastWins(m0, pairs);
            && (forall i | 0 <= i < |pairs| :: pairs[i].0 in r)
            && (forall k | k in m0 :: k in r)
            && (forall k | k in r :: (k in m && r[k] == m[k]) || (k in m0 && r[k] == m0[k]))
    decreases |pairs|
  {
    if pairs != [] {
      LastWinsOfListing(m0[pairs[0].0 := pairs[0].1], pairs[1..], m);
      assert forall i | 0 < i < |pairs| :: pairs[i] == pairs[1..][i - 1];
    }
  }

  lemma ListingParses(pairs: seq<(string, string)>, m: CookieMap)
    requires Lists(pairs, m)
    ensures LastWins(map[], pairs) == m
  {
    LastWinsOfListing(map[], pairs, m);
    var r := LastWins(map[], pairs);
    forall k | k in m
      ensures k in r
    {
      var i :| 0 <= i < |pairs| && pairs[i].0 == k;
    }
    assert r.Keys == m.Keys;
  }

  lemma HeaderIsFirst(text: string)
    ensures Find("Cookie: " + text + "\r\n", "Cookie:", 0) == Some(0)
    ensures !Wrapped("Cookie: " + text + "\r\n")
  {
    var h := "Cookie: " + text + "\r\n";
    assert h[0..7] == "Cookie:";
    CrLfOccurs(h, 7);
  }

  lemma HeaderParses(pairs: seq<(string, string)>)
    ensures AllPrintable(pairs) ==> Parse(Header(pairs)) == LastWins(map[], pairs)
    ensures MapNoCrLf(Parse(Header(pairs)))
  {
    HeaderIsFirst(Print(pairs));
    ParseYields(Header(pairs));
    assert "" + "Cookie: " + Print(pairs) + "\r\n" + "" == Header(pairs);
    if AllPrintable(pairs) {
      CookieRoundTrip("", pairs, "");
    }
  }

  /** parse(print(parse(r))) == parse(r) exactly when no key or value that parse(r) holds
      contains a line break, in whatever order the map is printed. */
  lemma NormalisesIff(request: string, pairs: seq<(string, string)>)
    requires Lists(pairs, Parse(request))
    ensures Parse(Header(pairs)) == Parse(request) <==> MapNoCrLf(Parse(request))
  {
    ParseYields(request);
    HeaderParses(pairs);
    ListingParses(pairs, Parse(request));
    assert MapNoCrLf(Parse(request)) ==> AllPrintable(pairs);
  }

  /** So it holds for every request outside the wrapped case. */
  lemma Normalises(request: string, pairs: seq<(string, string)>)
    requires !Wrapped(request) && Lists(pairs, Parse(request))
    ensures Parse(Header(pairs)) == Parse(request)
  {
    ParseYields(request);
    NormalisesIff(request, pairs);
  }

  lemma WrappedLine()
    ensures CookieLine("Cookie:\r\nA=1\r\n") == Some((0, 7))
  {
    var request := "Cookie:\r\nA=1\r\n";
    assert request[0..7] == "Cookie:";
    FindIs(request, "Cookie:", 0, 0);
    FindCrLf("", "Cookie:", "A=1\r\n");
    assert "" + "Cookie:" + "\r\n" + "A=1\r\n" == request;
  }

  /** The length wraps, so that the cut goes on to the end. */
  lemma WrappedCut(request: string)
    requires 9 <= |request| <= NPOS
    ensures CookieText(request, 0, 7) == request[8..]
  {
    assert SizeMinus(7, 8) == NPOS;
  }

  lemma WrappedParses()
    ensures Wrapped("Cookie:\r\nA=1\r\n")
    ensures Parse("Cookie:\r\nA=1\r\n") == map["\nA" := "1\r\n"]
  {
    hide CookieLine, CookieText, Insert, Scan;
    var request := "Cookie:\r\nA=1\r\n";
    WrappedLine();
    WrappedCut(request);
    var text := "\nA" + "=" + "1\r\n";
    assert request[8..] == text;
    ScanLast(map[], text);
    InsertPair(map[], "\nA", "1\r\n");
  }

  /** The wrapped case really differs: the value of the next line is taken for a cookie, line
      break included, and printing it again loses that. */
  lemma WrappedDiffers()
    ensures var request := "Cookie:\r\nA=1\r\n";
            && Wrapped(request) && Parse(request) == map["\nA" := "1\r\n"]
            && Parse(Header([("\nA", "1\r\n")])) != Parse(request)
  {
    hide Parse, Wrapped, Header;
    WrappedParses();
    var v := "1\r\n";
    assert v[1] == '\r' && v[2] == '\n';
    var pairs := [("\nA", v)];
    assert pairs[0].0 == "\nA";
    NormalisesIff("Cookie:\r\nA=1\r\n", pairs);
  }
}
