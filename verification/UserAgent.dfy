/** The other end of the line: how a user agent that follows RFC 6265 reads a Set-Cookie
    header (section 5.2), and what it sends back (section 5.4). */
module UserAgent {
  import opened Sync
  import opened Text

  datatype Attribute = Attribute(name: string, value: string)

  datatype StoredCookie = StoredCookie(name: string, value: string, attributes: seq<Attribute>)

  predicate IsWsp(c: char) { c == ' ' || c == '\t' }

  function StripLeft(s: string): string {
    if s != "" && IsWsp(s[0]) then StripLeft(s[1..]) else s
  }

  function StripRight(s: string): string {
    if s != "" && IsWsp(s[|s| - 1]) then StripRight(s[..|s| - 1]) else s
  }

  function Strip(s: string): string { StripRight(StripLeft(s)) }

  function ReadAttribute(av: string): Attribute {
    match Find(av, "=", 0)
    case None => Attribute(Strip(av), "")
    case Some(eq) => Attribute(Strip(av[..eq]), Strip(av[eq + 1..]))
  }

  /** Section 5.2: the unparsed-attributes, each introduced by ';'. */
  function ReadAttributes(unparsed: string): seq<Attribute>
    decreases |unparsed|
  {
    if unparsed == "" then []
    else
      var rest := unparsed[1..];
      match Find(rest, ";", 0)
      case None => [ReadAttribute(rest)]
      case Some(i) => [ReadAttribute(rest[..i])] + ReadAttributes(rest[i..])
  }

  /** Section 5.2: the set-cookie-string; None when it is to be ignored. */
  function ReadSetCookie(s: string): Option<StoredCookie> {
    var cut := match Find(s, ";", 0) case None => |s| case Some(i) => i;
    var pair, unparsed := s[..cut], s[cut..];
    match Find(pair, "=", 0)
    case None => None
    case Some(eq) =>
      var name := Strip(pair[..eq]);
      if name == "" then None
      else Some(StoredCookie(name, Strip(pair[eq + 1..]), ReadAttributes(unparsed)))
  }

  function Lower(s: string): string {
    seq(|s|, i requires 0 <= i < |s| => if 'A' <= s[i] <= 'Z' then s[i] - 'A' + 'a' else s[i])
  }

  /** Section 5.2.2: a Max-Age value, when it is well formed. */
  function ReadDelta(v: string): Option<int> {
    if v == "" then None
    else if v[0] == '-' && AllDigits(v[1..]) then Some(-(ReadNat(v[1..]) as int))
    else if AllDigits(v) then Some(ReadNat(v))
    else None
  }

  /** Section 5.3: the last well-formed Max-Age attribute counts. */
  function MaxAge(attributes: seq<Attribute>): Option<int> {
    if attributes == [] then None
    else
      var last := attributes[|attributes| - 1];
      if Lower(last.name) == "max-age" && ReadDelta(last.value).Some? then ReadDelta(last.value)
      else MaxAge(attributes[..|attributes| - 1])
  }

  /** The value of the header field of a response that `pattern` (line break, name, colon)
      introduces, without the white space around it. */
  function FieldValue(response: string, pattern: string): Option<string> {
    match Find(response, pattern, 0)
    case None => None
    case Some(p) =>
      match Find(response, "\r\n", p + |pattern|)
      case None => None
      case Some(e) => Some(Strip(response[p + |pattern|..e]))
  }

  /** Section 5.4, for one cookie. */
  function CookieString(c: StoredCookie): string { c.name + "=" + c.value }

  // ---------------------------------------------------------------- names and values of section 4.1.1

  predicate IsTokenChar(c: char) {
    && '!' <= c <= '~'
    && c !in "()<>@,;:\\\"/[]?={}"
  }

  predicate IsToken(s: string) { s != "" && forall i | 0 <= i < |s| :: IsTokenChar(s[i]) }

  predicate IsCookieOctet(c: char) {
    c == '!' || '#' <= c <= '+' || '-' <= c <= ':' || '<' <= c <= '[' || ']' <= c <= '~'
  }

  predicate IsCookieValue(s: string) {
    || (forall i | 0 <= i < |s| :: IsCookieOctet(s[i]))
    || (|s| >= 2 && s[0] == '"' && s[|s| - 1] == '"' && forall i | 1 <= i < |s| - 1 :: IsCookieOctet(s[i]))
  }

  /** What the round trip needs of them. */
  predicate Plain(s: string) {
    forall i | 0 <= i < |s| :: !IsWsp(s[i]) && s[i] != ';' && s[i] != '\r' && s[i] != '\n'
  }

  lemma TokensArePlain(s: string)
    requires IsToken(s)
    ensures Plain(s) && '=' !in s
  {
    forall i | 0 <= i < |s|
      ensures !IsWsp(s[i]) && s[i] != ';' && s[i] != '\r' && s[i] != '\n' && s[i] != '='
    {
      assert IsTokenChar(s[i]);
      assert ';' in "()<>@,;:\\\"/[]?={}" by { assert "()<>@,;:\\\"/[]?={}"[6] == ';'; }
      assert '=' in "()<>@,;:\\\"/[]?={}" by { assert "()<>@,;:\\\"/[]?={}"[14] == '='; }
    }
  }

  lemma ValuesArePlain(s: string)
    requires IsCookieValue(s)
    ensures Plain(s)
  {
  }

  // ---------------------------------------------------------------- reading pieces

  lemma StripClean(s: string)
    requires s != "" ==> !IsWsp(s[0]) && !IsWsp(s[|s| - 1])
    ensures Strip(s) == s
  {
  }

  lemma StripSpaced(s: string)
    requires s != "" && !IsWsp(s[0]) && !IsWsp(s[|s| - 1])
    ensures Strip(" " + s) == s
  {
    var spaced := " " + s;
    assert spaced[0] == ' ' && spaced[1..] == s;
    StripClean(s);
  }

  lemma DigitsArePlain(s: string)
    requires AllDigits(s)
    ensures Plain(s) && Plain("-" + s)
  {
    assert forall i | 0 <= i < |s| :: IsDigit(s[i]);
    assert forall i | 1 <= i < |"-" + s| :: ("-" + s)[i] == s[i - 1];
  }

  lemma DecimalIsPlain(n: int)
    ensures Decimal(n) != "" && Plain(Decimal(n)) && ReadDelta(Decimal(n)) == Some(n)
  {
    var d := DecimalNat(if n < 0 then -n else n);
    DecimalNatReads(if n < 0 then -n else n);
    DigitsArePlain(d);
    if n < 0 {
      assert Decimal(n)[1..] == d;
    } else {
      assert IsDigit(d[0]);
    }
  }

  /** An attribute with a value, written after a space. */
  lemma ReadsValued(prefix: string, name: string, value: string)
    requires name != "" && Plain(name) && '=' !in name && Plain(value)
    requires prefix == " " + name + "="
    ensures ReadAttribute(prefix + value) == Attribute(name, value) && ';' !in prefix + value
  {
    var av := prefix + value;
    assert av == (" " + name) + ['='] + value;
    FindCharAfter(" " + name, '=', value);
    assert av[..|name| + 1] == " " + name && av[|name| + 2..] == value;
    StripSpaced(name);
    StripClean(value);
  }

  lemma ReadsFirst(av: string, rest: string)
    requires ';' !in av && rest != "" && rest[0] == ';'
    ensures ReadAttributes(";" + av + rest) == [ReadAttribute(av)] + ReadAttributes(rest)
  {
    var all := ";" + av + rest;
    assert all[1..] == av + [';'] + rest[1..];
    FindCharAfter(av, ';', rest[1..]);
    assert all[1..][..|av|] == av && all[1..][|av|..] == rest;
  }

  lemma ReadsLast(av: string)
    requires ';' !in av
    ensures ReadAttributes(";" + av) == [ReadAttribute(av)]
  {
    assert (";" + av)[1..] == av;
    FindCharNone(av, ';');
  }

  lemma ReadsFlag()
    ensures ReadAttribute(" HttpOnly") == Attribute("HttpOnly", "")
  {
    FindCharNone(" HttpOnly", '=');
    assert " HttpOnly" == " " + "HttpOnly";
    StripSpaced("HttpOnly");
  }

  /** The attributes this server writes. */
  function ServerAttributes(maxAge: int): seq<Attribute> {
    [Attribute("Path", "/"), Attribute("HttpOnly", ""), Attribute("Max-Age", Decimal(maxAge))]
  }

  lemma MaxAgeReads(maxAge: int)
    ensures MaxAge(ServerAttributes(maxAge)) == Some(maxAge)
  {
    DecimalIsPlain(maxAge);
    assert ServerAttributes(maxAge)[2] == Attribute("Max-Age", Decimal(maxAge));
    assert Lower("Max-Age") == "max-age";
  }

  lemma ReadsThree(a1: string, a2: string, a3: string)
    requires ';' !in a1 && ';' !in a2 && ';' !in a3
    ensures ReadAttributes(";" + a1 + (";" + a2 + (";" + a3))) == [ReadAttribute(a1), ReadAttribute(a2), ReadAttribute(a3)]
  {
    ReadsLast(a3);
    ReadsFirst(a2, ";" + a3);
    ReadsFirst(a1, ";" + a2 + (";" + a3));
  }

  lemma ReadsPath()
    ensures ReadAttribute(" Path=/") == Attribute("Path", "/")
  {
    ReadsValued(" Path=", "Path", "/");
    assert " Path=" + "/" == " Path=/";
  }

  lemma ReadsMaxAge(value: string)
    requires Plain(value)
    ensures ReadAttribute(" Max-Age=" + value) == Attribute("Max-Age", value)
    ensures ';' !in " Max-Age=" + value
  {
    ReadsValued(" Max-Age=", "Max-Age", value);
  }

  lemma Regroup(d: string)
    ensures "; Path=/; HttpOnly; Max-Age=" + d == ";" + " Path=/" + (";" + " HttpOnly" + (";" + (" Max-Age=" + d)))
  {
    assert "; Path=/; HttpOnly; Max-Age=" == ";" + " Path=/" + ";" + " HttpOnly" + ";" + " Max-Age=";
  }

  lemma ReadsServerAttributes(maxAge: int)
    ensures ReadAttributes("; Path=/; HttpOnly; Max-Age=" + Decimal(maxAge)) == ServerAttributes(maxAge)
  {
    hide ReadAttributes, ReadAttribute, Decimal;
    ReadsPath();
    DecimalIsPlain(maxAge);
    ReadsMaxAge(Decimal(maxAge));
    ReadsFlag();
    ReadsThree(" Path=/", " HttpOnly", " Max-Age=" + Decimal(maxAge));
    Regroup(Decimal(maxAge));
  }

  lemma CutAt(pair: string, unparsed: string)
    requires ';' !in pair && unparsed != "" && unparsed[0] == ';'
    ensures var s := pair + unparsed;
            Find(s, ";", 0) == Some(|pair|) && s[..|pair|] == pair && s[|pair|..] == unparsed
  {
    assert pair + unparsed == pair + [';'] + unparsed[1..];
    FindCharAfter(pair, ';', unparsed[1..]);
  }

  lemma SplitAt(name: string, value: string)
    requires '=' !in name
    ensures var pair := name + "=" + value;
            Find(pair, "=", 0) == Some(|name|) && pair[..|name|] == name && pair[|name| + 1..] == value
  {
    FindCharAfter(name, '=', value);
  }

  lemma ReadsPair(name: string, value: string, unparsed: string)
    requires name != "" && Plain(name) && '=' !in name && Plain(value)
    requires unparsed != "" && unparsed[0] == ';'
    ensures ReadSetCookie(name + "=" + value + unparsed) == Some(StoredCookie(name, value, ReadAttributes(unparsed)))
  {
    CutAt(name + "=" + value, unparsed);
    SplitAt(name, value);
    StripClean(name);
    StripClean(value);
  }

  /** A user agent reads name, value and attributes back as the server wrote them. */
  lemma ReadsSetCookie(name: string, value: string, maxAge: int)
    requires name != "" && Plain(name) && '=' !in name && Plain(value)
    ensures var s := name + "=" + value + "; Path=/; HttpOnly; Max-Age=" + Decimal(maxAge);
            ReadSetCookie(s) == Some(StoredCookie(name, value, ServerAttributes(maxAge)))
  {
    var unparsed := "; Path=/; HttpOnly; Max-Age=" + Decimal(maxAge);
    ReadsPair(name, value, unparsed);
    ReadsServerAttributes(maxAge);
    assert name + "=" + value + unparsed == name + "=" + value + "; Path=/; HttpOnly; Max-Age=" + Decimal(maxAge);
  }
}
