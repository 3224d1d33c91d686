/** When printing what parseCookies found and parsing it again gives the same cookies: exactly
    which requests, the wrapped ones of http-server-cpp/src/CookieUtil.cpp:29 included. */
module WrappedCookies {
  import opened Sync
  import opened Text
  import opened CookieUtil

  // ---------------------------------------------------------------- the pieces of a line

  /** The ';'-separated pieces, as getline yields them. */
  function Pieces(text: string): seq<string>
    decreases |text|
  {
    if text == "" then []
    else
      match Find(text, ";", 0)
      case None => [text]
      case Some(i) => [text[..i]] + Pieces(text[i + 1..])
  }

  /** The name in front of the first '=' of a piece, if it has one. */
  function KeyOf(piece: string): Option<string> {
    var pair := DropTrailingSpaces(DropLeadingSpaces(piece));
    match Find(pair, "=", 0)
    case None => None
    case Some(eq) => Some(pair[..eq])
  }

  function ValueOf(piece: string): string
    requires KeyOf(piece).Some?
  {
    var pair := DropTrailingSpaces(DropLeadingSpaces(piece));
    pair[Find(pair, "=", 0).value + 1..]
  }

  /** Piece i is the last one that names `k`. */
  predicate IsLast(pieces: seq<string>, k: string, i: nat) {
    i < |pieces| && KeyOf(pieces[i]) == Some(k) && forall j | i < j < |pieces| :: KeyOf(pieces[j]) != Some(k)
  }

  /** Some piece with a name that no later piece names again runs over a line break. */
  ghost predicate SpansLines(text: string) {
    var pieces := Pieces(text);
    exists i: nat, k :: IsLast(pieces, k, i) && !NoCrLf(pieces[i])
  }

  // ---------------------------------------------------------------- the map of the pieces

  function Collect(pieces: seq<string>): CookieMap
    decreases |pieces|
  {
    if pieces == [] then map[]
    else Insert(Collect(pieces[..|pieces| - 1]), pieces[|pieces| - 1])
  }

  function InsertAll(m: CookieMap, pieces: seq<string>): CookieMap
    decreases |pieces|
  {
    if pieces == [] then m else InsertAll(Insert(m, pieces[0]), pieces[1..])
  }

  lemma {:induction false} InsertAllMore(m: CookieMap, pieces: seq<string>, last: string)
    ensures InsertAll(m, pieces + [last]) == Insert(InsertAll(m, pieces), last)
    decreases |pieces|
  {
    hide Insert;
    var all := pieces + [last];
    if pieces == [] {
      assert all[1..] == [];
    } else {
      assert all[1..] == pieces[1..] + [last];
      InsertAllMore(Insert(m, pieces[0]), pieces[1..], last);
    }
  }

  lemma {:induction false} CollectInserts(pieces: seq<string>)
    ensures Collect(pieces) == InsertAll(map[], pieces)
    decreases |pieces|
  {
    hide Insert;
    if pieces != [] {
      var front, last := pieces[..|pieces| - 1], pieces[|pieces| - 1];
      CollectInserts(front);
      InsertAllMore(map[], front, last);
      assert front + [last] == pieces;
    }
  }

  lemma {:induction false} ScanInserts(m: CookieMap, text: string)
    ensures Scan(m, text) == InsertAll(m, Pieces(text))
    decreases |text|
  {
    hide Insert;
    if text != "" {
      match Find(text, ";", 0)
      case None =>
        assert Pieces(text)[1..] == [];
      case Some(i) =>
        assert Pieces(text)[1..] == Pieces(text[i + 1..]);
        ScanInserts(Insert(m, text[..i]), text[i + 1..]);
    }
  }

  lemma ScanCollects(text: string)
    ensures Scan(map[], text) == Collect(Pieces(text))
  {
    ScanInserts(map[], text);
    CollectInserts(Pieces(text));
  }

  lemma InsertByKey(m: CookieMap, piece: string)
    ensures Insert(m, piece) == match KeyOf(piece)
                                case None => m
                                case Some(k) => m[k := ValueOf(piece)]
  {
  }

  /** What a name is bound to is what the last piece with that name says. */
  lemma {:induction false} LastPieceWins(pieces: seq<string>, k: string, i: nat)
    requires IsLast(pieces, k, i)
    ensures k in Collect(pieces) && Collect(pieces)[k] == ValueOf(pieces[i])
    decreases |pieces|
  {
    hide KeyOf, ValueOf, Insert;
    var n := |pieces| - 1;
    InsertByKey(Collect(pieces[..n]), pieces[n]);
    if i < n {
      LastPieceWins(pieces[..n], k, i);
    }
  }

  lemma {:induction false} LastPieceExists(pieces: seq<string>, k: string) returns (i: nat)
    requires k in Collect(pieces)
    ensures IsLast(pieces, k, i)
    decreases |pieces|
  {
    hide KeyOf, ValueOf, Insert;
    var n := |pieces| - 1;
    InsertByKey(Collect(pieces[..n]), pieces[n]);
    if KeyOf(pieces[n]) == Some(k) {
      i := n;
    } else {
      i := LastPieceExists(pieces[..n], k);
    }
  }

  /** Which text is parsed: from the eighth character after the first "Cookie:" to the first
      line break after it, or, when the line is just "Cookie:", to the end of the request. */
  lemma ParseReadsLine(request: StdString, c: nat, e: nat)
    requires OccursAt(request, "Cookie:", c) && forall j | 0 <= j < c :: !OccursAt(request, "Cookie:", j)
    requires c <= e && OccursAt(request, "\r\n", e) && forall j | c <= j < e :: !OccursAt(request, "\r\n", j)
    ensures c + 7 <= e
    ensures Parse(request) == Collect(Pieces(if e == c + 7 then request[c + 8..] else request[c + 8..e]))
  {
    hide Scan, Collect, Pieces, OccursAt;
    FindIs(request, "Cookie:", 0, c);
    FindIs(request, "\r\n", c, e);
    CutsAreInRange(request);
    ScanCollects(CookieText(request, c, e));
  }

  // ---------------------------------------------------------------- line breaks

  lemma TrimKeepsCrLf(piece: string)
    ensures NoCrLf(piece) <==> NoCrLf(DropTrailingSpaces(DropLeadingSpaces(piece)))
  {
    var left := DropLeadingSpaces(piece);
    DroppedLeading(piece);
    OnlySpacesLeading(piece);
    SpacesAround(piece, |piece| - |left|, |piece|);
    assert piece[|piece| - |left|..|piece|] == left;
    DroppedTrailing(left);
    OnlySpacesTrailing(left);
    SpacesAround(left, 0, |DropTrailingSpaces(left)|);
    assert left[0..|DropTrailingSpaces(left)|] == DropTrailingSpaces(left);
  }

  lemma SpacesAround(s: string, from: nat, to: nat)
    requires from <= to <= |s|
    requires forall i | 0 <= i < from || to <= i < |s| :: s[i] == ' '
    ensures NoCrLf(s) <==> NoCrLf(s[from..to])
  {
    var mid := s[from..to];
    if i :| 0 <= i < |s| - 1 && s[i] == '\r' && s[i + 1] == '\n' {
      assert mid[i - from] == '\r' && mid[i - from + 1] == '\n';
    }
    if i :| 0 <= i < |mid| - 1 && mid[i] == '\r' && mid[i + 1] == '\n' {
      assert s[from + i] == '\r' && s[from + i + 1] == '\n';
    }
  }

  lemma SplitKeepsCrLf(pair: string, eq: nat)
    requires eq < |pair| && pair[eq] == '='
    ensures NoCrLf(pair) <==> NoCrLf(pair[..eq]) && NoCrLf(pair[eq + 1..])
  {
    var k, v := pair[..eq], pair[eq + 1..];
    if i :| 0 <= i < |pair| - 1 && pair[i] == '\r' && pair[i + 1] == '\n' {
      if i < eq {
        assert k[i] == '\r' && k[i + 1] == '\n';
      } else {
        assert v[i - eq - 1] == '\r' && v[i - eq] == '\n';
      }
    }
    if i :| 0 <= i < |v| - 1 && v[i] == '\r' && v[i + 1] == '\n' {
      assert pair[eq + 1 + i] == '\r' && pair[eq + 2 + i] == '\n';
    }
    if i :| 0 <= i < |k| - 1 && k[i] == '\r' && k[i + 1] == '\n' {
      assert pair[i] == '\r' && pair[i + 1] == '\n';
    }
  }

  lemma PieceKeepsCrLf(piece: string)
    requires KeyOf(piece).Some?
    ensures NoCrLf(piece) <==> NoCrLf(KeyOf(piece).value) && NoCrLf(ValueOf(piece))
  {
    hide NoCrLf, DropTrailingSpaces, DropLeadingSpaces;
    var pair := DropTrailingSpaces(DropLeadingSpaces(piece));
    TrimKeepsCrLf(piece);
    FindChar(pair, '=', 0);
    SplitKeepsCrLf(pair, Find(pair, "=", 0).value);
  }

  /** A line break survives parsing exactly when a piece that decides its name holds one. */
  lemma ScanSpansLines(text: string)
    ensures MapNoCrLf(Scan(map[], text)) <==> !SpansLines(text)
  {
    hide NoCrLf, KeyOf, ValueOf, Pieces, Scan, Collect;
    var pieces := Pieces(text);
    ScanCollects(text);
    if SpansLines(text) {
      var i: nat, k :| IsLast(pieces, k, i) && !NoCrLf(pieces[i]);
      LastPieceWins(pieces, k, i);
      PieceKeepsCrLf(pieces[i]);
    } else {
      forall k | k in Collect(pieces)
        ensures NoCrLf(k) && NoCrLf(Collect(pieces)[k])
      {
        var i := LastPieceExists(pieces, k);
        LastPieceWins(pieces, k, i);
        PieceKeepsCrLf(pieces[i]);
      }
    }
  }

  // ---------------------------------------------------------------- which requests

  /** The line is just "Cookie:", and in what follows it up to the end of the request a piece
      that decides its name runs over a line break. */
  ghost predicate LosesCookies(request: string) {
    match CookieLine(request)
    case None => false
    case Some((c, e)) => Wrapped(request) && SpansLines(CookieText(request, c, e))
  }

  /** For every request, and whatever order the map is printed in: parse(print(parse(r))) is
      parse(r) if and only if the request is not one of those. */
  lemma NormalisesExactly(request: string, pairs: seq<(string, string)>)
    requires Lists(pairs, Parse(request))
    ensures Parse(Header(pairs)) == Parse(request) <==> !LosesCookies(request)
  {
    hide SpansLines, Header, MapNoCrLf;
    NormalisesIff(request, pairs);
    match CookieLine(request)
    case None =>
      ParseYields(request);
    case Some((c, e)) =>
      if Wrapped(request) {
        ScanSpansLines(CookieText(request, c, e));
      } else {
        ParseYields(request);
      }
  }

  /** Every parsed map can be printed, so this says something about every request. */
  lemma NormalFormExists(request: string) returns (pairs: seq<(string, string)>)
    ensures Lists(pairs, Parse(request))
    ensures Parse(Header(pairs)) == Parse(request) <==> !LosesCookies(request)
  {
    pairs := ListingExists(Parse(request));
    NormalisesExactly(request, pairs);
  }
}
