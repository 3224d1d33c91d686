/** The std::string operations the HTTP server uses, on sequences of characters. */
module Text {
  import opened Sync

  predicate OccursAt(s: string, pattern: string, i: nat) {
    i + |pattern| <= |s| && s[i..i + |pattern|] == pattern
  }

  /** s.find(pattern, start): the first occurrence at or after `start`; None is npos. */
  function Find(s: string, pattern: string, start: nat): (r: Option<nat>)
    ensures r.Some? ==> start <= r.value && OccursAt(s, pattern, r.value)
    ensures r.Some? ==> forall j | start <= j < r.value :: !OccursAt(s, pattern, j)
    ensures r.None? ==> forall j | start <= j :: !OccursAt(s, pattern, j)
    decreases |s| - start
  {
    if start + |pattern| > |s| then None
    else if OccursAt(s, pattern, start) then Some(start)
    else Find(s, pattern, start + 1)
  }

  ghost predicate Contains(s: string, pattern: string) {
    exists i: nat :: OccursAt(s, pattern, i)
  }

  lemma FindIs(s: string, pattern: string, start: nat, i: nat)
    requires start <= i && OccursAt(s, pattern, i)
    requires forall j | start <= j < i :: !OccursAt(s, pattern, j)
    ensures Find(s, pattern, start) == Some(i)
  {
  }

  /** Finding a single character. */
  lemma FindChar(s: string, c: char, start: nat)
    ensures var r := Find(s, [c], start);
            && (r.Some? ==> start <= r.value < |s| && s[r.value] == c && c !in s[start..r.value])
            && (r.None? && start <= |s| ==> c !in s[start..])
  {
    var r := Find(s, [c], start);
    if r.Some? {
      assert s[r.value..r.value + 1] == [c];
      forall j | start <= j < r.value
        ensures s[j] != c
      {
        assert !OccursAt(s, [c], j);
        assert s[j..j + 1] == [s[j]];
      }
    } else if start <= |s| {
      forall j | start <= j < |s|
        ensures s[j] != c
      {
        assert !OccursAt(s, [c], j);
        assert s[j..j + 1] == [s[j]];
      }
    }
  }

  /** A character that does not occur in `a` is first found right after it in a + [c] + b. */
  lemma FindCharAfter(a: string, c: char, b: string)
    requires c !in a
    ensures Find(a + [c] + b, [c], 0) == Some(|a|)
  {
    var s := a + [c] + b;
    assert s[|a|..|a| + 1] == [c];
    forall j | 0 <= j < |a|
      ensures !OccursAt(s, [c], j)
    {
      assert s[j..j + 1] == [a[j]];
    }
    FindIs(s, [c], 0, |a|);
  }

  lemma FindCharNone(s: string, c: char)
    requires c !in s
    ensures Find(s, [c], 0) == None
  {
    FindChar(s, c, 0);
  }

  /** npos, which is also the largest value of size_t. */
  const NPOS: nat := 0xFFFF_FFFF_FFFF_FFFF

  /** Subtraction of size_t values, which wraps. */
  function SizeMinus(a: nat, b: nat): nat {
    if a >= b then a - b else (NPOS + 1 - (b - a) % (NPOS + 1)) % (NPOS + 1)
  }

  /** s.substr(pos, n): throws out_of_range when pos > size, and stops at the end. */
  function Substr(s: string, pos: nat, n: nat): string
    requires pos <= |s|
  {
    if pos + n <= |s| then s[pos..pos + n] else s[pos..]
  }

  /** Addition of size_t values, which wraps. */
  function SizePlus(a: nat, b: nat): nat {
    if a + b <= NPOS then a + b else a + b - (NPOS + 1)
  }

  /** What a find returns as a size_t. */
  function Npos(found: Option<nat>): nat {
    if found.Some? then found.value else NPOS
  }

  /** A std::string: size() is always below npos. */
  type StdString = s: string | |s| < NPOS

  /** s.find_first_not_of(" "). */
  function FindFirstNotOf(s: string): (r: Option<nat>)
    ensures r.Some? ==> r.value < |s| && s[r.value] != ' ' && forall i | 0 <= i < r.value :: s[i] == ' '
    ensures r.None? ==> forall i | 0 <= i < |s| :: s[i] == ' '
  {
    if s == "" then None
    else if s[0] != ' ' then Some(0)
    else
      match FindFirstNotOf(s[1..])
      case None => None
      case Some(i) => Some(i + 1)
  }

  /** s.find_last_not_of(" "). */
  function FindLastNotOf(s: string): (r: Option<nat>)
    ensures r.Some? ==> r.value < |s| && s[r.value] != ' ' && forall i | r.value < i < |s| :: s[i] == ' '
    ensures r.None? ==> forall i | 0 <= i < |s| :: s[i] == ' '
  {
    if s == "" then None
    else if s[|s| - 1] != ' ' then Some(|s| - 1)
    else FindLastNotOf(s[..|s| - 1])
  }

  /** s.erase(pos, n): throws out_of_range when pos > size, and erases at most to the end. */
  function Erase(s: string, pos: nat, n: nat): string
    requires pos <= |s|
  {
    if pos + n <= |s| then s[..pos] + s[pos + n..] else s[..pos]
  }

  function DropLeadingSpaces(s: string): string {
    if s != "" && s[0] == ' ' then DropLeadingSpaces(s[1..]) else s
  }

  function DropTrailingSpaces(s: string): string {
    if s != "" && s[|s| - 1] == ' ' then DropTrailingSpaces(s[..|s| - 1]) else s
  }

  lemma {:induction false} DroppedLeading(s: string)
    ensures var r := DropLeadingSpaces(s);
            |r| <= |s| && r == s[|s| - |r|..] && (r != "" ==> r[0] != ' ')
  {
    if s != "" && s[0] == ' ' {
      DroppedLeading(s[1..]);
    }
  }

  lemma {:induction false} DroppedTrailing(s: string)
    ensures var r := DropTrailingSpaces(s);
            |r| <= |s| && r == s[..|r|] && (r != "" ==> r[|r| - 1] != ' ')
  {
    if s != "" && s[|s| - 1] == ' ' {
      DroppedTrailing(s[..|s| - 1]);
    }
  }

  /** Only spaces go. */
  lemma {:induction false} OnlySpacesLeading(s: string)
    ensures forall i | 0 <= i < |s| - |DropLeadingSpaces(s)| :: s[i] == ' '
  {
    if s != "" && s[0] == ' ' {
      OnlySpacesLeading(s[1..]);
      DroppedLeading(s[1..]);
      assert forall i | 1 <= i < |s| :: s[i] == s[1..][i - 1];
    }
  }

  lemma {:induction false} OnlySpacesTrailing(s: string)
    ensures forall i | |DropTrailingSpaces(s)| <= i < |s| :: s[i] == ' '
  {
    if s != "" && s[|s| - 1] == ' ' {
      OnlySpacesTrailing(s[..|s| - 1]);
    }
  }

  /** s.erase(0, s.find_first_not_of(" ")): when there are only spaces the count is npos, which
      erases everything. */
  lemma EraseLeading(s: StdString)
    ensures Erase(s, 0, Npos(FindFirstNotOf(s))) == DropLeadingSpaces(s)
    ensures |DropLeadingSpaces(s)| <= |s|
  {
    DroppedLeading(s);
    OnlySpacesLeading(s);
    var r, first := DropLeadingSpaces(s), FindFirstNotOf(s);
    if first.Some? {
      assert s[|s| - |r|..] == r;
      assert first.value == |s| - |r|;
    } else {
      assert r == "";
    }
  }

  /** s.erase(s.find_last_not_of(" ") + 1): when there are only spaces npos + 1 wraps to 0,
      which erases everything. The position is in range either way. */
  lemma EraseTrailing(s: StdString)
    ensures SizePlus(Npos(FindLastNotOf(s)), 1) <= |s|
    ensures Erase(s, SizePlus(Npos(FindLastNotOf(s)), 1), NPOS) == DropTrailingSpaces(s)
  {
    DroppedTrailing(s);
    OnlySpacesTrailing(s);
    var r, last := DropTrailingSpaces(s), FindLastNotOf(s);
    if last.Some? {
      assert last.value == |r| - 1;
    } else {
      assert r == "";
    }
  }

  lemma Assoc(a: string, b: string, c: string)
    ensures a + b + c == a + (b + c)
  {
  }

  predicate NoCrLf(s: string) {
    forall i | 0 <= i < |s| - 1 :: !(s[i] == '\r' && s[i + 1] == '\n')
  }

  lemma CrLfOccurs(s: string, i: nat)
    ensures OccursAt(s, "\r\n", i) <==> i + 1 < |s| && s[i] == '\r' && s[i + 1] == '\n'
  {
    if i + 1 < |s| {
      assert s[i..i + 2] == [s[i], s[i + 1]];
    }
  }

  /** A text without CRLF, followed by CRLF, ends exactly there. */
  lemma FindCrLf(before: string, text: string, after: string)
    requires NoCrLf(text)
    ensures Find(before + text + "\r\n" + after, "\r\n", |before|) == Some(|before| + |text|)
  {
    var s := before + text + "\r\n" + after;
    var e := |before| + |text|;
    assert s[e] == '\r' && s[e + 1] == '\n';
    CrLfOccurs(s, e);
    forall j | |before| <= j < e
      ensures !OccursAt(s, "\r\n", j)
    {
      CrLfOccurs(s, j);
      assert s[j] == text[j - |before|];
      if j + 1 < e {
        assert s[j + 1] == text[j + 1 - |before|];
      }
    }
    FindIs(s, "\r\n", |before|, e);
  }

  // ---------------------------------------------------------------- decimal numbers

  predicate IsDigit(c: char) { '0' <= c <= '9' }

  function DigitChar(d: nat): char
    requires d < 10
  {
    '0' + d as char
  }

  function DigitValue(c: char): nat
    requires IsDigit(c)
  {
    (c - '0') as nat
  }

  function DecimalNat(n: nat): string {
    if n < 10 then [DigitChar(n)] else DecimalNat(n / 10) + [DigitChar(n % 10)]
  }

  /** std::to_string, and `stream << n`. */
  function Decimal(n: int): string {
    if n < 0 then "-" + DecimalNat(-n) else DecimalNat(n)
  }

  predicate AllDigits(s: string) { forall i | 0 <= i < |s| :: IsDigit(s[i]) }

  function ReadNat(s: string): nat
    requires AllDigits(s)
  {
    if s == "" then 0 else 10 * ReadNat(s[..|s| - 1]) + DigitValue(s[|s| - 1])
  }

  lemma {:induction false} DecimalNatReads(n: nat)
    ensures DecimalNat(n) != "" && AllDigits(DecimalNat(n)) && ReadNat(DecimalNat(n)) == n
  {
    if n < 10 {
      assert DecimalNat(n)[..0] == "";
    } else {
      DecimalNatReads(n / 10);
      var d := DecimalNat(n);
      assert d[..|d| - 1] == DecimalNat(n / 10);
    }
  }

  /** Decimal printing loses nothing. */
  lemma DecimalInjective(a: int, b: int)
    requires Decimal(a) == Decimal(b)
    ensures a == b
  {
    var da, db := DecimalNat(if a < 0 then -a else a), DecimalNat(if b < 0 then -b else b);
    DecimalNatReads(if a < 0 then -a else a);
    DecimalNatReads(if b < 0 then -b else b);
    assert IsDigit(da[0]) && IsDigit(db[0]);
    if a < 0 {
      assert Decimal(a)[1..] == da;
    }
    if b < 0 {
      assert Decimal(b)[1..] == db;
    }
  }
}
