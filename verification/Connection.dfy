/** Project_TCPServer_Plus/src/connection/Connection.cpp. What recv returns and whether send
    succeeds are inputs. */
module Connection {

  datatype ConnStatus = CONNECTED | CLOSED

  /** One arrival for a ready descriptor: the bytes recv returns (none when it returns 0 or
      fails), and whether the send that may follow succeeds. */
  datatype Arrival = Arrival(bytes: string, sendOk: bool)

  /** A connection, with the replies it has sent. */
  datatype Conn = Conn(fd: int, status: ConnStatus, sent: seq<string>)

  const DICT: map<string, string> := map[
    "hello" := "你好",
    "world" := "世界",
    "server" := "服务器",
    "exit" := "已断开连接",
    "bye" := "再见"]

  const UNKNOWN := "未找到该词条，请重试"

  /** The buffer read as a C string. */
  function CString(bytes: string): string {
    if bytes == "" || bytes[0] == '\0' then "" else [bytes[0]] + CString(bytes[1..])
  }

  function TrimEnd(s: string): string {
    if s != "" && s[|s| - 1] in " \n\r\t" then TrimEnd(s[..|s| - 1]) else s
  }

  function ToLower(s: string): string {
    seq(|s|, i requires 0 <= i < |s| => if 'A' <= s[i] <= 'Z' then s[i] - 'A' + 'a' else s[i])
  }

  function Reply(bytes: string): string {
    var key := ToLower(TrimEnd(CString(bytes)));
    (if key in DICT then DICT[key] else UNKNOWN) + "\n"
  }

  /** A connection after readData. */
  function Read(c: Conn, a: Arrival): Conn {
    if c.status == CLOSED then c
    else if a.bytes == "" then c.(status := CLOSED)
    else if a.sendOk then c.(sent := c.sent + [Reply(a.bytes)])
    else c.(status := CLOSED)
  }

  // ---------------------------------------------------------------- which message gets which reply

  predicate IsBlank(c: char) { c == ' ' || c == '\n' || c == '\r' || c == '\t' }

  /** The letter `l`, in lower or upper case. */
  predicate IsLetter(c: char, l: char) {
    c == l || ('A' <= c <= 'Z' && c as int + 32 == l as int)
  }

  predicate IsWord(w: string) {
    w != "" && forall i | 0 <= i < |w| :: 'a' <= w[i] <= 'z'
  }

  predicate Spells(bytes: string, w: string) {
    |w| <= |bytes| && forall i | 0 <= i < |w| :: IsLetter(bytes[i], w[i])
  }

  /** Only blanks from position `from` up to `end`, where the text or the C string ends. */
  predicate BlankUpTo(bytes: string, from: nat, end: nat) {
    && from <= end <= |bytes| && (forall i | from <= i < end :: IsBlank(bytes[i]))
    && (end < |bytes| ==> bytes[end] == '\0')
  }

  /** The message is the word `w` in any mix of cases, followed only by blanks, up to its end
      or a NUL. */
  ghost predicate Says(bytes: string, w: string) {
    Spells(bytes, w) && exists end: nat :: BlankUpTo(bytes, |w|, end)
  }

  ghost function Answer(bytes: string): string {
    if Says(bytes, "hello") then "你好\n"
    else if Says(bytes, "world") then "世界\n"
    else if Says(bytes, "server") then "服务器\n"
    else if Says(bytes, "exit") then "已断开连接\n"
    else if Says(bytes, "bye") then "再见\n"
    else "未找到该词条，请重试\n"
  }

  lemma {:induction false} CStringIs(bytes: string, end: nat)
    requires end <= |bytes| && (forall i | 0 <= i < end :: bytes[i] != '\0') && (end < |bytes| ==> bytes[end] == '\0')
    ensures CString(bytes) == bytes[..end]
  {
    if end > 0 {
      CStringIs(bytes[1..], end - 1);
      assert bytes[..end] == [bytes[0]] + bytes[1..][..end - 1];
    }
  }

  lemma {:induction false} CStringEnd(bytes: string) returns (end: nat)
    ensures end <= |bytes| && (forall i | 0 <= i < end :: bytes[i] != '\0') && (end < |bytes| ==> bytes[end] == '\0')
  {
    if bytes == "" || bytes[0] == '\0' {
      end := 0;
    } else {
      end := CStringEnd(bytes[1..]);
      end := end + 1;
    }
  }

  lemma {:induction false} TrimmedEnd(s: string)
    ensures var r := TrimEnd(s);
            && r <= s && (forall i | |r| <= i < |s| :: IsBlank(s[i]))
            && (r != "" ==> !IsBlank(r[|r| - 1]))
  {
    if s != "" && s[|s| - 1] in " \n\r\t" {
      TrimmedEnd(s[..|s| - 1]);
    }
  }

  lemma TrimIs(s: string, n: nat)
    requires 0 < n <= |s| && !IsBlank(s[n - 1]) && forall i | n <= i < |s| :: IsBlank(s[i])
    ensures TrimEnd(s) == s[..n]
  {
    TrimmedEnd(s);
    var r := TrimEnd(s);
    assert forall i | 0 <= i < |r| :: r[i] == s[i];
    assert |r| >= n;
    assert |r| <= n;
  }

  lemma LowerIs(s: string, w: string)
    requires IsWord(w)
    ensures ToLower(s) == w <==> |s| == |w| && Spells(s, w)
  {
    if ToLower(s) == w {
      forall i | 0 <= i < |w|
        ensures IsLetter(s[i], w[i])
      {
        assert ToLower(s)[i] == w[i];
      }
    }
  }

  lemma SaysIsKey(bytes: string, w: string)
    requires IsWord(w) && Says(bytes, w)
    ensures ToLower(TrimEnd(CString(bytes))) == w
  {
    var end: nat :| BlankUpTo(bytes, |w|, end);
    forall i | 0 <= i < end
      ensures bytes[i] != '\0'
    {
      if i < |w| {
        assert IsLetter(bytes[i], w[i]);
      }
    }
    CStringIs(bytes, end);
    assert IsLetter(bytes[|w| - 1], w[|w| - 1]);
    TrimIs(bytes[..end], |w|);
    assert bytes[..end][..|w|] == bytes[..|w|];
    LowerIs(bytes[..|w|], w);
  }

  lemma KeyIsSaid(bytes: string, w: string)
    requires IsWord(w) && ToLower(TrimEnd(CString(bytes))) == w
    ensures Says(bytes, w)
  {
    var end := CStringEnd(bytes);
    CStringIs(bytes, end);
    var s := bytes[..end];
    TrimmedEnd(s);
    LowerIs(TrimEnd(s), w);
    assert TrimEnd(s) == s[..|w|] == bytes[..|w|];
    assert BlankUpTo(bytes, |w|, end);
  }

  lemma KeyIffSaid(bytes: string, w: string)
    requires IsWord(w)
    ensures ToLower(TrimEnd(CString(bytes))) == w <==> Says(bytes, w)
  {
    if Says(bytes, w) {
      SaysIsKey(bytes, w);
    }
    if ToLower(TrimEnd(CString(bytes))) == w {
      KeyIsSaid(bytes, w);
    }
  }

  /** Each of the five words gets its translation, and every other message the fixed text. */
  lemma ReplyAnswers(bytes: string)
    ensures Reply(bytes) == Answer(bytes)
  {
    hide Says, ToLower, TrimEnd, CString;
    KeyIffSaid(bytes, "hello");
    KeyIffSaid(bytes, "world");
    KeyIffSaid(bytes, "server");
    KeyIffSaid(bytes, "exit");
    KeyIffSaid(bytes, "bye");
  }

  /** No message says two different words. */
  lemma SaysOne(bytes: string, v: string, w: string)
    requires IsWord(v) && IsWord(w) && Says(bytes, v) && Says(bytes, w)
    ensures v == w
  {
    KeyIffSaid(bytes, v);
    KeyIffSaid(bytes, w);
  }

  /** What reading does to an open connection. End of stream, a failed read and a failed reply
      close it without a reply; otherwise it stays open and sends exactly one. */
  lemma ReadShows(c: Conn, a: Arrival)
    requires c.status == CONNECTED
    ensures var r := Read(c, a);
            && r.fd == c.fd
            && (a.bytes == "" || !a.sendOk ==> r.status == CLOSED && r.sent == c.sent)
            && (a.bytes != "" && a.sendOk ==> r.status == CONNECTED && r.sent == c.sent + [Answer(a.bytes)])
  {
    ReplyAnswers(a.bytes);
  }

  class Connection {
    const clientfd: int
    var status: ConnStatus
    var buffer: string
    var sent: seq<string>

    ghost function View(): Conn
      reads this
    {
      Conn(clientfd, status, sent)
    }

    constructor (fd: int)
      ensures View() == Conn(fd, CONNECTED, [])
    {
      clientfd := fd;
      status := CONNECTED;
      buffer, sent := "", [];
    }

    method ReadData(a: Arrival)
      modifies this
      ensures View() == Read(old(View()), a)
      ensures old(status) == CLOSED ==> View() == old(View())
      ensures old(status) == CONNECTED && (a.bytes == "" || !a.sendOk) ==> status == CLOSED && sent == old(sent)
      ensures old(status) == CONNECTED && a.bytes != "" && a.sendOk ==>
                status == CONNECTED && sent == old(sent) + [Answer(a.bytes)]
    {
      hide Answer, CString, TrimEnd, ToLower;
      if status == CONNECTED {
        ReadShows(View(), a);
      }
      if status == CLOSED {
        return;
      }
      buffer := a.bytes;
      if buffer == "" {
        CloseConnection();
        return;
      }
      var input := TrimEnd(CString(buffer));
      var key := ToLower(input);
      var response := UNKNOWN;
      if key in DICT {
        response := DICT[key];
      }
      SendData(response + "\n", a.sendOk);
    }

    method SendData(msg: string, sendOk: bool)
      modifies this
      ensures View() == if old(status) == CLOSED then old(View())
                        else if sendOk then old(View()).(sent := old(sent) + [msg])
                        else old(View()).(status := CLOSED)
    {
      if status == CLOSED {
        return;
      }
      if sendOk {
        sent := sent + [msg];
      } else {
        CloseConnection();
      }
    }

    method CloseConnection()
      modifies this
      ensures View() == old(View()).(status := CLOSED)
    {
      if status == CLOSED {
        return;
      }
      status := CLOSED;
    }
  }
}
