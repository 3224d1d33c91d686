/** One dispatch pass of the three event loops of Project_TCPServer_Plus/src/reactor: the work
    done after select, poll or epoll_wait has reported which descriptors are ready. */
module Reactor {
  import opened Connection

  type Arrivals = map<int, Arrival>

  // ---------------------------------------------------------------- what a pass should do

  predicate IsReady(c: Conn, ready: Arrivals) { c.status == CONNECTED && c.fd in ready }

  /** Every open, ready connection reads once; nothing else changes. */
  function Serve(c: Conn, ready: Arrivals): Conn {
    if IsReady(c, ready) then Read(c, ready[c.fd]) else c
  }

  function Pass(cs: seq<Conn>, ready: Arrivals): (r: seq<Conn>)
    ensures |r| == |cs|
  {
    seq(|cs|, i requires 0 <= i < |cs| => Serve(cs[i], ready))
  }

  /** No connection registered before it has the same descriptor. */
  predicate IsFirst(cs: seq<Conn>, i: nat)
    requires i < |cs|
  {
    forall j | 0 <= j < i :: cs[j].fd != cs[i].fd
  }

  /** What the nested search of the poll loop does instead: it stops at the first registered
      connection with the ready descriptor, open or not. */
  function PollPass(cs: seq<Conn>, ready: Arrivals): (r: seq<Conn>)
    ensures |r| == |cs|
  {
    seq(|cs|, i requires 0 <= i < |cs| => if IsFirst(cs, i) then Serve(cs[i], ready) else cs[i])
  }

  /** The system reuses a descriptor only after its connection is closed. */
  predicate ReusedAfterClose(cs: seq<Conn>) {
    forall i, j | 0 <= i < j < |cs| && cs[i].fd == cs[j].fd :: cs[i].status == CLOSED
  }

  /** The poll loop agrees with the others exactly when no open, ready connection comes after a
      registered connection with the same descriptor; closed connections are never removed
      from its lists, so a reused descriptor is enough to disagree. */
  lemma PollAgreesIff(cs: seq<Conn>, ready: Arrivals)
    ensures PollPass(cs, ready) == Pass(cs, ready) <==>
            forall i | 0 <= i < |cs| && IsReady(cs[i], ready) :: IsFirst(cs, i)
  {
    forall i | 0 <= i < |cs|
      ensures PollPass(cs, ready)[i] == Pass(cs, ready)[i] <==> (IsReady(cs[i], ready) ==> IsFirst(cs, i))
    {
      if IsReady(cs[i], ready) {
        ReadShows(cs[i], ready[cs[i].fd]);
      }
    }
  }

  /** With distinct descriptors all three loops do the same work. */
  lemma DistinctAgree(cs: seq<Conn>, ready: Arrivals)
    requires forall i, j | 0 <= i < j < |cs| :: cs[i].fd != cs[j].fd
    ensures PollPass(cs, ready) == Pass(cs, ready)
  {
    PollAgreesIff(cs, ready);
  }

  /** Open and ready is all it takes to be read, in the pass of the select loop, and in the
      pass of the poll loop for the first connection of its descriptor. */
  lemma EveryReadyIsRead(cs: seq<Conn>, ready: Arrivals, i: nat)
    requires i < |cs|
    ensures Pass(cs, ready)[i] ==
              if cs[i].status == CONNECTED && cs[i].fd in ready then Read(cs[i], ready[cs[i].fd]) else cs[i]
    ensures PollPass(cs, ready)[i] ==
              if cs[i].status == CONNECTED && cs[i].fd in ready && forall j | 0 <= j < i :: cs[j].fd != cs[i].fd
              then Read(cs[i], ready[cs[i].fd]) else cs[i]
  {
  }

  /** A message for connection `fd` in every pass, each of them answered. */
  predicate Talks(fd: int, passes: seq<Arrivals>) {
    forall n | 0 <= n < |passes| :: fd in passes[n] && passes[n][fd].bytes != "" && passes[n][fd].sendOk
  }

  ghost function Answers(fd: int, passes: seq<Arrivals>): seq<string>
    requires Talks(fd, passes)
  {
    seq(|passes|, n requires 0 <= n < |passes| => Answer(passes[n][fd].bytes))
  }

  function Passes(cs: seq<Conn>, passes: seq<Arrivals>): (r: seq<Conn>)
    ensures |r| == |cs|
    decreases |passes|
  {
    if passes == [] then cs else Passes(Pass(cs, passes[0]), passes[1..])
  }

  /** Message after message: whatever happens on the other connections, an open connection
      answers every one of them and stays open. */
  lemma {:induction false} EveryMessageAnswered(cs: seq<Conn>, passes: seq<Arrivals>, i: nat)
    requires i < |cs| && cs[i].status == CONNECTED && Talks(cs[i].fd, passes)
    ensures Passes(cs, passes)[i] == cs[i].(sent := cs[i].sent + Answers(cs[i].fd, passes))
    decreases |passes|
  {
    hide Read, Answer;
    if passes != [] {
      EveryReadyIsRead(cs, passes[0], i);
      ReadShows(cs[i], passes[0][cs[i].fd]);
      EveryMessageAnswered(Pass(cs, passes[0]), passes[1..], i);
      assert Answers(cs[i].fd, passes) == [Answer(passes[0][cs[i].fd].bytes)] + Answers(cs[i].fd, passes[1..]);
    }
  }

  /** So does the poll loop, for the first connection of its descriptor. */
  lemma {:induction false} EveryFirstMessageAnswered(cs: seq<Conn>, passes: seq<Arrivals>, i: nat)
    requires i < |cs| && cs[i].status == CONNECTED && Talks(cs[i].fd, passes)
    requires forall j | 0 <= j < i :: cs[j].fd != cs[i].fd
    ensures PollPasses(cs, passes)[i] == cs[i].(sent := cs[i].sent + Answers(cs[i].fd, passes))
    decreases |passes|
  {
    hide Read, Answer;
    if passes != [] {
      var next := PollPass(cs, passes[0]);
      SameDescriptors(cs, passes[0]);
      EveryReadyIsRead(cs, passes[0], i);
      ReadShows(cs[i], passes[0][cs[i].fd]);
      EveryFirstMessageAnswered(next, passes[1..], i);
      assert Answers(cs[i].fd, passes) == [Answer(passes[0][cs[i].fd].bytes)] + Answers(cs[i].fd, passes[1..]);
    }
  }

  lemma SameDescriptors(cs: seq<Conn>, ready: Arrivals)
    ensures forall j | 0 <= j < |cs| :: PollPass(cs, ready)[j].fd == cs[j].fd
  {
  }

  /** What the search of entry i, which stops at k, does. */
  lemma EntryServes(cs: seq<Conn>, ready: Arrivals, i: nat, k: nat)
    requires ReusedAfterClose(cs) && k <= i < |cs| && cs[k].fd == cs[i].fd
    requires forall j | 0 <= j < k :: cs[j].fd != cs[i].fd
    ensures k < i ==> cs[k].status == CLOSED && PollPass(cs, ready)[k] == cs[k] && PollPass(cs, ready)[i] == cs[i]
    ensures k == i ==> PollPass(cs, ready)[i] == Serve(cs[i], ready)
    ensures forall j | i < j < |cs| && cs[j].fd == cs[i].fd :: cs[i].status == CLOSED
  {
  }

  lemma QuietEntry(cs: seq<Conn>, ready: Arrivals, i: nat)
    requires i < |cs| && cs[i].fd !in ready
    ensures PollPass(cs, ready)[i] == cs[i]
  {
  }

  function PollPasses(cs: seq<Conn>, passes: seq<Arrivals>): (r: seq<Conn>)
    ensures |r| == |cs|
    decreases |passes|
  {
    if passes == [] then cs else PollPasses(PollPass(cs, passes[0]), passes[1..])
  }

  /** A connection that got a reused descriptor is never read by the poll loop, however many
      passes find it ready. */
  lemma {:induction false} ReusedDescriptorStarves(cs: seq<Conn>, passes: seq<Arrivals>, i: nat)
    requires i < |cs| && !IsFirst(cs, i)
    ensures PollPasses(cs, passes)[i] == cs[i]
    decreases |passes|
  {
    if passes != [] {
      var next := PollPass(cs, passes[0]);
      assert forall j | 0 <= j < |cs| :: next[j].fd == cs[j].fd;
      ReusedDescriptorStarves(next, passes[1..], i);
    }
  }

  /** A list the system can produce on which the loops differ: descriptor 5 was closed, handed
      out again to a new client, and is ready. */
  lemma ReuseMatters(a: Arrival)
    ensures var cs, ready := [Conn(5, CLOSED, []), Conn(5, CONNECTED, [])], map[5 := a];
            && ReusedAfterClose(cs)
            && PollPass(cs, ready)[1] == cs[1]
            && Pass(cs, ready)[1] == Read(cs[1], a) != cs[1]
  {
    var cs: seq<Conn> := [Conn(5, CLOSED, []), Conn(5, CONNECTED, [])];
    assert cs[0].fd == cs[1].fd;
    assert !IsFirst(cs, 1);
    ReadShows(cs[1], a);
  }

  /** What the event list of the epoll loop makes of it: the listed connections are served. */
  function EpollPass(cs: seq<Conn>, events: seq<nat>, ready: Arrivals): (r: seq<Conn>)
    ensures |r| == |cs|
  {
    seq(|cs|, i requires 0 <= i < |cs| => if i in events then Serve(cs[i], ready) else cs[i])
  }

  /** The epoll loop does the same work as the select loop exactly when its event list, in
      whatever order, holds every open, ready connection. */
  lemma EpollAgreesIff(cs: seq<Conn>, events: seq<nat>, ready: Arrivals)
    ensures EpollPass(cs, events, ready) == Pass(cs, ready) <==>
            forall i | 0 <= i < |cs| && IsReady(cs[i], ready) :: i in events
  {
    forall i | 0 <= i < |cs|
      ensures EpollPass(cs, events, ready)[i] == Pass(cs, ready)[i] <==> (IsReady(cs[i], ready) ==> i in events)
    {
      if IsReady(cs[i], ready) {
        ReadShows(cs[i], ready[cs[i].fd]);
      }
    }
  }

  // ---------------------------------------------------------------- the loops

  ghost function Views(cs: seq<Connection>): (r: seq<Conn>)
    reads cs
    ensures |r| == |cs|
    ensures forall i | 0 <= i < |cs| :: r[i] == cs[i].View()
  {
    seq(|cs|, i requires 0 <= i < |cs| reads cs => cs[i].View())
  }

  ghost predicate Distinct(cs: seq<Connection>) {
    forall i, j | 0 <= i < j < |cs| :: cs[i] != cs[j]
  }

  const FD_SETSIZE := 1024
  const MAX_EVENTS := 1024

  class SelectLoop {
    var readFds: set<int>
    var maxFd: int
    var connections: seq<Connection>

    /** Every registered descriptor is in the set, and the maximum covers the set. */
    ghost predicate Valid()
      reads this
    {
      && (forall i | 0 <= i < |connections| :: connections[i].clientfd in readFds)
      && (forall fd | fd in readFds :: fd <= maxFd)
    }

    constructor ()
      ensures Valid() && connections == []
    {
      readFds, maxFd, connections := {}, 0, [];
    }

    method AddConnection(conn: Connection?) returns (ok: bool)
      requires Valid()
      requires conn != null ==> 0 <= conn.clientfd < FD_SETSIZE
      modifies this
      ensures Valid()
      ensures ok == (conn != null)
      ensures connections == if ok then old(connections) + [conn] else old(connections)
    {
      if conn == null {
        return false;
      }
      readFds := readFds + {conn.clientfd};
      if conn.clientfd > maxFd {
        maxFd := conn.clientfd;
      }
      connections := connections + [conn];
      return true;
    }

    /** `pending` is what has arrived for any descriptor; select reports those of its set
        that are not above maxFd. */
    method Dispatch(pending: Arrivals)
      requires Valid() && Distinct(connections)
      modifies connections
      ensures Views(connections) == Pass(old(Views(connections)), pending)
      ensures forall i | 0 <= i < |connections| ::
                connections[i].View() == var c := old(connections[i].View());
                  if c.status == CONNECTED && c.fd in pending then Read(c, pending[c.fd]) else c
    {
      var tempFds := set fd | fd in readFds && fd <= maxFd && fd in pending;
      for i := 0 to |connections|
        invariant forall j | 0 <= j < i :: connections[j].View() == Serve(old(connections[j].View()), pending)
        invariant forall j | i <= j < |connections| :: connections[j].View() == old(connections[j].View())
      {
        var conn := connections[i];
        if conn.status == CLOSED {
          continue;
        }
        if conn.clientfd in tempFds {
          conn.ReadData(pending[conn.clientfd]);
        }
      }
    }
  }

  class PollLoop {
    var pollFds: seq<int>
    var connections: seq<Connection>

    /** The two lists stay in step. */
    ghost predicate Valid()
      reads this
    {
      && |pollFds| == |connections|
      && forall i | 0 <= i < |connections| :: pollFds[i] == connections[i].clientfd
    }

    constructor ()
      ensures Valid() && connections == []
    {
      pollFds, connections := [], [];
    }

    method AddConnection(conn: Connection?) returns (ok: bool)
      requires Valid()
      modifies this
      ensures Valid()
      ensures ok == (conn != null)
      ensures connections == if ok then old(connections) + [conn] else old(connections)
    {
      if conn == null {
        return false;
      }
      pollFds := pollFds + [conn.clientfd];
      connections := connections + [conn];
      return true;
    }

    /** The inner loop: the first registered connection with this descriptor. */
    method Search(readyFd: int) returns (k: nat)
      requires Valid()
      ensures k <= |connections| && forall j | 0 <= j < k :: connections[j].clientfd != readyFd
      ensures k < |connections| ==> connections[k].clientfd == readyFd
    {
      k := 0;
      while k < |connections|
        invariant k <= |connections| && forall j | 0 <= j < k :: connections[j].clientfd != readyFd
      {
        if connections[k].clientfd == readyFd {
          return;
        }
        k := k + 1;
      }
    }

    method Dispatch(ready: Arrivals)
      requires Valid() && ReusedAfterClose(Views(connections))
      modifies connections
      ensures Views(connections) == PollPass(old(Views(connections)), ready)
      ensures forall i | 0 <= i < |connections| ::
                connections[i].View() == var c := old(connections[i].View());
                  if c.status == CONNECTED && c.fd in ready && forall j | 0 <= j < i :: connections[j].clientfd != c.fd
                  then Read(c, ready[c.fd]) else c
    {
      hide PollPass, ReusedAfterClose, IsFirst;
      ghost var before := Views(connections);
      ghost var after := PollPass(before, ready);
      for i := 0 to |pollFds|
        invariant forall j | 0 <= j < |connections| :: connections[j].View() == if j < i then after[j] else before[j]
      {
        assert before[i].fd == pollFds[i];
        if pollFds[i] in ready {
          var k := Search(pollFds[i]);
          assert k <= i && before[k].fd == before[i].fd;
          assert forall j | 0 <= j < k :: before[j].fd != before[i].fd;
          EntryServes(before, ready, i, k);
          connections[k].ReadData(ready[pollFds[i]]);
        } else {
          QuietEntry(before, ready, i);
        }
      }
      forall i | 0 <= i < |connections|
        ensures connections[i].View() == var c := before[i];
                  if c.status == CONNECTED && c.fd in ready && forall j | 0 <= j < i :: connections[j].clientfd != c.fd
                  then Read(c, ready[c.fd]) else c
      {
        EveryReadyIsRead(before, ready, i);
        assert forall j | 0 <= j < i :: before[j].fd == connections[j].clientfd;
      }
    }
  }

  class EpollLoop {
    var epfd: int
    var connections: seq<Connection>

    constructor (epfd: int)
      ensures connections == [] && this.epfd == epfd
    {
      this.epfd := epfd;
      connections := [];
    }

    /** `added` is whether epoll_ctl accepted the descriptor. */
    method AddConnection(conn: Connection?, added: bool) returns (ok: bool)
      modifies this
      ensures epfd == old(epfd)
      ensures ok == (conn != null && epfd >= 0 && added)
      ensures connections == if ok then old(connections) + [conn] else old(connections)
    {
      if conn == null || epfd < 0 {
        return false;
      }
      if !added {
        return false;
      }
      connections := connections + [conn];
      return true;
    }

    /** `events` lists, in any order, the registered connections that epoll_wait reports, each
        at most once. */
    method Dispatch(events: seq<nat>, ready: Arrivals)
      requires Distinct(connections)
      requires forall e | 0 <= e < |events| :: events[e] < |connections| && connections[events[e]].clientfd in ready
      requires |events| <= MAX_EVENTS && forall e, f | 0 <= e < f < |events| :: events[e] != events[f]
      modifies connections
      ensures Views(connections) == EpollPass(old(Views(connections)), events, ready)
      ensures forall i | 0 <= i < |connections| ::
                connections[i].View() == var c := old(connections[i].View());
                  if i in events && c.status == CONNECTED then Read(c, ready[c.fd]) else c
    {
      for e := 0 to |events|
        invariant forall i | 0 <= i < |connections| ::
                    connections[i].View() == if i in events[..e] then Serve(old(connections[i].View()), ready)
                                             else old(connections[i].View())
      {
        var conn := connections[events[e]];
        assert events[e] !in events[..e];
        if conn.status == CLOSED {
        } else {
          conn.ReadData(ready[conn.clientfd]);
        }
        assert events[..e + 1] == events[..e] + [events[e]];
      }
      assert events[..|events|] == events;
    }
  }
}
