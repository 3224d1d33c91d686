# Verified models of the concurrency exercises, the cookie login server and the reactor

The repository is a collection of network and concurrency study programs. A few of them hold a
real protocol, and this project models those in Dafny and proves what they promise.

* **Ring queue** (`thread4`): `RingQueue` is the object with its vector, two semaphores and two
  mutexes, one statement at a time; `RingProtocol` runs any number of producers and consumers
  over it in any interleaving and proves that it is a linearizable bounded FIFO (`BoundedFifo`);
  `RingProgress` says which programs finish; `RingRun` drives the real object through a
  schedule.
* **Thread pool** (`thread5`): `ThreadPool` is the object (queue, mutex, condition variable,
  sleep counter, workers). The condition variable behaves as POSIX.1-2017 describes
  `pthread_cond_wait`: releasing the mutex and joining the wait set is one step, a woken thread
  competes for the mutex again, and spurious wakeups may happen. `PoolProtocol` holds the
  invariant of every interleaving of main, workers and clients; `PoolProgress` the promises over
  whole runs; `PoolLimits` what its callers have to see to; `PoolRun` drives the real object.
* **Cookies, sessions, login** (`http-server-cpp`): `Text` has the `std::string` operations
  including `size_t` wrap-around, `CookieUtil` the parser and the Set-Cookie builders, `WrappedCookies` the requests it does not
  read back,
  `SessionManager` the session table, `HttpServer` the request handler. `UserAgent` is the other
  end of the line, a user agent that follows sections 5.2, 5.3 and 5.4 of RFC 6265, and
  `LoginFlow` puts both ends together.
* **Blocking queue** (`thread3`): `BlockQueue`, `BlockQueueProtocol` (one producer and one
  consumer), `BlockQueueCalls` (what each call does, for any threads) and `BlockQueueLimits` (for
  which numbers of threads it is safe at all).
* **Alternating printer** (`thread1`): `Alternation`, for any number of rounds.
* **Reactor** (`Project_TCPServer_Plus`): `Connection`, and in `Reactor` one dispatch pass of the
  select, poll and epoll loops.

Concurrent code is modelled in two layers. A step function says what one atomic statement does
to the shared state (`Moved`), whether the thread has to wait (`Blocked`), or that it would touch
memory it must not touch (`Crash`). The classes execute the same statements on mutable fields and
arrays and are proved equal to the step functions. `Exec` runs an arbitrary schedule of threads,
so a lemma about `Exec(s, schedule)` for all schedules is a statement about every reachable
state of every interleaving. The logs of what was written, popped, enqueued or executed are
history; no statement reads them.

Where the code and its own documentation differ, the model follows the code:

* http-server-cpp/src/SessionManager.cpp:14-17 says that session ids never repeat. They repeat
  exactly when both the second and the sixteen digits do (`SessionManager.IdsDiffer`); the login
  theorem has "no colliding id" as a hypothesis.
* The parser assumes a space after `Cookie:` and skips one character whatever it is
  (http-server-cpp/src/CookieUtil.cpp:29). When the line break comes straight after the colon the
  length wraps and the parser reads on to the end of the request (`CookieUtil.WrappedDiffers`).
  `WrappedCookies.NormalisesExactly` says for which requests parse(print(parse(r))) == parse(r).
* thread3/Main.cc:77-86 starts two consumers and three producers, for which the `if`-guarded
  waits are not enough (`BlockQueueLimits.SafeIff`): pop can read an empty queue, and the queue can
  grow to any size (`BlockQueueLimits.TwoProducersGrow`).
* The poll loop looks a ready descriptor up among all connections ever added. A descriptor that
  the system uses again finds the old, closed connection first, and the new one is never served,
  while select and epoll serve it (`Reactor.PollAgreesIff`, `Reactor.ReuseMatters`,
  `Reactor.ReusedDescriptorStarves`).
* Enqueue after the last pool worker has decided to exit leaves the task in the queue for ever
  (`PoolLimits.LateTaskStays`); `PoolProgress.ExactlyOnceIff` gives the exact condition, and
  `PoolLimits.PushedInTimeExecutes` one that a caller can see to.

## Model

| member | source | states |
|---|---|---|
| RingQueue.Sem.P | thread4/Sem.hpp:18-22 | sem_wait: passes and takes one unit exactly when there is one, otherwise waits and changes nothing |
| RingQueue.Sem.V | thread4/Sem.hpp:23-27 | sem_post: one unit more |
| RingQueue.Mutex.Lock | thread4/Mutex.hpp:13-16 | passes and takes ownership exactly when the mutex is free |
| RingQueue.Mutex.Unlock | thread4/Mutex.hpp:18-21 | the mutex is free afterwards |
| RingQueue.RingQueue.constructor | thread4/RingQueue.hpp:16-24 | a fresh ring: cap blank units, no data units, both steps at 0, both mutexes free |
| RingQueue.RingQueue.EnqueueAt | thread4/RingQueue.hpp:26-35 | each statement of Enqueue, in place on the vector, has exactly the effect of the step function and otherwise changes nothing |
| RingQueue.RingQueue.PopAt | thread4/RingQueue.hpp:36-45 | each statement of Pop, in place, has exactly the effect of the step function, and hands out the front value at the copy |
| RingProtocol.StepKeeps | thread4/RingQueue.hpp:26-45 | every statement of every thread keeps the invariant: mutex ownership, token count, steps equal to log length mod cap, and slot i % cap holding logical slot i |
| RingProtocol.ExecInv | thread4/RingQueue.hpp:26-45 | the invariant holds in every reachable state of any number of producers and consumers and any cap >= 1 |
| RingProtocol.NeverCrashes | thread4/RingQueue.hpp:30-40 | no interleaving stores or reads outside the vector |
| RingProtocol.TokensConserved | thread4/RingQueue.hpp:28-44 | blank + data + producer between P and V + consumer between P and V equals cap in every reachable state |
| RingProtocol.SlotsExclusive | thread4/RingQueue.hpp:26-45 | in-flight write index e and read index d satisfy d < e < d + cap and lie in different physical slots, although the two threads hold different mutexes |
| RingProtocol.RingRefinesFifo | thread4/RingQueue.hpp:26-45 | linearizability: in every interleaving the values really stored and really read replay as a legal history of an atomic bounded FIFO, which ends with the contents of the ring |
| RingProtocol.PoppedIsPrefix | thread4/RingQueue.hpp:26-45 | popped values are a prefix of stored values, at most cap are unread, and unread value i sits at index i % cap |
| RingProtocol.PerProducerOrder | thread4/Main.cc:26-37 | what has come out from one producer, in pop order, is a gap-free prefix of the stream it sends, for any number of producers and consumers |
| RingProgress.MoveCosts | thread4/RingQueue.hpp:26-45 | each move of any thread uses up exactly one of the statements left |
| RingProgress.RunsAreFinite | thread4/RingQueue.hpp:26-45 | moves made plus statements left is constant over every run, so every run is finite |
| RingProgress.CompletesIff | thread4/RingQueue.hpp:28-44 | a run of k enqueues and m pops that can go no further has completed every call if and only if m <= k <= m + cap |
| RingProgress.Progress | thread4/RingQueue.hpp:28-44 | for such a split somebody can always move until all calls have returned, which is after exactly 6(k + m) moves, even though a producer may wait on the semaphore with its mutex held |
| RingRun.Run.Turn | thread4/RingQueue.hpp:26-45 | one statement of the chosen thread on the real object is one step of the protocol |
| RingRun.Run.Interleave | thread4/RingQueue.hpp:26-45 | running a whole schedule in place on the real object reaches the state the protocol lemmas speak of |
| ThreadPool.Mutex.Lock | thread5/Mutex.hpp:14-17 | passes and takes ownership exactly when the mutex is free |
| ThreadPool.Mutex.Unlock | thread5/Mutex.hpp:19-22 | the mutex is free afterwards |
| ThreadPool.Cond.Wait | thread5/Cond.hpp:14-18 | releases the mutex and joins the wait set in one step |
| ThreadPool.Cond.Signal | thread5/Cond.hpp:19-23 | moves one waiter of the system's choosing out of the wait set, or does nothing when nobody waits |
| ThreadPool.Cond.Broadcast | thread5/Cond.hpp:24-28 | moves every waiter out of the wait set and changes nothing else |
| ThreadPool.ThreadPool.constructor | thread5/ThreadPool.hpp:54-64 | not running, no task, no sleeper, slaver_num threads not yet started |
| ThreadPool.ThreadPool.HandlerTaskAt | thread5/ThreadPool.hpp:20-51 | each statement of a worker has exactly the effect of the step function on queue, flag, counter, mutex and worker table |
| ThreadPool.ThreadPool.EnqueueAt | thread5/ThreadPool.hpp:97-106 | each statement of Enqueue: lock, push, signal when the sleep counter is positive, unlock |
| ThreadPool.ThreadPool.StartStopWaitAt | thread5/ThreadPool.hpp:66-95 | each statement of Start, Stop and Wait, with Join waiting for its worker to be done (thread5/Thread.hpp:57-72) |
| PoolProtocol.StepKeeps | thread5/ThreadPool.hpp:20-106 | every action of any thread, spurious wakeups included, keeps the pool invariant and never crashes |
| PoolProtocol.ExecInv | thread5/ThreadPool.hpp:20-106 | the pool invariant holds in every reachable state |
| PoolProtocol.WorkerWakeups | thread5/ThreadPool.hpp:30-44 | a worker's step keeps the no-lost-wakeup bound: while someone waits, queued tasks do not outnumber workers on their way to the queue plus a signal still due |
| PoolProtocol.ClientWakeups | thread5/ThreadPool.hpp:97-106 | Enqueue keeps the same bound, because the signal between push and unlock adds a woken worker whenever one waits |
| PoolProgress.NoWakeupIsLost | thread5/ThreadPool.hpp:30-35 | whenever the mutex is free: if a worker is in the wait set, queued tasks do not outnumber woken workers that have not re-acquired; the sleep counter is always the number of counted workers |
| PoolProgress.NeverCrashes | thread5/ThreadPool.hpp:43-44 | no worker takes from an empty queue in any interleaving |
| PoolProgress.ShutdownIsQuiet | thread5/ThreadPool.hpp:38-51 | after the broadcast of Stop the wait set is empty in every reachable state; a worker quits only with the queue empty and the pool stopped; when Wait has returned every worker is done |
| PoolProgress.WaitReturnsAfterAll | thread5/ThreadPool.hpp:80-95 | when Wait has returned, everything enqueued before the last worker decided to exit has been executed |
| PoolProgress.StopDrains | thread5/ThreadPool.hpp:80-95 | every task enqueued by the time Stop clears the flag is executed before Wait returns |
| PoolProgress.TasksConserved | thread5/ThreadPool.hpp:43-48 | the enqueue log is the dequeue log followed by the queue, and executed + in hand + queued + not yet pushed is constant as a multiset: no task is lost, duplicated or reordered at dispatch |
| PoolProgress.ExactlyOnceIff | thread5/ThreadPool.hpp:38-48 | a finished run has executed every task exactly once if and only if nothing was enqueued after the last worker decided to exit |
| PoolLimits.LateTaskStays | thread5/ThreadPool.hpp:38-41 | a run in which the only worker exits before the only Enqueue: everything has returned, nothing can move any more, and the task is still queued and not executed |
| PoolLimits.PushedInTimeExecutes | thread5/ThreadPool.hpp:80-106 | if all clients have pushed all their tasks before Stop clears the flag, every task has been executed exactly once when Wait returns |
| PoolProgress.RunsAreFinite | thread5/ThreadPool.hpp:20-106 | n workers and k tasks allow at most 11n + 16k + 7 moves in any run, plus five for each spurious wakeup |
| PoolProgress.AfterStopEveryMoveCounts | thread5/ThreadPool.hpp:80-95 | after the broadcast of Stop no spurious wakeup is possible and every single move decreases the measure |
| PoolProgress.NeverStuck | thread5/ThreadPool.hpp:20-106 | until main has returned from Wait, all workers are done and all calls have returned, somebody can move |
| PoolRun.Run.Turn | thread5/ThreadPool.hpp:20-106 | one action on the real pool object is one step of the protocol |
| PoolRun.Run.Interleave | thread5/ThreadPool.hpp:20-106 | a whole schedule in place reaches the protocol's state, and when it takes main past Wait all tasks enqueued while running are executed |
| Text.Find | http-server-cpp/src/CookieUtil.cpp:18-24 | the position of std::string::find: the first occurrence at or after the start, or none at all |
| Text.EraseLeading | http-server-cpp/src/CookieUtil.cpp:37 | erasing up to find_first_not_of, with npos as the count when there are only spaces, drops exactly the leading spaces |
| Text.EraseTrailing | http-server-cpp/src/CookieUtil.cpp:38 | the position find_last_not_of + 1, which wraps from npos to 0 when there are only spaces, is in range, and erasing from it drops exactly the trailing spaces |
| Text.DecimalInjective | http-server-cpp/src/SessionManager.cpp:23 | decimal printing, sign included, is injective |
| CookieUtil.ParseCookies | http-server-cpp/src/CookieUtil.cpp:13-53 | the parser, with the position of every substr and erase proved in range for every request, computes the parse function about which the lemmas below speak, and an empty map when there is no Cookie line |
| CookieUtil.NoLineNoCookies | http-server-cpp/src/CookieUtil.cpp:18-26 | when "Cookie:" occurs nowhere, or no line break follows its first occurrence, there are no cookies |
| CookieUtil.CutsAreInRange | http-server-cpp/src/CookieUtil.cpp:29 | the substr position is inside the request for every request, and exactly in the wrapped case the cut runs to the end of the request instead of the end of the line |
| CookieUtil.CookieRoundTrip | http-server-cpp/src/CookieUtil.cpp:13-53 | parsing any request whose first Cookie header prints a list of pairs as in section 4.2.1 of RFC 6265 yields the last-wins map of the list |
| CookieUtil.ParseYields | http-server-cpp/src/CookieUtil.cpp:34-50 | keys and values that parsing yields have no separator or outer space, and outside the wrapped case no line break |
| CookieUtil.Normalises | http-server-cpp/src/CookieUtil.cpp:18-49 | so outside the wrapped case parse(print(parse(r))) == parse(r) for every request |
| CookieUtil.WrappedDiffers | http-server-cpp/src/CookieUtil.cpp:29 | a wrapped request for which parse, print, parse does not give the same map |
| WrappedCookies.LastPieceWins | http-server-cpp/src/CookieUtil.cpp:34-50 | every name is bound to the value in the last ';'-piece that names it |
| WrappedCookies.ParseReadsLine | http-server-cpp/src/CookieUtil.cpp:18-29 | what is parsed is the text from the eighth character after the first "Cookie:" to the first line break, or to the end of the request when the line break comes straight after the colon |
| WrappedCookies.NormalisesExactly | http-server-cpp/src/CookieUtil.cpp:18-49 | for every request and every order of printing: parse(print(parse(r))) == parse(r) if and only if it is not the case that the line is just "Cookie:" and, in the text cut after it, a piece that is the last to give some name holds a line break |
| WrappedCookies.NormalFormExists | http-server-cpp/src/CookieUtil.cpp:18-49 | every parsed map has such a printing, so that the equivalence says something about every request |
| UserAgent.ReadsSetCookie | http-server-cpp/src/CookieUtil.cpp:64-72 | reading the header as section 5.2 of RFC 6265 says yields the name, the value and the three attributes that were written |
| UserAgent.MaxAgeReads | http-server-cpp/src/CookieUtil.cpp:70-71 | Max-Age reads back as the same integer, negative ones included |
| LoginFlow.SetCookieRoundTrip | http-server-cpp/src/CookieUtil.cpp:64-72 | server to agent to server: for every name and value of section 4.1.1 of RFC 6265 the agent stores the cookie with the same Max-Age, and parsing the request that carries it gives exactly that pair |
| LoginFlow.ClearCookieExpires | http-server-cpp/src/CookieUtil.cpp:79-82 | the clearing header makes the agent keep an empty value with Max-Age 0 |
| SessionManager.SessionManager.GenerateSessionId | http-server-cpp/src/SessionManager.cpp:18-34 | the id is the decimal second, an underscore and the sixteen digits in hexadecimal |
| SessionManager.SessionManager.CreateSession | http-server-cpp/src/SessionManager.cpp:40-57 | stores username and expiry under the new id, replacing an entry with the same id, and returns the id |
| SessionManager.SessionManager.IsSessionValid | http-server-cpp/src/SessionManager.cpp:62-83 | true exactly for a stored id not past its expiry; an expired one is erased |
| SessionManager.SessionManager.UsernameOf | http-server-cpp/src/SessionManager.cpp:88-96 | the stored name, or the empty string |
| SessionManager.SessionManager.DestroySession | http-server-cpp/src/SessionManager.cpp:101-105 | removes that id and nothing else |
| SessionManager.SessionManager.ClearExpiredSession | http-server-cpp/src/SessionManager.cpp:111-123 | erasing while iterating, in any order, leaves exactly the unexpired entries |
| SessionManager.IdsDiffer | http-server-cpp/src/SessionManager.cpp:18-34 | two ids are equal if and only if second and digits are |
| SessionManager.IdForm | http-server-cpp/src/SessionManager.cpp:18-34 | every id is a decimal number that reads back as the second, an underscore and hexadecimal digits |
| SessionManager.IdDigits | http-server-cpp/src/SessionManager.cpp:29-32 | the last sixteen characters, read as hexadecimal, are the random digits |
| SessionManager.CleanupIsUnobservable | http-server-cpp/src/SessionManager.cpp:62-123 | with a clock that does not run backwards, in every sequence of calls each isSessionValid, and each getUsername right after a true answer, agrees with a table from which nothing expired is ever removed |
| SessionManager.ClearsAreUnobservable | http-server-cpp/src/SessionManager.cpp:111-123 | leaving out every call of clearExpiredsession changes no verdict |
| SessionManager.ClockMatters | http-server-cpp/src/SessionManager.cpp:74-78 | with a clock that runs backwards the lazy erase is observable |
| HttpServer.HttpServer.HandleClient | http-server-cpp/src/HttpServer.cpp:129-232 | over the real session manager, the handler leaves the table and chooses the response that the lemmas below speak of, and the first of the five patterns that occurs in the text decides the kind of response |
| HttpServer.Routes | http-server-cpp/src/HttpServer.cpp:150-221 | for every text, the route is decided by which patterns occur anywhere in it, tried in the order of the source |
| HttpServer.Handled | http-server-cpp/src/HttpServer.cpp:150-227 | for every text: the form is shown, a session of test_user for 3600 seconds is created, the session of the SESSIONID cookie is destroyed, the welcome page is given exactly for a stored session not past its expiry, or the 404 page is given, and the table changes in no other way |
| LoginFlow.PagesShow | http-server-cpp/src/HttpServer.cpp:158-209 | the form page has status 200 and the file as its body; the welcome page has status 200 and a body with the user name and the logout link |
| LoginFlow.NotFoundShows | http-server-cpp/src/HttpServer.cpp:223-226 | the remaining requests get status 404 and its page |
| LoginFlow.LoginNeededShows | http-server-cpp/src/HttpServer.cpp:214-216 | a request without a valid session gets status 302 and the login page as its Location |
| LoginFlow.RunKeeps | http-server-cpp/src/HttpServer.cpp:165-218 | whatever other requests do, a session stays in the table or has been dropped because it had expired |
| LoginFlow.LoginCookie | http-server-cpp/src/HttpServer.cpp:171-177 | out of the redirect after login the agent stores exactly the cookie SESSIONID with the new id, and reads Max-Age 3600 |
| LoginFlow.LogoutCookie | http-server-cpp/src/HttpServer.cpp:186-189 | out of the redirect after logout the agent stores an empty session cookie with Max-Age 0 |
| LoginFlow.RedirectTargets | http-server-cpp/src/HttpServer.cpp:176-216 | read as header fields, login redirects to the home page, and logout and a missing or expired session redirect to the login page |
| LoginFlow.LoginEndToEnd | http-server-cpp/src/HttpServer.cpp:165-218 | on the texts of the line: after a text that asks for POST /login and any sequence of other requests with a non-decreasing clock, no colliding id and no logout of this session, a text that asks for GET / and carries the stored cookie gets the 200 page with test_user up to and including 3600 seconds, and the 302 to the login page after that |
| LoginFlow.LogoutEndsSession | http-server-cpp/src/HttpServer.cpp:181-190 | after a text that asks for GET /logout and carries a session cookie, a text that asks for GET / with that cookie gets the 302 to the login page in every later run, until the same id is handed out again |
| LoginFlow.NoCookieNoWelcome | http-server-cpp/src/HttpServer.cpp:143-217 | a text that asks for GET / and has no "Cookie:", or no SESSIONID among its cookies, gets the 302 to the login page after every sequence of requests, because no stored id is empty |
| LoginFlow.PlainRequests | http-server-cpp/src/HttpServer.cpp:150-193 | plain POST /login, GET / and GET /logout texts with a session cookie meet the hypotheses of the end-to-end lemmas for every id |
| BlockQueue.Cond.Wait | thread3/BlockQueue.hpp:37 | the caller joins the wait set |
| BlockQueue.Cond.Signal | thread3/BlockQueue.hpp:44 | one waiter of the system's choosing leaves the wait set, if there is one |
| BlockQueue.BlockQueue.constructor | thread3/BlockQueue.hpp:18-28 | an empty queue with nobody asleep |
| BlockQueue.BlockQueue.EnqueueAt | thread3/BlockQueue.hpp:30-46 | each statement of Enqueue, with its `if`-guarded wait, has exactly the effect of the step function |
| BlockQueue.BlockQueue.PopAt | thread3/BlockQueue.hpp:48-63 | each statement of pop, with its `if`-guarded wait, has exactly the effect of the step function and hands out the front value |
| BlockQueueProtocol.PairRefinesFifo | thread3/BlockQueue.hpp:30-63 | one producer, one consumer, no spurious wakeup: every interleaving is a legal history of the same bounded FIFO as the ring |
| BlockQueueProtocol.PairIsSafeAndLive | thread3/BlockQueue.hpp:30-63 | then the size never exceeds cap, pop never reads an empty queue, the two are never both in their wait sets, and one of them can always move |
| BlockQueueProtocol.OrderAlwaysKept | thread3/BlockQueue.hpp:41-58 | for any numbers of threads and wakeups, what was pushed is what was popped followed by what is queued |
| BlockQueueCalls.EveryEnqueueStores | thread3/BlockQueue.hpp:30-46 | for any threads, schedule and wakeups: what a producer has added to the queue is, in order, the items of the Enqueue calls it has entered, less the one call that has not reached the queue; so every call that returned, waiting or not, has stored its item |
| BlockQueueCalls.EveryPopTakes | thread3/BlockQueue.hpp:48-63 | likewise every call of pop that has returned has taken exactly one value |
| BlockQueueLimits.TwoConsumersUnderflow | thread3/BlockQueue.hpp:51-58 | with two consumers a run reaches a pop of the empty queue |
| BlockQueueLimits.TwoProducersOverflow | thread3/BlockQueue.hpp:34-41 | with two producers a run reaches cap + 1 items |
| BlockQueueLimits.SpuriousUnderflow | thread3/BlockQueue.hpp:51-58 | with one consumer and a spurious wakeup a run reaches a pop of the empty queue |
| BlockQueueLimits.SpuriousOverflow | thread3/BlockQueue.hpp:34-41 | with one producer and a spurious wakeup a run reaches cap + 1 items |
| BlockQueueLimits.TwoProducersGrow | thread3/BlockQueue.hpp:34 | because the guard compares with ==, with two producers and a consumer runs reach every size above cap |
| BlockQueueLimits.SpuriousGrow | thread3/BlockQueue.hpp:34 | so they do with one producer and one spurious wakeup |
| BlockQueueLimits.SafeIff | thread3/Main.cc:77-86 | for which numbers of producers and consumers every interleaving is safe, in both directions, with and without spurious wakeups |
| Alternation.Program.Execute | thread1/Main.cc:11-59 | each statement of PrintA and PrintB on the shared variables has exactly the effect of the step function |
| Alternation.Program.Run | thread1/Main.cc:11-59 | a whole schedule in place reaches the state the lemmas speak of, and prints alternating lines |
| Alternation.StepKeeps | thread1/Main.cc:11-59 | every statement and every spurious wakeup keeps the invariant of the two threads |
| Alternation.PrintsAlternately | thread1/Main.cc:11-59 | for any TOTAL_ROUNDS the lines are a prefix of ABAB..., never both threads are in the wait set, and when both have exited exactly TOTAL_ROUNDS lines are out |
| Alternation.NeverStuck | thread1/Main.cc:15-31 | until both have exited one thread can execute its next statement |
| Alternation.RunsAreFinite | thread1/Main.cc:11-59 | at most 11 statements per line plus 18, and three more for each spurious wakeup |
| Alternation.CompleteRunsEnd | thread1/Main.cc:11-59 | a run carried on until no thread can move has both threads exited and exactly TOTAL_ROUNDS alternating lines, within 11 * TOTAL_ROUNDS + 18 moves when no wakeup is spurious |
| Connection.Connection.ReadData | Project_TCPServer_Plus/src/connection/Connection.cpp:23-61 | a closed connection is left alone; end of stream, a failed read or a failed reply closes it without a reply; otherwise it stays open and sends exactly the answer to the message |
| Connection.ReplyAnswers | Project_TCPServer_Plus/src/connection/Connection.cpp:42-60 | a message that spells one of the five words in any mix of cases, followed only by blanks up to its end or a NUL, gets that word's translation, and every other message the not-found text |
| Connection.SaysOne | Project_TCPServer_Plus/src/connection/Connection.cpp:42-48 | no message spells two different words, so the answer is unambiguous |
| Connection.Connection.SendData | Project_TCPServer_Plus/src/connection/Connection.cpp:64-75 | sends on an open connection, closes it when sending fails |
| Connection.Connection.CloseConnection | Project_TCPServer_Plus/src/connection/Connection.cpp:78-84 | closed afterwards, with nothing else changed |
| Reactor.SelectLoop.AddConnection | Project_TCPServer_Plus/src/reactor/SelectLoop.cpp:33-61 | appends the connection and keeps the descriptor set and the maximum covering the list; null is refused |
| Reactor.SelectLoop.Dispatch | Project_TCPServer_Plus/src/reactor/SelectLoop.cpp:113-128 | of whatever has arrived, the set and the maximum let every open connection through: each reads exactly once and no other changes |
| Reactor.PollLoop.AddConnection | Project_TCPServer_Plus/src/reactor/PollLoop.cpp:19-43 | appends to both lists in lockstep; null is refused |
| Reactor.PollLoop.Dispatch | Project_TCPServer_Plus/src/reactor/PollLoop.cpp:83-101 | the nested search serves exactly the connections that are first with their descriptor |
| Reactor.EpollLoop.AddConnection | Project_TCPServer_Plus/src/reactor/EpollLoop.cpp:31-56 | appends unless the connection is null, the instance invalid or the registration refused |
| Reactor.EpollLoop.Dispatch | Project_TCPServer_Plus/src/reactor/EpollLoop.cpp:98-116 | for any order of the event list exactly the open connections it lists read, once each |
| Reactor.EveryReadyIsRead | Project_TCPServer_Plus/src/reactor/SelectLoop.cpp:113-128 | open and ready is all it takes to be read in a pass of the select loop, and of the poll loop for the first connection of its descriptor |
| Reactor.EveryMessageAnswered | Project_TCPServer_Plus/src/reactor/SelectLoop.cpp:70-129 | over any number of passes an open connection answers every message, in order, and stays open, whatever happens on the others |
| Reactor.EveryFirstMessageAnswered | Project_TCPServer_Plus/src/reactor/PollLoop.cpp:52-102 | so does the poll loop for the first connection of its descriptor |
| Reactor.PollAgreesIff | Project_TCPServer_Plus/src/reactor/PollLoop.cpp:90-99 | poll does the same work as select and epoll if and only if no open, ready connection comes after a registered connection with the same descriptor |
| Reactor.EpollAgreesIff | Project_TCPServer_Plus/src/reactor/EpollLoop.cpp:98-116 | epoll does the same work as select if and only if every open, ready connection is in the event list |
| Reactor.ReuseMatters | Project_TCPServer_Plus/src/reactor/PollLoop.cpp:90-99 | a closed connection and its successor on the same descriptor: select serves the new one, poll does not |
| Reactor.DistinctAgree | Project_TCPServer_Plus/src/reactor/PollLoop.cpp:83-101 | with pairwise distinct descriptors the poll pass gives every connection the same status and replies as the pass of the select loop |
| Reactor.ReusedDescriptorStarves | Project_TCPServer_Plus/src/reactor/PollLoop.cpp:90-99 | a connection on a reused descriptor is never served by the poll loop, however many passes find it ready |

## Left out

- Capacity 0 of the ring and of the blocking queue; the models take a capacity of at least 1.
- sem_wait interrupted by a signal, and every pthread error code: the source ignores them.
- Integer widths: session times and timeouts, sleep counters, ring steps and TOTAL_ROUNDS are unbounded integers.
- Starting a pool again after Stop, a failing pthread_create, and the detach, cancel and status members of thread5/Thread.hpp.
- Logging, printing of task results, and terminal output other than the lines of thread1.
- Main's own Enqueue calls between Start and Stop: they are calls of a client thread, which can be scheduled at the same points.
- The thread3 and thread4 main programs loop for ever; the ring lemmas take any finite number of calls per thread, and the blocking-queue lemmas any finite schedule.
- Socket reading and writing in the HTTP handler, requests of 4096 bytes or more or with a NUL; the clock, the random digits and the login page are inputs.
- The session manager's mutex: requests are handled one at a time, as the accept loop does.
- Characters stand for bytes in the HTTP server; UTF-8 is not modelled.
- Domain and path matching, replacement and expiry inside the user agent's cookie store; the agent keeps one cookie.
- HttpServer.HttpServer.HandleClient: returns the response as a value whose text is Render of it, because the handler writes that text to a socket.
- Reactor.SelectLoop.AddConnection: requires a descriptor below FD_SETSIZE, because FD_SET is undefined beyond it.
- Reactor.SelectLoop.Dispatch: requires that no connection pointer is registered twice; the source accepts a second registration, and a pass would then read that connection twice.
- Reactor.PollLoop.Dispatch: requires that a descriptor is registered again only after its connection is closed, because the system does not hand out a descriptor that is still open.
- Reactor.EpollLoop.Dispatch: takes the event list as given, each connection at most once and at most 1024 entries; epoll_ctl refuses a second registration of an open descriptor.
- What the system does with descriptors of closed sockets, and the lifetime of connection objects in Project_TCPServer_Plus/src/main.cpp.
- The raw socket, pipe, shared-memory and signal programs, the loggers and the empty serialisers: no algorithm to prove.
