/** thread1/Main.cc: two threads that print in turn, with one mutex and one condition
    variable. TOTAL_ROUNDS is any number. */
module Alternation {
  import opened Sync

  datatype Name = A | B

  function Other(x: Name): Name { if x == A then B else A }

  /** The statement a thread is about to execute. `Asleep` lasts until it has left the wait
      set and re-acquired the mutex; `LastSignal` and `LastUnlock` precede `break`. */
  datatype At =
    | Lock | Test | Wait | Asleep | Decide | Print | Count | Flip | Signal | Unlock
    | LastSignal | LastUnlock | Exited

  /** The globals, and what has been printed. */
  datatype Globals = Globals(
    total: nat,
    turn: Name,
    round: nat,
    lk: Option<Name>,
    cv: set<Name>,
    lines: seq<Name>)

  /** pthread_cond_signal: which waiter wakes is not up to the caller. */
  function Signalled(waiters: set<Name>, choice: Name): Option<set<Name>> {
    if waiters == {} || choice in waiters then Some(waiters - {choice}) else None
  }

  function Statement(g: Globals, me: Name, at: At, choice: Name): Outcome<(Globals, At)> {
    match at
    case Lock => if g.lk == None then Moved((g.(lk := Some(me)), Test)) else Blocked
    case Test => Moved((g, if g.turn != me && g.round < g.total then Wait else Decide))
    case Wait => Moved((g.(lk := None, cv := g.cv + {me}), Asleep))
    case Asleep => if me !in g.cv && g.lk == None then Moved((g.(lk := Some(me)), Test)) else Blocked
    case Decide => Moved((g, if g.round >= g.total then LastSignal else Print))
    case Print => Moved((g.(lines := g.lines + [me]), Count))
    case Count => Moved((g.(round := g.round + 1), Flip))
    case Flip => Moved((g.(turn := Other(me)), Signal))
    case Signal => (match Signalled(g.cv, choice) case None => Blocked case Some(w) => Moved((g.(cv := w), Unlock)))
    case Unlock => Moved((g.(lk := None), Lock))
    case LastSignal => (match Signalled(g.cv, choice) case None => Blocked case Some(w) => Moved((g.(cv := w), LastUnlock)))
    case LastUnlock => Moved((g.(lk := None), Exited))
    case Exited => Blocked
  }

  /** The globals of the program, and the two thread functions executed statement by statement. */
  class Program {
    const totalRounds: nat
    var isATurn: bool
    var printRound: nat
    var lk: Option<Name>
    var cv: set<Name>
    ghost var lines: seq<Name>
    var a: At
    var b: At

    ghost function View(): System
      reads this
    {
      System(Globals(totalRounds, if isATurn then A else B, printRound, lk, cv, lines), a, b)
    }

    constructor (totalRounds: nat)
      ensures View() == Begin(totalRounds)
    {
      this.totalRounds := totalRounds;
      isATurn, printRound := true, 0;
      lk, cv := None, {};
      lines := [];
      a, b := Lock, Lock;
    }

    method Execute(me: Name, at: At, choice: Name) returns (passed: bool, next: At)
      modifies `isATurn, `printRound, `lk, `cv, `lines
      ensures var r := Statement(old(View()).g, me, at, choice);
              passed == r.Moved? && (if passed then r == Moved((View().g, next)) else View().g == old(View()).g)
    {
      passed, next := true, at;
      match at
      case Lock =>
        passed, next := lk == None, Test;
        if passed {
          lk := Some(me);
        }
      case Test => next := if isATurn != (me == A) && printRound < totalRounds then Wait else Decide;
      case Wait =>
        cv := cv + {me};
        lk := None;
        next := Asleep;
      case Asleep =>
        passed, next := me !in cv && lk == None, Test;
        if passed {
          lk := Some(me);
        }
      case Decide => next := if printRound >= totalRounds then LastSignal else Print;
      case Print =>
        lines := lines + [me];
        next := Count;
      case Count =>
        printRound := printRound + 1;
        next := Flip;
      case Flip =>
        isATurn := me == B;
        next := Signal;
      case Signal =>
        passed, next := cv == {} || choice in cv, Unlock;
        if passed {
          cv := cv - {choice};
        }
      case Unlock =>
        lk := None;
        next := Lock;
      case LastSignal =>
        passed, next := cv == {} || choice in cv, LastUnlock;
        if passed {
          cv := cv - {choice};
        }
      case LastUnlock =>
        lk := None;
        next := Exited;
      case Exited => passed := false;
    }

    /** A whole interleaving: it prints a prefix of ABAB..., and all of it once both threads
        have exited. */
    method Run(schedule: seq<Action>)
      requires View() == Begin(totalRounds)
      modifies this
      ensures View() == Exec(Begin(totalRounds), schedule)
      ensures |lines| <= totalRounds && lines == Alternating(|lines|)
      ensures a == Exited && b == Exited ==> lines == Alternating(totalRounds)
    {
      for i := 0 to |schedule|
        invariant View() == Exec(Begin(totalRounds), schedule[..i])
      {
        assert schedule[..i + 1][..i] == schedule[..i];
        match schedule[i] {
          case Spurious(x) => cv := cv - {x};
          case Go(x, choice) =>
            var passed, next := Execute(x, if x == A then a else b, choice);
            if passed && x == A {
              a := next;
            } else if passed {
              b := next;
            }
        }
      }
      assert schedule[..|schedule|] == schedule;
      PrintsAlternately(totalRounds, schedule);
    }
  }

  // ---------------------------------------------------------------- runs

  datatype System = System(g: Globals, a: At, b: At)

  function Begin(total: nat): System { System(Globals(total, A, 0, None, {}, []), Lock, Lock) }

  function AtOf(s: System, x: Name): At { if x == A then s.a else s.b }

  datatype Action = Go(x: Name, choice: Name) | Spurious(x: Name)

  function Step(s: System, action: Action): Outcome<System> {
    match action
    case Spurious(x) => if x in s.g.cv then Moved(s.(g := s.g.(cv := s.g.cv - {x}))) else Blocked
    case Go(x, choice) =>
      match Statement(s.g, x, AtOf(s, x), choice)
      case Blocked => Blocked
      case Crash => Crash
      case Moved((g, next)) => Moved(if x == A then System(g, next, s.b) else System(g, s.a, next))
  }

  function Exec(s: System, schedule: seq<Action>): System
    decreases |schedule|
  {
    if schedule == [] then s
    else
      var s' := Exec(s, schedule[..|schedule| - 1]);
      match Step(s', schedule[|schedule| - 1])
      case Moved(s'') => s''
      case _ => s'
  }

  /** ABAB..., n lines. */
  function Alternating(n: nat): (r: seq<Name>)
    ensures |r| == n
  {
    seq(n, i requires 0 <= i < n => if i % 2 == 0 then A else B)
  }

  // ---------------------------------------------------------------- invariant

  predicate Holds(at: At) { at != Lock && at != Asleep && at != Exited }

  predicate Over(at: At) { at == LastSignal || at == LastUnlock || at == Exited }

  /** Whose turn it is after n rounds. */
  function TurnAfter(n: nat): Name { if n % 2 == 0 then A else B }

  predicate Anyone(s: System, at: At) { s.a == at || s.b == at }

  ghost predicate ThreadInv(s: System, x: Name) {
    var at, other := AtOf(s, x), AtOf(s, Other(x));
    && (Holds(at) <==> s.g.lk == Some(x))
    && (x in s.g.cv ==> at == Asleep)
    && (at == Wait ==> s.g.turn != x && s.g.round < s.g.total)
    && (at == Decide ==> s.g.turn == x || s.g.round >= s.g.total)
    && (at == Print || at == Count ==> s.g.turn == x && s.g.round < s.g.total)
    && (at == Flip ==> s.g.turn == x && s.g.round >= 1)
    && (Over(at) ==> s.g.round >= s.g.total)
    && (x in s.g.cv ==> (s.g.turn != x && s.g.round < s.g.total) || other == Flip || other == Signal || other == LastSignal)
  }

  /** The lines printed, given whether a thread has printed but not counted, or has counted
      but not yet passed the turn on. */
  ghost predicate LinesFit(g: Globals, counting: bool, flipping: bool) {
    && g.round <= g.total
    && |g.lines| == g.round + (if counting then 1 else 0)
    && g.lines == Alternating(|g.lines|)
    && (flipping ==> g.round >= 1)
    && g.turn == TurnAfter(if flipping && g.round >= 1 then g.round - 1 else g.round)
  }

  ghost predicate LinesInv(s: System) {
    LinesFit(s.g, Anyone(s, Count), Anyone(s, Flip))
  }

  ghost predicate Inv(s: System) { ThreadInv(s, A) && ThreadInv(s, B) && LinesInv(s) }

  lemma GoShape(s: System, x: Name, choice: Name)
    requires Step(s, Go(x, choice)).Moved?
    ensures var r, st := Step(s, Go(x, choice)).next, Statement(s.g, x, AtOf(s, x), choice);
            && st == Moved((r.g, AtOf(r, x)))
            && AtOf(r, Other(x)) == AtOf(s, Other(x)) && r.g.total == s.g.total
  {
  }

  lemma AnyoneIs(s: System, x: Name, at: At)
    ensures Anyone(s, at) <==> AtOf(s, x) == at || AtOf(s, Other(x)) == at
  {
  }

  /** The thread that moved. */
  lemma MoverKept(s: System, x: Name, choice: Name)
    requires Inv(s) && Step(s, Go(x, choice)).Moved?
    ensures ThreadInv(Step(s, Go(x, choice)).next, x)
  {
    hide Step;
    assert ThreadInv(s, x) && ThreadInv(s, Other(x));
    GoShape(s, x, choice);
  }

  /** The other one. */
  lemma OtherKept(s: System, x: Name, choice: Name)
    requires Inv(s) && Step(s, Go(x, choice)).Moved?
    ensures ThreadInv(Step(s, Go(x, choice)).next, Other(x))
  {
    hide Step;
    var y := Other(x);
    assert ThreadInv(s, x) && ThreadInv(s, y);
    GoShape(s, x, choice);
    if y in s.g.cv && (AtOf(s, x) == Signal || AtOf(s, x) == LastSignal) {
      assert choice == y;
    }
  }

  /** Only the holder of the mutex, or a thread that takes it when it is free, can move. */
  lemma OtherIsOutside(s: System, x: Name, choice: Name)
    requires Inv(s) && Step(s, Go(x, choice)).Moved?
    ensures !Holds(AtOf(s, Other(x)))
  {
    assert ThreadInv(s, x) && ThreadInv(s, Other(x));
  }

  lemma PrintFits(g: Globals, me: Name)
    requires LinesFit(g, false, false) && g.turn == me && g.round < g.total
    ensures LinesFit(g.(lines := g.lines + [me]), true, false)
  {
    hide Alternating;
    AlternatingMore(|g.lines|);
  }

  lemma StatementFits(g: Globals, me: Name, at: At, choice: Name)
    requires LinesFit(g, at == Count, at == Flip) && Statement(g, me, at, choice).Moved?
    requires at == Print || at == Count ==> g.turn == me && g.round < g.total
    requires at == Flip ==> g.turn == me
    ensures var (g', next) := Statement(g, me, at, choice).next; LinesFit(g', next == Count, next == Flip)
  {
    if at == Print {
      PrintFits(g, me);
    }
  }

  lemma LinesKept(s: System, x: Name, choice: Name)
    requires Inv(s) && Step(s, Go(x, choice)).Moved?
    ensures LinesInv(Step(s, Go(x, choice)).next)
  {
    hide Step, Statement, LinesFit, Anyone;
    var r := Step(s, Go(x, choice)).next;
    assert ThreadInv(s, x);
    GoShape(s, x, choice);
    OtherIsOutside(s, x, choice);
    AnyoneIs(s, x, Count);
    AnyoneIs(s, x, Flip);
    AnyoneIs(r, x, Count);
    AnyoneIs(r, x, Flip);
    StatementFits(s.g, x, AtOf(s, x), choice);
  }

  lemma AlternatingMore(n: nat)
    ensures Alternating(n + 1) == Alternating(n) + [TurnAfter(n)]
  {
  }

  lemma SpuriousKept(s: System, x: Name)
    requires Inv(s) && Step(s, Spurious(x)).Moved?
    ensures Inv(Step(s, Spurious(x)).next)
  {
    assert ThreadInv(s, A) && ThreadInv(s, B);
  }

  lemma StepKeeps(s: System, action: Action)
    requires Inv(s)
    ensures Step(s, action) != Crash
    ensures Step(s, action).Moved? ==> Inv(Step(s, action).next) && Step(s, action).next.g.total == s.g.total
  {
    if Step(s, action).Moved? {
      match action
      case Go(x, choice) =>
        MoverKept(s, x, choice);
        OtherKept(s, x, choice);
        LinesKept(s, x, choice);
        GoShape(s, x, choice);
      case Spurious(x) => SpuriousKept(s, x);
    }
  }

  lemma {:induction false} ExecInv(total: nat, schedule: seq<Action>)
    ensures Inv(Exec(Begin(total), schedule)) && Exec(Begin(total), schedule).g.total == total
    decreases |schedule|
  {
    if schedule != [] {
      hide Inv, Step;
      var before := schedule[..|schedule| - 1];
      ExecInv(total, before);
      StepKeeps(Exec(Begin(total), before), schedule[|schedule| - 1]);
    }
  }

  /** In every interleaving, spurious wakeups included, the lines printed are a prefix of
      ABAB..., the two threads are never in the wait set together, and once both have exited
      exactly TOTAL_ROUNDS lines are out. */
  lemma PrintsAlternately(total: nat, schedule: seq<Action>)
    ensures var r := Exec(Begin(total), schedule);
            && |r.g.lines| <= total && r.g.lines == Alternating(|r.g.lines|)
            && r.g.cv != {A, B}
            && (r.a == Exited && r.b == Exited ==> r.g.lines == Alternating(total))
  {
    ExecInv(total, schedule);
    var r := Exec(Begin(total), schedule);
    assert ThreadInv(r, A) && ThreadInv(r, B);
  }

  // ---------------------------------------------------------------- progress

  /** Until both threads have exited one of them can execute its next statement. */
  lemma NeverStuck(total: nat, schedule: seq<Action>) returns (x: Name, choice: Name)
    ensures var r := Exec(Begin(total), schedule);
            (r.a == Exited && r.b == Exited) || Step(r, Go(x, choice)).Moved?
  {
    ExecInv(total, schedule);
    x, choice := SomeoneMoves(Exec(Begin(total), schedule));
  }

  lemma SomeoneMoves(s: System) returns (x: Name, choice: Name)
    requires Inv(s)
    ensures (s.a == Exited && s.b == Exited) || Step(s, Go(x, choice)).Moved?
  {
    assert ThreadInv(s, A) && ThreadInv(s, B);
    choice := if A in s.g.cv then A else B;
    if s.g.cv != {} {
      var y :| y in s.g.cv;
      assert y == A || y == B;
    }
    match s.g.lk
    case Some(y) => x := y;
    case None => x := if Step(s, Go(A, choice)).Moved? then A else B;
  }

  /** Statements a thread can execute before it waits or exits, given that each line printed
      pays for a round and each signal for one wakeup. */
  function Rank(at: At, waits: bool): nat {
    match at
    case Exited => 0
    case LastUnlock => 1
    case LastSignal => 6
    case Print => 6
    case Decide => 7
    case Wait => 7
    case Test => 8
    case Asleep => if waits then 6 else 9
    case Lock => 9
    case Unlock => 10
    case Signal => 14
    case Flip => 15
    case Count => 16
  }

  function LinesLeft(g: Globals): nat {
    if |g.lines| <= g.total then 11 * (g.total - |g.lines|) else 0
  }

  function Work(s: System): nat {
    Rank(s.a, A in s.g.cv) + Rank(s.b, B in s.g.cv) + LinesLeft(s.g)
  }

  lemma StatementShrinks(g: Globals, me: Name, at: At, other: At, choice: Name)
    requires Statement(g, me, at, choice).Moved?
    requires at == Print ==> |g.lines| < g.total
    requires (me in g.cv ==> at == Asleep) && (Other(me) in g.cv ==> other == Asleep)
    ensures var (g', next) := Statement(g, me, at, choice).next;
            Rank(next, me in g'.cv) + Rank(other, Other(me) in g'.cv) + LinesLeft(g')
            < Rank(at, me in g.cv) + Rank(other, Other(me) in g.cv) + LinesLeft(g)
  {
  }

  lemma MoveShrinks(s: System, action: Action)
    requires Inv(s) && Step(s, action).Moved?
    ensures var r := Step(s, action).next;
            if action.Spurious? then Work(r) <= Work(s) + 3 else Work(r) < Work(s)
  {
    hide Rank, Statement, LinesLeft, Alternating;
    assert ThreadInv(s, A) && ThreadInv(s, B);
    match action
    case Go(x, choice) =>
      OtherIsOutside(s, x, choice);
      StatementShrinks(s.g, x, AtOf(s, x), AtOf(s, Other(x)), choice);
    case Spurious(x) =>
      WakeCosts(s, x);
  }

  lemma WakeCosts(s: System, x: Name)
    requires Inv(s) && Step(s, Spurious(x)).Moved?
    ensures Work(Step(s, Spurious(x)).next) <= Work(s) + 3
  {
    assert ThreadInv(s, A) && ThreadInv(s, B);
  }

  function Moves(s: System, schedule: seq<Action>, spurious: bool): nat
    decreases |schedule|
  {
    if schedule == [] then 0
    else
      var before, last := schedule[..|schedule| - 1], schedule[|schedule| - 1];
      Moves(s, before, spurious) + if Step(Exec(s, before), last).Moved? && last.Spurious? == spurious then 1 else 0
  }

  /** Every run is finite: at most 11 statements per line plus 18, and three more for each
      spurious wakeup. */
  lemma {:induction false} RunsAreFinite(total: nat, schedule: seq<Action>)
    ensures Moves(Begin(total), schedule, false) + Work(Exec(Begin(total), schedule))
            <= 11 * total + 18 + 3 * Moves(Begin(total), schedule, true)
    decreases |schedule|
  {
    if schedule != [] {
      var before, last := schedule[..|schedule| - 1], schedule[|schedule| - 1];
      RunsAreFinite(total, before);
      ExecInv(total, before);
      if Step(Exec(Begin(total), before), last).Moved? {
        MoveShrinks(Exec(Begin(total), before), last);
      }
    }
  }

  /** A run that is carried on until no thread can move has ended with both threads exited and
      exactly TOTAL_ROUNDS alternating lines; without spurious wakeups it has taken at most
      11 * TOTAL_ROUNDS + 18 moves. */
  lemma CompleteRunsEnd(total: nat, schedule: seq<Action>)
    requires forall x: Name, choice: Name :: !Step(Exec(Begin(total), schedule), Go(x, choice)).Moved?
    ensures var r := Exec(Begin(total), schedule);
            && r.a == Exited && r.b == Exited && r.g.lines == Alternating(total)
    ensures Moves(Begin(total), schedule, true) == 0 ==> Moves(Begin(total), schedule, false) <= 11 * total + 18
  {
    hide Step, Alternating;
    var x, choice := NeverStuck(total, schedule);
    assert !Step(Exec(Begin(total), schedule), Go(x, choice)).Moved?;
    PrintsAlternately(total, schedule);
    RunsAreFinite(total, schedule);
  }
}
