/** The executor of one instruction: starting calls, connecting pipes, waiting for exit codes.
    Exit codes come from outside; descriptors are fresh numbers. */
module ShellExecutor {
  import opened ShellCalls

  /** What the executor does to the outside world. */
  datatype Event =
    | MadePipe(r: nat, w: nat)
    | Ran(i: nat, infd: nat, outfd: nat)
    | Closed(fd: nat)
    | Waited(i: nat)

  datatype Exec = Exec(items: seq<Item>, active: seq<nat>, fds: seq<(nat, nat)>, log: seq<Event>, nextFd: nat, code: int)

  type Exits = nat -> int

  // ---------------------------------------------------------------- one round of the loop

  /** The test of the switch: is call i started? */
  predicate Starts(before: Link, code: int)
  {
    match before
    case First => true
    case And => code == 0
    case Or => code != 0
    case Pipe => true
    case Last => false
  }

  /** close_descriptors: both ends of every open pipe, oldest first. */
  function CloseAll(fds: seq<(nat, nat)>): seq<Event>
  {
    if fds == [] then [] else [Closed(fds[0].0), Closed(fds[0].1)] + CloseAll(fds[1..])
  }

  /** wait_active_calls: the started calls in order. */
  function WaitAll(active: seq<nat>): seq<Event>
  {
    if active == [] then [] else [Waited(active[0])] + WaitAll(active[1..])
  }

  function LastExit(active: seq<nat>, exits: Exits): int
  {
    if active == [] then 0 else exits(active[|active| - 1])
  }

  /** Reading end for a call behind a pipe. */
  function WithInput(x: Exec, i: nat): (y: Exec)
    requires i < |x.items|
    ensures |y.items| == |x.items|
  {
    if x.items[i].before.Pipe? && x.fds != [] then
      x.(items := x.items[i := x.items[i].(call := x.items[i].call.(infd := x.fds[|x.fds| - 1].0))])
    else x
  }

  /** A new pipe for a call in front of one. */
  function WithOutput(x: Exec, i: nat): (y: Exec)
    requires i < |x.items|
    ensures |y.items| == |x.items|
  {
    if x.items[i].after.Pipe? then
      x.(items := x.items[i := x.items[i].(call := x.items[i].call.(outfd := x.nextFd + 1))],
         fds := x.fds + [(x.nextFd, x.nextFd + 1)], log := x.log + [MadePipe(x.nextFd, x.nextFd + 1)],
         nextFd := x.nextFd + 2)
    else x
  }

  function Started(x: Exec, i: nat): Exec
    requires i < |x.items|
  {
    x.(log := x.log + [Ran(i, x.items[i].call.infd, x.items[i].call.outfd)], active := x.active + [i])
  }

  function Finished(x: Exec, exits: Exits): Exec
  {
    x.(log := x.log + CloseAll(x.fds) + WaitAll(x.active), fds := [], active := [], code := LastExit(x.active, exits))
  }

  function Round(x: Exec, exits: Exits, i: nat): (y: Exec)
    requires i < |x.items|
    ensures |y.items| == |x.items|
  {
    var y := WithOutput(WithInput(x, i), i);
    if !Starts(x.items[i].before, x.code) then y
    else if x.items[i].after.Pipe? then Started(y, i)
    else Finished(Started(y, i), exits)
  }

  /** The state after the first n rounds. */
  function Rounds(x: Exec, exits: Exits, n: nat): (y: Exec)
    requires n <= |x.items|
    ensures |y.items| == |x.items|
  {
    if n == 0 then x else Round(Rounds(x, exits, n - 1), exits, n - 1)
  }

  function Begin(items: seq<Item>, nextFd: nat): Exec { Exec(items, [], [], [], nextFd, 0) }

  function Executed(items: seq<Item>, exits: Exits, nextFd: nat): Exec
  {
    Rounds(Begin(items, nextFd), exits, |items|)
  }

  // ---------------------------------------------------------------- left-to-right evaluation

  datatype Outcome = Outcome(code: int, started: seq<nat>)

  /** Equal priority, left to right: && runs its right side on code 0, || on any other code, a pipe
      and ; always; the code of the whole is that of the last call that ran. */
  function Fold(items: seq<Item>, exits: Exits, n: nat): Outcome
    requires n <= |items|
  {
    if n == 0 then Outcome(0, [])
    else
      var o := Fold(items, exits, n - 1);
      var runs := match items[n - 1].before
        case First => true
        case And => o.code == 0
        case Or => o.code != 0
        case Pipe => true
        case Last => false;
      if runs then Outcome(exits(n - 1), o.started + [n - 1]) else o
  }

  /** The calls a log starts, in order. */
  function RunsOf(log: seq<Event>): seq<nat>
  {
    if log == [] then []
    else RunsOf(log[..|log| - 1]) + if log[|log| - 1].Ran? then [log[|log| - 1].i] else []
  }

  lemma {:induction false} RunsConcat(a: seq<Event>, b: seq<Event>)
    ensures RunsOf(a + b) == RunsOf(a) + RunsOf(b)
  {
    if b == [] {
      assert a + b == a;
    } else {
      assert (a + b)[..|a + b| - 1] == a + b[..|b| - 1];
      RunsConcat(a, b[..|b| - 1]);
    }
  }

  lemma {:induction false} NoRuns(log: seq<Event>)
    requires forall k | 0 <= k < |log| :: !log[k].Ran?
    ensures RunsOf(log) == []
  {
    if log != [] { NoRuns(log[..|log| - 1]); }
  }

  lemma {:induction false} CloseEvents(fds: seq<(nat, nat)>)
    ensures forall k | 0 <= k < |CloseAll(fds)| :: CloseAll(fds)[k].Closed?
  {
    if fds != [] { CloseEvents(fds[1..]); }
  }

  lemma {:induction false} WaitEvents(active: seq<nat>)
    ensures forall k | 0 <= k < |WaitAll(active)| :: WaitAll(active)[k].Waited?
  {
    if active != [] { WaitEvents(active[1..]); }
  }

  lemma FinishRuns(x: Exec, exits: Exits)
    ensures RunsOf(Finished(x, exits).log) == RunsOf(x.log)
  {
    RunsConcat(x.log + CloseAll(x.fds), WaitAll(x.active));
    RunsConcat(x.log, CloseAll(x.fds));
    CloseEvents(x.fds);
    WaitEvents(x.active);
    NoRuns(CloseAll(x.fds));
    NoRuns(WaitAll(x.active));
  }

  /** Only the descriptors of an item ever change. */
  lemma {:induction false} OperatorsStay(x: Exec, exits: Exits, n: nat)
    requires n <= |x.items|
    ensures forall i | 0 <= i < |x.items| ::
              Rounds(x, exits, n).items[i].before == x.items[i].before && Rounds(x, exits, n).items[i].after == x.items[i].after
  {
    hide Round;
    if n > 0 {
      OperatorsStay(x, exits, n - 1);
      RoundStays(Rounds(x, exits, n - 1), exits, n - 1);
    }
  }

  lemma RoundStays(x: Exec, exits: Exits, n: nat)
    requires n < |x.items|
    ensures forall i | 0 <= i < |x.items| ::
              Round(x, exits, n).items[i].before == x.items[i].before && Round(x, exits, n).items[i].after == x.items[i].after
  {
  }

  /** The round before n left a pipe open for call n. */
  predicate AfterPipe(items: seq<Item>, n: nat)
    requires n <= |items|
  {
    n > 0 && items[n - 1].after.Pipe?
  }

  lemma RoundRuns(x: Exec, exits: Exits, i: nat)
    requires i < |x.items|
    ensures RunsOf(Round(x, exits, i).log) == RunsOf(x.log) + if Starts(x.items[i].before, x.code) then [i] else []
  {
    var y := WithOutput(WithInput(x, i), i);
    RunsConcat(x.log, [MadePipe(x.nextFd, x.nextFd + 1)]);
    NoRuns([MadePipe(x.nextFd, x.nextFd + 1)]);
    assert RunsOf(y.log) == RunsOf(x.log);
    var e := Ran(i, y.items[i].call.infd, y.items[i].call.outfd);
    RunsConcat(y.log, [e]);
    assert RunsOf([e]) == [i] by { assert [e][..0] == []; }
    FinishRuns(Started(y, i), exits);
  }

  /** After n rounds the calls started are those of the left fold, and so is the code, except in the
      middle of a pipeline, where it is not looked at. */
  lemma {:induction false} FoldRounds(items: seq<Item>, exits: Exits, nextFd: nat, n: nat)
    requires Linked(items) && n <= |items|
    ensures RunsOf(Rounds(Begin(items, nextFd), exits, n).log) == Fold(items, exits, n).started
    ensures !AfterPipe(items, n) ==> Rounds(Begin(items, nextFd), exits, n).code == Fold(items, exits, n).code
  {
    if n > 0 {
      var x := Rounds(Begin(items, nextFd), exits, n - 1);
      FoldRounds(items, exits, nextFd, n - 1);
      OperatorsStay(Begin(items, nextFd), exits, n - 1);
      RoundRuns(x, exits, n - 1);
    }
  }

  /** The executor is left-to-right evaluation: for every linked list of calls that does not end in
      a pipe and whatever the exit codes, it starts exactly the calls of the fold, in that order, and
      returns the code of the fold. */
  lemma {:induction false} ExecutesLeftToRight(items: seq<Item>, exits: Exits, nextFd: nat)
    requires Linked(items) && !AfterPipe(items, |items|)
    ensures RunsOf(Executed(items, exits, nextFd).log) == Fold(items, exits, |items|).started
    ensures Executed(items, exits, nextFd).code == Fold(items, exits, |items|).code
  {
    FoldRounds(items, exits, nextFd, |items|);
  }

  lemma {:induction false} FoldStarts(items: seq<Item>, exits: Exits, n: nat, m: nat)
    requires n < |items| && m <= |items|
    ensures n in Fold(items, exits, m).started <==>
            n < m && match items[n].before
                     case First => true
                     case And => Fold(items, exits, n).code == 0
                     case Or => Fold(items, exits, n).code != 0
                     case Pipe => true
                     case Last => false
  {
    if m > 0 { FoldStarts(items, exits, n, m - 1); }
  }

  /** Which calls are started, call by call: behind && one runs if the code so far is 0, behind || if it
      is not, behind a pipe and at the beginning of a list always. */
  lemma StartsExactly(items: seq<Item>, exits: Exits, nextFd: nat, n: nat)
    requires Linked(items) && n < |items|
    ensures var code := Rounds(Begin(items, nextFd), exits, n).code;
            n in RunsOf(Executed(items, exits, nextFd).log) <==>
            match items[n].before
            case First => true
            case And => code == 0
            case Or => code != 0
            case Pipe => true
            case Last => false
  {
    FoldRounds(items, exits, nextFd, |items|);
    FoldRounds(items, exits, nextFd, n);
    FoldStarts(items, exits, n, |items|);
  }

  // ---------------------------------------------------------------- pipes

  /** Outside a pipeline nothing is open and nobody waits to be waited for. */
  lemma {:induction false} Settled(items: seq<Item>, exits: Exits, nextFd: nat, n: nat)
    requires Linked(items) && n <= |items|
    ensures var x := Rounds(Begin(items, nextFd), exits, n);
            if AfterPipe(items, n) then x.fds != [] else x.fds == [] && x.active == []
  {
    if n > 0 {
      Settled(items, exits, nextFd, n - 1);
      OperatorsStay(Begin(items, nextFd), exits, n - 1);
    }
  }

  /** No descriptor and no process is left over, even when a piped call was skipped by && or ||,
      exactly when the list does not end in a pipe. */
  lemma NothingLeftExactly(items: seq<Item>, exits: Exits, nextFd: nat)
    requires Linked(items)
    ensures var x := Executed(items, exits, nextFd);
            x.fds == [] && x.active == [] <==> !AfterPipe(items, |items|)
  {
    Settled(items, exits, nextFd, |items|);
  }

  /** Ends of pipes made and descriptors closed in a log. */
  function Made(log: seq<Event>): multiset<nat>
  {
    if log == [] then multiset{}
    else Made(log[..|log| - 1]) + match log[|log| - 1]
                                  case MadePipe(r, w) => multiset{r, w}
                                  case _ => multiset{}
  }

  function ClosedIn(log: seq<Event>): multiset<nat>
  {
    if log == [] then multiset{}
    else ClosedIn(log[..|log| - 1]) + match log[|log| - 1]
                                      case Closed(fd) => multiset{fd}
                                      case _ => multiset{}
  }

  function WaitedIn(log: seq<Event>): multiset<nat>
  {
    if log == [] then multiset{}
    else WaitedIn(log[..|log| - 1]) + match log[|log| - 1]
                                      case Waited(i) => multiset{i}
                                      case _ => multiset{}
  }

  function Ends(fds: seq<(nat, nat)>): multiset<nat>
  {
    if fds == [] then multiset{} else multiset{fds[0].0, fds[0].1} + Ends(fds[1..])
  }

  lemma {:induction false} EndsSnoc(fds: seq<(nat, nat)>, f: (nat, nat))
    ensures Ends(fds + [f]) == Ends(fds) + multiset{f.0, f.1}
  {
    if fds == [] {
      assert fds + [f] == [f];
    } else {
      assert (fds + [f])[1..] == fds[1..] + [f];
      EndsSnoc(fds[1..], f);
    }
  }

  lemma {:induction false} CountsConcat(a: seq<Event>, b: seq<Event>)
    ensures Made(a + b) == Made(a) + Made(b) && ClosedIn(a + b) == ClosedIn(a) + ClosedIn(b)
    ensures WaitedIn(a + b) == WaitedIn(a) + WaitedIn(b)
  {
    if b == [] {
      assert a + b == a;
    } else {
      assert (a + b)[..|a + b| - 1] == a + b[..|b| - 1];
      CountsConcat(a, b[..|b| - 1]);
    }
  }

  lemma OneEvent(e: Event)
    ensures Made([e]) == match e case MadePipe(r, w) => multiset{r, w} case _ => multiset{}
    ensures ClosedIn([e]) == match e case Closed(fd) => multiset{fd} case _ => multiset{}
    ensures WaitedIn([e]) == match e case Waited(i) => multiset{i} case _ => multiset{}
    ensures RunsOf([e]) == if e.Ran? then [e.i] else []
  {
    assert [e][..0] == [];
  }

  lemma PairCounts(r: nat, w: nat)
    ensures ClosedIn([Closed(r), Closed(w)]) == multiset{r, w}
    ensures Made([Closed(r), Closed(w)]) == multiset{} && WaitedIn([Closed(r), Closed(w)]) == multiset{}
  {
    hide Made, ClosedIn, WaitedIn, RunsOf;
    OneEvent(Closed(r));
    OneEvent(Closed(w));
    CountsConcat([Closed(r)], [Closed(w)]);
    assert [Closed(r)] + [Closed(w)] == [Closed(r), Closed(w)];
  }

  lemma {:induction false} CloseCounts(fds: seq<(nat, nat)>)
    ensures ClosedIn(CloseAll(fds)) == Ends(fds) && Made(CloseAll(fds)) == multiset{} && WaitedIn(CloseAll(fds)) == multiset{}
  {
    if fds != [] {
      CloseStep(fds);
      CloseCounts(fds[1..]);
    }
  }

  lemma CloseStep(fds: seq<(nat, nat)>)
    requires fds != []
    ensures ClosedIn(CloseAll(fds)) == multiset{fds[0].0, fds[0].1} + ClosedIn(CloseAll(fds[1..]))
    ensures Made(CloseAll(fds)) == Made(CloseAll(fds[1..])) && WaitedIn(CloseAll(fds)) == WaitedIn(CloseAll(fds[1..]))
  {
    hide Made, ClosedIn, WaitedIn;
    CountsConcat([Closed(fds[0].0), Closed(fds[0].1)], CloseAll(fds[1..]));
    PairCounts(fds[0].0, fds[0].1);
  }

  lemma {:induction false} WaitCounts(active: seq<nat>)
    ensures WaitedIn(WaitAll(active)) == multiset(active)
    ensures Made(WaitAll(active)) == multiset{} && ClosedIn(WaitAll(active)) == multiset{}
  {
    if active != [] {
      var first, rest := [Waited(active[0])], WaitAll(active[1..]);
      assert WaitAll(active) == first + rest;
      hide Made, ClosedIn, WaitedIn, RunsOf, WaitAll;
      CountsConcat(first, rest);
      OneEvent(Waited(active[0]));
      WaitCounts(active[1..]);
      FirstCounted(active);
    }
  }

  lemma FirstCounted(active: seq<nat>)
    requires active != []
    ensures multiset(active) == multiset{active[0]} + multiset(active[1..])
  {
    assert active == [active[0]] + active[1..];
  }

  /** What was made and not closed is open; what was started and not waited for is active; every
      descriptor number was handed out once. */
  ghost predicate Balanced(x: Exec)
  {
    && Made(x.log) == ClosedIn(x.log) + Ends(x.fds)
    && multiset(RunsOf(x.log)) == WaitedIn(x.log) + multiset(x.active)
    && forall fd: nat :: Made(x.log)[fd] <= if fd < x.nextFd then 1 else 0
  }

  lemma Regroup(a: multiset<nat>, b: multiset<nat>, c: multiset<nat>, d: multiset<nat>)
    requires a == b + c
    ensures a + d == (b + multiset{}) + (c + d)
  {
  }

  lemma BalancedPipe(x: Exec)
    requires Balanced(x)
    ensures Balanced(x.(fds := x.fds + [(x.nextFd, x.nextFd + 1)], log := x.log + [MadePipe(x.nextFd, x.nextFd + 1)],
                        nextFd := x.nextFd + 2))
  {
    hide Made, ClosedIn, WaitedIn, RunsOf, Ends;
    var e := MadePipe(x.nextFd, x.nextFd + 1);
    CountsConcat(x.log, [e]);
    OneEvent(e);
    RunsConcat(x.log, [e]);
    EndsSnoc(x.fds, (x.nextFd, x.nextFd + 1));
    Regroup(Made(x.log), ClosedIn(x.log), Ends(x.fds), multiset{x.nextFd, x.nextFd + 1});
    assert RunsOf(x.log) + [] == RunsOf(x.log) && WaitedIn(x.log) + multiset{} == WaitedIn(x.log);
  }

  lemma BalancedItems(x: Exec, items: seq<Item>)
    requires Balanced(x)
    ensures Balanced(x.(items := items))
  {
  }

  lemma BalancedOutput(x: Exec, i: nat)
    requires Balanced(x) && i < |x.items|
    ensures Balanced(WithOutput(WithInput(x, i), i))
  {
    hide Balanced;
    var z := WithInput(x, i);
    BalancedItems(x, z.items);
    if z.items[i].after.Pipe? {
      BalancedPipe(z);
      BalancedItems(z.(fds := z.fds + [(z.nextFd, z.nextFd + 1)], log := z.log + [MadePipe(z.nextFd, z.nextFd + 1)],
                       nextFd := z.nextFd + 2), WithOutput(z, i).items);
    }
  }

  lemma BalancedStart(x: Exec, i: nat)
    requires Balanced(x) && i < |x.items|
    ensures Balanced(Started(x, i))
  {
    hide Made, ClosedIn, WaitedIn, RunsOf, Ends;
    var e := Ran(i, x.items[i].call.infd, x.items[i].call.outfd);
    CountsConcat(x.log, [e]);
    OneEvent(e);
    RunsConcat(x.log, [e]);
    assert multiset(x.active + [i]) == multiset(x.active) + multiset{i};
    assert multiset(RunsOf(x.log) + [i]) == multiset(RunsOf(x.log)) + multiset{i};
  }

  lemma BalancedFinish(x: Exec, exits: Exits)
    requires Balanced(x)
    ensures Balanced(Finished(x, exits))
  {
    hide Made, ClosedIn, WaitedIn, RunsOf, CloseAll, WaitAll;
    CountsConcat(x.log + CloseAll(x.fds), WaitAll(x.active));
    CountsConcat(x.log, CloseAll(x.fds));
    CloseCounts(x.fds);
    WaitCounts(x.active);
    FinishRuns(x, exits);
  }

  lemma BalancedRound(x: Exec, exits: Exits, i: nat)
    requires Balanced(x) && i < |x.items|
    ensures Balanced(Round(x, exits, i))
  {
    hide Balanced, WithInput, WithOutput, Started, Finished;
    BalancedOutput(x, i);
    var y := WithOutput(WithInput(x, i), i);
    BalancedStart(y, i);
    BalancedFinish(Started(y, i), exits);
  }

  lemma BalancedBegin(items: seq<Item>, nextFd: nat)
    ensures Balanced(Begin(items, nextFd))
  {
  }

  lemma {:induction false} BalancedRounds(items: seq<Item>, exits: Exits, nextFd: nat, n: nat)
    requires n <= |items|
    ensures Balanced(Rounds(Begin(items, nextFd), exits, n))
  {
    hide Round, Balanced;
    if n == 0 {
      BalancedBegin(items, nextFd);
    } else {
      BalancedRounds(items, exits, nextFd, n - 1);
      BalancedRound(Rounds(Begin(items, nextFd), exits, n - 1), exits, n - 1);
    }
  }

  /** No descriptor leak: both ends of every pipe made are closed, each exactly once and nothing
      else; every started call is waited for exactly once. */
  lemma ClosesEveryPipeOnce(items: seq<Item>, exits: Exits, nextFd: nat)
    requires Linked(items) && !AfterPipe(items, |items|)
    ensures var log := Executed(items, exits, nextFd).log;
            && ClosedIn(log) == Made(log) && (forall fd :: Made(log)[fd] <= 1)
            && WaitedIn(log) == multiset(RunsOf(log))
  {
    BalancedRounds(items, exits, nextFd, |items|);
    NothingLeftExactly(items, exits, nextFd);
  }

  // ---------------------------------------------------------------- closing before waiting

  /** The calls a log waits for, in order. */
  function WaitsOf(log: seq<Event>): seq<nat>
  {
    if log == [] then []
    else WaitsOf(log[..|log| - 1]) + if log[|log| - 1].Waited? then [log[|log| - 1].i] else []
  }

  lemma {:induction false} WaitsConcat(a: seq<Event>, b: seq<Event>)
    ensures WaitsOf(a + b) == WaitsOf(a) + WaitsOf(b)
  {
    if b == [] {
      assert a + b == a;
    } else {
      assert (a + b)[..|a + b| - 1] == a + b[..|b| - 1];
      WaitsConcat(a, b[..|b| - 1]);
    }
  }

  lemma {:induction false} NoWaits(log: seq<Event>)
    requires forall k | 0 <= k < |log| :: !log[k].Waited?
    ensures WaitsOf(log) == []
  {
    if log != [] { NoWaits(log[..|log| - 1]); }
  }

  lemma {:induction false} WaitsAll(active: seq<nat>)
    ensures WaitsOf(WaitAll(active)) == active
  {
    if active != [] {
      WaitsConcat([Waited(active[0])], WaitAll(active[1..]));
      assert [Waited(active[0])][..0] == [];
      WaitsAll(active[1..]);
      assert active == [active[0]] + active[1..];
    }
  }

  /** Every wait happens while no pipe is open; what was started and not waited for is active, in the
      order of the starts. */
  ghost predicate Orderly(x: Exec)
  {
    && (forall k | 0 <= k < |x.log| && x.log[k].Waited? :: Made(x.log[..k]) == ClosedIn(x.log[..k]))
    && RunsOf(x.log) == WaitsOf(x.log) + x.active
  }

  lemma RunsQuiet(x: Exec, y: Exec, e: Event)
    requires RunsOf(x.log) == WaitsOf(x.log) + x.active && y.log == x.log + [e] && !e.Waited?
    requires y.active == x.active + if e.Ran? then [e.i] else []
    ensures RunsOf(y.log) == WaitsOf(y.log) + y.active
  {
    WaitsConcat(x.log, [e]);
    RunsConcat(x.log, [e]);
    OneEvent(e);
    NoWaits([e]);
    hide RunsOf, WaitsOf;
    assert WaitsOf(y.log) == WaitsOf(x.log);
    assert (WaitsOf(x.log) + x.active) + RunsOf([e]) == WaitsOf(x.log) + (x.active + RunsOf([e]));
  }

  lemma OrderlyQuiet(x: Exec, y: Exec, e: Event)
    requires Orderly(x) && y.log == x.log + [e] && !e.Waited?
    requires y.active == x.active + if e.Ran? then [e.i] else []
    ensures Orderly(y)
  {
    hide Made, ClosedIn, RunsOf, WaitsOf;
    RunsQuiet(x, y, e);
    forall k | 0 <= k < |y.log| && y.log[k].Waited? ensures Made(y.log[..k]) == ClosedIn(y.log[..k]) {
      assert y.log[..k] == x.log[..k] && y.log[k] == x.log[k];
    }
  }

  lemma OrderlyFinish(x: Exec, exits: Exits)
    requires Orderly(x) && Balanced(x)
    ensures Orderly(Finished(x, exits))
  {
    hide Made, ClosedIn, WaitedIn, RunsOf, WaitsOf, CloseAll, WaitAll;
    var a, c, w := x.log, CloseAll(x.fds), WaitAll(x.active);
    FinishRuns(x, exits);
    WaitsConcat(a + c, w);
    WaitsConcat(a, c);
    CloseEvents(x.fds);
    WaitEvents(x.active);
    NoWaits(c);
    WaitsAll(x.active);
    CountsConcat(a, c);
    CloseCounts(x.fds);
    assert WaitsOf(a) + [] == WaitsOf(a);
    var log := a + c + w;
    forall k | 0 <= k < |log| && log[k].Waited? ensures Made(log[..k]) == ClosedIn(log[..k]) {
      if k < |a| {
        assert log[..k] == a[..k] && log[k] == a[k];
      } else if k >= |a + c| {
        var u := w[..k - |a + c|];
        assert log[..k] == a + c + u;
        QuietWaits(u);
        CountsConcat(a + c, u);
      }
    }
  }

  lemma {:induction false} QuietWaits(log: seq<Event>)
    requires forall k | 0 <= k < |log| :: log[k].Waited?
    ensures Made(log) == multiset{} && ClosedIn(log) == multiset{}
  {
    if log != [] { QuietWaits(log[..|log| - 1]); }
  }

  lemma OrderlyRound(x: Exec, exits: Exits, i: nat)
    requires i < |x.items| && Balanced(x) && Orderly(x)
    ensures Orderly(Round(x, exits, i))
  {
    hide Balanced, Orderly, Finished;
    var z := WithInput(x, i);
    SameLog(x, z);
    var y := WithOutput(z, i);
    if z.items[i].after.Pipe? { OrderlyQuiet(z, y, MadePipe(z.nextFd, z.nextFd + 1)); }
    BalancedOutput(x, i);
    OrderlyQuiet(y, Started(y, i), Ran(i, y.items[i].call.infd, y.items[i].call.outfd));
    BalancedStart(y, i);
    OrderlyFinish(Started(y, i), exits);
  }

  lemma SameLog(x: Exec, y: Exec)
    requires Orderly(x) && y.log == x.log && y.active == x.active
    ensures Orderly(y)
  {
    hide Made, ClosedIn;
  }

  lemma {:induction false} OrderlyRounds(items: seq<Item>, exits: Exits, nextFd: nat, n: nat)
    requires n <= |items|
    ensures Orderly(Rounds(Begin(items, nextFd), exits, n))
    decreases n
  {
    hide Round, Orderly, Balanced;
    if n == 0 {
      OrderlyBegin(items, nextFd);
    } else {
      OrderlyRounds(items, exits, nextFd, n - 1);
      BalancedRounds(items, exits, nextFd, n - 1);
      OrderlyRound(Rounds(Begin(items, nextFd), exits, n - 1), exits, n - 1);
    }
  }

  lemma OrderlyBegin(items: seq<Item>, nextFd: nat)
    ensures Orderly(Begin(items, nextFd))
  {
  }

  /** A call is waited for only when both ends of every pipe made so far are closed, or its reader would
      never see the end of its input; and calls are waited for in the order in which they were started. */
  lemma ClosesBeforeWaiting(items: seq<Item>, exits: Exits, nextFd: nat)
    requires Linked(items)
    ensures var log := Executed(items, exits, nextFd).log;
            && (forall k | 0 <= k < |log| && log[k].Waited? :: Made(log[..k]) == ClosedIn(log[..k]))
            && (!AfterPipe(items, |items|) ==> WaitsOf(log) == RunsOf(log))
  {
    OrderlyRounds(items, exits, nextFd, |items|);
    NothingLeftExactly(items, exits, nextFd);
  }

  // ---------------------------------------------------------------- who is connected to whom

  /** The descriptors of call i after n rounds: a call behind a pipe reads from a pipe whose writing
      end its predecessor was given; any other end is the one the call came with. */
  predicate Connected(items: seq<Item>, x: Exec, i: nat)
    requires i < |items| && |x.items| == |items|
  {
    && (items[i].before.Pipe? ==> i > 0 && MadePipe(x.items[i].call.infd, x.items[i - 1].call.outfd) in x.log)
    && (!items[i].before.Pipe? ==> x.items[i].call.infd == items[i].call.infd)
    && (!items[i].after.Pipe? ==> x.items[i].call.outfd == items[i].call.outfd)
  }

  /** Event number k of the log, if it starts a call, gives it the call's descriptors, and the pipe
      ends among them are open at that moment. */
  predicate RanOpen(items: seq<Item>, x: Exec, k: nat)
    requires k < |x.log| && |x.items| == |items|
  {
    x.log[k].Ran? ==>
      var i, open := x.log[k].i, Made(x.log[..k]) - ClosedIn(x.log[..k]);
      && i < |items| && x.log[k].infd == x.items[i].call.infd && x.log[k].outfd == x.items[i].call.outfd
      && (items[i].before.Pipe? ==> x.log[k].infd in open)
      && (items[i].after.Pipe? ==> x.log[k].outfd in open)
  }

  ghost predicate Wired(items: seq<Item>, x: Exec, n: nat)
    requires n <= |items|
  {
    && |x.items| == |items|
    && (forall i | 0 <= i < n :: Connected(items, x, i))
    && (forall i | n <= i < |items| :: x.items[i] == items[i])
    && (forall k | 0 <= k < |x.log| :: RanOpen(items, x, k) && (x.log[k].Ran? ==> x.log[k].i < n))
    && (AfterPipe(items, n) ==> x.fds != [] && var f := x.fds[|x.fds| - 1];
                                               f.1 == x.items[n - 1].call.outfd && MadePipe(f.0, f.1) in x.log)
  }

  lemma {:induction false} LastEnds(fds: seq<(nat, nat)>)
    requires fds != []
    ensures fds[|fds| - 1].0 in Ends(fds) && fds[|fds| - 1].1 in Ends(fds)
  {
    if |fds| > 1 { LastEnds(fds[1..]); }
  }

  /** Events that start no call leave what is known of the started ones. */
  lemma RanKept(items: seq<Item>, x: Exec, y: Exec, n: nat, m: nat)
    requires n <= m && |x.items| == |items| && |y.items| == |items| && x.log <= y.log
    requires forall k | 0 <= k < |x.log| :: RanOpen(items, x, k) && (x.log[k].Ran? ==> x.log[k].i < n)
    requires forall k | |x.log| <= k < |y.log| :: !y.log[k].Ran?
    requires forall j | 0 <= j < n && j < |items| :: y.items[j] == x.items[j]
    ensures forall k | 0 <= k < |y.log| :: RanOpen(items, y, k) && (y.log[k].Ran? ==> y.log[k].i < m)
  {
    hide Made, ClosedIn;
    forall k | 0 <= k < |y.log| ensures RanOpen(items, y, k) && (y.log[k].Ran? ==> y.log[k].i < m) {
      if k < |x.log| {
        assert RanOpen(items, x, k);
        assert y.log[..k] == x.log[..k] && y.log[k] == x.log[k];
      }
    }
  }

  lemma ConnectedKept(items: seq<Item>, x: Exec, y: Exec, j: nat)
    requires j < |items| == |x.items| == |y.items| && Connected(items, x, j) && x.log <= y.log
    requires y.items[j] == x.items[j] && (j > 0 ==> y.items[j - 1] == x.items[j - 1])
    ensures Connected(items, y, j)
  {
  }

  /** What the ends of call i become. */
  lemma EndsOfCall(items: seq<Item>, x: Exec, i: nat)
    requires i < |items| && Wired(items, x, i) && Linked(items)
    ensures var y := WithOutput(WithInput(x, i), i);
            && |y.items| == |items| && x.log <= y.log && (forall k | |x.log| <= k < |y.log| :: !y.log[k].Ran?)
            && (forall j | 0 <= j < |items| && j != i :: y.items[j] == x.items[j])
            && Connected(items, y, i)
            && (items[i].before.Pipe? ==> x.fds != [] && y.items[i].call.infd == x.fds[|x.fds| - 1].0 && x.fds <= y.fds)
            && (items[i].after.Pipe? ==> y.fds == x.fds + [(x.nextFd, x.nextFd + 1)]
                                          && y.items[i].call.outfd == x.nextFd + 1
                                          && MadePipe(x.nextFd, x.nextFd + 1) in y.log)
            && (!items[i].after.Pipe? ==> y.fds == x.fds)
  {
    hide Made, ClosedIn, RanOpen;
    if items[i].before.Pipe? { assert AfterPipe(items, i); }
    var y := WithOutput(WithInput(x, i), i);
    if items[i].after.Pipe? { assert y.log[|y.log| - 1] == MadePipe(x.nextFd, x.nextFd + 1); }
  }

  /** The first half of a round: both ends of the call are settled. */
  lemma WiredEnds(items: seq<Item>, x: Exec, i: nat)
    requires i < |items| && Wired(items, x, i) && Linked(items)
    ensures var y := WithOutput(WithInput(x, i), i);
            && Wired(items, y, i + 1)
            && (items[i].before.Pipe? ==> y.items[i].call.infd in Ends(y.fds))
            && (items[i].after.Pipe? ==> y.items[i].call.outfd in Ends(y.fds))
  {
    hide Made, ClosedIn, RanOpen, Connected, WithInput, WithOutput, Ends;
    EndsOfCall(items, x, i);
    var y := WithOutput(WithInput(x, i), i);
    RanKept(items, x, y, i, i + 1);
    forall j | 0 <= j < i + 1 ensures Connected(items, y, j) {
      if j < i { ConnectedKept(items, x, y, j); }
    }
    EndsSnoc(x.fds, (x.nextFd, x.nextFd + 1));
    if items[i].before.Pipe? { LastEnds(x.fds); }
  }

  lemma WiredStart(items: seq<Item>, y: Exec, i: nat)
    requires i < |items| && Wired(items, y, i + 1) && Balanced(y)
    requires items[i].before.Pipe? ==> y.items[i].call.infd in Ends(y.fds)
    requires items[i].after.Pipe? ==> y.items[i].call.outfd in Ends(y.fds)
    ensures Wired(items, Started(y, i), i + 1)
  {
    var z := Started(y, i);
    forall j | 0 <= j < i + 1 ensures Connected(items, z, j) { assert Connected(items, y, j); }
    forall k | 0 <= k < |z.log| ensures RanOpen(items, z, k) && (z.log[k].Ran? ==> z.log[k].i < i + 1) {
      if k < |y.log| {
        assert RanOpen(items, y, k);
        assert z.log[..k] == y.log[..k];
      } else {
        assert z.log[..k] == y.log;
      }
    }
  }

  lemma WiredFinish(items: seq<Item>, z: Exec, exits: Exits, n: nat)
    requires n <= |items| && Wired(items, z, n) && !AfterPipe(items, n)
    ensures Wired(items, Finished(z, exits), n)
  {
    var f := Finished(z, exits);
    CloseEvents(z.fds);
    WaitEvents(z.active);
    assert z.log <= f.log;
    forall j | 0 <= j < n ensures Connected(items, f, j) { ConnectedKept(items, z, f, j); }
    RanKept(items, z, f, n, n);
  }

  lemma WiredRound(items: seq<Item>, x: Exec, exits: Exits, i: nat)
    requires i < |items| == |x.items| && Wired(items, x, i) && Linked(items) && Balanced(x)
    requires x.items[i].before == items[i].before && x.items[i].after == items[i].after
    ensures Wired(items, Round(x, exits, i), i + 1)
  {
    hide Balanced, Wired, WithInput, WithOutput, Started, Finished, Ends;
    WiredEnds(items, x, i);
    BalancedOutput(x, i);
    WiredStart(items, WithOutput(WithInput(x, i), i), i);
    if !items[i].after.Pipe? { WiredFinish(items, Started(WithOutput(WithInput(x, i), i), i), exits, i + 1); }
  }

  lemma WiredBegin(items: seq<Item>, nextFd: nat)
    ensures Wired(items, Begin(items, nextFd), 0)
  {
  }

  lemma {:induction false} WiredRounds(items: seq<Item>, exits: Exits, nextFd: nat, n: nat)
    requires Linked(items) && n <= |items|
    ensures Wired(items, Rounds(Begin(items, nextFd), exits, n), n)
  {
    hide Round, Balanced, Wired;
    if n == 0 {
      WiredBegin(items, nextFd);
    } else {
      WiredRounds(items, exits, nextFd, n - 1);
      BalancedRounds(items, exits, nextFd, n - 1);
      OperatorsStay(Begin(items, nextFd), exits, n - 1);
      WiredRound(items, Rounds(Begin(items, nextFd), exits, n - 1), exits, n - 1);
    }
  }

  /** Pipe discipline: whenever a call is started behind a pipe, it reads from the pipe its
      predecessor was given to write to, through descriptors that are open at that moment; calls that
      are not next to a pipe keep the descriptors they came with. */
  lemma PipesConnectNeighbours(items: seq<Item>, exits: Exits, nextFd: nat)
    requires Linked(items)
    ensures var x := Executed(items, exits, nextFd);
            && (forall i | 0 <= i < |items| :: Connected(items, x, i))
            && (forall k | 0 <= k < |x.log| :: RanOpen(items, x, k))
  {
    WiredRounds(items, exits, nextFd, |items|);
  }

  // ---------------------------------------------------------------- the executor itself

  class Instruction {
    var calls: seq<Item>
    var active: seq<nat>
    var fds: seq<(nat, nat)>
    ghost var log: seq<Event>
    var nextFd: nat
    const exits: Exits

    ghost function State(code: int): Exec
      reads this
    {
      Exec(calls, active, fds, log, nextFd, code)
    }

    constructor (calls: seq<Item>, nextFd: nat, exits: Exits)
      ensures this.calls == calls && active == [] && fds == [] && log == [] && this.nextFd == nextFd && this.exits == exits
    {
      this.calls, this.nextFd, this.exits := calls, nextFd, exits;
      active, fds, log := [], [], [];
    }

    method CloseDescriptors()
      modifies this
      ensures fds == [] && log == old(log) + CloseAll(old(fds))
      ensures calls == old(calls) && active == old(active) && nextFd == old(nextFd)
    {
      var i := 0;
      while i < |fds|
        invariant 0 <= i <= |fds| && fds == old(fds) && log + CloseAll(fds[i..]) == old(log) + CloseAll(fds)
        invariant calls == old(calls) && active == old(active) && nextFd == old(nextFd)
      {
        assert fds[i..][1..] == fds[i + 1..];
        log := log + [Closed(fds[i].0)];
        log := log + [Closed(fds[i].1)];
        i := i + 1;
      }
      fds := [];
    }

    method WaitActiveCalls() returns (code: int)
      modifies this
      ensures active == [] && log == old(log) + WaitAll(old(active)) && code == LastExit(old(active), exits)
      ensures calls == old(calls) && fds == old(fds) && nextFd == old(nextFd)
    {
      code := 0;
      var i := 0;
      while i < |active|
        invariant 0 <= i <= |active| && active == old(active) && log + WaitAll(active[i..]) == old(log) + WaitAll(active)
        invariant code == LastExit(active[..i], exits)
        invariant calls == old(calls) && fds == old(fds) && nextFd == old(nextFd)
      {
        assert active[i..][1..] == active[i + 1..];
        log := log + [Waited(active[i])];
        code := exits(active[i]);
        i := i + 1;
      }
      assert active[..i] == active;
      active := [];
    }

    /** Starts call i with the descriptors it has. */
    method Run(i: nat)
      requires i < |calls|
      modifies this
      ensures forall code :: State(code) == Started(old(State(code)), i)
    {
      log := log + [Ran(i, calls[i].call.infd, calls[i].call.outfd)];
      active := active + [i];
    }

    method Execute() returns (code: int)
      requires active == [] && fds == [] && log == [] && Linked(calls)
      modifies this
      ensures State(code) == Executed(old(calls), exits, old(nextFd))
    {
      ghost var items, first := calls, nextFd;
      code := 0;
      var i := 0;
      while i < |calls|
        invariant 0 <= i <= |calls| == |items|
        invariant State(code) == Rounds(Begin(items, first), exits, i)
        decreases |items| - i
      {
        hide Round, Linked;
        Settled(items, exits, first, i);
        OperatorsStay(Begin(items, first), exits, i);
        InPipe(items, i);
        code := RunRound(i, code);
        i := i + 1;
      }
    }

    /** The body of the loop of execute for call i. */
    method RunRound(i: nat, lastExitCode: int) returns (code: int)
      requires i < |calls| && (calls[i].before.Pipe? ==> fds != [])
      modifies this
      ensures State(code) == Round(old(State(lastExitCode)), exits, i)
    {
      code := lastExitCode;
      var item := calls[i];
      if item.before == Pipe {
        calls := calls[i := item.(call := item.call.(infd := fds[|fds| - 1].0))];
      }
      assert State(code) == WithInput(old(State(lastExitCode)), i);
      if item.after == Pipe {
        calls := calls[i := calls[i].(call := calls[i].call.(outfd := nextFd + 1))];
        fds := fds + [(nextFd, nextFd + 1)];
        log := log + [MadePipe(nextFd, nextFd + 1)];
        nextFd := nextFd + 2;
      }
      assert State(code) == WithOutput(WithInput(old(State(lastExitCode)), i), i);
      var started := false;
      match item.before {
        case First => started := true;
        case And => if lastExitCode == 0 { started := true; }
        case Or => if lastExitCode != 0 { started := true; }
        case Pipe => started := true;
        case Last =>
      }
      if started {
        Run(i);
        if item.after != Pipe {
          CloseDescriptors();
          code := WaitActiveCalls();
        }
      }
    }
  }

  /** In a linked list a call behind a pipe follows a call in front of one. */
  lemma InPipe(items: seq<Item>, i: nat)
    requires Linked(items) && i < |items|
    ensures items[i].before.Pipe? ==> AfterPipe(items, i)
  {
  }
}
