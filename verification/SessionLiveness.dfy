/**
  What a session can always still do: every call can return, a reply that arrives is used,
  an interrupt can save the session, and a session that was lost can be used again.
*/
module SessionLiveness {
  import opened Wrappers
  import opened Runs
  import opened SessionProtocol

  /** What a parsed reply to the call in progress makes of it. */
  ghost function ReplyOutcome(s: Sys): Outcome {
    if s.pc.Grace? then TimedOut(true)
    else if s.pc.Reading? && s.pc.kind.Reset? then ResetDone
    else Answered(|s.log|, Replay(s.log) + [|s.log|])
  }

  /** The run ends the call in progress with this outcome, and the session lives on. */
  ghost predicate Returns(s: Sys, run: seq<Action>, o: Outcome) {
    && After(s, run).Some?
    && var t := After(s, run).value;
       t.pc.Ready? && t.alive && t.child.running && t.log == s.log + [o]
  }

  // ---------------------------------------------------------------- one line

  /** A line of the call in flight parses. */
  lemma OwnLineParses(s: Sys)
    requires Inv(s) && Awaiting(s.pc) && s.child.stdout != [] && s.child.stdout[0].last
    ensures CanParse(s.pc.line + [s.child.stdout[0]], Wanted(s.pc))
  {
    assert InFlight(s, Wanted(s.pc), s.pc.line);
    assert s.child.stdout[0] in s.child.stdout;
  }

  /**
    In every reachable state: a line that parses is the answer of the call, or saves the
    session in the grace period, and leaves the session alive; one that does not parse
    fails an execute and gives the session up, or ends the grace period.
  */
  lemma LineIsUsed(s: Sys, parsed: bool)
    requires Inv(s) && Awaiting(s.pc) && Next(s, EndLine(parsed)).Some?
    ensures var t := Next(s, EndLine(parsed)).value;
            && (parsed ==> t.pc.Ready? && t.alive && t.log == s.log + [ReplyOutcome(s)])
            && (!parsed && s.pc.Grace? ==> t.pc.Killing? && t.log == s.log)
            && (!parsed && s.pc.Reading? ==> s.pc.kind.Execute? && t.pc.Ready? && !t.alive && t.log == s.log + [Failed])
  {
    OwnLineParses(s);
    var line := s.pc.line + [s.child.stdout[0]];
    assert InFlight(s, Wanted(s.pc), s.pc.line);
    assert s.child.stdout[0] in s.child.stdout && line[|line| - 1] == s.child.stdout[0];
  }

  // ---------------------------------------------------------------- the reply can arrive

  /** What the running child still has to do before its whole reply is on the pipe. */
  function Rank(c: Child): nat {
    if c.phase.Running? then 3
    else if c.phase.Collecting? then 2
    else if c.phase.Replying? then 1
    else if c.stdin != [] then 4
    else 0
  }

  /** The next step of child or host towards the reply; with `interrupt`, user code ends by the pending SIGINT. */
  function NextStep(s: Sys, interrupt: bool): Action {
    var c := s.child;
    if c.stdout != [] then (if c.stdout[0].last then EndLine(true) else ReadFragment)
    else if c.phase.Running? then (if interrupt then Deliver(false) else FinishCode)
    else if c.phase.Collecting? then StartReply
    else if c.phase.Replying? then Emit(true)
    else PickUp
  }

  ghost predicate Expecting(s: Sys, interrupt: bool) {
    Inv(s) && Awaiting(s.pc) && s.child.running && (interrupt && Rank(s.child) >= 3 ==> s.child.sigint)
  }

  ghost predicate Closer(s: Sys, t: Sys) {
    && t.log == s.log && ReplyOutcome(t) == ReplyOutcome(s)
    && (Rank(t.child) < Rank(s.child) || (Rank(t.child) == Rank(s.child) && |t.child.stdout| < |s.child.stdout|))
  }

  /** The child is not done before its reply is on the pipe. */
  lemma ChildStepTowardsReply(s: Sys, interrupt: bool)
    requires Expecting(s, interrupt) && s.child.stdout == []
    ensures var c := ChildNext(s.child, NextStep(s, interrupt));
            && c.Some? && c.value.running && Rank(c.value) < Rank(s.child)
            && (interrupt && Rank(c.value) >= 3 ==> c.value.sigint)
  {
    assert InFlight(s, Wanted(s.pc), s.pc.line);
  }

  lemma StepTowardsReply(s: Sys, interrupt: bool)
    requires Expecting(s, interrupt) && !(s.child.stdout != [] && s.child.stdout[0].last)
    ensures var t := Next(s, NextStep(s, interrupt));
            t.Some? && Expecting(t.value, interrupt) && Closer(s, t.value)
  {
    if s.child.stdout == [] { ChildStepTowardsReply(s, interrupt); }
    NextKeepsInv(s, NextStep(s, interrupt));
  }

  predicate Gentle(a: Action, interrupt: bool) {
    !a.Die? && !a.Kill? && !a.Timeout? && (interrupt ==> !a.FinishCode?) && (!interrupt ==> !a.Deliver?)
  }

  lemma {:induction false} ReplyCanArrive(s: Sys, interrupt: bool) returns (run: seq<Action>)
    requires Expecting(s, interrupt)
    ensures Returns(s, run, ReplyOutcome(s)) && forall a :: a in run ==> Gentle(a, interrupt)
    decreases Rank(s.child), |s.child.stdout|
  {
    var a := NextStep(s, interrupt);
    var rest := [];
    if s.child.stdout != [] && s.child.stdout[0].last {
      OwnLineParses(s);
      LineIsUsed(s, true);
    } else {
      StepTowardsReply(s, interrupt);
      rest := ReplyCanArrive(Next(s, a).value, interrupt);
    }
    run := [a] + rest;
    RunCons(Next, s, a, rest);
  }

  /**
    From every reachable state in which an execute waits and its child runs, the answer of
    that very call can arrive, with no crash, kill, timeout or signal, and the session lives on.
  */
  lemma ExecuteCanReturn(s: Sys) returns (run: seq<Action>)
    requires Inv(s) && s.pc.Reading? && s.pc.kind.Execute? && s.child.running
    ensures Returns(s, run, Answered(|s.log|, Replay(s.log) + [|s.log|]))
    ensures forall a :: a in run ==> Gentle(a, false)
  {
    run := ReplyCanArrive(s, false);
  }

  /**
    After a timeout on unix, with the child running: the session can be preserved even if the
    user's code never ends by itself.
  */
  lemma InterruptCanPreserve(s: Sys) returns (run: seq<Action>)
    requires Inv(s) && s.pc.Interrupting? && s.unix && s.child.running
    ensures Returns(s, run, TimedOut(true)) && forall a :: a in run ==> Gentle(a, true)
  {
    NextKeepsInv(s, Signal);
    var rest := ReplyCanArrive(Next(s, Signal).value, true);
    run := [Signal] + rest;
    RunCons(Next, s, Signal, rest);
  }

  /** Elsewhere there is no interrupt: a timeout always ends in a kill. */
  lemma NoInterruptElsewhere(s: Sys)
    requires s.pc.Interrupting? && !s.unix && Next(s, Signal).Some?
    ensures Next(s, Signal).value == s.(pc := Killing)
  {
  }

  /** SIGINT leaves the executor running exactly inside user code and while it replies to an execute. */
  lemma SigintIsSurvivedIff(c: Child, swallowed: bool)
    requires c.running && c.sigint
    ensures var d := ChildNext(c, Deliver(swallowed));
            && d.Some? && !d.value.sigint && d.value.stdout == c.stdout && d.value.namespace == c.namespace
            && (d.value.running <==> c.phase.Running? || (c.phase.Replying? && c.phase.kind.Execute?))
            && (c.phase.Replying? ==> d.value.phase == c.phase)
            && (c.phase.Running? && !swallowed ==> d.value.phase == Collecting(c.phase.tag))
  {
  }

  // ---------------------------------------------------------------- every call can return

  ghost predicate ReturnsSomehow(s: Sys, run: seq<Action>) {
    After(s, run).Some? && After(s, run).value.pc.Ready? && |After(s, run).value.log| == |s.log| + 1
  }

  /** What a dead child has left on the pipe is read, and then the end of the stream. */
  lemma {:induction false} DeadChildReturns(s: Sys) returns (run: seq<Action>)
    requires Inv(s) && Awaiting(s.pc) && !s.child.running
    ensures ReturnsSomehow(s, run)
    decreases |s.child.stdout|
  {
    if s.child.stdout != [] && !s.child.stdout[0].last {
      NextKeepsInv(s, ReadFragment);
      var rest := DeadChildReturns(Next(s, ReadFragment).value);
      run := [ReadFragment] + rest;
      RunCons(Next, s, ReadFragment, rest);
    } else {
      var a := if s.child.stdout != [] then EndLine(true) else EndOfFile(false);
      if s.child.stdout != [] { OwnLineParses(s); }
      var rest := if Next(s, a).value.pc.Killing? then [Kill(true)] else [];
      if rest != [] { RunOne(Next, Next(s, a).value, Kill(true)); }
      run := [a] + rest;
      RunCons(Next, s, a, rest);
    }
  }

  lemma AwaitedReturns(s: Sys) returns (run: seq<Action>)
    requires Inv(s) && Awaiting(s.pc)
    ensures ReturnsSomehow(s, run)
  {
    if s.child.running {
      run := ReplyCanArrive(s, false);
    } else {
      run := DeadChildReturns(s);
    }
  }

  lemma ThenAwait(s: Sys, a: Action) returns (run: seq<Action>)
    requires Inv(s) && Next(s, a).Some? && Awaiting(Next(s, a).value.pc) && Next(s, a).value.log == s.log
    ensures ReturnsSomehow(s, run)
  {
    NextKeepsInv(s, a);
    var rest := AwaitedReturns(Next(s, a).value);
    run := [a] + rest;
    RunCons(Next, s, a, rest);
  }

  /** From every reachable state inside a call, that call can return. */
  lemma CallCanReturn(s: Sys) returns (run: seq<Action>)
    requires Inv(s) && !s.pc.Ready?
    ensures ReturnsSomehow(s, run)
  {
    match s.pc
    case Starting(_) =>
      if s.alive {
        run := ThenAwait(s, Send(true));
      } else {
        run := [Respawn(false)];
        RunOne(Next, s, Respawn(false));
      }
    case Interrupting =>
      if s.unix {
        run := ThenAwait(s, Signal);
      } else {
        run := [Signal] + [Kill(true)];
        RunOne(Next, Next(s, Signal).value, Kill(true));
        RunCons(Next, s, Signal, [Kill(true)]);
      }
    case Killing =>
      run := [Kill(true)];
      RunOne(Next, s, Kill(true));
    case _ => run := AwaitedReturns(s);
  }

  // ---------------------------------------------------------------- a session can be used again

  /** From a call that is about to be sent to a running child. */
  lemma SentIsAnswered(s: Sys) returns (run: seq<Action>)
    requires Inv(s) && s.pc == Starting(Execute) && s.alive && s.child.running
    ensures Returns(s, run, Answered(|s.log|, Replay(s.log) + [|s.log|]))
    ensures forall a :: a in run ==> !a.Die? && !a.Kill?
  {
    NextKeepsInv(s, Send(true));
    var rest := ExecuteCanReturn(Next(s, Send(true)).value);
    run := [Send(true)] + rest;
    RunCons(Next, s, Send(true), rest);
  }

  /** A session that is not alive starts a new child, whose namespace is fresh. */
  lemma DeadSessionIsAnswered(s: Sys) returns (run: seq<Action>)
    requires Inv(s) && s.pc.Ready? && !s.alive
    ensures Returns(s, run, Answered(|s.log|, Replay(s.log) + [|s.log|])) && Replay(s.log) == []
    ensures forall a :: a in run ==> !a.Die? && !a.Kill?
  {
    assert Replay(s.log) == [];
    var t := Next(s, BeginCall(Execute)).value;
    NextKeepsInv(s, BeginCall(Execute));
    NextKeepsInv(t, Respawn(true));
    var rest := SentIsAnswered(Next(t, Respawn(true)).value);
    var more := [Respawn(true)] + rest;
    RunCons(Next, t, Respawn(true), rest);
    run := [BeginCall(Execute)] + more;
    RunCons(Next, s, BeginCall(Execute), more);
  }

  /** A live session with a running child answers the next execute. */
  lemma LiveSessionIsAnswered(s: Sys) returns (run: seq<Action>)
    requires Inv(s) && s.pc.Ready? && s.alive && s.child.running
    ensures Returns(s, run, Answered(|s.log|, Replay(s.log) + [|s.log|]))
    ensures forall a :: a in run ==> !a.Die? && !a.Kill?
  {
    NextKeepsInv(s, BeginCall(Execute));
    var rest := SentIsAnswered(Next(s, BeginCall(Execute)).value);
    run := [BeginCall(Execute)] + rest;
    RunCons(Next, s, BeginCall(Execute), rest);
  }

  /**
    From every reachable state between calls, an answer is at most two executes away: one, if
    the session is dead or its child runs; if the child has died unnoticed, one that fails first.
  */
  lemma SessionCanAnswer(s: Sys) returns (run: seq<Action>)
    requires Inv(s) && s.pc.Ready?
    ensures After(s, run).Some? && forall a :: a in run ==> !a.Die? && !a.Kill?
    ensures var t := After(s, run).value;
            var before := if s.alive && !s.child.running then s.log + [Failed] else s.log;
            t.pc.Ready? && t.alive && t.log == before + [Answered(|before|, Replay(before) + [|before|])]
  {
    var t := s;
    var first := [];
    if s.alive && !s.child.running {
      var u := Next(s, BeginCall(Execute)).value;
      NextKeepsInv(s, BeginCall(Execute));
      NextKeepsInv(u, Send(false));
      t := Next(u, Send(false)).value;
      first := [BeginCall(Execute), Send(false)];
      RunOne(Next, u, Send(false));
      assert first == [BeginCall(Execute)] + [Send(false)];
      RunCons(Next, s, BeginCall(Execute), [Send(false)]);
    }
    var rest;
    if t.alive { rest := LiveSessionIsAnswered(t); } else { rest := DeadSessionIsAnswered(t); }
    run := first + rest;
    RunAppend(Next, s, first, rest);
  }

  /** A session that is not alive is reset by starting over. */
  lemma DeadSessionIsReset(s: Sys)
    requires Inv(s) && s.pc.Ready? && !s.alive
    ensures Returns(s, [BeginCall(Reset), Respawn(true)], ResetDone)
    ensures After(s, [BeginCall(Reset), Respawn(true)]).value.child == FRESH_CHILD
  {
    var t := Next(s, BeginCall(Reset)).value;
    RunOne(Next, t, Respawn(true));
    RunCons(Next, s, BeginCall(Reset), [Respawn(true)]);
    assert [BeginCall(Reset)] + [Respawn(true)] == [BeginCall(Reset), Respawn(true)];
  }

  // ---------------------------------------------------------------- a killed child

  predicate IsChildStep(a: Action) {
    a.PickUp? || a.FinishCode? || a.Deliver? || a.StartReply? || a.Emit? || a.Die?
  }

  lemma DeadStep(s: Sys, a: Action)
    requires !s.child.running && Next(s, a).Some? && a != Respawn(true)
    ensures !IsChildStep(a) && !Next(s, a).value.child.running
    ensures Next(s, a).value.child.namespace == s.child.namespace
  {
  }

  lemma {:induction false} DeadStaysDead(s: Sys, run: seq<Action>)
    requires !s.child.running && After(s, run).Some? && Respawn(true) !in run
    ensures forall a :: a in run ==> !IsChildStep(a)
    ensures !After(s, run).value.child.running && After(s, run).value.child.namespace == s.child.namespace
    decreases |run|
  {
    if run != [] {
      DeadStep(s, run[0]);
      DeadStaysDead(Next(s, run[0]).value, run[1..]);
    }
  }

  /** A kill that succeeds ends the call and stops the child: until a respawn it does nothing more. */
  lemma KilledStaysDead(s: Sys, run: seq<Action>)
    requires Next(s, Kill(true)).Some? && After(Next(s, Kill(true)).value, run).Some? && Respawn(true) !in run
    ensures Next(s, Kill(true)).value.log == s.log + [TimedOut(false)] && !Next(s, Kill(true)).value.alive
    ensures forall a :: a in run ==> !IsChildStep(a)
    ensures !After(Next(s, Kill(true)).value, run).value.child.running
  {
    DeadStaysDead(Next(s, Kill(true)).value, run);
  }
}
