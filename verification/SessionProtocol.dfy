/**
  The line protocol between `PythonSession` and its executor child, as a transition
  system.  The host writes one request line, reads one reply line, and on a timeout
  interrupts, waits once more and finally kills.  The child reads requests, runs them in
  a namespace that persists between requests, and writes each reply as one line.

  Requests carry no identifier on the wire.  The model numbers the calls (`tag`) so that
  it can say which call a reply belongs to; no host decision looks at that number.

  Assumptions: only the executor writes to the child's real stdout; writing to the
  child's stdin or reading from its stdout fails only when the child is gone; a reset
  reply that arrives whole parses.
*/
module SessionProtocol {
  import opened Wrappers
  import opened Runs

  datatype Kind = Execute | Reset

  datatype Request = Request(tag: nat, kind: Kind)

  /** A piece of a reply line; `ran` lists the calls whose code the namespace held. */
  datatype Fragment = Fragment(tag: nat, kind: Kind, ran: seq<nat>, last: bool)

  /** What the child is doing.  SIGINT is ignored only while it replies to an execute. */
  datatype Phase = Idle | Running(tag: nat) | Collecting(tag: nat) | Replying(tag: nat, kind: Kind)

  datatype Child = Child(running: bool, phase: Phase, sigint: bool, namespace: seq<nat>,
                         stdin: seq<Request>, stdout: seq<Fragment>)

  const FRESH_CHILD := Child(true, Idle, false, [], [], [])

  /** Where the host is inside `execute_with_outputs` or `reset`. */
  datatype Pc =
    | Ready
    | Starting(kind: Kind)
    | Reading(kind: Kind, line: seq<Fragment>)
    | Interrupting
    | Grace(line: seq<Fragment>)
    | Killing

  /** How a call ended.  `Answered` is a reply turned into a result. */
  datatype Outcome =
    | Answered(tag: nat, ran: seq<nat>)
    | Failed
    | TimedOut(interrupted: bool)
    | ResetDone
    | ResetFailed

  /** The host with its child; `log[i]` is the outcome of call `i`. */
  datatype Sys = Sys(unix: bool, alive: bool, child: Child, pc: Pc, calls: nat, log: seq<Outcome>)

  datatype Action =
    // host
    | BeginCall(kind: Kind)
    | Respawn(ok: bool)
    | Send(ok: bool)
    | ReadFragment
    | EndLine(parsed: bool)
    | EndOfFile(parsed: bool)
    | Timeout
    | Signal
    | Kill(ok: bool)
    // child
    | PickUp
    | FinishCode
    | Deliver(swallowed: bool)
    | StartReply
    | Emit(last: bool)
    | Die

  function Init(unix: bool): (s: Sys) {
    Sys(unix, true, FRESH_CHILD, Ready, 0, [])
  }

  // ---------------------------------------------------------------- transitions

  /** A line of the other reply type never parses. */
  predicate CanParse(line: seq<Fragment>, kind: Kind) {
    line != [] && forall f :: f in line ==> f.kind == kind
  }

  predicate ParseAllowed(line: seq<Fragment>, kind: Kind, parsed: bool) {
    if parsed then CanParse(line, kind) else kind.Execute? || !CanParse(line, kind)
  }

  predicate Awaiting(pc: Pc) {
    pc.Reading? || pc.Grace?
  }

  /** The reply type the host deserializes. */
  function Wanted(pc: Pc): Kind {
    if pc.Reading? then pc.kind else Execute
  }

  /** The call in progress returns `o`. */
  function Return(s: Sys, o: Outcome): Sys {
    s.(pc := Ready, log := s.log + [o])
  }

  /** The host has a whole line, or the remains of one at end of file. */
  function LineRead(s: Sys, line: seq<Fragment>, parsed: bool): Sys
    requires Awaiting(s.pc)
    requires parsed ==> line != []
  {
    match s.pc
    case Reading(Execute, _) =>
      if parsed then Return(s, Answered(line[|line| - 1].tag, line[|line| - 1].ran))
      else Return(s.(alive := false), Failed)
    case Reading(Reset, _) =>
      if parsed then Return(s, ResetDone) else Return(s, ResetFailed)
    case Grace(_) =>
      if parsed then Return(s, TimedOut(true)) else s.(pc := Killing)
  }

  function Next(s: Sys, a: Action): Option<Sys> {
    match a
    case BeginCall(kind) =>
      if s.pc.Ready? then Some(s.(pc := Starting(kind), calls := s.calls + 1)) else None
    case Respawn(ok) => if s.pc.Starting? && !s.alive then Some(Respawned(s, ok)) else None
    case Send(ok) =>
      if s.pc.Starting? && s.alive && s.calls > 0 && (ok || !s.child.running) then Some(Sent(s, ok)) else None
    case Timeout =>
      if s.pc.Reading? && s.pc.kind.Execute? then Some(s.(pc := Interrupting))
      else if s.pc.Grace? then Some(s.(pc := Killing))
      else None
    case Signal =>
      if !s.pc.Interrupting? then None
      else if s.unix then Some(s.(pc := Grace([]), child := s.child.(sigint := s.child.running)))
      else Some(s.(pc := Killing))
    case Kill(ok) =>
      if !s.pc.Killing? then None
      else Some(Return(s.(alive := false, child := s.child.(running := s.child.running && !ok)), TimedOut(false)))
    case ReadFragment =>
      if Awaiting(s.pc) && s.child.stdout != [] && !s.child.stdout[0].last then
        Some(s.(child := s.child.(stdout := s.child.stdout[1..]),
                pc := s.pc.(line := s.pc.line + [s.child.stdout[0]])))
      else None
    case EndLine(parsed) =>
      if Awaiting(s.pc) && s.child.stdout != [] && s.child.stdout[0].last then
        var line := s.pc.line + [s.child.stdout[0]];
        if ParseAllowed(line, Wanted(s.pc), parsed) then
          Some(LineRead(s.(child := s.child.(stdout := s.child.stdout[1..])), line, parsed))
        else None
      else None
    case EndOfFile(parsed) =>
      if Awaiting(s.pc) && s.child.stdout == [] && !s.child.running && (parsed ==> CanParse(s.pc.line, Wanted(s.pc)))
      then Some(LineRead(s.(alive := s.alive && s.pc.line != []), s.pc.line, parsed))
      else None
    case _ =>
      if !s.child.running then None
      else
        var c := ChildNext(s.child, a);
        if c.Some? then Some(s.(child := c.value)) else None
  }

  function Respawned(s: Sys, ok: bool): Sys
    requires s.pc.Starting?
  {
    if !ok then Return(s, if s.pc.kind.Execute? then Failed else ResetFailed)
    else if s.pc.kind.Execute? then s.(alive := true, child := FRESH_CHILD)
    else Return(s.(alive := true, child := FRESH_CHILD), ResetDone)
  }

  function Sent(s: Sys, ok: bool): Sys
    requires s.pc.Starting? && s.calls > 0
  {
    if ok then
      s.(pc := Reading(s.pc.kind, []),
         child := s.child.(stdin := s.child.stdin + [Request(s.calls - 1, s.pc.kind)]))
    else if s.pc.kind.Execute? then Return(s.(alive := false), Failed)
    else Return(s, ResetFailed)
  }

  /** One step of a running child; None when `a` is not enabled. */
  function ChildNext(c: Child, a: Action): Option<Child> {
    match a
    case PickUp =>
      if !c.phase.Idle? || c.stdin == [] then None
      else
        var r := c.stdin[0];
        var c' := c.(stdin := c.stdin[1..]);
        if r.kind.Execute? then Some(c'.(phase := Running(r.tag), namespace := c.namespace + [r.tag]))
        else Some(c'.(phase := Replying(r.tag, Reset), namespace := []))
    case FinishCode => if c.phase.Running? then Some(c.(phase := Collecting(c.phase.tag))) else None
    case StartReply => if c.phase.Collecting? then Some(c.(phase := Replying(c.phase.tag, Execute))) else None
    case Emit(last) =>
      if !c.phase.Replying? then None
      else Some(c.(stdout := c.stdout + [Fragment(c.phase.tag, c.phase.kind, c.namespace, last)],
                   phase := if last then Idle else c.phase))
    case Deliver(swallowed) =>
      if !c.sigint then None
      else if c.phase.Running? then   // KeyboardInterrupt inside user code
        Some(c.(sigint := false, phase := if swallowed then c.phase else Collecting(c.phase.tag)))
      else if c.phase.Replying? && c.phase.kind.Execute? then Some(c.(sigint := false))   // ignored
      else Some(c.(sigint := false, running := false))   // uncaught: the executor exits
    case Die => Some(c.(running := false))
    case _ => None
  }

  ghost function After(s: Sys, run: seq<Action>): Option<Sys> {
    Run(Next, s, run)
  }

  // ---------------------------------------------------------------- the invariant

  /** The calls whose code the namespace must hold, read off the outcomes alone. */
  function Replay(log: seq<Outcome>): seq<nat> {
    if log == [] then []
    else
      var i := |log| - 1;
      match log[i]
      case Answered(_, _) => Replay(log[..i]) + [i]
      case TimedOut(true) => Replay(log[..i]) + [i]
      case _ => []
  }

  /** Every reply turned into a result answers its own call, in the namespace the log promises. */
  ghost predicate Faithful(log: seq<Outcome>) {
    forall i :: 0 <= i < |log| && log[i].Answered? ==>
      log[i].tag == i && log[i].ran == Replay(log[..i]) + [i]
  }

  /** Nothing of an earlier call is left anywhere. */
  predicate Quiet(s: Sys) {
    if !s.alive then
      s.log != [] && (s.log[|s.log| - 1].Failed? || s.log[|s.log| - 1].ResetFailed?
        || s.log[|s.log| - 1] == TimedOut(false))
    else
      && s.child.stdout == []
      && (s.child.running ==>
            s.child.stdin == [] && s.child.phase.Idle? && s.child.namespace == Replay(s.log))
  }

  /** The namespace once the child has taken up the call in progress. */
  function Expected(s: Sys, kind: Kind): seq<nat> {
    if kind.Execute? then Replay(s.log) + [|s.log|] else []
  }

  ghost predicate OwnFragments(s: Sys, kind: Kind, fs: seq<Fragment>) {
    forall f :: f in fs ==> f.tag == |s.log| && f.kind == kind && f.ran == Expected(s, kind)
  }

  /** The one request in flight is on stdin, being worked on, or in its reply line. */
  ghost predicate InFlight(s: Sys, kind: Kind, line: seq<Fragment>) {
    var c := s.child;
    && s.alive
    && OwnFragments(s, kind, line) && OwnFragments(s, kind, c.stdout)
    && (forall i :: 0 <= i < |c.stdout| - 1 ==> !c.stdout[i].last)
    && (c.running ==>
          match c.phase
          case Idle =>
            || (c.stdin == [Request(|s.log|, kind)] && c.stdout == [] && c.namespace == Replay(s.log))
            || (c.stdin == [] && c.stdout != [] && c.stdout[|c.stdout| - 1].last && c.namespace == Expected(s, kind))
          case Replying(tag, k) =>
            && tag == |s.log| && k == kind && c.stdin == [] && c.namespace == Expected(s, kind)
            && (c.stdout != [] ==> !c.stdout[|c.stdout| - 1].last)
          case _ =>
            && c.phase.tag == |s.log| && kind.Execute? && c.stdin == [] && c.stdout == []
            && c.namespace == Expected(s, kind))
  }

  ghost predicate Inv(s: Sys) {
    && Faithful(s.log)
    && s.calls == |s.log| + (if s.pc.Ready? then 0 else 1)
    && match s.pc
       case Ready => Quiet(s)
       case Starting(_) => Quiet(s)
       case Reading(kind, line) => InFlight(s, kind, line)
       case Interrupting => InFlight(s, Execute, [])
       case Grace(line) => InFlight(s, Execute, line)
       case Killing => true
  }

  lemma ReturnKeepsLog(s: Sys, o: Outcome)
    requires Faithful(s.log)
    requires o.Answered? ==> o.tag == |s.log| && o.ran == Replay(s.log) + [|s.log|]
    ensures Faithful(s.log + [o])
  {
    var log' := s.log + [o];
    forall i | 0 <= i < |log'| && log'[i].Answered?
      ensures log'[i].tag == i && log'[i].ran == Replay(log'[..i]) + [i]
    {
      assert log'[..i] == s.log[..i];
      assert s.log[..|s.log|] == s.log;
    }
  }

  lemma ReplaySnoc(log: seq<Outcome>, o: Outcome)
    ensures Replay(log + [o]) == if o.Answered? || o == TimedOut(true) then Replay(log) + [|log|] else []
  {
    assert (log + [o])[..|log|] == log;
  }

  lemma LineReadKeepsInv(s: Sys, line: seq<Fragment>, parsed: bool)
    requires Awaiting(s.pc)
    requires Faithful(s.log) && s.calls == |s.log| + 1
    requires parsed ==> CanParse(line, Wanted(s.pc)) && s.alive
    requires OwnFragments(s, Wanted(s.pc), line)
    requires s.alive ==> s.child.stdout == []
    requires s.alive && s.child.running ==>
               && (parsed || Wanted(s.pc).Execute?)
               && s.child.stdin == [] && s.child.phase.Idle? && s.child.namespace == Expected(s, Wanted(s.pc))
    ensures Inv(LineRead(s, line, parsed))
  {
    var s' := LineRead(s, line, parsed);
    if s'.pc.Ready? {
      if parsed { assert line[|line| - 1] in line; }
      ReturnKeepsLog(s, s'.log[|s.log|]);
      ReplaySnoc(s.log, s'.log[|s.log|]);
    }
  }

  lemma ReadFragmentKeepsInv(s: Sys)
    requires Inv(s) && Next(s, ReadFragment).Some?
    ensures Inv(Next(s, ReadFragment).value)
  {
    assert s.child.stdout[0] in s.child.stdout;
    assert InFlight(s, Wanted(s.pc), s.pc.line);
  }

  lemma ReadKeepsInv(s: Sys, a: Action)
    requires Inv(s) && Next(s, a).Some?
    requires a.EndLine? || a.EndOfFile?
    ensures Inv(Next(s, a).value)
  {
    assert InFlight(s, Wanted(s.pc), s.pc.line);
    if a.EndOfFile? {
      LineReadKeepsInv(s.(alive := s.alive && s.pc.line != []), s.pc.line, a.parsed);
    } else {
      var f := s.child.stdout[0];
      assert f in s.child.stdout;
      assert |s.child.stdout| == 1;
      LineReadKeepsInv(s.(child := s.child.(stdout := s.child.stdout[1..])), s.pc.line + [f], a.parsed);
    }
  }

  lemma ChildKeepsInFlight(s: Sys, a: Action, c: Child, kind: Kind, line: seq<Fragment>)
    requires InFlight(s, kind, line) && s.child.running && ChildNext(s.child, a) == Some(c)
    ensures InFlight(s.(child := c), kind, line)
  {
    var s' := s.(child := c);
    assert Expected(s', kind) == Expected(s, kind);
    if a.PickUp? {
      assert c.stdout == [];
    } else if a.Emit? {
      EmitKeepsInFlight(s, a.last, c, kind, line);
    }
  }

  lemma EmitKeepsInFlight(s: Sys, last: bool, c: Child, kind: Kind, line: seq<Fragment>)
    requires InFlight(s, kind, line) && s.child.running && ChildNext(s.child, Emit(last)) == Some(c)
    ensures InFlight(s.(child := c), kind, line)
  {
    var f := Fragment(s.child.phase.tag, s.child.phase.kind, s.child.namespace, last);
    assert c.stdout == s.child.stdout + [f];
    assert Expected(s.(child := c), kind) == Expected(s, kind);
  }

  lemma ChildKeepsInv(s: Sys, a: Action, c: Child)
    requires Inv(s) && s.child.running && ChildNext(s.child, a) == Some(c)
    ensures Inv(s.(child := c))
  {
    match s.pc
    case Reading(kind, line) => ChildKeepsInFlight(s, a, c, kind, line);
    case Interrupting => ChildKeepsInFlight(s, a, c, Execute, []);
    case Grace(line) => ChildKeepsInFlight(s, a, c, Execute, line);
    case _ =>
  }

  lemma RespawnKeepsInv(s: Sys, ok: bool)
    requires Inv(s) && Next(s, Respawn(ok)).Some?
    ensures Inv(Next(s, Respawn(ok)).value)
  {
    var s' := Next(s, Respawn(ok)).value;
    if s'.pc.Ready? {
      ReturnKeepsLog(s, s'.log[|s.log|]);
      ReplaySnoc(s.log, s'.log[|s.log|]);
    } else {
      assert s.log != [] && Replay(s.log) == [];
    }
  }

  lemma SendKeepsInv(s: Sys, ok: bool)
    requires Inv(s) && Next(s, Send(ok)).Some?
    ensures Inv(Next(s, Send(ok)).value)
  {
    var s' := Next(s, Send(ok)).value;
    if ok {
      assert s'.child.stdout == [] && s'.log == s.log;
    } else {
      ReturnKeepsLog(s, s'.log[|s.log|]);
      ReplaySnoc(s.log, s'.log[|s.log|]);
    }
  }

  lemma ControlKeepsInv(s: Sys, a: Action)
    requires Inv(s) && Next(s, a).Some? && (a.BeginCall? || a.Timeout? || a.Signal?)
    ensures Inv(Next(s, a).value)
  {
  }

  lemma KillKeepsInv(s: Sys, ok: bool)
    requires Inv(s) && Next(s, Kill(ok)).Some?
    ensures Inv(Next(s, Kill(ok)).value)
  {
    ReturnKeepsLog(s, TimedOut(false));
  }

  /** One step of host or child keeps the invariant. */
  lemma NextKeepsInv(s: Sys, a: Action)
    requires Inv(s) && Next(s, a).Some?
    ensures Inv(Next(s, a).value)
  {
    if a.ReadFragment? {
      ReadFragmentKeepsInv(s);
    } else if a.EndLine? || a.EndOfFile? {
      ReadKeepsInv(s, a);
    } else if a.Respawn? {
      RespawnKeepsInv(s, a.ok);
    } else if a.Send? {
      SendKeepsInv(s, a.ok);
    } else if a.Kill? {
      KillKeepsInv(s, a.ok);
    } else if a.BeginCall? || a.Timeout? || a.Signal? {
      ControlKeepsInv(s, a);
    } else {
      ChildKeepsInv(s, a, Next(s, a).value.child);
    }
  }

  // ---------------------------------------------------------------- results over whole runs

  /** So every run keeps it. */
  lemma StepsKeepInv()
    ensures Keeps(Next, Inv)
  {
    forall s, a | Inv(s) && Next(s, a).Some? ensures Inv(Next(s, a).value) {
      NextKeepsInv(s, a);
    }
  }

  /** In every interleaving: replies are never stale, and every call has exactly one outcome. */
  lemma NoStaleReply(unix: bool, run: seq<Action>, i: nat)
    requires After(Init(unix), run).Some?
    requires i < |After(Init(unix), run).value.log|
    ensures var s := After(Init(unix), run).value;
            && |s.log| == s.calls - (if s.pc.Ready? then 0 else 1)
            && (s.log[i].Answered? ==> s.log[i].tag == i && s.log[i].ran == Replay(s.log[..i]) + [i])
  {
    StepsKeepInv();
    RunKeeps(Next, Inv, Init(unix), run);
  }

  /** In every interleaving: between calls on a live session, the child is gone or both pipes are empty. */
  lemma QuietBetweenCalls(unix: bool, run: seq<Action>)
    requires After(Init(unix), run).Some?
    ensures var s := After(Init(unix), run).value;
            s.pc.Ready? && s.alive ==> !s.child.running || (s.child.stdin == [] && s.child.stdout == [])
  {
    StepsKeepInv();
    RunKeeps(Next, Inv, Init(unix), run);
  }

  /** In every interleaving: a successful reset, by clear or by respawn, leaves an empty namespace. */
  lemma ResetIsFresh(unix: bool, run: seq<Action>)
    requires After(Init(unix), run).Some?
    ensures var s := After(Init(unix), run).value;
            s.pc.Ready? && s.log != [] && s.log[|s.log| - 1].ResetDone? ==>
              s.alive && (s.child.running ==> s.child.namespace == [])
  {
    StepsKeepInv();
    RunKeeps(Next, Inv, Init(unix), run);
  }

  /** What any run guarantees about the call that has just returned `r`. */
  lemma CallResult(unix: bool, run: seq<Action>, s: Sys, before: seq<Outcome>, r: Outcome)
    requires After(Init(unix), run) == Some(s) && s.pc.Ready? && s.log == before + [r]
    ensures r.Answered? ==> r.tag == |before| && r.ran == Replay(before) + [|before|]
    ensures s.alive && s.child.running ==>
              s.child.stdin == [] && s.child.stdout == [] && s.child.namespace == Replay(s.log)
    ensures r.ResetDone? ==> s.alive && (s.child.running ==> s.child.namespace == [])
  {
    StepsKeepInv();
    RunKeeps(Next, Inv, Init(unix), run);
    assert s.log[..|before|] == before && s.log[|before|] == r;
  }

  /** What the reset in flight still needs from the child before its reply is on the pipe. */
  function ResetRank(s: Sys): nat {
    if !s.child.running then 0 else if s.child.stdin != [] then 2 else if s.child.phase.Replying? then 1 else 0
  }

  /** A reset has no timeout, and needs none: from every reachable state it can still return, with no crash. */
  lemma {:induction false} ResetCanReturn(s: Sys) returns (run: seq<Action>)
    requires Inv(s) && s.pc.Reading? && s.pc.kind.Reset?
    ensures forall a :: a in run ==> !a.Die? && !a.Kill?
    ensures After(s, run).Some? && After(s, run).value.pc.Ready?
    ensures s.child.running ==> After(s, run).value.log == s.log + [ResetDone]
    decreases ResetRank(s), |s.child.stdout|
  {
    var a;
    if s.child.stdout == [] {
      a := if !s.child.running then EndOfFile(false) else if s.child.phase.Idle? then PickUp else Emit(true);
    } else {
      assert s.child.stdout[0] in s.child.stdout;
      if s.child.stdout[0].last {
        assert CanParse(s.pc.line + [s.child.stdout[0]], Reset);
        a := EndLine(true);
      } else {
        a := ReadFragment;
        if s.child.running && |s.child.stdout| == 1 && s.child.phase.Replying? { a := Emit(true); }
      }
    }
    var s' := Next(s, a).value;
    var rest := [];
    if !s'.pc.Ready? {
      NextKeepsInv(s, a);
      rest := ResetCanReturn(s');
    }
    run := [a] + rest;
    RunCons(Next, s, a, rest);
  }
}
