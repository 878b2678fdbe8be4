/**
  `PythonSession` itself: the object whose methods drive the protocol.  Each method follows
  the control flow of its Rust counterpart and records the protocol action it takes, so a
  session is always in a state that some run of the transition system reaches.

  Waiting is bounded by a number of turns, in each of which the child may take a step or
  the host may read: `timeout` and `grace` are the two time limits of an execute, and
  `patience` is how long a reset is observed.
*/
module PythonSessions {
  import opened Wrappers
  import opened Runs
  import opened SessionProtocol

  /** How one `read_response` ended; `Pending` when its time ran out. */
  datatype Response = Parsed(reply: Fragment) | Unparsed | Closed | Pending

  /**
    What an execute makes of the reading of its reply: a reply read whole and parsed in time
    is the answer and keeps the session; one that is broken or missing loses it; one that is
    late goes to the interrupt.
  */
  predicate UsesReply(got: Response, r: Outcome, alive: bool) {
    match got
    case Parsed(reply) => r == Answered(reply.tag, reply.ran) && alive
    case Pending => r.TimedOut? && (alive <==> r.interrupted)
    case _ => r == Failed && !alive
  }

  /** Of what was on the pipe and what came later, `text` has been read and `out` not; a turn reads what it can. */
  ghost predicate ReadSoFar(all: seq<Fragment>, text: seq<Fragment>, out: seq<Fragment>, turns: nat) {
    && all <= text + out && (forall i :: 0 <= i < |text| ==> !text[i].last)
    && (turns <= |text| || |all| <= |text|)
  }

  lemma ReadMore(all: seq<Fragment>, text: seq<Fragment>, out: seq<Fragment>, now: seq<Fragment>, turns: nat)
    requires ReadSoFar(all, text, out, turns) && out <= now && now != [] && !now[0].last
    ensures ReadSoFar(all, text + [now[0]], now[1..], turns + 1)
  {
    assert text + [now[0]] + now[1..] == text + now;
    assert text + out <= text + now;
  }

  lemma ReadNothing(all: seq<Fragment>, text: seq<Fragment>, out: seq<Fragment>, turns: nat)
    requires ReadSoFar(all, text, out, turns) && out == []
    ensures ReadSoFar(all, text, out, turns + 1)
  {
  }

  lemma NoLineYet(all: seq<Fragment>, text: seq<Fragment>, out: seq<Fragment>, turns: nat)
    requires ReadSoFar(all, text, out, turns)
    ensures !LineWithin(all, turns)
  {
    forall i | 0 <= i < |all| && i < turns ensures !all[i].last {
      assert all[i] == (text + out)[i];
    }
  }

  /** A whole line ends within the first n fragments. */
  ghost predicate LineWithin(out: seq<Fragment>, n: nat) {
    exists i :: 0 <= i < |out| && i < n && out[i].last
  }

  class PythonSession {
    const unix: bool
    const parses: seq<Fragment> -> bool   // whether a line of the right type deserializes
    const spawns: nat -> bool             // whether a process can be started during a call
    var alive: bool
    var child: Child
    var calls: nat   // the model's numbering of calls; nothing branches on it
    ghost var log: seq<Outcome>
    ghost var trace: seq<Action>
    ghost var clock: nat   // turns that the host has waited

    ghost function State(pc: Pc): Sys
      reads this
    {
      Sys(unix, alive, child, pc, calls, log)
    }

    /** The recorded run has led here, with the host at `pc`. */
    ghost predicate At(pc: Pc)
      reads this
    {
      After(Init(unix), trace) == Some(State(pc))
    }

    constructor (unix: bool, parses: seq<Fragment> -> bool, spawns: nat -> bool)
      ensures At(Ready) && log == [] && alive && child == FRESH_CHILD
      ensures this.unix == unix && this.parses == parses && this.spawns == spawns
    {
      this.unix, this.parses, this.spawns := unix, parses, spawns;
      alive, child := true, FRESH_CHILD;
      calls, log, trace, clock := 0, [], [], 0;
    }

    /** A turn of waiting: the child may take a step of its own. */
    method Wait(ghost pc: Pc)
      requires At(pc)
      modifies this`child, this`trace, this`clock
      ensures At(pc) && old(child.stdout) <= child.stdout && clock == old(clock) + 1
      ensures !old(child.running) ==> child == old(child)
    {
      var a: Action := *;
      var c := ChildNext(child, a);
      if child.running && c.Some? {
        RunSnoc(Next, Init(unix), trace, a);
        child, trace := c.value, trace + [a];
      }
      clock := clock + 1;
    }

    /** A fresh process with fresh pipes, if the spawn succeeds. */
    method Spawn(ghost kind: Kind) returns (ok: bool)
      requires At(Starting(kind)) && !alive
      modifies this`alive, this`child, this`log, this`trace
      ensures alive == ok == spawns(calls) && (ok ==> child == FRESH_CHILD)
      ensures ok && kind.Execute? ==> At(Starting(kind)) && log == old(log)
      ensures ok && kind.Reset? ==> At(Ready) && log == old(log) + [ResetDone]
      ensures !ok ==> At(Ready) && log == old(log) + [if kind.Execute? then Failed else ResetFailed]
    {
      ok := spawns(calls);
      RunSnoc(Next, Init(unix), trace, Respawn(ok));
      trace := trace + [Respawn(ok)];
      if ok {
        alive, child := true, FRESH_CHILD;
      }
      if !ok || kind.Reset? {
        log := log + [if ok then ResetDone else if kind.Execute? then Failed else ResetFailed];
      }
    }

    /** Write one request line.  The host notices a failed write only when the child is gone. */
    method SendRequest(kind: Kind) returns (ok: bool)
      requires At(Starting(kind)) && alive && calls > 0
      modifies this`child, this`trace
      ensures ok ==> At(Reading(kind, []))
      ensures !ok ==> !child.running && child == old(child) && trace == old(trace)
    {
      ok := *;
      ok := ok || child.running;
      if ok {
        RunSnoc(Next, Init(unix), trace, Send(true));
        trace := trace + [Send(true)];
        child := child.(stdin := child.stdin + [Request(calls - 1, kind)]);
      }
    }

    /** A line of the right type that deserializes is parsed; without any text the stream is closed. */
    ghost predicate ParsesLine(r: Response, kind: Kind, line: seq<Fragment>) {
      && (r.Parsed? ==> CanParse(line, kind)) && (CanParse(line, kind) && parses(line) ==> r.Parsed?)
      && (r.Closed? <==> line == [])
    }

    /** The newline or the end of the stream has been reached: parse what was read. */
    method EndRead(ghost pc: Pc, kind: Kind, text: seq<Fragment>) returns (r: Response, ghost line: seq<Fragment>)
      requires Awaiting(pc) && pc.line == [] && Wanted(pc) == kind && At(pc.(line := text))
      requires if child.stdout == [] then !child.running else child.stdout[0].last
      modifies this`alive, this`child, this`trace
      ensures !r.Pending? && alive == (old(alive) && !r.Closed?) && ParsesLine(r, kind, line)
      ensures r.Parsed? ==> line != [] && r.reply == line[|line| - 1]
      ensures After(Init(unix), trace) == Some(LineRead(State(pc), line, r.Parsed?))
    {
      var whole := child.stdout != [];
      var full := if whole then text + [child.stdout[0]] else text;
      var parsed := CanParse(full, kind) && (parses(full) || (whole && kind.Reset?));
      ghost var end := if whole then EndLine(parsed) else EndOfFile(parsed);
      RunSnoc(Next, Init(unix), trace, end);
      trace, line := trace + [end], full;
      if whole {
        child := child.(stdout := child.stdout[1..]);
      }
      if full == [] {
        alive := false;
        r := Closed;
      } else {
        r := if parsed then Parsed(full[|full| - 1]) else Unparsed;
      }
    }

    /**
      Read one line and parse it as a reply to `kind`, for at most `turns` turns.  When the
      read ends, the recorded run is already at the state its result leads to.
    */
    method ReadResponse(ghost pc: Pc, kind: Kind, turns: nat) returns (r: Response, ghost line: seq<Fragment>)
      requires At(pc) && Awaiting(pc) && pc.line == [] && Wanted(pc) == kind
      modifies this`alive, this`child, this`trace, this`clock
      ensures r.Pending? ==> At(pc.(line := line)) && alive == old(alive) && clock == old(clock) + turns
      ensures r.Parsed? ==> line != [] && r.reply == line[|line| - 1]
      ensures !r.Pending? ==> After(Init(unix), trace) == Some(LineRead(State(pc), line, r.Parsed?))
      ensures !r.Pending? ==> ParsesLine(r, kind, line)
      ensures LineWithin(old(child.stdout), turns) ==> !r.Pending?
      ensures !old(child.running) && |old(child.stdout)| < turns ==> !r.Pending?
      ensures alive == (old(alive) && !r.Closed?) && clock >= old(clock)
    {
      var text: seq<Fragment> := [];
      r := Pending;
      for k := 0 to turns
        invariant At(pc.(line := text)) && r.Pending? && alive == old(alive) && clock == old(clock) + k
        invariant ReadSoFar(old(child.stdout), text, child.stdout, k)
        invariant !old(child.running) ==> !child.running && k <= |text| && text + child.stdout == old(child.stdout)
      {
        ghost var before := child.stdout;
        Wait(pc.(line := text));
        if child.stdout != [] && !child.stdout[0].last {
          ReadMore(old(child.stdout), text, before, child.stdout, k);
          text := TakeFragment(pc, text);
        } else if child.stdout != [] || !child.running {
          r, line := EndRead(pc, kind, text);
          return;
        } else {
          ReadNothing(old(child.stdout), text, before, k);
        }
      }
      NoLineYet(old(child.stdout), text, child.stdout, turns);
      line := text;
    }

    /** One more piece of the line. */
    method TakeFragment(ghost pc: Pc, text: seq<Fragment>) returns (more: seq<Fragment>)
      requires Awaiting(pc) && pc.line == [] && At(pc.(line := text))
      requires child.stdout != [] && !child.stdout[0].last
      modifies this`child, this`trace
      ensures At(pc.(line := more)) && more == text + [old(child.stdout[0])]
      ensures child == old(child).(stdout := old(child.stdout[1..]))
    {
      RunSnoc(Next, Init(unix), trace, ReadFragment);
      trace := trace + [ReadFragment];
      more := text + [child.stdout[0]];
      child := child.(stdout := child.stdout[1..]);
    }

    /** SIGINT, then one more read.  True when a reply came and the session lives on. */
    method TryInterrupt(grace: nat) returns (interrupted: bool, ghost got: Option<Response>)
      requires At(Interrupting) && alive
      modifies this`alive, this`child, this`trace, this`clock
      ensures (got.Some? <==> unix) && (interrupted <==> got.Some? && got.value.Parsed?)
      ensures clock >= old(clock) && (got == Some(Pending) ==> clock == old(clock) + grace)
      ensures interrupted ==> alive
      ensures !interrupted ==> At(Killing)
      ensures interrupted ==> After(Init(unix), trace) == Some(Return(State(Killing), TimedOut(true)))
    {
      RunSnoc(Next, Init(unix), trace, Signal);
      trace := trace + [Signal];
      if !unix {
        return false, None;
      }
      child := child.(sigint := child.running);
      ghost var line;
      var r;
      r, line := ReadResponse(Grace([]), Execute, grace);
      if r.Pending? {
        RunSnoc(Next, Init(unix), trace, Timeout);
        trace := trace + [Timeout];
      }
      return r.Parsed?, Some(r);
    }

    /** Nothing came in time: interrupt, and kill when that does not bring a reply either. */
    method GiveUp(grace: nat) returns (interrupted: bool, ghost got: Option<Response>)
      requires At(Interrupting) && alive
      modifies this`alive, this`child, this`log, this`trace, this`clock
      ensures At(Ready) && log == old(log) + [TimedOut(interrupted)]
      ensures alive == interrupted
      ensures (got.Some? <==> unix) && (interrupted <==> got.Some? && got.value.Parsed?)
      ensures clock >= old(clock) && (got == Some(Pending) ==> clock == old(clock) + grace)
    {
      interrupted, got := TryInterrupt(grace);
      if !interrupted {
        var killed: bool := *;
        RunSnoc(Next, Init(unix), trace, Kill(killed));
        trace := trace + [Kill(killed)];
        child := child.(running := child.running && !killed);
        alive := false;
      }
      log := log + [TimedOut(interrupted)];
    }

    /** Wait for the reply to the execute just sent; `got` is how reading it ended. */
    method AwaitReply(timeout: nat, grace: nat) returns (r: Outcome, ghost got: Response)
      requires At(Reading(Execute, [])) && alive
      modifies this`alive, this`child, this`log, this`trace, this`clock
      ensures At(Ready) && log == old(log) + [r]
      ensures UsesReply(got, r, alive) && (r.TimedOut? ==> clock >= old(clock) + timeout)
      ensures alive ==> r.Answered? || r == TimedOut(true)
    {
      ghost var line;
      var response;
      response, line := ReadResponse(Reading(Execute, []), Execute, timeout);
      got := response;
      if response.Pending? {
        RunSnoc(Next, Init(unix), trace, Timeout);
        trace := trace + [Timeout];
        ghost var last;
        var interrupted;
        interrupted, last := GiveUp(grace);
        r := TimedOut(interrupted);
        return;
      }
      if response.Parsed? {
        r := Answered(response.reply.tag, response.reply.ran);
      } else {
        alive := false;
        r := Failed;
      }
      log := log + [r];
    }

    /** Run code.  A reply that becomes a result answers this call, in the namespace the log promises. */
    method ExecuteWithOutputs(timeout: nat, grace: nat) returns (r: Outcome, ghost got: Option<Response>)
      requires At(Ready)
      modifies this
      ensures At(Ready) && log == old(log) + [r]
      ensures r.Answered? ==> r.tag == |old(log)| && r.ran == Replay(old(log)) + [|old(log)|]
      ensures if got.Some? then UsesReply(got.value, r, alive) else r == Failed && !alive
      ensures (if old(alive) then old(child.running) else spawns(old(calls) + 1)) ==> got.Some?
      ensures r.TimedOut? ==> clock >= old(clock) + timeout
      ensures alive ==> r.Answered? || r == TimedOut(true)
      ensures alive && child.running ==> child.stdin == [] && child.stdout == [] && child.namespace == Replay(log)
    {
      ghost var before := log;
      RunSnoc(Next, Init(unix), trace, BeginCall(Execute));
      trace, calls := trace + [BeginCall(Execute)], calls + 1;
      if !alive {
        var spawned := Spawn(Execute);
        if !spawned {
          return Failed, None;
        }
      }
      var sent := SendRequest(Execute);
      got := None;
      if sent {
        ghost var how;
        r, how := AwaitReply(timeout, grace);
        got := Some(how);
      } else {
        RunSnoc(Next, Init(unix), trace, Send(false));
        trace, alive, log := trace + [Send(false)], false, log + [Failed];
        r := Failed;
      }
      CallResult(unix, trace, State(Ready), before, r);
    }

    /** Clear the namespace, or start over with a new child.  None when the reply is still awaited. */
    method Reset(patience: nat) returns (r: Option<Outcome>)
      requires At(Ready)
      modifies this
      ensures r.Some? ==> At(Ready) && log == old(log) + [r.value] && (r.value.ResetDone? || r.value.ResetFailed?)
      ensures !old(alive) ==> r == Some(if spawns(old(calls) + 1) then ResetDone else ResetFailed)
      ensures r == Some(ResetDone) ==> alive && (child.running ==> child.namespace == [])
      ensures r.None? ==> clock == old(clock) + patience && exists line :: At(Reading(SessionProtocol.Reset, line))
    {
      RunSnoc(Next, Init(unix), trace, BeginCall(SessionProtocol.Reset));
      trace, calls := trace + [BeginCall(SessionProtocol.Reset)], calls + 1;
      if !alive {
        var spawned := Spawn(SessionProtocol.Reset);
        ResetIsFresh(unix, trace);
        return Some(if spawned then ResetDone else ResetFailed);
      }
      var sent := SendRequest(SessionProtocol.Reset);
      if !sent {
        RunSnoc(Next, Init(unix), trace, Send(false));
        trace, log := trace + [Send(false)], log + [ResetFailed];
        return Some(ResetFailed);
      }
      ghost var line;
      var response;
      response, line := ReadResponse(Reading(SessionProtocol.Reset, []), SessionProtocol.Reset, patience);
      if response.Pending? {
        return None;
      }
      var done := response.Parsed?;
      log := log + [if done then ResetDone else ResetFailed];
      ResetIsFresh(unix, trace);
      return Some(if done then ResetDone else ResetFailed);
    }
  }
}
