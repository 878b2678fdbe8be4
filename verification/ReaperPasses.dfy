/**
  Which sessions the reaper removes.  A pass removes exactly the entries whose session was
  free and had not been used for an hour when the pass came to it; the time of last use is
  read off the run, not off the session's own stamp.
*/
module ReaperPasses {
  import opened Wrappers
  import opened Runs
  import opened SessionTable

  // ---------------------------------------------------------------- time and last use

  /** The time that has passed in a run. */
  function Elapsed(run: seq<Action>): nat {
    if run == [] then 0
    else Elapsed(run[..|run| - 1]) + (if run[|run| - 1].Tick? then run[|run| - 1].secs else 0)
  }

  ghost predicate IsRun(ids: seq<SessionId>, run: seq<Action>) {
    After(Initial(ids), run).Some?
  }

  ghost function Reached(ids: seq<SessionId>, run: seq<Action>): Sys
    requires IsRun(ids, run)
  {
    After(Initial(ids), run).value
  }

  /** A run up to its last action is a run, and the last action is a step from there. */
  lemma LastStep(ids: seq<SessionId>, run: seq<Action>)
    requires IsRun(ids, run) && run != []
    ensures IsRun(ids, run[..|run| - 1])
    ensures Next(Reached(ids, run[..|run| - 1]), run[|run| - 1]) == Some(Reached(ids, run))
  {
    var n := |run| - 1;
    assert run == run[..n] + [run[n]];
    PrefixIsRun(Initial(ids), run[..n], [run[n]]);
    RunSnoc(Next, Initial(ids), run[..n], run[n]);
  }

  lemma {:induction false} PrefixIsRun(s: Sys, run: seq<Action>, more: seq<Action>)
    requires After(s, run + more).Some?
    ensures After(s, run).Some?
    decreases |run|
  {
    if run != [] {
      assert (run + more)[1..] == run[1..] + more;
      PrefixIsRun(Next(s, run[0]).value, run[1..], more);
    }
  }

  lemma ReachedInv(ids: seq<SessionId>, run: seq<Action>)
    requires IsRun(ids, run)
    ensures Inv(Reached(ids, run))
  {
    InitialInv(ids);
    StepsKeepInv();
    RunKeeps(Next, Inv, Initial(ids), run);
  }

  /** When session h was last used: the last time a call inside it stamped it, or its creation. */
  ghost function LastUse(ids: seq<SessionId>, run: seq<Action>, h: nat): nat
    requires IsRun(ids, run) && h < |Reached(ids, run).sessions|
    decreases |run|
  {
    if run == [] then 0
    else
      LastStep(ids, run);
      var before, a := run[..|run| - 1], run[|run| - 1];
      var s := Reached(ids, before);
      if h >= |s.sessions| then Elapsed(before)
      else if a.Touch? && a.c < |s.callers| && s.callers[a.c].phase == InSession(h) then Elapsed(before)
      else LastUse(ids, before, h)
  }

  /** The clock shows the time that has passed. */
  lemma {:induction false} ClockIsElapsed(ids: seq<SessionId>, run: seq<Action>)
    requires IsRun(ids, run)
    ensures Reached(ids, run).now == Elapsed(run)
    decreases |run|
  {
    if run != [] {
      LastStep(ids, run);
      ClockIsElapsed(ids, run[..|run| - 1]);
    }
  }

  lemma StampStep(s: Sys, a: Action, h: nat)
    requires Next(s, a).Some? && h < |Next(s, a).value.sessions|
    ensures Next(s, a).value.sessions[h].lastActive
            == if h >= |s.sessions| || (a.Touch? && s.callers[a.c].phase == InSession(h)) then s.now
               else s.sessions[h].lastActive
  {
  }

  /** The stamp of a session is the time of its last use. */
  lemma {:induction false} StampIsLastUse(ids: seq<SessionId>, run: seq<Action>, h: nat)
    requires IsRun(ids, run) && h < |Reached(ids, run).sessions|
    ensures Reached(ids, run).sessions[h].lastActive == LastUse(ids, run, h)
    decreases |run|
  {
    if run != [] {
      LastStep(ids, run);
      var before := run[..|run| - 1];
      ClockIsElapsed(ids, before);
      StampStep(Reached(ids, before), run[|run| - 1], h);
      if h < |Reached(ids, before).sessions| { StampIsLastUse(ids, before, h); }
    }
  }

  // ---------------------------------------------------------------- what a probe finds

  /** The entry of id: nobody is inside its session, and its last use was at least an hour ago. */
  ghost predicate FreeAndUnused(ids: seq<SessionId>, run: seq<Action>, id: SessionId) {
    && IsRun(ids, run)
    && var s := Reached(ids, run);
       && id in s.table && s.table[id] < |s.sessions|
       && s.sessions[s.table[id]].lock.None?
       && Elapsed(run) - LastUse(ids, run, s.table[id]) >= 3600
  }

  lemma IdleIffFreeAndUnused(ids: seq<SessionId>, run: seq<Action>, id: SessionId)
    requires IsRun(ids, run) && id in Reached(ids, run).table
    ensures Reached(ids, run).table[id] < |Reached(ids, run).sessions|
    ensures Idle(Reached(ids, run), Reached(ids, run).table[id]) <==> FreeAndUnused(ids, run, id)
  {
    ReachedInv(ids, run);
    ClockIsElapsed(ids, run);
    StampIsLastUse(ids, run, Reached(ids, run).table[id]);
  }

  // ---------------------------------------------------------------- what is removed was idle

  /** In the pass still going on, the i-th action probed id and found its present session free and unused. */
  ghost predicate FoundIdleAt(ids: seq<SessionId>, run: seq<Action>, id: SessionId, i: nat) {
    && IsRun(ids, run) && i < |run| && run[i] == Probe(id) && BeginPass !in run[i..] && EndPass !in run[i..]
    && FreeAndUnused(ids, run[..i], id) && id in Reached(ids, run).table
    && Reached(ids, run).table[id] == Reached(ids, run[..i]).table[id]
  }

  /** While the reaper scans, a step changes no entry but the one it removes. */
  lemma ScanningKeepsEntry(s: Sys, a: Action, id: SessionId)
    requires Inv(s) && s.reaper.Scanning? && Next(s, a).Some? && id in s.table && a != Remove(id)
    ensures id in Next(s, a).value.table && Next(s, a).value.table[id] == s.table[id]
  {
  }

  lemma FoundEarlier(ids: seq<SessionId>, run: seq<Action>, id: SessionId, i: nat)
    requires IsRun(ids, run) && run != []
    requires FoundIdleAt(ids, run[..|run| - 1], id, i)
    requires !run[|run| - 1].BeginPass? && !run[|run| - 1].EndPass?
    requires id in Reached(ids, run).table && Reached(ids, run).table[id] == Reached(ids, run[..|run| - 1]).table[id]
    ensures FoundIdleAt(ids, run, id, i)
  {
    var n := |run| - 1;
    assert run[..n][..i] == run[..i];
    assert run[i..] == run[..n][i..] + [run[n]];
  }

  /** In every run: whatever is doomed was found free and unused in this very pass. */
  lemma {:induction false} DoomedWasIdle(ids: seq<SessionId>, run: seq<Action>, id: SessionId) returns (i: nat)
    requires IsRun(ids, run) && Reached(ids, run).reaper.Scanning? && id in Reached(ids, run).reaper.doomed
    ensures FoundIdleAt(ids, run, id, i)
    decreases |run|
  {
    LastStep(ids, run);
    var n := |run| - 1;
    var before, a := run[..n], run[n];
    var s := Reached(ids, before);
    ReachedInv(ids, before);
    DoomedStep(s, a, id);
    if s.reaper.Scanning? && id in s.reaper.doomed {
      i := DoomedWasIdle(ids, before, id);
      FoundEarlier(ids, run, id, i);
    } else {
      IdleIffFreeAndUnused(ids, before, id);
      i := n;
      assert run[n..] == [a];
    }
  }

  /** A step after which id is doomed leaves its entry alone, and it was doomed before or is found idle now. */
  lemma DoomedStep(s: Sys, a: Action, id: SessionId)
    requires Inv(s) && Next(s, a).Some?
    requires Next(s, a).value.reaper.Scanning? && id in Next(s, a).value.reaper.doomed
    ensures s.reaper.Scanning? && !a.BeginPass? && !a.EndPass? && id in s.table && s.table[id] < |s.sessions|
    ensures id in Next(s, a).value.table && Next(s, a).value.table[id] == s.table[id]
    ensures id in s.reaper.doomed || (a == Probe(id) && Idle(s, s.table[id]))
  {
    if id in s.table && a != Remove(id) && s.reaper.Scanning? { ScanningKeepsEntry(s, a, id); }
  }

  /**
    In every run: an entry that the reaper can remove was probed in the same pass, and its
    session was then free and had not been used for an hour.
  */
  lemma RemovedWasIdle(ids: seq<SessionId>, run: seq<Action>, id: SessionId) returns (i: nat)
    requires IsRun(ids, run) && Next(Reached(ids, run), Remove(id)).Some?
    ensures FoundIdleAt(ids, run, id, i)
  {
    i := DoomedWasIdle(ids, run, id);
  }

  // ---------------------------------------------------------------- the fate of every entry

  /** After its probe: doomed exactly if it was found idle, and not probed again. */
  ghost predicate Decided(s: Sys, id: SessionId, h: nat, idle: bool) {
    && s.reaper.Scanning? && id !in s.reaper.todo
    && (id in s.reaper.doomed ==> idle)
    && (id in s.table ==> s.table[id] == h && (idle ==> id in s.reaper.doomed))
    && (!idle ==> id in s.table)
  }

  lemma DecidedStays(s: Sys, a: Action, id: SessionId, h: nat, idle: bool)
    requires Inv(s) && Decided(s, id, h, idle) && Next(s, a).Some? && !a.EndPass?
    ensures Decided(Next(s, a).value, id, h, idle)
  {
    if id in s.table && a != Remove(id) { ScanningKeepsEntry(s, a, id); }
  }

  lemma {:induction false} DecidedInRun(s: Sys, run: seq<Action>, id: SessionId, h: nat, idle: bool)
    requires Inv(s) && Decided(s, id, h, idle) && After(s, run).Some? && EndPass !in run
    ensures Decided(After(s, run).value, id, h, idle)
    decreases |run|
  {
    if run != [] {
      NextKeepsInv(s, run[0]);
      DecidedStays(s, run[0], id, h, idle);
      DecidedInRun(Next(s, run[0]).value, run[1..], id, h, idle);
    }
  }

  /**
    In every run: when a pass that has probed an entry can end, the entry is gone if its
    session was found free and unused for an hour; if it was locked at the probe, or used
    within the hour before, it is still there, with the same session.
  */
  lemma ProbeDecides(ids: seq<SessionId>, run: seq<Action>, id: SessionId, rest: seq<Action>)
    requires IsRun(ids, run) && Next(Reached(ids, run), Probe(id)).Some?
    requires After(Next(Reached(ids, run), Probe(id)).value, rest).Some? && EndPass !in rest
    ensures var s, t := Reached(ids, run), After(Next(Reached(ids, run), Probe(id)).value, rest).value;
            && (!FreeAndUnused(ids, run, id) ==>
                  id in t.table && t.table[id] == s.table[id] && Next(t, Remove(id)).None?)
            && (FreeAndUnused(ids, run, id) && Next(t, EndPass).Some? ==> id !in t.table)
  {
    var s := Reached(ids, run);
    var s' := Next(s, Probe(id)).value;
    ReachedInv(ids, run);
    IdleIffFreeAndUnused(ids, run, id);
    NextKeepsInv(s, Probe(id));
    NotDoomedBefore(ids, run, id);
    DecidedInRun(s', rest, id, s.table[id], FreeAndUnused(ids, run, id));
  }

  /** An entry that is still to be probed is not doomed. */
  lemma {:induction false} NotDoomedBefore(ids: seq<SessionId>, run: seq<Action>, id: SessionId)
    requires IsRun(ids, run) && Reached(ids, run).reaper.Scanning? && id in Reached(ids, run).reaper.todo
    ensures id !in Reached(ids, run).reaper.doomed
    decreases |run|
  {
    if run != [] {
      LastStep(ids, run);
      var s := Reached(ids, run[..|run| - 1]);
      if s.reaper.Scanning? && id in s.reaper.todo { NotDoomedBefore(ids, run[..|run| - 1], id); }
    }
  }

  // ---------------------------------------------------------------- a pass misses nothing

  lemma {:induction false} ProbedOrPending(s: Sys, run: seq<Action>, id: SessionId)
    requires s.reaper.Scanning? && id in s.reaper.todo && After(s, run).Some? && EndPass !in run
    ensures After(s, run).value.reaper.Scanning?
    ensures Probe(id) in run || id in After(s, run).value.reaper.todo
    decreases |run|
  {
    if run != [] {
      var t := Next(s, run[0]).value;
      if run[0] != Probe(id) {
        assert t.reaper.Scanning? && id in t.reaper.todo;
        ProbedOrPending(t, run[1..], id);
      } else {
        StaysScanning(t, run[1..]);
      }
    }
  }

  lemma {:induction false} StaysScanning(s: Sys, run: seq<Action>)
    requires s.reaper.Scanning? && After(s, run).Some? && EndPass !in run
    ensures After(s, run).value.reaper.Scanning?
    decreases |run|
  {
    if run != [] { StaysScanning(Next(s, run[0]).value, run[1..]); }
  }

  /** A pass can end only after it has probed every entry that was in the table when it began. */
  lemma PassProbesAll(s: Sys, run: seq<Action>, id: SessionId)
    requires Next(s, BeginPass).Some? && id in s.table && EndPass !in run
    requires After(Next(s, BeginPass).value, run).Some?
    requires Next(After(Next(s, BeginPass).value, run).value, EndPass).Some?
    ensures Probe(id) in run
  {
    ProbedOrPending(Next(s, BeginPass).value, run, id);
  }
}
