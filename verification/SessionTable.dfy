/**
  The session table and its reaper: a map from session ids to reference-counted sessions,
  behind one lock, with a lock inside each session.  Callers take the map lock, clone a
  handle, release the map lock and only then wait for the session.  The reaper holds the
  map lock for a whole pass and only tries session locks.
*/
module SessionTable {
  import opened Wrappers
  import opened Runs

  type SessionId = string

  const SESSION_TTL: nat := 3600

  datatype Session = Session(id: SessionId, lock: Option<nat>, lastActive: nat, refs: nat, dropped: bool)

  datatype Phase = Start | InMap | HasHandle(h: nat) | InSession(h: nat) | Done

  datatype Caller = Caller(id: SessionId, phase: Phase)

  datatype Holder = ByCaller(c: nat) | ByReaper

  /** `todo` are the entries not yet probed, `doomed` those found idle in this pass. */
  datatype Reaper = Sleeping | Scanning(todo: set<SessionId>, doomed: set<SessionId>)

  /** What happened to the entries of the table, in order. */
  datatype Event = Granted(id: SessionId, h: nat) | Reaped(id: SessionId)

  datatype Sys = Sys(table: map<SessionId, nat>, mapLock: Option<Holder>, sessions: seq<Session>,
                     callers: seq<Caller>, reaper: Reaper, now: nat,
                     log: seq<Event>)

  datatype Action =
    | LockMap(c: nat)
    | GetHandle(c: nat, spawned: bool)
    | LockSession(c: nat)
    | Touch(c: nat)          // execute or reset stamps the session active
    | Finish(c: nat)         // unlock and drop the handle
    | Tick(secs: nat)
    | BeginPass
    | Probe(id: SessionId)
    | Remove(id: SessionId)
    | EndPass

  function Initial(ids: seq<SessionId>): Sys {
    Sys(map[], None, [], seq(|ids|, (c: nat) requires c < |ids| => Caller(ids[c], Start)), Sleeping, 0, [])
  }

  // ---------------------------------------------------------------- transitions

  /** One handle fewer; the session and its child go with the last one. */
  function Release(x: Session): Session {
    if x.refs <= 1 then x.(refs := 0, dropped := true) else x.(refs := x.refs - 1)
  }

  function SetPhase(s: Sys, c: nat, phase: Phase): Sys
    requires c < |s.callers|
  {
    s.(callers := s.callers[c := s.callers[c].(phase := phase)])
  }

  /** `session_handle` under the map lock: clone the entry, or spawn and insert one. */
  function Handle(s: Sys, c: nat, spawned: bool): Sys
    requires c < |s.callers|
    requires s.callers[c].id in s.table ==> s.table[s.callers[c].id] < |s.sessions|
  {
    var id := s.callers[c].id;
    if id in s.table then
      var h := s.table[id];
      SetPhase(s, c, HasHandle(h)).(mapLock := None, log := s.log + [Granted(id, h)],
                                    sessions := s.sessions[h := s.sessions[h].(refs := s.sessions[h].refs + 1)])
    else if spawned then
      var h := |s.sessions|;
      SetPhase(s, c, HasHandle(h)).(mapLock := None, log := s.log + [Granted(id, h)],
                                    sessions := s.sessions + [Session(id, None, s.now, 2, false)],
                                    table := s.table[id := h])
    else SetPhase(s, c, Done).(mapLock := None)
  }

  predicate Idle(s: Sys, h: nat)
    requires h < |s.sessions|
  {
    s.sessions[h].lock.None? && s.now - s.sessions[h].lastActive >= SESSION_TTL
  }

  function Next(s: Sys, a: Action): Option<Sys> {
    match a
    case LockMap(c) =>
      if c < |s.callers| && s.callers[c].phase.Start? && s.mapLock.None?
      then Some(SetPhase(s, c, InMap).(mapLock := Some(ByCaller(c)))) else None
    case GetHandle(c, spawned) =>
      if c < |s.callers| && s.callers[c].phase.InMap?
         && (s.callers[c].id in s.table ==> s.table[s.callers[c].id] < |s.sessions|)
      then Some(Handle(s, c, spawned)) else None
    case LockSession(c) =>
      if c < |s.callers| && s.callers[c].phase.HasHandle? && s.callers[c].phase.h < |s.sessions|
         && s.sessions[s.callers[c].phase.h].lock.None? then
        var h := s.callers[c].phase.h;
        Some(SetPhase(s, c, InSession(h)).(sessions := s.sessions[h := s.sessions[h].(lock := Some(c))]))
      else None
    case Touch(c) =>
      if c < |s.callers| && s.callers[c].phase.InSession? && s.callers[c].phase.h < |s.sessions| then
        var h := s.callers[c].phase.h;
        Some(s.(sessions := s.sessions[h := s.sessions[h].(lastActive := s.now)]))
      else None
    case Finish(c) =>
      if c < |s.callers| && s.callers[c].phase.InSession? && s.callers[c].phase.h < |s.sessions| then
        var h := s.callers[c].phase.h;
        Some(SetPhase(s, c, Done).(sessions := s.sessions[h := Release(s.sessions[h].(lock := None))]))
      else None
    case Tick(secs) => Some(s.(now := s.now + secs))
    case BeginPass =>
      if s.reaper.Sleeping? && s.mapLock.None?
      then Some(s.(reaper := Scanning(s.table.Keys, {}), mapLock := Some(ByReaper))) else None
    case Probe(id) =>
      if s.reaper.Scanning? && id in s.reaper.todo && id in s.table && s.table[id] < |s.sessions| then
        var doomed := if Idle(s, s.table[id]) then s.reaper.doomed + {id} else s.reaper.doomed;
        Some(s.(reaper := Scanning(s.reaper.todo - {id}, doomed)))
      else None
    case Remove(id) =>
      if s.reaper.Scanning? && s.reaper.todo == {} && id in s.reaper.doomed
         && id in s.table && s.table[id] < |s.sessions| then
        var h := s.table[id];
        Some(s.(reaper := s.reaper.(doomed := s.reaper.doomed - {id}), table := s.table - {id},
                log := s.log + [Reaped(id)], sessions := s.sessions[h := Release(s.sessions[h])]))
      else None
    case EndPass =>
      if s.reaper.Scanning? && s.reaper.todo == {} && s.reaper.doomed == {}
      then Some(s.(reaper := Sleeping, mapLock := None)) else None
  }

  ghost function After(s: Sys, run: seq<Action>): Option<Sys> {
    Run(Next, s, run)
  }

  // ---------------------------------------------------------------- counting handles

  predicate Holds(c: Caller, h: nat) {
    (c.phase.HasHandle? || c.phase.InSession?) && c.phase.h == h
  }

  function Holders(cs: seq<Caller>, h: nat): nat {
    if cs == [] then 0 else (if Holds(cs[0], h) then 1 else 0) + Holders(cs[1..], h)
  }

  lemma {:induction false} HoldersUpdate(cs: seq<Caller>, i: nat, c: Caller, h: nat)
    requires i < |cs|
    ensures Holders(cs[i := c], h)
            == Holders(cs, h) - (if Holds(cs[i], h) then 1 else 0) + (if Holds(c, h) then 1 else 0)
    decreases |cs|
  {
    if i > 0 {
      HoldersUpdate(cs[1..], i - 1, c, h);
      assert cs[i := c][1..] == cs[1..][i - 1 := c];
    } else {
      assert cs[i := c][1..] == cs[1..];
    }
  }

  lemma {:induction false} SomeoneHolds(cs: seq<Caller>, h: nat) returns (c: nat)
    requires Holders(cs, h) > 0
    ensures c < |cs| && Holds(cs[c], h)
    decreases |cs|
  {
    if Holds(cs[0], h) {
      c := 0;
    } else {
      var i := SomeoneHolds(cs[1..], h);
      c := i + 1;
    }
  }

  lemma {:induction false} HolderCounts(cs: seq<Caller>, h: nat, c: nat)
    requires c < |cs| && Holds(cs[c], h)
    ensures Holders(cs, h) > 0
    decreases |cs|
  {
    if c > 0 { HolderCounts(cs[1..], h, c - 1); }
  }

  // ---------------------------------------------------------------- the invariant

  predicate InTable(s: Sys, h: nat)
    requires h < |s.sessions|
  {
    s.sessions[h].id in s.table && s.table[s.sessions[h].id] == h
  }

  ghost predicate TableInv(s: Sys) {
    forall id :: id in s.table ==> s.table[id] < |s.sessions| && s.sessions[s.table[id]].id == id
  }

  ghost predicate MapLockInv(s: Sys) {
    && (s.mapLock == Some(ByReaper) <==> s.reaper.Scanning?)
    && (forall c :: 0 <= c < |s.callers| ==> (s.callers[c].phase.InMap? <==> s.mapLock == Some(ByCaller(c))))
    && (s.mapLock.Some? && s.mapLock.value.ByCaller? ==> s.mapLock.value.c < |s.callers|)
  }

  /** A session lock is held by exactly the caller that is inside that session. */
  ghost predicate LockInv(s: Sys) {
    && (forall h :: 0 <= h < |s.sessions| && s.sessions[h].lock.Some? ==>
          s.sessions[h].lock.value < |s.callers| && s.callers[s.sessions[h].lock.value].phase == InSession(h))
    && (forall c :: 0 <= c < |s.callers| && s.callers[c].phase.HasHandle? ==> s.callers[c].phase.h < |s.sessions|)
    && (forall c :: 0 <= c < |s.callers| && s.callers[c].phase.InSession? ==>
          s.callers[c].phase.h < |s.sessions| && s.sessions[s.callers[c].phase.h].lock == Some(c))
  }

  /** The reference count is the number of handles: one per caller holding it and one in the table. */
  ghost predicate RefInv(s: Sys) {
    forall h :: 0 <= h < |s.sessions| ==>
      && s.sessions[h].refs == Holders(s.callers, h) + (if InTable(s, h) then 1 else 0)
      && (s.sessions[h].dropped <==> s.sessions[h].refs == 0)
  }

  predicate NoReap(log: seq<Event>, id: SessionId, i: nat, j: nat)
    requires i <= j <= |log|
  {
    forall k :: i <= k < j ==> log[k] != Reaped(id)
  }

  /** A grant stays the entry of its id until that id is reaped. */
  ghost predicate LastGrantInv(log: seq<Event>, table: map<SessionId, nat>) {
    forall i :: 0 <= i < |log| && log[i].Granted? && NoReap(log, log[i].id, i, |log|) ==>
      log[i].id in table && table[log[i].id] == log[i].h
  }

  ghost predicate SameGrantInv(log: seq<Event>) {
    forall i, j ::
      0 <= i < j < |log| && log[i].Granted? && log[j].Granted? && log[i].id == log[j].id && NoReap(log, log[i].id, i, j)
      ==> log[i].h == log[j].h
  }

  ghost predicate ReaperInv(s: Sys) {
    s.reaper.Scanning? ==> s.reaper.todo <= s.table.Keys && s.reaper.doomed <= s.table.Keys
  }

  ghost predicate LogInv(s: Sys) {
    LastGrantInv(s.log, s.table) && SameGrantInv(s.log)
  }

  ghost predicate Inv(s: Sys) {
    TableInv(s) && ReaperInv(s) && LogInv(s) && MapLockInv(s) && LockInv(s) && RefInv(s)
  }

  lemma {:induction false} NobodyHolds(cs: seq<Caller>, h: nat)
    requires forall c :: 0 <= c < |cs| ==> !Holds(cs[c], h)
    ensures Holders(cs, h) == 0
    decreases |cs|
  {
    if cs != [] { NobodyHolds(cs[1..], h); }
  }

  lemma InitialInv(ids: seq<SessionId>)
    ensures Inv(Initial(ids))
  {
  }

  lemma GrantExtends(log: seq<Event>, table: map<SessionId, nat>, id: SessionId, h: nat)
    requires LastGrantInv(log, table) && SameGrantInv(log) && (id in table ==> table[id] == h)
    ensures LastGrantInv(log + [Granted(id, h)], table[id := h]) && SameGrantInv(log + [Granted(id, h)])
  {
    var log' := log + [Granted(id, h)];
    forall i | 0 <= i < |log| && log[i].Granted? && NoReap(log', log[i].id, i, |log|)
      ensures NoReap(log, log[i].id, i, |log|)
    {
      assert forall k :: i <= k < |log| ==> log'[k] == log[k];
    }
    forall i | 0 <= i < |log'| && log'[i].Granted? && NoReap(log', log'[i].id, i, |log'|)
      ensures log'[i].id in table[id := h] && table[id := h][log'[i].id] == log'[i].h
    {
      assert i < |log| ==> NoReap(log', log[i].id, i, |log|);
    }
    forall i, j | 0 <= i < j < |log'| && log'[i].Granted? && log'[j].Granted? && log'[i].id == log'[j].id
                  && NoReap(log', log'[i].id, i, j)
      ensures log'[i].h == log'[j].h
    {
      assert forall k :: i <= k < j ==> log'[k] == log[k];
      assert NoReap(log, log[i].id, i, j);
    }
  }

  lemma ReapExtends(log: seq<Event>, table: map<SessionId, nat>, id: SessionId)
    requires LastGrantInv(log, table) && SameGrantInv(log)
    ensures LastGrantInv(log + [Reaped(id)], table - {id}) && SameGrantInv(log + [Reaped(id)])
  {
    var log' := log + [Reaped(id)];
    forall i | 0 <= i < |log'| && log'[i].Granted? && NoReap(log', log'[i].id, i, |log'|)
      ensures log'[i].id in table - {id} && (table - {id})[log'[i].id] == log'[i].h
    {
      assert log'[|log|] == Reaped(id);
      assert forall k :: i <= k < |log| ==> log'[k] == log[k];
      assert NoReap(log, log[i].id, i, |log|);
    }
    forall i, j | 0 <= i < j < |log'| && log'[i].Granted? && log'[j].Granted? && log'[i].id == log'[j].id
                  && NoReap(log', log'[i].id, i, j)
      ensures log'[i].h == log'[j].h
    {
      assert forall k :: i <= k < j ==> log'[k] == log[k];
      assert NoReap(log, log[i].id, i, j);
    }
  }

  lemma HoldersAll(cs: seq<Caller>, c: nat, phase: Phase)
    requires c < |cs|
    ensures forall h :: Holders(cs[c := cs[c].(phase := phase)], h)
                        == Holders(cs, h) - (if Holds(cs[c], h) then 1 else 0)
                           + (if Holds(cs[c].(phase := phase), h) then 1 else 0)
  {
    forall h {
      HoldersUpdate(cs, c, cs[c].(phase := phase), h);
    }
  }

  // -- taking the map lock, and the steps that touch no handle

  lemma LockMapKeepsInv(s: Sys, c: nat)
    requires Inv(s) && Next(s, LockMap(c)).Some?
    ensures Inv(Next(s, LockMap(c)).value)
  {
    HoldersAll(s.callers, c, InMap);
  }

  lemma TouchKeepsInv(s: Sys, c: nat)
    requires Inv(s) && Next(s, Touch(c)).Some?
    ensures Inv(Next(s, Touch(c)).value)
  {
    var s' := Next(s, Touch(c)).value;
    assert forall h :: 0 <= h < |s.sessions| ==> InTable(s', h) == InTable(s, h);
  }

  lemma QuietStepKeepsInv(s: Sys, a: Action)
    requires Inv(s) && Next(s, a).Some? && (a.Tick? || a.BeginPass? || a.Probe? || a.EndPass?)
    ensures Inv(Next(s, a).value)
  {
    var s' := Next(s, a).value;
    assert forall h :: 0 <= h < |s.sessions| ==> InTable(s', h) == InTable(s, h);
  }

  // -- getting a handle

  lemma CloneKeepsInv(s: Sys, c: nat)
    requires Inv(s) && Next(s, GetHandle(c, false)).Some? && s.callers[c].id in s.table
    ensures Inv(Handle(s, c, false))
  {
    var s' := Handle(s, c, false);
    var id, h := s.callers[c].id, s.table[s.callers[c].id];
    GrantExtends(s.log, s.table, id, h);
    assert s.table[id := h] == s.table;
    HoldersAll(s.callers, c, HasHandle(h));
    assert forall g :: 0 <= g < |s.sessions| ==> InTable(s', g) == InTable(s, g);
  }

  lemma SpawnKeepsInv(s: Sys, c: nat)
    requires Inv(s) && Next(s, GetHandle(c, true)).Some? && s.callers[c].id !in s.table
    ensures Inv(Handle(s, c, true))
  {
    GrantExtends(s.log, s.table, s.callers[c].id, |s.sessions|);
    SpawnRefs(s, c);
    SpawnLocks(s, c);
  }

  lemma SpawnRefs(s: Sys, c: nat)
    requires Inv(s) && Next(s, GetHandle(c, true)).Some? && s.callers[c].id !in s.table
    ensures RefInv(Handle(s, c, true)) && TableInv(Handle(s, c, true))
  {
    var s' := Handle(s, c, true);
    HoldersAll(s.callers, c, HasHandle(|s.sessions|));
    NobodyHolds(s.callers, |s.sessions|);
    assert forall h :: 0 <= h < |s.sessions| ==> s'.sessions[h] == s.sessions[h] && InTable(s', h) == InTable(s, h);
  }

  lemma SpawnLocks(s: Sys, c: nat)
    requires Inv(s) && Next(s, GetHandle(c, true)).Some? && s.callers[c].id !in s.table
    ensures LockInv(Handle(s, c, true)) && MapLockInv(Handle(s, c, true)) && ReaperInv(Handle(s, c, true))
  {
  }

  lemma SpawnFailureKeepsInv(s: Sys, c: nat)
    requires Inv(s) && Next(s, GetHandle(c, false)).Some? && s.callers[c].id !in s.table
    ensures Inv(Handle(s, c, false))
  {
    HoldersAll(s.callers, c, Done);
  }

  // -- using a session

  lemma LockSessionKeepsInv(s: Sys, c: nat)
    requires Inv(s) && Next(s, LockSession(c)).Some?
    ensures Inv(Next(s, LockSession(c)).value)
  {
    HoldersAll(s.callers, c, InSession(s.callers[c].phase.h));
  }

  lemma FinishRefs(s: Sys, c: nat)
    requires Inv(s) && Next(s, Finish(c)).Some?
    ensures RefInv(Next(s, Finish(c)).value)
  {
    HoldersAll(s.callers, c, Done);
    HolderCounts(s.callers, s.callers[c].phase.h, c);
  }

  lemma FinishKeepsInv(s: Sys, c: nat)
    requires Inv(s) && Next(s, Finish(c)).Some?
    ensures Inv(Next(s, Finish(c)).value)
  {
    FinishRefs(s, c);
  }

  // -- reaping

  lemma RemoveKeepsInv(s: Sys, id: SessionId)
    requires Inv(s) && Next(s, Remove(id)).Some?
    ensures Inv(Next(s, Remove(id)).value)
  {
    var s' := Next(s, Remove(id)).value;
    ReapExtends(s.log, s.table, id);
    assert forall h :: 0 <= h < |s.sessions| ==> InTable(s', h) == (InTable(s, h) && h != s.table[id]);
  }

  lemma HandleKeepsInv(s: Sys, c: nat, spawned: bool)
    requires Inv(s) && Next(s, GetHandle(c, spawned)).Some?
    ensures Inv(Handle(s, c, spawned))
  {
    if s.callers[c].id in s.table {
      CloneKeepsInv(s, c);
    } else if spawned {
      SpawnKeepsInv(s, c);
    } else {
      SpawnFailureKeepsInv(s, c);
    }
  }

  lemma NextKeepsInv(s: Sys, a: Action)
    requires Inv(s) && Next(s, a).Some?
    ensures Inv(Next(s, a).value)
  {
    match a
    case LockMap(c) => LockMapKeepsInv(s, c);
    case GetHandle(c, spawned) => HandleKeepsInv(s, c, spawned);
    case LockSession(c) => LockSessionKeepsInv(s, c);
    case Finish(c) => FinishKeepsInv(s, c);
    case Remove(id) => RemoveKeepsInv(s, id);
    case Touch(c) => TouchKeepsInv(s, c);
    case _ => QuietStepKeepsInv(s, a);
  }

  /** So every run keeps it. */
  lemma StepsKeepInv()
    ensures Keeps(Next, Inv)
  {
    forall s, a | Inv(s) && Next(s, a).Some? ensures Inv(Next(s, a).value) {
      NextKeepsInv(s, a);
    }
  }

  // ---------------------------------------------------------------- results over whole runs

  /** In every run: a session and its child are dropped exactly when no handle is left anywhere. */
  lemma DroppedIffUnreferenced(ids: seq<SessionId>, run: seq<Action>, h: nat)
    requires After(Initial(ids), run).Some? && h < |After(Initial(ids), run).value.sessions|
    ensures var s := After(Initial(ids), run).value;
            s.sessions[h].dropped <==> !InTable(s, h) && forall c :: 0 <= c < |s.callers| ==> !Holds(s.callers[c], h)
  {
    InitialInv(ids);
    StepsKeepInv();
    RunKeeps(Next, Inv, Initial(ids), run);
    var s := After(Initial(ids), run).value;
    if Holders(s.callers, h) > 0 {
      var c := SomeoneHolds(s.callers, h);
    } else if c :| 0 <= c < |s.callers| && Holds(s.callers[c], h) {
      HolderCounts(s.callers, h, c);
    }
  }

  /** In every run: two calls on one id with no reap of it in between get the same session. */
  lemma SameSessionUntilReaped(ids: seq<SessionId>, run: seq<Action>, i: nat, j: nat)
    requires After(Initial(ids), run).Some?
    requires var log := After(Initial(ids), run).value.log;
             i < j < |log| && log[i].Granted? && log[j].Granted? && log[i].id == log[j].id
             && NoReap(log, log[i].id, i, j)
    ensures var log := After(Initial(ids), run).value.log;
            log[i].h == log[j].h
  {
    InitialInv(ids);
    StepsKeepInv();
    RunKeeps(Next, Inv, Initial(ids), run);
  }

  /** In every run: a session has one user at a time, and nobody asks for the map lock while using a session. */
  lemma LockDiscipline(ids: seq<SessionId>, run: seq<Action>)
    requires After(Initial(ids), run).Some?
    ensures var s := After(Initial(ids), run).value;
            && (forall c, d :: 0 <= c < d < |s.callers| ==>
                  (s.callers[c].phase.InSession? && s.callers[d].phase.InSession? ==>
                     s.callers[c].phase.h != s.callers[d].phase.h))
            && (forall h :: 0 <= h < |s.sessions| && s.sessions[h].lock.Some? ==>
                  s.sessions[h].lock.value < |s.callers| && s.callers[s.sessions[h].lock.value].phase == InSession(h))
  {
    InitialInv(ids);
    StepsKeepInv();
    RunKeeps(Next, Inv, Initial(ids), run);
  }

  // ---------------------------------------------------------------- no deadlock

  function CallerSteps(cs: seq<Caller>): nat {
    if cs == [] then 0
    else
      CallerSteps(cs[1..])
      + match cs[0].phase
        case Start => 4
        case InMap => 3
        case HasHandle(_) => 2
        case InSession(_) => 1
        case Done => 0
  }

  function StepsLeft(s: Sys): nat {
    CallerSteps(s.callers)
    + if s.reaper.Scanning? then 1 + 2 * |s.reaper.todo| + |s.reaper.doomed| else 0
  }

  lemma {:induction false} CallerStepsUpdate(cs: seq<Caller>, i: nat, c: Caller)
    requires i < |cs|
    ensures CallerSteps(cs[i := c]) == CallerSteps(cs) - CallerSteps([cs[i]]) + CallerSteps([c])
    decreases |cs|
  {
    if i > 0 {
      CallerStepsUpdate(cs[1..], i - 1, c);
      assert cs[i := c][1..] == cs[1..][i - 1 := c];
    } else {
      assert cs[i := c][1..] == cs[1..];
    }
    assert [cs[i]][1..] == [] && [c][1..] == [];
  }

  predicate Settled(s: Sys) {
    s.reaper.Sleeping? && forall c :: 0 <= c < |s.callers| ==> s.callers[c].phase.Done?
  }

  predicate IsProgress(a: Action) {
    !a.Tick? && !a.Touch? && !a.BeginPass?
  }

  lemma CallerProgress(s: Sys, a: Action)
    requires Next(s, a).Some? && (a.LockMap? || a.GetHandle? || a.LockSession? || a.Finish?)
    ensures StepsLeft(Next(s, a).value) < StepsLeft(s)
  {
    var s' := Next(s, a).value;
    assert s'.reaper == s.reaper && s'.callers == s.callers[a.c := s'.callers[a.c]];
    CallerStepsUpdate(s.callers, a.c, s'.callers[a.c]);
    assert [s'.callers[a.c]][1..] == [] && [s.callers[a.c]][1..] == [];
  }

  lemma ReaperProgress(s: Sys, a: Action)
    requires Next(s, a).Some? && (a.Probe? || a.Remove? || a.EndPass?)
    ensures StepsLeft(Next(s, a).value) < StepsLeft(s)
  {
    assert Next(s, a).value.callers == s.callers;
    if a.Probe? && a.id in s.reaper.doomed {
      assert s.reaper.doomed + {a.id} == s.reaper.doomed;
    }
  }

  lemma SomeProgress(s: Sys) returns (a: Action)
    requires Inv(s) && !Settled(s)
    ensures Next(s, a).Some? && IsProgress(a)
  {
    if c :| 0 <= c < |s.callers| && s.callers[c].phase.InSession? {
      a := Finish(c);
    } else if c :| 0 <= c < |s.callers| && s.callers[c].phase.HasHandle? {
      NobodyInSession(s, s.callers[c].phase.h);
      a := LockSession(c);
    } else if c :| 0 <= c < |s.callers| && s.callers[c].phase.InMap? {
      a := GetHandle(c, false);
    } else if s.reaper.Scanning? {
      a := ReaperCanMove(s);
    } else {
      a := StarterCanMove(s);
    }
  }

  lemma NobodyInSession(s: Sys, h: nat)
    requires LockInv(s) && h < |s.sessions|
    requires forall c :: 0 <= c < |s.callers| ==> !s.callers[c].phase.InSession?
    ensures s.sessions[h].lock.None?
  {
  }

  lemma MapLockHolder(s: Sys)
    requires MapLockInv(s)
    ensures s.mapLock.None? || s.reaper.Scanning? || exists c :: 0 <= c < |s.callers| && s.callers[c].phase.InMap?
  {
    if s.mapLock.Some? && s.mapLock.value.ByCaller? {
      assert s.callers[s.mapLock.value.c].phase.InMap?;
    }
  }

  /** Whoever has not started can take the map lock when nobody else is under way. */
  lemma StarterCanMove(s: Sys) returns (a: Action)
    requires MapLockInv(s) && !Settled(s) && s.reaper.Sleeping?
    requires forall c :: 0 <= c < |s.callers| ==> s.callers[c].phase.Start? || s.callers[c].phase.Done?
    ensures Next(s, a).Some? && IsProgress(a)
  {
    var c :| 0 <= c < |s.callers| && !s.callers[c].phase.Done?;
    MapLockHolder(s);
    a := LockMap(c);
  }

  lemma ReaperCanMove(s: Sys) returns (a: Action)
    requires Inv(s) && s.reaper.Scanning?
    ensures Next(s, a).Some? && IsProgress(a)
  {
    if id :| id in s.reaper.todo {
      a := Probe(id);
    } else {
      assert s.reaper.todo == {};
      if id :| id in s.reaper.doomed {
        assert id in s.table.Keys;
        a := Remove(id);
      } else {
        assert s.reaper.doomed == {};
        a := EndPass;
      }
    }
  }

  /** No reachable state is deadlocked: every caller can finish and the reaper can end its pass. */
  lemma {:induction false} CanSettle(s: Sys) returns (run: seq<Action>)
    requires Inv(s)
    ensures After(s, run).Some? && Settled(After(s, run).value) && |run| <= StepsLeft(s)
    decreases StepsLeft(s)
  {
    run := [];
    if !Settled(s) {
      var a := SomeProgress(s);
      NextKeepsInv(s, a);
      if a.Probe? || a.Remove? || a.EndPass? { ReaperProgress(s, a); } else { CallerProgress(s, a); }
      var rest := CanSettle(Next(s, a).value);
      run := [a] + rest;
      assert run[1..] == rest;
    }
  }

  // ---------------------------------------------------------------- a reaped session may be in use

  /**
    Caller 0 uses session "a"; an hour later caller 1 clones its handle, the pass finds the
    session idle, and caller 1 locks it.
  */
  function RaceAction(k: nat): Action {
    match k
    case 0 => LockMap(0)
    case 1 => GetHandle(0, true)
    case 2 => LockSession(0)
    case 3 => Finish(0)
    case 4 => Tick(3600)
    case 5 => LockMap(1)
    case 6 => GetHandle(1, false)
    case 7 => BeginPass
    case 8 => Probe("a")
    case _ => LockSession(1)
  }

  function RaceCallers(k: nat): seq<Caller> {
    [Caller("a", if k == 0 then Start else if k == 1 then InMap else if k == 2 then HasHandle(0)
                 else if k == 3 then InSession(0) else Done),
     Caller("a", if k <= 5 then Start else if k == 6 then InMap else if k <= 9 then HasHandle(0) else InSession(0))]
  }

  function RaceState(k: nat): Sys {
    var lock := if k == 3 then Some(0) else if k == 10 then Some(1) else None;
    var mapLock := if k == 1 then Some(ByCaller(0)) else if k == 6 then Some(ByCaller(1))
                   else if k >= 8 then Some(ByReaper) else None;
    var reaper := if k <= 7 then Sleeping else if k == 8 then Scanning({"a"}, {}) else Scanning({}, {"a"});
    if k <= 1 then Sys(map[], mapLock, [], RaceCallers(k), reaper, 0, [])
    else Sys(map["a" := 0], mapLock, [Session("a", lock, 0, if 4 <= k <= 6 then 1 else 2, false)], RaceCallers(k),
             reaper, if k <= 4 then 0 else 3600,
             if k <= 6 then [Granted("a", 0)] else [Granted("a", 0), Granted("a", 0)])
  }

  lemma RaceStepFirst(k: nat)
    requires k < 5
    ensures Next(RaceState(k), RaceAction(k)) == Some(RaceState(k + 1))
  {
    var s, t := Next(RaceState(k), RaceAction(k)).value, RaceState(k + 1);
    assert s.callers == t.callers && s.sessions == t.sessions;
    assert s.table == t.table && s.log == t.log;
  }

  lemma RaceStepSecond(k: nat)
    requires 5 <= k < 10
    ensures Next(RaceState(k), RaceAction(k)) == Some(RaceState(k + 1))
  {
    if k == 7 { assert map["a" := 0].Keys == {"a"}; }
    var s, t := Next(RaceState(k), RaceAction(k)).value, RaceState(k + 1);
    assert s.callers == t.callers && s.sessions == t.sessions;
    assert s.table == t.table && s.log == t.log && s.reaper == t.reaper;
  }

  /** So a session whose lock is held can be removed from the table. */
  lemma LockedSessionCanBeReaped()
    ensures var s := After(Initial(["a", "a"]), seq(10, (k: nat) => RaceAction(k)));
            && s.Some? && |s.value.sessions| == 1 && s.value.sessions[0].lock == Some(1)
            && Next(s.value, Remove("a")).Some?
  {
    var states, run := seq(11, (k: nat) => RaceState(k)), seq(10, (k: nat) => RaceAction(k));
    forall k: nat | k < 10 ensures Next(states[k], run[k]) == Some(states[k + 1]) {
      if k < 5 { RaceStepFirst(k); } else { RaceStepSecond(k); }
    }
    ChainIsRun(Next, states, run);
    assert states[10] == RaceState(10) && states[0] == RaceState(0);
    assert Initial(["a", "a"]).callers == RaceCallers(0);
  }

  /** Later in the pass that doomed `id`, its removal would hit a session nobody is using. */
  ghost predicate RemovesUnlocked(s: Sys, id: SessionId, run: seq<Action>) {
    var t := After(s, run);
    t.Some? && EndPass !in run && Next(t.value, Remove(id)).Some? ==> t.value.sessions[t.value.table[id]].lock.None?
  }

  /** During a pass, the entry of `id` is session h and no caller has a handle to it. */
  ghost predicate Unshared(s: Sys, id: SessionId, h: nat) {
    s.reaper.Scanning? && (id in s.table ==> s.table[id] == h && Holders(s.callers, h) == 0)
  }

  lemma StaysUnsharedStep(s: Sys, id: SessionId, h: nat, a: Action)
    requires Inv(s) && Unshared(s, id, h) && Next(s, a).Some? && !a.EndPass?
    ensures Unshared(Next(s, a).value, id, h)
  {
    if a.LockSession? || a.Finish? {
      HoldersUpdate(s.callers, a.c, Next(s, a).value.callers[a.c], h);
    }
  }

  lemma {:induction false} StaysUnshared(s: Sys, id: SessionId, h: nat, run: seq<Action>)
    requires Inv(s) && Unshared(s, id, h) && After(s, run).Some? && EndPass !in run
    ensures Unshared(After(s, run).value, id, h)
    decreases |run|
  {
    if run != [] {
      StaysUnsharedStep(s, id, h, run[0]);
      NextKeepsInv(s, run[0]);
      StaysUnshared(Next(s, run[0]).value, id, h, run[1..]);
    }
  }

  /** The pass can probe all that is left; only its own bookkeeping changes. */
  lemma {:induction false} ProbeTheRest(s: Sys) returns (run: seq<Action>, doomed: set<SessionId>)
    requires Inv(s) && s.reaper.Scanning?
    ensures After(s, run) == Some(s.(reaper := Scanning({}, doomed))) && s.reaper.doomed <= doomed
    ensures EndPass !in run
    decreases |s.reaper.todo|
  {
    if id :| id in s.reaper.todo {
      NextKeepsInv(s, Probe(id));
      var rest;
      rest, doomed := ProbeTheRest(Next(s, Probe(id)).value);
      run := [Probe(id)] + rest;
      assert run[1..] == rest;
    } else {
      assert s.reaper.todo == {};
      run, doomed := [], s.reaper.doomed;
    }
  }

  /** A caller with a handle can lock the session before the pass removes it. */
  lemma SharedCanBeLocked(s: Sys, id: SessionId, c: nat) returns (run: seq<Action>)
    requires Inv(s) && s.reaper.Scanning? && id in s.reaper.doomed && id in s.table
    requires c < |s.callers| && s.callers[c].phase == HasHandle(s.table[id]) && s.sessions[s.table[id]].lock.None?
    ensures !RemovesUnlocked(s, id, run)
  {
    var probes, doomed := ProbeTheRest(s);
    var t := s.(reaper := Scanning({}, doomed));
    run := probes + [LockSession(c)];
    RunSnoc(Next, s, probes, LockSession(c));
    assert EndPass !in run;
  }

  /**
    The exact condition: the removal of a session found idle can never hit one in use if
    and only if, when it is probed, the table holds the only handle to it.
  */
  lemma ReapIsSafeIffUnshared(s: Sys, id: SessionId)
    requires Inv(s) && Next(s, Probe(id)).Some? && Idle(s, s.table[id])
    ensures (forall run :: RemovesUnlocked(Next(s, Probe(id)).value, id, run)) <==> s.sessions[s.table[id]].refs == 1
  {
    var s' := Next(s, Probe(id)).value;
    var h := s.table[id];
    NextKeepsInv(s, Probe(id));
    if s.sessions[h].refs == 1 {
      forall run | After(s', run).Some? && EndPass !in run
        ensures RemovesUnlocked(s', id, run)
      {
        StaysUnshared(s', id, h, run);
        StepsKeepInv();
        RunKeeps(Next, Inv, s', run);
        var t := After(s', run).value;
        if h < |t.sessions| && t.sessions[h].lock.Some? {
          HolderCounts(t.callers, h, t.sessions[h].lock.value);
        }
      }
    } else {
      var c := SomeoneHolds(s.callers, h);
      var run := SharedCanBeLocked(s', id, c);
    }
  }
}
