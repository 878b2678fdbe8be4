/**
  One ready loop of the tensor-parallel leader and the "ready" lines of strangers: when can
  the leader still go into init before all its workers have announced themselves?
*/
module ReadyRounds {
  import opened Wrappers
  import opened Runs
  import opened TensorParallel

  ghost predicate Listens(s: Sys) {
    |s.procs| > 0 && s.procs[0].phase.Listening? && s.listener.Some?
  }

  /** A stranger's queued "ready" line that will be counted, because the count is not complete before it. */
  ghost predicate WillCount(s: Sys, i: nat) {
    && Listens(s) && i < |s.listener.value| && s.listener.value[i] == ReadyLine(false)
    && s.procs[0].phase.count + ReadyIn(s.listener.value[..i]) < |s.procs| - 1
  }

  /** A stranger's line has been counted in this round, or will be. */
  ghost predicate Misled(s: Sys) {
    Listens(s) && (s.procs[0].phase.foreign > 0 || exists i :: WillCount(s, i))
  }

  /** The rest of this round: no more "ready" lines of strangers, and the leader not yet in init. */
  ghost predicate RestOfRound(run: seq<Action>) {
    WorkersOnly(run) && Enter(0) !in run
  }

  /** If the leader can go into init after this run, everyone has announced itself. */
  ghost predicate EntersWithAll(s: Sys, run: seq<Action>) {
    After(s, run).Some? && RestOfRound(run) && Next(After(s, run).value, Enter(0)).Some? ==>
      NobodyLate(After(s, run).value)
  }

  // ---------------------------------------------------------------- what keeps a round safe

  /** The leader is in its loop, or has died in it. */
  ghost predicate InRound(s: Sys) {
    |s.procs| > 0 && (s.procs[0].phase.Listening? || s.procs[0].phase.Gone?)
  }

  lemma StaysInRound(s: Sys, a: Action)
    requires InRound(s) && Next(s, a).Some? && a != Enter(0)
    ensures InRound(Next(s, a).value) && |Next(s, a).value.procs| == |s.procs|
    ensures |Next(s, a).value.procs[0].inits| == |s.procs[0].inits|
    ensures Next(s, a).value.procs[0].phase.Listening? ==> s.procs[0].phase.Listening?
  {
  }

  lemma NobodyLateStays(s: Sys, a: Action)
    requires InRound(s) && NobodyLate(s) && Next(s, a).Some? && a != Enter(0)
    ensures NobodyLate(Next(s, a).value)
  {
    StaysInRound(s, a);
    var t := Next(s, a).value;
    forall w: nat ensures !IsLate(t, w) {
      assert !IsLate(s, w);
    }
  }

  /** A line that will be counted after a step would have been counted before it. */
  lemma WillCountBefore(s: Sys, a: Action, i: nat) returns (k: nat)
    requires Listens(s) && Next(s, a).Some? && !IsForeign(a) && a != Enter(0) && WillCount(Next(s, a).value, i)
    ensures WillCount(s, k)
  {
    var q := Next(s, a).value.listener.value;
    if a.Accept? {
      PopReady(s.listener.value, i + 1);
      k := i + 1;
    } else if a.Speak? {
      k := i;
      SpokenPrefix(s.listener.value, a.i, i);
    } else {
      k := i;
      assert s.listener.value[..i] == q[..i];
    }
  }

  lemma SpokenPrefix(q: seq<Message>, j: nat, i: nat)
    requires j < |q| && q[j].Silent? && i <= |q|
    ensures ReadyIn(q[j := OtherLine][..i]) == ReadyIn(q[..i])
  {
    if j < i {
      assert q[j := OtherLine][..i] == q[..i][j := OtherLine];
      ReadyInUpdate(q[..i], j, OtherLine);
    } else {
      assert q[j := OtherLine][..i] == q[..i];
    }
  }

  lemma {:induction false} ReadyInUpdate(q: seq<Message>, i: nat, m: Message)
    requires i < |q| && !q[i].ReadyLine? && !m.ReadyLine?
    ensures ReadyIn(q[i := m]) == ReadyIn(q)
    decreases |q|
  {
    if i > 0 {
      ReadyInUpdate(q[1..], i - 1, m);
      assert q[i := m][1..] == q[1..][i - 1 := m];
    } else {
      assert q[i := m][1..] == q[1..];
    }
  }

  lemma NotMisledStays(s: Sys, a: Action)
    requires InRound(s) && (s.procs[0].phase.Listening? ==> s.listener.Some?)
    requires !Misled(s) && Next(s, a).Some? && !IsForeign(a) && a != Enter(0)
    ensures !Misled(Next(s, a).value)
  {
    StaysInRound(s, a);
    var t := Next(s, a).value;
    if Misled(t) {
      if a.Accept? { HeadNotForeign(s); }
      if i: nat :| WillCount(t, i) {
        var k := WillCountBefore(s, a, i);
      }
    }
  }

  lemma HeadNotForeign(s: Sys)
    requires Listens(s) && !Misled(s) && Next(s, Accept).Some?
    ensures s.listener.value[0] != ReadyLine(false)
  {
    assert !WillCount(s, 0);
    assert s.listener.value[..0] == [];
  }

  lemma {:induction false} SafeStays(s: Sys, ids: seq<Id>, run: seq<Action>)
    requires Inv(s, ids) && InRound(s) && (NobodyLate(s) || !Misled(s)) && After(s, run).Some? && RestOfRound(run)
    ensures NobodyLate(After(s, run).value) || !Misled(After(s, run).value)
    decreases |run|
  {
    if run != [] {
      var a := run[0];
      assert a in run;
      NextKeepsInv(s, ids, a);
      StaysInRound(s, a);
      if NobodyLate(s) { NobodyLateStays(s, a); } else { NotMisledStays(s, a); }
      SafeStays(Next(s, a).value, ids, run[1..]);
    }
  }

  lemma SafeEnter(s: Sys, ids: seq<Id>)
    requires Inv(s, ids) && (NobodyLate(s) || !Misled(s)) && Next(s, Enter(0)).Some?
    ensures NobodyLate(s)
  {
    AheadBound(s.procs[1..], |s.procs[0].inits|);
    ReadyLoopIsExactIff(s, ids);
  }

  // ---------------------------------------------------------------- what can go wrong

  function SilentIn(q: seq<Message>): nat {
    if q == [] then 0 else (if q[0].Silent? then 1 else 0) + SilentIn(q[1..])
  }

  /** A worker that has not announced itself can take a step towards it. */
  lemma LateWorkerMoves(s: Sys, ids: seq<Id>, w: nat) returns (a: Action)
    requires Inv(s, ids) && Listens(s) && IsLate(s, w) && !s.procs[w].phase.Gone?
    ensures a in {Take(w), Connect(w), Leave(w)} && Next(s, a).Some? && OwnStep(a)
    ensures a.Take? ==> s.procs[a.r].next < |s.procs[a.r].ids|
  {
    LatePhase(s, ids, w);
    if s.procs[w].phase.Idle? {
      a := Take(w);
    } else if s.procs[w].phase.Taken? {
      a := Connect(w);
    } else {
      CanLeave(s, ids, w);
      a := Leave(w);
    }
  }

  /** Such a worker has entered all earlier inits, as everyone has. */
  lemma LatePhase(s: Sys, ids: seq<Id>, w: nat)
    requires Inv(s, ids) && Listens(s) && IsLate(s, w) && !s.procs[w].phase.Gone?
    ensures s.procs[w].phase.Idle? || s.procs[w].phase.Taken? || s.procs[w].phase.Initing?
    ensures s.procs[w].phase.Idle? ==> s.procs[w].next < |s.procs[w].ids|
    ensures s.procs[w].phase.Initing? ==> forall q :: 0 <= q < |s.procs| ==> |s.procs[q].inits| >= |s.procs[w].inits|
  {
    assert ProcInv(s.procs[0], ids, 0) && ProcInv(s.procs[w], ids, w);
    assert s.procs[0].left <= |s.procs[w].inits|;
    assert forall q :: 0 <= q < |s.procs| ==> s.procs[0].left <= |s.procs[q].inits|;
  }

  lemma {:induction false} AheadAllBut(ps: seq<Proc>, k: nat, w: nat)
    requires w < |ps| && forall i :: 0 <= i < |ps| && i != w ==> ps[i].sent > k
    ensures Ahead(ps, k) >= |ps| - 1
    decreases |ps|
  {
    if w == 0 {
      AheadBound(ps[1..], k);
    } else {
      AheadAllBut(ps[1..], k, w - 1);
    }
  }

  /** With an empty queue and a stranger's line counted, w is not the only one that is late. */
  lemma AnotherIsLate(s: Sys, ids: seq<Id>, w: nat) returns (v: nat)
    requires Inv(s, ids) && Listens(s) && IsLate(s, w) && s.listener.value == []
    requires s.procs[0].phase.foreign > 0 && s.procs[0].phase.count < |s.procs| - 1
    ensures v != w && IsLate(s, v)
  {
    var i := SomeoneBehind(s.procs[1..], |s.procs[0].inits|, w - 1);
    v := i + 1;
  }

  lemma SomeoneBehind(ps: seq<Proc>, k: nat, w: nat) returns (i: nat)
    requires w < |ps| && Ahead(ps, k) < |ps| - 1
    ensures i < |ps| && i != w && ps[i].sent <= k
  {
    if forall i :: 0 <= i < |ps| && i != w ==> ps[i].sent > k {
      AheadAllBut(ps, k, w);
      assert false;
    }
    i :| 0 <= i < |ps| && i != w && !(ps[i].sent > k);
  }

  /** The leader reads on, a silent connection is closed, or a worker other than w moves. */
  predicate MovesWithout(a: Action, w: nat) {
    a == Accept || a == Speak(0, false) || ((a.Take? || a.Connect? || a.Leave?) && a.r > 0 && a.r != w)
  }

  /** The next step towards entering init without w. */
  lemma StepWithout(s: Sys, ids: seq<Id>, w: nat) returns (a: Action)
    requires Inv(s, ids) && NoneGone(s) && Listens(s) && IsLate(s, w) && Misled(s)
    requires s.procs[0].phase.count < |s.procs| - 1
    ensures Next(s, a).Some? && !IsForeign(a) && a != Enter(0)
    ensures MovesWithout(a, w)
    ensures a.Take? ==> s.procs[a.r].next < |s.procs[a.r].ids|
  {
    if s.listener.value == [] {
      var v := AnotherIsLate(s, ids, w);
      a := LateWorkerMoves(s, ids, v);
    } else if s.listener.value[0].Silent? {
      a := Speak(0, false);
    } else {
      a := Accept;
    }
  }

  lemma MisledStays(s: Sys, w: nat, a: Action)
    requires Listens(s) && Misled(s) && IsLate(s, w) && Next(s, a).Some?
    requires MovesWithout(a, w)
    ensures Listens(Next(s, a).value) && Misled(Next(s, a).value) && IsLate(Next(s, a).value, w)
  {
    var t := Next(s, a).value;
    if s.procs[0].phase.foreign == 0 {
      var i :| WillCount(s, i);
      WillCountAfter(s, w, a, i);
    }
  }

  lemma WillCountAfter(s: Sys, w: nat, a: Action, i: nat)
    requires WillCount(s, i) && Next(s, a).Some? && MovesWithout(a, w)
    ensures Misled(Next(s, a).value)
  {
    var q, t := s.listener.value, Next(s, a).value;
    if a == Accept {
      if i > 0 {
        PopReady(q, i);
        assert WillCount(t, i - 1);
      }
    } else if a.Speak? {
      SpokenPrefix(q, 0, i);
      assert WillCount(t, i);
    } else {
      assert t.listener.value[..i] == q[..i];
      assert WillCount(t, i);
    }
  }

  lemma SpeakSilences(q: seq<Message>)
    requires q != [] && q[0].Silent?
    ensures SilentIn(q[0 := OtherLine]) < SilentIn(q)
  {
    assert q[0 := OtherLine][1..] == q[1..];
  }

  ghost predicate CanMislead(s: Sys, ids: seq<Id>, w: nat) {
    Inv(s, ids) && NoneGone(s) && Listens(s) && IsLate(s, w) && Misled(s)
  }

  function Rank(s: Sys, slots: nat): nat {
    if Measure(s, slots) >= 0 then Measure(s, slots) else 0
  }

  lemma MisleadingStep(s: Sys, ids: seq<Id>, w: nat) returns (a: Action)
    requires CanMislead(s, ids, w) && s.procs[0].phase.count < |s.procs| - 1
    ensures Next(s, a).Some? && !IsForeign(a) && a != Enter(0) && CanMislead(Next(s, a).value, ids, w)
    ensures Rank(Next(s, a).value, |ids|) < Rank(s, |ids|)
            || (Rank(Next(s, a).value, |ids|) == Rank(s, |ids|)
                && SilentIn(Next(s, a).value.listener.value) < SilentIn(s.listener.value))
  {
    a := StepWithout(s, ids, w);
    NextKeepsInv(s, ids, a);
    StepLosesNobody(s, a);
    MisledStays(s, w, a);
    MeasureNonNegative(s, ids);
    MeasureNonNegative(Next(s, a).value, ids);
    if a.Speak? { SpeakSilences(s.listener.value); } else { StepDecreases(s, |ids|, a); }
  }

  /** The leader can be brought into init without w. */
  lemma {:induction false} EnterWithout(s: Sys, ids: seq<Id>, w: nat) returns (run: seq<Action>)
    requires CanMislead(s, ids, w)
    ensures !EntersWithAll(s, run)
    decreases Rank(s, |ids|), SilentIn(s.listener.value)
  {
    run := [];
    if s.procs[0].phase.count < |s.procs| - 1 {
      var a := MisleadingStep(s, ids, w);
      var rest := EnterWithout(Next(s, a).value, ids, w);
      run := [a] + rest;
      OneStepEarlier(s, a, rest);
    }
  }

  lemma OneStepEarlier(s: Sys, a: Action, rest: seq<Action>)
    requires Next(s, a).Some? && !IsForeign(a) && a != Enter(0) && !EntersWithAll(Next(s, a).value, rest)
    ensures !EntersWithAll(s, [a] + rest)
  {
    RunCons(Next, s, a, rest);
  }

  /**
    The exact condition, for any reachable state inside a ready loop without failures: however
    the round goes on without further strangers, the leader goes into init only with everyone
    announced, if and only if everyone has announced itself already, or no stranger's line is
    counted or queued where it will be.
  */
  lemma RoundIsSafeIff(s: Sys, ids: seq<Id>)
    requires Inv(s, ids) && NoneGone(s) && s.procs[0].phase.Listening?
    ensures (forall run :: EntersWithAll(s, run)) <==> NobodyLate(s) || !Misled(s)
  {
    if NobodyLate(s) || !Misled(s) {
      forall run ensures EntersWithAll(s, run) {
        if After(s, run).Some? && RestOfRound(run) && Next(After(s, run).value, Enter(0)).Some? {
          SafeStays(s, ids, run);
          StepsKeepInv(ids, |s.procs|);
          RunKeeps(Next, InvOf(ids, |s.procs|), s, run);
          SafeEnter(After(s, run).value, ids);
        }
      }
    } else {
      var w: nat :| IsLate(s, w);
      var run := EnterWithout(s, ids, w);
      assert !EntersWithAll(s, run);
    }
  }

  ghost predicate InLoop(s: Sys) {
    |s.procs| > 0 && s.procs[0].phase.Listening?
  }

  /** The same after any failure-free run from the start. */
  lemma RoundIsSafeIffAfterRun(ids: seq<Id>, workers: nat, run: seq<Action>)
    requires Distinct(ids) && After(Start(ids, workers), run).Some?
    requires NoneGone(After(Start(ids, workers), run).value)
    requires InLoop(After(Start(ids, workers), run).value)
    ensures var s := After(Start(ids, workers), run).value;
            (forall rest :: EntersWithAll(s, rest)) <==> NobodyLate(s) || !Misled(s)
  {
    StartInv(ids, workers);
    StepsKeepInv(ids, workers + 1);
    RunKeeps(Next, InvOf(ids, workers + 1), Start(ids, workers), run);
    RoundIsSafeIff(After(Start(ids, workers), run).value, ids);
  }
}
