/**
  The tensor-parallel session handshake.  One leader (rank 0) and its workers each walk
  through their own copy of one list of communicator ids, a model slot at a time: take the
  next id, let the leader know, and enter communicator init, which blocks until every rank
  has entered with the same id.

  The leader hears of its workers only through anonymous "ready" lines on a listener that
  exists for one round.  Any other process may connect there too and write something else,
  nothing at all, or "ready" as well.  Single node, and as many workers as the world size
  needs.
*/
module TensorParallel {
  import opened Wrappers
  import opened Runs

  type Id(==, !new) = nat

  /**
    What a queued connection has to offer; reading from a silent one blocks.  Whether a
    "ready" line is a worker's own is not on the wire, and no decision looks at it.
  */
  datatype Message = ReadyLine(own: bool) | OtherLine | Silent

  /** One call of communicator init. */
  datatype Init = Init(id: Id, rank: nat)

  datatype Phase =
    | Idle
    | Taken(id: Id)
    | Listening(id: Id, count: nat, foreign: nat)   // leader: inside the ready loop
    | Sent(id: Id)                    // worker: "ready" written
    | Initing(id: Id)
    | Gone

  /**
    A process: its session (`ids`, `next`), the ids it has handed out, the inits it has
    entered and how many of them it has left, and how many "ready" lines it has written.
  */
  datatype Proc = Proc(ids: seq<Id>, next: nat, rank: nat, phase: Phase,
                       handed: seq<Id>, inits: seq<Init>, left: nat, sent: nat)

  /** procs[0] is the leader; `listener` is the backlog of its socket while it listens. */
  datatype Sys = Sys(procs: seq<Proc>, listener: Option<seq<Message>>)

  datatype Action =
    | Take(r: nat)
    | Listen
    | Connect(r: nat)
    | Stray                // someone else connects and does not say "ready"
    | Impostor             // someone else connects and says "ready"
    | Linger               // someone else connects and says nothing
    | Speak(i: nat, ready: bool)   // a silent connection writes "ready", or something else, or is closed
    | Accept
    | Enter(r: nat)
    | Leave(r: nat)
    | Fail(r: nat)         // a process dies, or its connection attempts run out

  /** The leader spawns one worker per remaining rank, each with the whole id list. */
  function Start(ids: seq<Id>, workers: nat): Sys {
    Sys(seq(workers + 1, (r: nat) => Proc(ids, 0, r, Idle, [], [], 0, 0)), None)
  }

  // ---------------------------------------------------------------- transitions

  /** `next_tensor_parallel_id`: hand out the next id, or fail when the slots are used up. */
  function TakeId(p: Proc): Proc
    requires p.phase.Idle?
  {
    if p.next < |p.ids| then
      p.(next := p.next + 1, phase := Taken(p.ids[p.next]), handed := p.handed + [p.ids[p.next]])
    else p.(phase := Gone)
  }

  function EnterInit(p: Proc, id: Id): Proc {
    p.(phase := Initing(id), inits := p.inits + [Init(id, p.rank)])
  }

  /** The leader's phase after it has read this line. */
  function Counted(phase: Phase, m: Message): Phase
    requires phase.Listening?
  {
    if !m.ReadyLine? then phase
    else phase.(count := phase.count + 1, foreign := if m.own then phase.foreign else phase.foreign + 1)
  }

  ghost predicate HasEntered(p: Proc, id: Id) {
    exists k :: 0 <= k < |p.inits| && p.inits[k].id == id
  }

  ghost function Next(s: Sys, a: Action): Option<Sys> {
    var n := |s.procs|;
    match a
    case Take(r) =>
      if r < n && s.procs[r].phase.Idle? then Some(s.(procs := s.procs[r := TakeId(s.procs[r])])) else None
    case Listen =>
      if n > 0 && s.procs[0].phase.Taken? then
        Some(Sys(s.procs[0 := s.procs[0].(phase := Listening(s.procs[0].phase.id, 0, 0))], Some([])))
      else None
    case Connect(r) =>
      if 0 < r < n && s.procs[r].phase.Taken? && s.listener.Some? then
        var p := s.procs[r];
        Some(Sys(s.procs[r := p.(phase := Sent(p.phase.id), sent := p.sent + 1)],
                 Some(s.listener.value + [ReadyLine(true)])))
      else None
    case Stray =>
      if s.listener.Some? then Some(s.(listener := Some(s.listener.value + [OtherLine]))) else None
    case Impostor =>
      if s.listener.Some? then Some(s.(listener := Some(s.listener.value + [ReadyLine(false)]))) else None
    case Linger =>
      if s.listener.Some? then Some(s.(listener := Some(s.listener.value + [Silent]))) else None
    case Speak(i, ready) =>
      if s.listener.Some? && i < |s.listener.value| && s.listener.value[i].Silent? then
        Some(s.(listener := Some(s.listener.value[i := if ready then ReadyLine(false) else OtherLine])))
      else None
    case Accept =>
      if n > 0 && s.procs[0].phase.Listening? && s.procs[0].phase.count < n - 1
         && s.listener.Some? && s.listener.value != [] && !s.listener.value[0].Silent?
      then
        var counted := Counted(s.procs[0].phase, s.listener.value[0]);
        Some(Sys(s.procs[0 := s.procs[0].(phase := counted)], Some(s.listener.value[1..])))
      else None
    case Enter(r) =>
      if r == 0 < n && s.procs[0].phase.Listening? && s.procs[0].phase.count >= n - 1 then
        Some(Sys(s.procs[0 := EnterInit(s.procs[0], s.procs[0].phase.id)], None))
      else if 0 < r < n && s.procs[r].phase.Sent? then
        Some(s.(procs := s.procs[r := EnterInit(s.procs[r], s.procs[r].phase.id)]))
      else None
    case Leave(r) =>
      if r < n && s.procs[r].phase.Initing?
         && forall q :: 0 <= q < n ==> HasEntered(s.procs[q], s.procs[r].phase.id) then
        Some(s.(procs := s.procs[r := s.procs[r].(phase := Idle, left := s.procs[r].left + 1)]))
      else None
    case Fail(r) =>
      if r < n then
        Some(Sys(s.procs[r := s.procs[r].(phase := Gone)], if r == 0 then None else s.listener))
      else None
  }

  ghost function After(s: Sys, run: seq<Action>): Option<Sys> {
    Run(Next, s, run)
  }

  // ---------------------------------------------------------------- counting

  /** How many of these processes have written more than `k` "ready" lines. */
  function Ahead(ps: seq<Proc>, k: nat): nat {
    if ps == [] then 0 else (if ps[0].sent > k then 1 else 0) + Ahead(ps[1..], k)
  }

  function ReadyIn(q: seq<Message>): nat {
    if q == [] then 0 else (if q[0].ReadyLine? then 1 else 0) + ReadyIn(q[1..])
  }

  /** Only the workers' own lines. */
  function OwnIn(q: seq<Message>): nat {
    if q == [] then 0 else (if q[0].ReadyLine? && q[0].own then 1 else 0) + OwnIn(q[1..])
  }

  lemma {:induction false} ReadyInSnoc(q: seq<Message>, m: Message)
    ensures ReadyIn(q + [m]) == ReadyIn(q) + (if m.ReadyLine? then 1 else 0)
    ensures OwnIn(q + [m]) == OwnIn(q) + (if m.ReadyLine? && m.own then 1 else 0)
    decreases |q|
  {
    if q == [] {
      assert q + [m] == [m] && [m][1..] == [];
    } else {
      ReadyInSnoc(q[1..], m);
      assert (q + [m])[1..] == q[1..] + [m];
    }
  }

  lemma {:induction false} OwnInUpdate(q: seq<Message>, i: nat, m: Message)
    requires i < |q| && !q[i].ReadyLine? && !(m.ReadyLine? && m.own)
    ensures OwnIn(q[i := m]) == OwnIn(q)
    decreases |q|
  {
    if i > 0 {
      OwnInUpdate(q[1..], i - 1, m);
      assert q[i := m][1..] == q[1..][i - 1 := m];
    } else {
      assert q[i := m][1..] == q[1..];
    }
  }

  lemma {:induction false} AheadUpdate(ps: seq<Proc>, k: nat, i: nat, p: Proc)
    requires i < |ps|
    ensures Ahead(ps[i := p], k) == Ahead(ps, k) - (if ps[i].sent > k then 1 else 0) + (if p.sent > k then 1 else 0)
    decreases |ps|
  {
    if i > 0 {
      AheadUpdate(ps[1..], k, i - 1, p);
      assert ps[i := p][1..] == ps[1..][i - 1 := p];
    } else {
      assert ps[i := p][1..] == ps[1..];
    }
  }

  /** At most everyone is ahead, and exactly then is everyone ahead. */
  lemma {:induction false} AheadBound(ps: seq<Proc>, k: nat)
    ensures Ahead(ps, k) <= |ps|
    ensures Ahead(ps, k) == |ps| <==> forall i :: 0 <= i < |ps| ==> ps[i].sent > k
    decreases |ps|
  {
    if ps != [] {
      AheadBound(ps[1..], k);
      assert forall i :: 0 < i < |ps| ==> ps[i] == ps[1..][i - 1];
      assert forall i :: 0 <= i < |ps| - 1 ==> ps[1..][i] == ps[i + 1];
    }
  }

  lemma {:induction false} NoneAhead(ps: seq<Proc>, k: nat)
    requires forall i :: 0 <= i < |ps| ==> ps[i].sent <= k
    ensures Ahead(ps, k) == 0
    decreases |ps|
  {
    if ps != [] { NoneAhead(ps[1..], k); }
  }

  // ---------------------------------------------------------------- the session object and the ready loop

  class Session {
    var ids: seq<Id>
    var nextModelIndex: nat

    constructor (ids: seq<Id>)
      ensures this.ids == ids && nextModelIndex == 0
    {
      this.ids, nextModelIndex := ids, 0;
    }

    /**
      Under the session lock: the id of the next slot, or an error that changes nothing.
      This is the step `TakeId` of a process with this session.
    */
    method NextTensorParallelId() returns (id: Result<Id>)
      modifies this`nextModelIndex
      ensures id.Ok? <==> old(nextModelIndex) < |ids|
      ensures id.Ok? ==> id.value == ids[old(nextModelIndex)] && nextModelIndex == old(nextModelIndex) + 1
      ensures id.Err? ==> nextModelIndex == old(nextModelIndex)
      ensures forall p: Proc :: p.phase.Idle? && p.ids == ids && p.next == old(nextModelIndex) ==>
                TakeId(p).next == nextModelIndex && TakeId(p).phase == if id.Ok? then Taken(id.value) else Gone
    {
      if nextModelIndex < |ids| {
        id := Ok(ids[nextModelIndex]);
        nextModelIndex := nextModelIndex + 1;
      } else {
        id := Err("Tensor parallel session has no communicator id for this model index");
      }
    }
  }

  /** The leader has read the first `n` of these connections. */
  function HasRead(s: Sys, incoming: seq<Message>, n: nat): Sys
    requires |s.procs| > 0 && s.procs[0].phase.Listening? && n <= |incoming|
  {
    Sys(s.procs[0 := s.procs[0].(phase := CountedAll(s.procs[0].phase, incoming[..n]))], Some(incoming[n..]))
  }

  function CountedAll(phase: Phase, read: seq<Message>): (r: Phase)
    requires phase.Listening?
    ensures r.Listening?
  {
    if read == [] then phase else Counted(CountedAll(phase, read[..|read| - 1]), read[|read| - 1])
  }

  /**
    The ready loop over the connections that arrive: it stops at the very connection that
    completes the count, and is still waiting when they run out first or one is silent.
    Every pass is an `Accept` step of the leader.
  */
  method AwaitWorkers(incoming: seq<Message>, workers: nat, ghost s: Sys) returns (accepted: nat, ready: nat)
    requires |s.procs| == workers + 1 && s.procs[0].phase.Listening? && s.procs[0].phase.count == 0
    requires s == HasRead(s, incoming, 0)
    ensures accepted <= |incoming| && ready == ReadyIn(incoming[..accepted]) <= workers
    ensures ready < workers ==> accepted == |incoming| || incoming[accepted].Silent?
    ensures ready == workers ==> forall i :: 0 <= i < accepted ==> ReadyIn(incoming[..i]) < workers
    ensures Silent !in incoming[..accepted]
    ensures After(s, Accepts(accepted)) == Some(HasRead(s, incoming, accepted))
  {
    accepted, ready := 0, 0;
    while ready < workers && accepted < |incoming| && !incoming[accepted].Silent?
      invariant accepted <= |incoming| && ready == ReadyIn(incoming[..accepted]) <= workers
      invariant forall i :: 0 <= i < accepted ==> ReadyIn(incoming[..i]) < workers
      invariant Silent !in incoming[..accepted]
    {
      ReadyInSnoc(incoming[..accepted], incoming[accepted]);
      assert incoming[..accepted + 1] == incoming[..accepted] + [incoming[accepted]];
      if incoming[accepted].ReadyLine? {
        ready := ready + 1;
      }
      accepted := accepted + 1;
    }
    AcceptRun(s, incoming, accepted);
  }

  function Accepts(n: nat): seq<Action> {
    seq(n, (i: nat) => Accept)
  }

  lemma {:induction false} CountIsReadyIn(phase: Phase, read: seq<Message>)
    requires phase.Listening?
    ensures CountedAll(phase, read).count == phase.count + ReadyIn(read)
    decreases |read|
  {
    if read != [] {
      var n := |read| - 1;
      CountIsReadyIn(phase, read[..n]);
      ReadyInSnoc(read[..n], read[n]);
      assert read == read[..n] + [read[n]];
    }
  }

  /** Reading on while the count is not complete is a run of `Accept` steps. */
  lemma {:induction false} AcceptRun(s: Sys, incoming: seq<Message>, n: nat)
    requires |s.procs| > 0 && s.procs[0].phase.Listening? && s.procs[0].phase.count == 0
    requires n <= |incoming| && s == HasRead(s, incoming, 0)
    requires Silent !in incoming[..n] && forall i :: 0 <= i < n ==> ReadyIn(incoming[..i]) < |s.procs| - 1
    ensures After(s, Accepts(n)) == Some(HasRead(s, incoming, n))
    decreases n
  {
    if n > 0 {
      assert incoming[..n] == incoming[..n - 1] + [incoming[n - 1]];
      AcceptRun(s, incoming, n - 1);
      CountIsReadyIn(s.procs[0].phase, incoming[..n - 1]);
      AcceptStep(s, incoming, n - 1);
      RunSnoc(Next, s, Accepts(n - 1), Accept);
      assert Accepts(n) == Accepts(n - 1) + [Accept];
    }
  }

  lemma AcceptStep(s: Sys, incoming: seq<Message>, n: nat)
    requires |s.procs| > 0 && s.procs[0].phase.Listening? && n < |incoming| && !incoming[n].Silent?
    requires CountedAll(s.procs[0].phase, incoming[..n]).count < |s.procs| - 1
    ensures Next(HasRead(s, incoming, n), Accept) == Some(HasRead(s, incoming, n + 1))
  {
    assert incoming[n..][1..] == incoming[n + 1..] && incoming[n..][0] == incoming[n];
    assert incoming[..n + 1][..n] == incoming[..n];
    var t := Next(HasRead(s, incoming, n), Accept).value;
    assert t.procs == HasRead(s, incoming, n + 1).procs;
  }

  // ---------------------------------------------------------------- the invariant

  /** What holds of each process alone: its k-th init used ids[k] and its own rank. */
  ghost predicate ProcInv(p: Proc, ids: seq<Id>, r: nat) {
    var e := |p.inits|;
    && p.ids == ids && p.rank == r && p.next <= |ids| && p.handed == ids[..p.next]
    && e <= |ids| && (forall k :: 0 <= k < e ==> p.inits[k] == Init(ids[k], r))
    && e <= p.next <= e + 1
    && match p.phase
       case Idle => p.next == e && p.left == e && (r > 0 ==> p.sent == e)
       case Taken(id) => p.next == e + 1 && id == ids[e] && p.left == e && (r > 0 ==> p.sent == e)
       case Listening(id, _, _) => r == 0 && p.next == e + 1 && id == ids[e] && p.left == e
       case Sent(id) => r > 0 && p.next == e + 1 && id == ids[e] && p.left == e && p.sent == e + 1
       case Initing(id) => p.next == e && e > 0 && id == ids[e - 1] && p.left == e - 1 && (r > 0 ==> p.sent == e)
       case Gone => e - 1 <= p.left <= e && (r > 0 ==> e <= p.sent <= p.next)
  }

  /** The leader's view: in round k nobody is behind round k or beyond round k + 1. */
  ghost predicate LeaderInv(s: Sys)
    requires |s.procs| > 0
  {
    var l := s.procs[0];
    var k := |l.inits|;
    if l.phase.Listening? then
      && s.listener.Some?
      && l.phase.count < |s.procs|
      && (forall w :: 0 < w < |s.procs| ==> k <= s.procs[w].sent <= k + 1)
      && Ahead(s.procs[1..], k) + l.phase.foreign == l.phase.count + OwnIn(s.listener.value)
    else
      && s.listener.None?
      && (l.phase.Initing? ==> forall w :: 0 < w < |s.procs| ==> k - 1 <= s.procs[w].sent <= k)
      && (l.phase.Idle? || l.phase.Taken? ==> forall w :: 0 < w < |s.procs| ==> s.procs[w].sent == k)
  }

  /** No process has left an init that another has not entered. */
  ghost predicate BarrierInv(procs: seq<Proc>) {
    forall p, q :: 0 <= p < |procs| && 0 <= q < |procs| ==> procs[p].left <= |procs[q].inits|
  }

  ghost predicate ProcsInv(procs: seq<Proc>, ids: seq<Id>) {
    forall r :: 0 <= r < |procs| ==> ProcInv(procs[r], ids, r)
  }

  ghost predicate Distinct(ids: seq<Id>) {
    forall i, j :: 0 <= i < j < |ids| ==> ids[i] != ids[j]
  }

  ghost predicate Inv(s: Sys, ids: seq<Id>) {
    && |s.procs| > 0 && Distinct(ids)
    && ProcsInv(s.procs, ids) && BarrierInv(s.procs) && LeaderInv(s)
  }

  /** Everyone in the barrier with my id has entered as many inits as I have. */
  lemma EnteredMeansCaughtUp(s: Sys, ids: seq<Id>, r: nat, q: nat)
    requires Inv(s, ids) && r < |s.procs| && q < |s.procs| && s.procs[r].phase.Initing?
    ensures HasEntered(s.procs[q], s.procs[r].phase.id) <==> |s.procs[q].inits| >= |s.procs[r].inits|
  {
    var e := |s.procs[r].inits|;
    if |s.procs[q].inits| >= e {
      assert s.procs[q].inits[e - 1].id == ids[e - 1];
    }
    if HasEntered(s.procs[q], s.procs[r].phase.id) {
      var k :| 0 <= k < |s.procs[q].inits| && s.procs[q].inits[k].id == s.procs[r].phase.id;
      assert ids[k] == ids[e - 1];
    }
  }

  lemma StartInv(ids: seq<Id>, workers: nat)
    requires Distinct(ids)
    ensures Inv(Start(ids, workers), ids)
  {
  }

  /** Rank r becomes p, which has entered no fewer inits and has left only what all have entered. */
  lemma ProcChange(procs: seq<Proc>, ids: seq<Id>, r: nat, p: Proc)
    requires ProcsInv(procs, ids) && BarrierInv(procs) && r < |procs|
    requires ProcInv(p, ids, r) && |p.inits| >= |procs[r].inits|
    requires p.left == procs[r].left || (forall q :: 0 <= q < |procs| ==> p.left <= |procs[q].inits|)
    ensures ProcsInv(procs[r := p], ids) && BarrierInv(procs[r := p])
  {
    assert procs[r].left <= |procs[r].inits|;
  }

  /** A worker that writes no line does not change what the leader sees. */
  lemma AheadUnchanged(procs: seq<Proc>, k: nat, r: nat, p: Proc)
    requires 0 < r < |procs| && p.sent == procs[r].sent
    ensures Ahead(procs[r := p][1..], k) == Ahead(procs[1..], k)
  {
    AheadUpdate(procs[1..], k, r - 1, p);
    assert procs[r := p][1..] == procs[1..][r - 1 := p];
  }

  /** A worker that writes no line. */
  lemma QuietWorker(s: Sys, ids: seq<Id>, r: nat, p: Proc)
    requires Inv(s, ids) && 0 < r < |s.procs|
    requires ProcInv(p, ids, r) && p.sent == s.procs[r].sent && |p.inits| >= |s.procs[r].inits|
    requires p.left == s.procs[r].left || (forall q :: 0 <= q < |s.procs| ==> p.left <= |s.procs[q].inits|)
    ensures Inv(s.(procs := s.procs[r := p]), ids)
  {
    ProcChange(s.procs, ids, r, p);
    AheadUnchanged(s.procs, |s.procs[0].inits|, r, p);
    SameView(s, r, p);
  }

  lemma SameView(s: Sys, r: nat, p: Proc)
    requires 0 < r < |s.procs| && LeaderInv(s) && p.sent == s.procs[r].sent
    requires Ahead(s.procs[r := p][1..], |s.procs[0].inits|) == Ahead(s.procs[1..], |s.procs[0].inits|)
    ensures LeaderInv(s.(procs := s.procs[r := p]))
  {
  }

  /** The leader outside its ready loop and outside init, with everyone in step. */
  lemma QuietLeader(s: Sys, ids: seq<Id>, p: Proc)
    requires Inv(s, ids) && !s.procs[0].phase.Listening? && |p.inits| == |s.procs[0].inits|
    requires ProcInv(p, ids, 0) && !p.phase.Listening? && !p.phase.Initing?
    requires p.left == s.procs[0].left || (forall q :: 0 <= q < |s.procs| ==> p.left <= |s.procs[q].inits|)
    requires p.phase.Gone? || forall w :: 0 < w < |s.procs| ==> s.procs[w].sent == |p.inits|
    ensures Inv(s.(procs := s.procs[0 := p]), ids)
  {
    ProcChange(s.procs, ids, 0, p);
  }

  lemma TakeKeepsInv(s: Sys, ids: seq<Id>, r: nat)
    requires Inv(s, ids) && Next(s, Take(r)).Some?
    ensures Inv(Next(s, Take(r)).value, ids)
  {
    if r == 0 { QuietLeader(s, ids, TakeId(s.procs[0])); } else { QuietWorker(s, ids, r, TakeId(s.procs[r])); }
  }

  /** A rank that leaves its init has been joined there by everyone. */
  lemma LeaveMeansJoined(s: Sys, ids: seq<Id>, r: nat)
    requires Inv(s, ids) && Next(s, Leave(r)).Some?
    ensures forall q :: 0 <= q < |s.procs| ==> s.procs[r].left + 1 == |s.procs[r].inits| <= |s.procs[q].inits|
    ensures forall w :: 0 < w < |s.procs| ==> s.procs[w].sent >= |s.procs[r].inits|
  {
    assert ProcInv(s.procs[r], ids, r);
    forall q | 0 <= q < |s.procs|
      ensures |s.procs[r].inits| <= |s.procs[q].inits| && (q > 0 ==> s.procs[q].sent >= |s.procs[q].inits|)
    {
      EnteredMeansCaughtUp(s, ids, r, q);
      assert ProcInv(s.procs[q], ids, q);
    }
  }

  lemma LeaveKeepsInv(s: Sys, ids: seq<Id>, r: nat)
    requires Inv(s, ids) && Next(s, Leave(r)).Some?
    ensures Inv(Next(s, Leave(r)).value, ids)
  {
    LeaveMeansJoined(s, ids, r);
    var p := s.procs[r].(phase := Idle, left := s.procs[r].left + 1);
    assert ProcInv(s.procs[r], ids, r);
    assert ProcInv(p, ids, r);
    if r == 0 { QuietLeader(s, ids, p); } else { QuietWorker(s, ids, r, p); }
  }

  lemma ListenKeepsInv(s: Sys, ids: seq<Id>)
    requires Inv(s, ids) && Next(s, Listen).Some?
    ensures Inv(Next(s, Listen).value, ids)
  {
    var s' := Next(s, Listen).value;
    assert s'.procs[1..] == s.procs[1..];
    NoneAhead(s.procs[1..], |s.procs[0].inits|);
  }

  lemma ConnectKeepsInv(s: Sys, ids: seq<Id>, r: nat)
    requires Inv(s, ids) && Next(s, Connect(r)).Some?
    ensures Inv(Next(s, Connect(r)).value, ids)
  {
    var s' := Next(s, Connect(r)).value;
    var k := |s.procs[0].inits|;
    assert s.procs[r].left <= k;
    assert ProcInv(s.procs[r], ids, r) && ProcInv(s'.procs[r], ids, r);
    ProcChange(s.procs, ids, r, s'.procs[r]);
    AheadUpdate(s.procs[1..], k, r - 1, s'.procs[r]);
    assert s'.procs[1..] == s.procs[1..][r - 1 := s'.procs[r]];
    ReadyInSnoc(s.listener.value, ReadyLine(true));
  }

  lemma AcceptKeepsInv(s: Sys, ids: seq<Id>)
    requires Inv(s, ids) && Next(s, Accept).Some?
    ensures Inv(Next(s, Accept).value, ids)
  {
    assert Next(s, Accept).value.procs[1..] == s.procs[1..];
  }

  /**
    When the count is complete, every worker has written its line for this round if and only
    if as many of their lines are still queued as foreign lines were counted.
  */
  lemma ReadyLoopIsExactIff(s: Sys, ids: seq<Id>)
    requires Inv(s, ids) && s.procs[0].phase.Listening? && s.procs[0].phase.count >= |s.procs| - 1
    ensures (forall w :: 0 < w < |s.procs| ==> s.procs[w].sent == |s.procs[0].inits| + 1)
            <==> OwnIn(s.listener.value) == s.procs[0].phase.foreign
  {
    var k := |s.procs[0].inits|;
    AheadBound(s.procs[1..], k);
    assert forall w :: 0 < w < |s.procs| ==> s.procs[w] == s.procs[1..][w - 1];
    assert forall i :: 0 <= i < |s.procs| - 1 ==> s.procs[1..][i] == s.procs[i + 1];
  }

  lemma EnterKeepsInv(s: Sys, ids: seq<Id>, r: nat)
    requires Inv(s, ids) && Next(s, Enter(r)).Some?
    ensures Inv(Next(s, Enter(r)).value, ids)
  {
    var p := EnterInit(s.procs[r], s.procs[r].phase.id);
    assert ProcInv(s.procs[r], ids, r);
    assert ProcInv(p, ids, r);
    if r == 0 {
      ProcChange(s.procs, ids, r, p);
    } else {
      QuietWorker(s, ids, r, p);
    }
  }

  lemma FailKeepsInv(s: Sys, ids: seq<Id>, r: nat)
    requires Inv(s, ids) && Next(s, Fail(r)).Some?
    ensures Inv(Next(s, Fail(r)).value, ids)
  {
    var p := s.procs[r].(phase := Gone);
    assert ProcInv(s.procs[r], ids, r);
    if r > 0 {
      QuietWorker(s, ids, r, p);
    } else {
      ProcChange(s.procs, ids, r, p);
    }
  }

  lemma NextKeepsInv(s: Sys, ids: seq<Id>, a: Action)
    requires Inv(s, ids) && Next(s, a).Some?
    ensures Inv(Next(s, a).value, ids)
  {
    match a
    case Take(r) => TakeKeepsInv(s, ids, r);
    case Listen => ListenKeepsInv(s, ids);
    case Connect(r) => ConnectKeepsInv(s, ids, r);
    case Stray => ReadyInSnoc(s.listener.value, OtherLine);
    case Impostor => ReadyInSnoc(s.listener.value, ReadyLine(false));
    case Linger => ReadyInSnoc(s.listener.value, Silent);
    case Speak(i, ready) => OwnInUpdate(s.listener.value, i, if ready then ReadyLine(false) else OtherLine);
    case Accept => AcceptKeepsInv(s, ids);
    case Enter(r) => EnterKeepsInv(s, ids, r);
    case Leave(r) => LeaveKeepsInv(s, ids, r);
    case Fail(r) => FailKeepsInv(s, ids, r);
  }

  lemma SameWorld(s: Sys, a: Action)
    requires Next(s, a).Some?
    ensures |Next(s, a).value.procs| == |s.procs|
  {
  }

  /** The invariant, with the number of processes. */
  ghost function InvOf(ids: seq<Id>, n: nat): Sys -> bool {
    (s: Sys) => Inv(s, ids) && |s.procs| == n
  }

  /** Every run keeps it. */
  lemma StepsKeepInv(ids: seq<Id>, n: nat)
    ensures Keeps(Next, InvOf(ids, n))
  {
    forall s, a | InvOf(ids, n)(s) && Next(s, a).Some? ensures InvOf(ids, n)(Next(s, a).value) {
      NextKeepsInv(s, ids, a);
      SameWorld(s, a);
    }
  }

  // ---------------------------------------------------------------- results over whole runs

  /**
    In every interleaving, with any number of workers, slots, stray connections and
    failures: the k-th init of every rank r uses ids[k] and rank r, no process hands out an
    id twice, and a rank that has left its k-th init leaves nobody behind.
  */
  lemma InitsAgree(ids: seq<Id>, workers: nat, run: seq<Action>)
    requires Distinct(ids) && After(Start(ids, workers), run).Some?
    ensures var s := After(Start(ids, workers), run).value;
            && |s.procs| == workers + 1
            && (forall r, k :: 0 <= r <= workers && 0 <= k < |s.procs[r].inits| ==>
                  k < |ids| && s.procs[r].inits[k] == Init(ids[k], r))
            && (forall r :: 0 <= r <= workers ==> Distinct(s.procs[r].handed))
            && (forall r, q :: 0 <= r <= workers && 0 <= q <= workers ==> s.procs[r].left <= |s.procs[q].inits|)
  {
    StartInv(ids, workers);
    StepsKeepInv(ids, workers + 1);
    RunKeeps(Next, InvOf(ids, workers + 1), Start(ids, workers), run);
  }

  /**
    In every interleaving, whoever else connects: when the leader can enter its k-th init,
    every worker has written exactly k + 1 "ready" lines in its life, one in each round, if
    and only if as many of their lines are still queued as foreign lines were counted.
  */
  lemma LeaderWaitsForAllIff(ids: seq<Id>, workers: nat, run: seq<Action>)
    requires Distinct(ids) && After(Start(ids, workers), run).Some?
    requires Next(After(Start(ids, workers), run).value, Enter(0)).Some?
    ensures var s := After(Start(ids, workers), run).value;
            && |s.procs| == workers + 1 && s.procs[0].phase.count == workers && s.listener.Some?
            && ((forall w :: 0 < w <= workers ==> s.procs[w].sent == |s.procs[0].inits| + 1)
                <==> OwnIn(s.listener.value) == s.procs[0].phase.foreign)
  {
    StartInv(ids, workers);
    StepsKeepInv(ids, workers + 1);
    RunKeeps(Next, InvOf(ids, workers + 1), Start(ids, workers), run);
    ReadyLoopIsExactIff(After(Start(ids, workers), run).value, ids);
  }

  /** Nobody but the workers has written "ready" in this round. */
  ghost predicate NoForeign(s: Sys) {
    && (|s.procs| > 0 && s.procs[0].phase.Listening? ==> s.procs[0].phase.foreign == 0)
    && (s.listener.Some? ==> ReadyLine(false) !in s.listener.value)
  }

  /** Someone else writes "ready". */
  predicate IsForeign(a: Action) {
    a.Impostor? || (a.Speak? && a.ready)
  }

  ghost predicate WorkersOnly(run: seq<Action>) {
    forall a :: a in run ==> !IsForeign(a)
  }

  lemma {:induction false} NoImpostorNoForeign(s: Sys, run: seq<Action>)
    requires NoForeign(s) && After(s, run).Some? && WorkersOnly(run)
    ensures NoForeign(After(s, run).value)
    decreases |run|
  {
    if run != [] {
      assert run[0] in run;
      NoForeignStep(s, run[0]);
      NoImpostorNoForeign(Next(s, run[0]).value, run[1..]);
    }
  }

  lemma NoForeignStep(s: Sys, a: Action)
    requires NoForeign(s) && Next(s, a).Some? && !IsForeign(a)
    ensures NoForeign(Next(s, a).value)
  {
    if a.Accept? { assert s.listener.value[0] in s.listener.value; }
  }

  /**
    In every interleaving in which nobody else writes "ready": the leader enters its k-th
    init only when every worker has written exactly one line in each round so far, and none
    of their lines is left over.
  */
  lemma LeaderWaitsForAll(ids: seq<Id>, workers: nat, run: seq<Action>)
    requires Distinct(ids) && After(Start(ids, workers), run).Some? && WorkersOnly(run)
    requires Next(After(Start(ids, workers), run).value, Enter(0)).Some?
    ensures var s := After(Start(ids, workers), run).value;
            && |s.procs| == workers + 1 && s.procs[0].phase.count == workers && s.listener.Some?
            && (forall w :: 0 < w <= workers ==> s.procs[w].sent == |s.procs[0].inits| + 1)
            && OwnIn(s.listener.value) == 0
  {
    var s := After(Start(ids, workers), run).value;
    StartInv(ids, workers);
    StepsKeepInv(ids, workers + 1);
    RunKeeps(Next, InvOf(ids, workers + 1), Start(ids, workers), run);
    NoImpostorNoForeign(Start(ids, workers), run);
    AheadBound(s.procs[1..], |s.procs[0].inits|);
    ReadyLoopIsExactIff(s, ids);
  }

  /**
    One foreign line in a world of two: the leader goes ahead while its worker has written
    nothing, and the two then wait for each other.
  */
  lemma ImpostorIsCounted(id: Id)
    ensures var s := After(Start([id], 1), [Take(0), Listen, Impostor, Accept]);
            s.Some? && Next(s.value, Enter(0)).Some? && s.value.procs[1].sent == 0
            && Stranded(Next(s.value, Enter(0)).value)
  {
    var s := AfterThree(Start([id], 1), Take(0), Listen, Impostor);
    RunSnoc(Next, Start([id], 1), [Take(0), Listen, Impostor], Accept);
    assert [Take(0), Listen, Impostor] + [Accept] == [Take(0), Listen, Impostor, Accept];
    ImpostorStrands(Next(s, Accept).value);
  }

  ghost predicate Finished(s: Sys, ids: seq<Id>) {
    forall r :: 0 <= r < |s.procs| ==> s.procs[r].phase.Idle? && s.procs[r].next == |ids|
  }

  lemma CanLeave(s: Sys, ids: seq<Id>, r: nat)
    requires Inv(s, ids) && r < |s.procs| && s.procs[r].phase.Initing?
    requires forall q :: 0 <= q < |s.procs| ==> |s.procs[q].inits| >= |s.procs[r].inits|
    ensures Next(s, Leave(r)).Some?
  {
    forall q | 0 <= q < |s.procs| ensures HasEntered(s.procs[q], s.procs[r].phase.id) {
      EnteredMeansCaughtUp(s, ids, r, q);
    }
  }

  ghost predicate NoneGone(s: Sys) {
    forall r :: 0 <= r < |s.procs| ==> !s.procs[r].phase.Gone?
  }

  /** A worker still in its last init before the leader's round is not ahead of anyone. */
  lemma CaughtUp(s: Sys, ids: seq<Id>, w: nat)
    requires |s.procs| > 0 && ProcsInv(s.procs, ids) && LeaderInv(s) && s.procs[0].phase.Listening?
    requires 0 < w < |s.procs| && s.procs[w].phase.Initing? && s.procs[w].sent <= |s.procs[0].inits|
    requires forall q :: 0 < q < |s.procs| ==> !s.procs[q].phase.Sent? && !s.procs[q].phase.Gone?
    ensures forall q :: 0 <= q < |s.procs| ==> |s.procs[q].inits| >= |s.procs[w].inits|
  {
    assert ProcInv(s.procs[w], ids, w);
    forall q | 0 <= q < |s.procs| ensures |s.procs[q].inits| >= |s.procs[w].inits| {
      assert ProcInv(s.procs[q], ids, q);
    }
  }

  /** Before everyone has written its line, somebody has not. */
  ghost predicate IsLate(s: Sys, w: nat) {
    0 < w < |s.procs| && s.procs[w].sent <= |s.procs[0].inits|
  }

  ghost predicate NobodyLate(s: Sys) {
    forall w :: !IsLate(s, w)
  }

  /** When everyone has written and the count is not complete, lines are queued. */
  lemma LinesAreQueued(s: Sys)
    requires |s.procs| > 0 && LeaderInv(s) && s.procs[0].phase.Listening? && NobodyLate(s)
    requires s.procs[0].phase.count < |s.procs| - 1
    ensures s.listener.value != []
  {
    var k := |s.procs[0].inits|;
    forall i | 0 <= i < |s.procs| - 1 ensures s.procs[1..][i].sent > k {
      assert !IsLate(s, i + 1);
    }
    AheadBound(s.procs[1..], k);
  }

  /** While the leader waits, some worker can bring its line a step closer. */
  lemma WorkerCanMove(s: Sys, ids: seq<Id>, w: nat) returns (a: Action)
    requires Inv(s, ids) && NoneGone(s) && s.procs[0].phase.Listening? && IsLate(s, w)
    requires forall w :: 0 < w < |s.procs| ==> !s.procs[w].phase.Sent?
    requires forall r :: 0 <= r < |s.procs| && s.procs[r].phase.Idle? ==> s.procs[r].next == |ids|
    ensures (a.Connect? || a.Leave?) && Next(s, a).Some?
  {
    assert ProcInv(s.procs[w], ids, w);
    if s.procs[w].phase.Taken? {
      a := Connect(w);
    } else {
      CaughtUp(s, ids, w);
      CanLeave(s, ids, w);
      a := Leave(w);
    }
  }

  /** With the leader past its ready loop, whoever is still in an init can leave it. */
  lemma SomeoneCanLeave(s: Sys, ids: seq<Id>) returns (a: Action)
    requires Inv(s, ids) && NoneGone(s) && !Finished(s, ids) && !Stranded(s)
    requires s.procs[0].phase.Idle? || s.procs[0].phase.Initing?
    requires forall w :: 0 < w < |s.procs| ==> !s.procs[w].phase.Sent?
    requires forall r :: 0 <= r < |s.procs| && s.procs[r].phase.Idle? ==> s.procs[r].next == |ids|
    ensures a.Leave? && Next(s, a).Some?
  {
    var k := |s.procs[0].inits|;
    forall q | 0 <= q < |s.procs| ensures |s.procs[q].inits| == k {
      assert ProcInv(s.procs[q], ids, q);
      assert !StrandedAt(s, q);
    }
    var r := 0;
    if s.procs[0].phase.Idle? {
      r :| 0 <= r < |s.procs| && !(s.procs[r].phase.Idle? && s.procs[r].next == |ids|);
      assert ProcInv(s.procs[r], ids, r);
    }
    CanLeave(s, ids, r);
    a := Leave(r);
  }

  // ---------------------------------------------------------------- silent connections

  /** Steps of the leader and the workers themselves. */
  predicate OwnStep(a: Action) {
    !a.Stray? && !a.Impostor? && !a.Linger? && !a.Speak? && !a.Fail?
  }

  /** The leader cannot complete its count without reading from this queued silent connection. */
  ghost predicate BlockedAt(s: Sys, i: nat) {
    && |s.procs| > 0 && s.procs[0].phase.Listening? && s.listener.Some?
    && i < |s.listener.value| && s.listener.value[i].Silent?
    && s.procs[0].phase.count + ReadyIn(s.listener.value[..i]) < |s.procs| - 1
  }

  ghost predicate Blocked(s: Sys) {
    exists i :: BlockedAt(s, i)
  }

  /** The leader has gone into an init for which this worker has not announced itself. */
  ghost predicate StrandedAt(s: Sys, w: nat) {
    && 0 < w < |s.procs| && s.procs[0].phase.Initing? && s.listener.None?
    && s.procs[w].sent < |s.procs[0].inits|
  }

  ghost predicate Stranded(s: Sys) {
    exists w :: StrandedAt(s, w)
  }

  /** Neither of the two can move again: the worker finds no listener and the leader waits for it. */
  lemma StrandedStaysStep(s: Sys, ids: seq<Id>, w: nat, a: Action)
    requires Inv(s, ids) && StrandedAt(s, w) && Next(s, a).Some? && a != Fail(0)
    ensures StrandedAt(Next(s, a).value, w)
  {
    LeaderCannotLeave(s, ids, w);
  }

  lemma LeaderCannotLeave(s: Sys, ids: seq<Id>, w: nat)
    requires Inv(s, ids) && StrandedAt(s, w)
    ensures Next(s, Leave(0)).None?
  {
    EnteredMeansCaughtUp(s, ids, 0, w);
    assert ProcInv(s.procs[w], ids, w);
    assert !HasEntered(s.procs[w], s.procs[0].phase.id);
  }

  lemma {:induction false} StrandedStays(s: Sys, ids: seq<Id>, w: nat, run: seq<Action>)
    requires Inv(s, ids) && StrandedAt(s, w) && After(s, run).Some? && Fail(0) !in run
    ensures StrandedAt(After(s, run).value, w)
    decreases |run|
  {
    if run != [] {
      assert run[0] in run;
      StrandedStaysStep(s, ids, w, run[0]);
      NextKeepsInv(s, ids, run[0]);
      StrandedStays(Next(s, run[0]).value, ids, w, run[1..]);
    }
  }

  /** Only going into init strands a worker, one that has not announced itself. */
  lemma StrandedBefore(s: Sys, w: nat, a: Action)
    requires |s.procs| > 0 && (s.procs[0].phase.Initing? ==> s.listener.None?)
    requires Next(s, a).Some? && OwnStep(a) && StrandedAt(Next(s, a).value, w)
    ensures StrandedAt(s, w) || (a == Enter(0) && IsLate(s, w))
  {
  }

  lemma OwnStepDoesNotStrand(s: Sys, a: Action)
    requires |s.procs| > 0 && (s.procs[0].phase.Initing? ==> s.listener.None?)
    requires !Stranded(s) && Next(s, a).Some? && OwnStep(a) && (a == Enter(0) ==> NobodyLate(s))
    ensures !Stranded(Next(s, a).value)
  {
    if w: nat :| StrandedAt(Next(s, a).value, w) {
      StrandedBefore(s, w, a);
    }
  }

  lemma HeadNotSilent(s: Sys)
    requires |s.procs| > 0 && s.procs[0].phase.Listening? && s.procs[0].phase.count < |s.procs| - 1
    requires s.listener.Some? && s.listener.value != [] && !Blocked(s)
    ensures !s.listener.value[0].Silent?
  {
    assert !BlockedAt(s, 0);
    assert s.listener.value[..0] == [];
  }

  lemma PopReady(q: seq<Message>, i: nat)
    requires 0 < i <= |q|
    ensures ReadyIn(q[..i]) == (if q[0].ReadyLine? then 1 else 0) + ReadyIn(q[1..][..i - 1])
  {
    assert q[..i][1..] == q[1..][..i - 1];
  }

  /** Only what the connection itself does, or the death of the leader, ends the wait. */
  lemma BlockedStaysStep(s: Sys, i: nat, a: Action) returns (k: nat)
    requires BlockedAt(s, i) && Next(s, a).Some? && !a.Speak? && a != Fail(0)
    ensures BlockedAt(Next(s, a).value, k)
  {
    var q := s.listener.value;
    if a.Accept? {
      assert i > 0;
      PopReady(q, i);
      k := i - 1;
    } else {
      var s' := Next(s, a).value;
      assert s'.procs[0].phase == s.procs[0].phase && |s'.procs| == |s.procs|;
      assert s'.listener.value[..i] == q[..i] && s'.listener.value[i] == q[i];
      k := i;
    }
  }

  lemma {:induction false} BlockedStays(s: Sys, i: nat, run: seq<Action>) returns (k: nat)
    requires BlockedAt(s, i) && After(s, run).Some?
    requires forall a :: a in run ==> !a.Speak? && a != Fail(0)
    ensures BlockedAt(After(s, run).value, k)
    decreases |run|
  {
    if run == [] {
      k := i;
    } else {
      assert run[0] in run;
      var j := BlockedStaysStep(s, i, run[0]);
      k := BlockedStays(Next(s, run[0]).value, j, run[1..]);
    }
  }

  lemma BlockedBefore(s: Sys, i: nat, a: Action) returns (k: nat)
    requires Next(s, a).Some? && OwnStep(a) && BlockedAt(Next(s, a).value, i)
    ensures BlockedAt(s, k)
  {
    var q := Next(s, a).value.listener.value;
    if a.Accept? {
      PopReady(s.listener.value, i + 1);
      k := i + 1;
    } else {
      assert s.listener.value[..i] == q[..i];
      k := i;
    }
  }

  lemma OwnStepDoesNotBlock(s: Sys, a: Action)
    requires !Blocked(s) && Next(s, a).Some? && OwnStep(a)
    ensures !Blocked(Next(s, a).value)
  {
    if i: nat :| BlockedAt(Next(s, a).value, i) {
      var k := BlockedBefore(s, i, a);
    }
  }

  // ---------------------------------------------------------------- progress

  lemma StepLosesNobody(s: Sys, a: Action)
    requires NoneGone(s) && Next(s, a).Some? && !a.Fail?
    requires a.Take? ==> s.procs[a.r].next < |s.procs[a.r].ids|
    ensures NoneGone(Next(s, a).value)
  {
  }

  lemma EnabledStep(s: Sys, ids: seq<Id>) returns (a: Action)
    requires Inv(s, ids) && NoneGone(s) && !Finished(s, ids) && !Blocked(s) && !Stranded(s)
    ensures OwnStep(a) && Next(s, a).Some? && (a == Enter(0) ==> NobodyLate(s))
    ensures a.Take? ==> s.procs[a.r].next < |s.procs[a.r].ids|
  {
    if r :| 0 <= r < |s.procs| && s.procs[r].phase.Idle? && s.procs[r].next != |ids| {
      assert ProcInv(s.procs[r], ids, r);
      a := Take(r);
    } else if w :| 0 < w < |s.procs| && s.procs[w].phase.Sent? {
      a := Enter(w);
    } else {
      a := LeaderStep(s, ids);
    }
  }

  lemma LeaderStep(s: Sys, ids: seq<Id>) returns (a: Action)
    requires Inv(s, ids) && NoneGone(s) && !Finished(s, ids) && !Blocked(s) && !Stranded(s)
    requires forall w :: 0 < w < |s.procs| ==> !s.procs[w].phase.Sent?
    requires forall r :: 0 <= r < |s.procs| && s.procs[r].phase.Idle? ==> s.procs[r].next == |ids|
    ensures OwnStep(a) && !a.Take? && Next(s, a).Some? && (a == Enter(0) ==> NobodyLate(s))
  {
    assert ProcInv(s.procs[0], ids, 0);
    match s.procs[0].phase
    case Taken(_) => a := Listen;
    case Listening(_, count, _) =>
      if w: nat :| IsLate(s, w) {
        a := WorkerCanMove(s, ids, w);
      } else if count >= |s.procs| - 1 {
        a := Enter(0);
      } else {
        LinesAreQueued(s);
        HeadNotSilent(s);
        a := Accept;
      }
    case _ => a := SomeoneCanLeave(s, ids);
  }

  // ---------------------------------------------------------------- termination

  /** Steps this process still has before it has left its last init. */
  function StepsLeft(p: Proc, slots: nat): int {
    4 * (slots - p.left)
    - match p.phase
      case Idle => 0
      case Taken(_) => 1
      case Listening(_, _, _) => 2
      case Sent(_) => 2
      case Initing(_) => 3
      case Gone => 0
  }

  function AllStepsLeft(ps: seq<Proc>, slots: nat): int {
    if ps == [] then 0 else StepsLeft(ps[0], slots) + AllStepsLeft(ps[1..], slots)
  }

  function Measure(s: Sys, slots: nat): int {
    2 * AllStepsLeft(s.procs, slots) + (if s.listener.Some? then |s.listener.value| else 0)
  }

  lemma {:induction false} StepsUpdate(ps: seq<Proc>, slots: nat, i: nat, p: Proc)
    requires i < |ps|
    ensures AllStepsLeft(ps[i := p], slots) == AllStepsLeft(ps, slots) - StepsLeft(ps[i], slots) + StepsLeft(p, slots)
    decreases |ps|
  {
    if i > 0 {
      StepsUpdate(ps[1..], slots, i - 1, p);
      assert ps[i := p][1..] == ps[1..][i - 1 := p];
    } else {
      assert ps[i := p][1..] == ps[1..];
    }
  }

  lemma {:induction false} StepsNonNegative(ps: seq<Proc>, slots: nat)
    requires forall r :: 0 <= r < |ps| ==> StepsLeft(ps[r], slots) >= 0
    ensures AllStepsLeft(ps, slots) >= 0
    decreases |ps|
  {
    if ps != [] { StepsNonNegative(ps[1..], slots); }
  }

  lemma MeasureNonNegative(s: Sys, ids: seq<Id>)
    requires Inv(s, ids)
    ensures Measure(s, |ids|) >= 0
  {
    forall r | 0 <= r < |s.procs| ensures StepsLeft(s.procs[r], |ids|) >= 0 {
      assert ProcInv(s.procs[r], ids, r);
    }
    StepsNonNegative(s.procs, |ids|);
  }

  lemma StepDecreases(s: Sys, slots: nat, a: Action)
    requires |s.procs| > 0 && (s.procs[0].phase.Taken? ==> s.listener.None?)
    requires Next(s, a).Some? && OwnStep(a)
    requires a.Take? ==> s.procs[a.r].next < |s.procs[a.r].ids|
    ensures Measure(Next(s, a).value, slots) < Measure(s, slots)
  {
    var s' := Next(s, a).value;
    var r := if a.Listen? || a.Accept? then 0 else a.r;
    StepsUpdate(s.procs, slots, r, s'.procs[r]);
  }

  /** From every reachable state without failures, neither blocked nor stranded, all ranks can finish all slots. */
  lemma {:induction false} CanFinish(s: Sys, ids: seq<Id>) returns (run: seq<Action>)
    requires Inv(s, ids) && NoneGone(s) && !Blocked(s) && !Stranded(s)
    ensures After(s, run).Some? && Finished(After(s, run).value, ids)
    ensures |run| <= Measure(s, |ids|)
    ensures forall a :: a in run ==> OwnStep(a)
    decreases Measure(s, |ids|)
  {
    run := [];
    MeasureNonNegative(s, ids);
    if !Finished(s, ids) {
      var a := EnabledStep(s, ids);
      StepLosesNobody(s, a);
      NextKeepsInv(s, ids, a);
      OwnStepDoesNotBlock(s, a);
      OwnStepDoesNotStrand(s, a);
      StepDecreases(s, |ids|, a);
      var rest := CanFinish(Next(s, a).value, ids);
      run := [a] + rest;
      assert run[1..] == rest;
    }
  }

  /** The run completes the handshake while every silent connection stays silent. */
  ghost predicate Completes(s: Sys, ids: seq<Id>, run: seq<Action>) {
    && After(s, run).Some? && Finished(After(s, run).value, ids)
    && forall a :: a in run ==> !a.Speak? && !a.Fail?
  }

  /**
    The exact condition: after any failure-free run, the handshake can be completed if and
    only if the leader can complete its count without reading from a silent connection, and
    has not gone into an init for which some worker has not announced itself.
  */
  lemma HandshakeCompletesIff(ids: seq<Id>, workers: nat, run: seq<Action>)
    requires Distinct(ids) && After(Start(ids, workers), run).Some?
    requires NoneGone(After(Start(ids, workers), run).value)
    ensures var s := After(Start(ids, workers), run).value;
            (exists rest :: Completes(s, ids, rest)) <==> !Blocked(s) && !Stranded(s)
  {
    var s := After(Start(ids, workers), run).value;
    StartInv(ids, workers);
    StepsKeepInv(ids, workers + 1);
    RunKeeps(Next, InvOf(ids, workers + 1), Start(ids, workers), run);
    if !Blocked(s) && !Stranded(s) {
      var rest := CanFinish(s, ids);
      assert Completes(s, ids, rest);
    } else {
      forall rest ensures !Completes(s, ids, rest) {
        if Completes(s, ids, rest) {
          if Blocked(s) { BlockedNeverFinishes(s, ids, rest); } else { StrandedNeverFinishes(s, ids, rest); }
        }
      }
    }
  }

  lemma StrandedNeverFinishes(s: Sys, ids: seq<Id>, run: seq<Action>)
    requires Inv(s, ids) && Stranded(s) && After(s, run).Some? && Fail(0) !in run
    ensures !Finished(After(s, run).value, ids)
  {
    var w :| StrandedAt(s, w);
    StrandedStays(s, ids, w, run);
  }

  /** The same foreign line then leaves leader and worker waiting for each other. */
  lemma ImpostorStrands(s: Sys)
    requires |s.procs| == 2 && s.procs[1].sent <= |s.procs[0].inits| && Next(s, Enter(0)).Some?
    ensures Stranded(Next(s, Enter(0)).value)
  {
    assert StrandedAt(Next(s, Enter(0)).value, 1);
  }

  /** Without a foreign "ready" line nobody is ever stranded. */
  lemma NoImpostorNoStranding(ids: seq<Id>, workers: nat, run: seq<Action>)
    requires Distinct(ids) && After(Start(ids, workers), run).Some? && WorkersOnly(run)
    ensures !Stranded(After(Start(ids, workers), run).value)
  {
    StartInv(ids, workers);
    StaysUnstranded(Start(ids, workers), ids, run);
  }

  lemma {:induction false} StaysUnstranded(s: Sys, ids: seq<Id>, run: seq<Action>)
    requires Inv(s, ids) && NoForeign(s) && !Stranded(s) && After(s, run).Some? && WorkersOnly(run)
    ensures !Stranded(After(s, run).value)
    decreases |run|
  {
    if run != [] {
      assert run[0] in run;
      NextKeepsInv(s, ids, run[0]);
      NoForeignStep(s, run[0]);
      StaysUnstrandedStep(s, ids, run[0]);
      StaysUnstranded(Next(s, run[0]).value, ids, run[1..]);
    }
  }

  lemma StaysUnstrandedStep(s: Sys, ids: seq<Id>, a: Action)
    requires Inv(s, ids) && NoForeign(s) && !Stranded(s) && Next(s, a).Some? && !IsForeign(a)
    ensures !Stranded(Next(s, a).value)
  {
    if OwnStep(a) {
      if a == Enter(0) {
        AheadBound(s.procs[1..], |s.procs[0].inits|);
        ReadyLoopIsExactIff(s, ids);
      }
      OwnStepDoesNotStrand(s, a);
    } else if w: nat :| StrandedAt(Next(s, a).value, w) {
      assert StrandedAt(s, w);
    }
  }

  lemma BlockedNeverFinishes(s: Sys, ids: seq<Id>, run: seq<Action>)
    requires Blocked(s) && After(s, run).Some? && forall a :: a in run ==> !a.Speak? && a != Fail(0)
    ensures !Finished(After(s, run).value, ids)
  {
    var i :| BlockedAt(s, i);
    var k := BlockedStays(s, i, run);
  }

  /**
    The input: whatever the ids and however many workers, someone who connects to the
    leader's first listener and neither writes nor closes keeps the handshake from ever
    completing, whatever anyone else does.
  */
  lemma SilentConnectionBlocks(ids: seq<Id>, workers: nat, rest: seq<Action>)
    requires ids != [] && workers > 0
    ensures var s := After(Start(ids, workers), [Take(0), Listen, Linger]);
            && s.Some? && NoneGone(s.value) && Blocked(s.value)
            && (After(s.value, rest).Some? && (forall a :: a in rest ==> !a.Speak? && a != Fail(0)) ==>
                  !Finished(After(s.value, rest).value, ids))
  {
    var s := AfterThree(Start(ids, workers), Take(0), Listen, Linger);
    assert s.listener.value[..0] == [];
    assert BlockedAt(s, 0);
    if After(s, rest).Some? && forall a :: a in rest ==> !a.Speak? && a != Fail(0) {
      BlockedNeverFinishes(s, ids, rest);
    }
  }

  lemma AfterThree(s: Sys, a: Action, b: Action, c: Action) returns (t: Sys)
    requires Next(s, a).Some? && Next(Next(s, a).value, b).Some? && Next(Next(Next(s, a).value, b).value, c).Some?
    ensures After(s, [a, b, c]) == Some(t) && t == Next(Next(Next(s, a).value, b).value, c).value
  {
    var x := Next(s, a).value;
    var y := Next(x, b).value;
    t := Next(y, c).value;
    assert [a, b, c][1..] == [b, c] && [b, c][1..] == [c] && [c][1..] == [];
    assert After(t, []) == Some(t);
    assert After(y, [c]) == Some(t);
    assert After(x, [b, c]) == Some(t);
  }
}
