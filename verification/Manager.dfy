/** relay/manager.go: one worker goroutine per source, a buffered error channel, wait, close, first error. Every list
    of actions is a schedule; an action that is not enabled does nothing. */
module Manager {
  import opened Wrappers

  /** Why a worker or a build failed. */
  type Error = string

  /** A worker: not started, running its transport, about to send its error, about to call wg.Done, exited. */
  datatype Worker = Idle | Running | Sending(error: Error) | Closing | Exited

  /** `Run`: building and starting source i, before `go` for source i, in wg.Wait, before close, reading the channel,
      returned. */
  datatype Main = Building(i: nat) | Starting(i: nat) | Waiting | BeforeClose | Reading | Returned(result: Option<Error>)

  /** What would be a panic is kept as a fault, so that its absence can be stated. */
  datatype Fault = SendOnClosed | NegativeGroup

  /** `failed` and `sent` log which worker's transport failed and which worker sent which error; no action consults
      them. */
  datatype State = State(main: Main, wg: int, workers: seq<Worker>, capacity: nat, queue: seq<Error>, closed: bool,
                         fault: Option<Fault>, failed: seq<(nat, Error)>, sent: seq<(nat, Error)>)

  /** A step of `Run`, with the outcome of the build it makes, if it makes one; worker w's transport returning; a step
      of worker w. */
  datatype Action = Main(build: Option<Error>) | Return(w: nat, result: Option<Error>) | Work(w: nat)

  function Start(sources: nat): State {
    State(Building(0), 0, seq(sources, _ => Idle), sources, [], false, None, [], [])
  }

  function MainStep(s: State, build: Option<Error>): State {
    match s.main
    case Building(i) =>
      if |s.workers| <= i then s.(main := Waiting)
      else if build.Some? then s.(main := Returned(build))
      else s.(main := Starting(i), wg := s.wg + 1)
    case Starting(i) =>
      if i < |s.workers| then s.(main := Building(i + 1), workers := s.workers[i := Running]) else s
    case Waiting => if s.wg == 0 then s.(main := BeforeClose) else s
    case BeforeClose => s.(main := Reading, closed := true)
    case Reading =>
      s.(main := Returned(if s.queue == [] then None else Some(s.queue[0])),
         queue := if s.queue == [] then [] else s.queue[1..])
    case Returned(_) => s
  }

  predicate CanSend(s: State) {
    |s.queue| < s.capacity
  }

  function WorkerStep(s: State, w: nat): State
    requires w < |s.workers|
  {
    match s.workers[w]
    case Sending(error) =>
      if s.closed then s.(fault := Some(SendOnClosed))
      else if CanSend(s) then
        s.(workers := s.workers[w := Closing], queue := s.queue + [error], sent := s.sent + [(w, error)])
      else s  // blocked
    case Closing =>
      s.(workers := s.workers[w := Exited], wg := s.wg - 1,
         fault := if s.wg < 1 then Some(NegativeGroup) else s.fault)
    case _ => s
  }

  function Step(s: State, a: Action): State {
    match a
    case Main(build) => MainStep(s, build)
    case Return(w, result) =>
      if w < |s.workers| && s.workers[w].Running? then
        s.(workers := s.workers[w := if result.Some? then Sending(result.value) else Closing],
           failed := s.failed + (if result.Some? then [(w, result.value)] else []))
      else s
    case Work(w) => if w < |s.workers| then WorkerStep(s, w) else s
  }

  function Exec(s: State, actions: seq<Action>): State
    decreases |actions|
  {
    if actions == [] then s else Exec(Step(s, actions[0]), actions[1..])
  }
}

module ManagerProofs {
  import opened Wrappers
  import opened Sequences
  import opened Manager

  /** Workers between their start and their exit. */
  ghost predicate IsLive(k: Worker) {
    k.Running? || k.Sending? || k.Closing?
  }

  ghost function Alive(k: Worker): nat {
    if IsLive(k) then 1 else 0
  }

  lemma IdleNotLive(n: nat)
    ensures Sum(seq(n, _ => Idle), Alive) == 0
  {
    SumZero(seq(n, _ => Idle), Alive);
  }

  /** How far the start-up loop has come; after an early return, as far as it got. */
  ghost predicate StartedUpTo(s: State, i: nat) {
    && i <= |s.workers|
    && (forall w | 0 <= w < |s.workers| :: s.workers[w].Idle? <==> i <= w)
  }

  ghost predicate Progress(s: State) {
    match s.main
    case Building(i) => StartedUpTo(s, i)
    case Starting(i) => i < |s.workers| && StartedUpTo(s, i)
    case Waiting => StartedUpTo(s, |s.workers|)
    case BeforeClose => StartedUpTo(s, |s.workers|) && s.wg == 0
    case Reading => StartedUpTo(s, |s.workers|) && s.wg == 0
    case Returned(_) => s.closed ==> StartedUpTo(s, |s.workers|) && s.wg == 0
  }

  /** Each worker sends at most once, and only on its way out. */
  ghost predicate SentOnce(s: State) {
    && (forall i | 0 <= i < |s.sent| :: s.sent[i].0 < |s.workers|)
    && (forall i | 0 <= i < |s.sent| :: s.workers[s.sent[i].0].Closing? || s.workers[s.sent[i].0].Exited?)
    && (forall i, j | 0 <= i < j < |s.sent| :: s.sent[i].0 != s.sent[j].0)
  }

  /** The channel holds what was sent; only the final read takes from it. */
  ghost predicate Queued(s: State) {
    && |s.queue| <= |s.sent|
    && (!s.main.Returned? ==> |s.queue| == |s.sent| && forall i | 0 <= i < |s.sent| :: s.queue[i] == s.sent[i].1)
    && (s.main.Returned? && s.closed ==> s.main.result == if s.sent == [] then None else Some(s.sent[0].1))
    && (s.main.Returned? && !s.closed ==> |s.queue| == |s.sent| && s.main.result.Some?)
  }

  ghost predicate Grouped(s: State) {
    && s.wg == Sum(s.workers, Alive) + (if s.main.Starting? then 1 else 0)
    && (s.closed <==> s.main.Reading? || (s.main.Returned? && s.closed))
    && s.fault.None?
    && s.capacity == |s.workers|
  }

  ghost predicate IsSending(s: State, f: (nat, Error)) {
    f.0 < |s.workers| && s.workers[f.0] == Sending(f.1)
  }

  /** A failure has been sent or is about to be, and nothing else is. */
  ghost predicate Accounted(s: State) {
    && (forall i | 0 <= i < |s.failed| :: s.failed[i] in s.sent || IsSending(s, s.failed[i]))
    && (forall i | 0 <= i < |s.sent| :: s.sent[i] in s.failed)
    && (forall w | 0 <= w < |s.workers| :: s.workers[w].Sending? ==> (w, s.workers[w].error) in s.failed)
  }

  ghost predicate Inv(s: State) {
    Progress(s) && SentOnce(s) && Queued(s) && Grouped(s) && Accounted(s)
  }

  // ---------------------------------------------------------------- counting

  ghost function Senders(sent: seq<(nat, Error)>): set<nat> {
    set i | 0 <= i < |sent| :: sent[i].0
  }

  lemma {:induction false} DistinctSenders(sent: seq<(nat, Error)>)
    requires forall i, j | 0 <= i < j < |sent| :: sent[i].0 != sent[j].0
    ensures |Senders(sent)| == |sent|
    decreases |sent|
  {
    if sent != [] {
      var front, last := sent[..|sent| - 1], sent[|sent| - 1].0;
      DistinctSenders(front);
      assert Senders(sent) == Senders(front) + {last};
      assert last !in Senders(front);
    }
  }

  lemma {:induction false} BoundedSet(a: set<nat>, n: nat)
    requires forall x | x in a :: x < n
    ensures |a| <= n
  {
    if n == 0 {
      assert a == {};
    } else {
      BoundedSet(a - {n - 1}, n - 1);
      assert |a| <= |a - {n - 1}| + 1;
    }
  }

  /** A worker about to send leaves room for itself: sends never block. */
  lemma RoomToSend(s: State, w: nat)
    requires SentOnce(s) && w < |s.workers| && s.workers[w].Sending?
    ensures |s.sent| < |s.workers|
  {
    var a := Senders(s.sent);
    DistinctSenders(s.sent);
    assert w !in a;
    BoundedSet(a + {w}, |s.workers|);
    assert |a + {w}| == |a| + 1;
  }

  lemma MemberLive(workers: seq<Worker>, w: nat)
    requires w < |workers| && IsLive(workers[w])
    ensures 0 < Sum(workers, Alive)
  {
    if Sum(workers, Alive) == 0 {
      SumZero(workers, Alive);
    }
  }

  // ---------------------------------------------------------------- steps

  lemma MainLog(s: State, build: Option<Error>)
    requires Progress(s)
    ensures var t := MainStep(s, build);
            && t.failed == s.failed && t.sent == s.sent && |t.workers| == |s.workers|
            && forall w | 0 <= w < |s.workers| ::
                 t.workers[w] == s.workers[w] || (s.workers[w].Idle? && t.workers[w].Running?)
  {
  }

  lemma MainKeepsLog(s: State, build: Option<Error>)
    requires Accounted(s) && SentOnce(s) && Progress(s)
    ensures Accounted(MainStep(s, build)) && SentOnce(MainStep(s, build))
  {
    MainLog(s, build);
    hide MainStep, Progress;
    var t := MainStep(s, build);
    forall i | 0 <= i < |t.failed| ensures t.failed[i] in t.sent || IsSending(t, t.failed[i]) {
      assert s.failed[i] in s.sent || IsSending(s, s.failed[i]);
    }
  }

  lemma MainProgress(s: State, build: Option<Error>)
    requires Progress(s) && Grouped(s)
    ensures Progress(MainStep(s, build))
  {
    hide Sum;
  }

  lemma MainGrouped(s: State, build: Option<Error>)
    requires Progress(s) && Grouped(s)
    ensures Grouped(MainStep(s, build))
  {
    hide Sum;
    if s.main.Starting? {
      SumUpdate(s.workers, Alive, s.main.i, Running);
    }
  }

  lemma MainQueued(s: State, build: Option<Error>)
    requires Queued(s) && Grouped(s)
    ensures Queued(MainStep(s, build))
  {
    hide Sum;
  }

  lemma MainStepInv(s: State, build: Option<Error>)
    requires Inv(s)
    ensures Inv(MainStep(s, build))
  {
    hide Progress, Grouped, Queued, Accounted, SentOnce, MainStep;
    MainKeepsLog(s, build);
    MainProgress(s, build);
    MainGrouped(s, build);
    MainQueued(s, build);
  }

  lemma ReturnAccounted(s: State, w: nat, result: Option<Error>)
    requires Accounted(s) && w < |s.workers| && s.workers[w].Running?
    ensures Accounted(Step(s, Return(w, result)))
  {
    var t := Step(s, Return(w, result));
    forall i | 0 <= i < |t.failed| ensures t.failed[i] in t.sent || IsSending(t, t.failed[i]) {
      if i < |s.failed| {
        assert t.failed[i] == s.failed[i];
      }
    }
    assert result.Some? ==> t.failed[|s.failed|] == (w, result.value);
  }

  lemma ReturnInv(s: State, w: nat, result: Option<Error>)
    requires Inv(s)
    ensures Inv(Step(s, Return(w, result)))
  {
    hide Sum;
    if w < |s.workers| && s.workers[w].Running? {
      SumUpdate(s.workers, Alive, w, if result.Some? then Sending(result.value) else Closing);
      ReturnAccounted(s, w, result);
      hide Accounted;
    }
  }

  lemma SendAccounted(s: State, w: nat)
    requires Accounted(s) && w < |s.workers| && s.workers[w].Sending? && !s.closed && CanSend(s)
    ensures Accounted(WorkerStep(s, w))
  {
    var t := WorkerStep(s, w);
    forall i | 0 <= i < |t.failed| ensures t.failed[i] in t.sent || IsSending(t, t.failed[i]) {
      assert t.failed[i] in s.sent || IsSending(s, s.failed[i]);
      assert t.sent[|s.sent|] == (w, s.workers[w].error);
    }
  }

  lemma SendInv(s: State, w: nat)
    requires Inv(s) && w < |s.workers| && s.workers[w].Sending?
    ensures Inv(WorkerStep(s, w)) && CanSend(s) && !s.closed
  {
    hide Sum, Accounted;
    SumUpdate(s.workers, Alive, w, Closing);
    MemberLive(s.workers, w);
    RoomToSend(s, w);
    assert CanSend(s) && !s.closed;
    SendAccounted(s, w);
  }

  lemma WorkerStepInv(s: State, w: nat)
    requires Inv(s) && w < |s.workers|
    ensures Inv(WorkerStep(s, w))
  {
    hide Sum;
    match s.workers[w]
    case Sending(_) => SendInv(s, w);
    case Closing =>
      SumUpdate(s.workers, Alive, w, Exited);
      MemberLive(s.workers, w);
    case _ =>
  }

  lemma StepInv(s: State, a: Action)
    requires Inv(s)
    ensures Inv(Step(s, a))
  {
    hide Inv, MainStep, WorkerStep;
    match a
    case Main(build) => MainStepInv(s, build);
    case Return(w, result) => ReturnInv(s, w, result);
    case Work(w) => if w < |s.workers| { WorkerStepInv(s, w); }
  }

  lemma {:induction false} ExecInv(s: State, actions: seq<Action>)
    requires Inv(s)
    ensures Inv(Exec(s, actions))
    decreases |actions|
  {
    hide Inv, Step;
    if actions != [] {
      StepInv(s, actions[0]);
      ExecInv(Step(s, actions[0]), actions[1..]);
    }
  }

  lemma StartInv(sources: nat)
    ensures Inv(Start(sources))
  {
    IdleNotLive(sources);
  }

  // ---------------------------------------------------------------- theorems

  lemma AtMostWorkers(s: State)
    requires SentOnce(s)
    ensures |s.sent| <= |s.workers|
  {
    DistinctSenders(s.sent);
    BoundedSet(Senders(s.sent), |s.workers|);
  }

  lemma {:induction false} ExecCapacity(s: State, actions: seq<Action>)
    ensures Exec(s, actions).capacity == s.capacity
    decreases |actions|
  {
    if actions != [] {
      ExecCapacity(Step(s, actions[0]), actions[1..]);
    }
  }

  /** In every schedule, build failures included: no send on the closed channel, no negative group, no blocked send, no
      more in the channel than it holds, at most one error from a worker, and the group counts the live workers. */
  lemma ManagerIsSafe(sources: nat, actions: seq<Action>)
    ensures var s := Exec(Start(sources), actions);
            && s.fault.None?
            && |s.queue| <= s.capacity == sources
            && (forall w | 0 <= w < |s.workers| :: s.workers[w].Sending? ==> CanSend(s) && !s.closed)
            && (forall i, j | 0 <= i < j < |s.sent| :: s.sent[i].0 != s.sent[j].0)
            && s.wg == Sum(s.workers, Alive) + (if s.main.Starting? then 1 else 0)
  {
    StartInv(sources);
    ExecInv(Start(sources), actions);
    var s := Exec(Start(sources), actions);
    forall w | 0 <= w < |s.workers| && s.workers[w].Sending? ensures CanSend(s) && !s.closed {
      SendInv(s, w);
    }
    AtMostWorkers(s);
    ExecCapacity(Start(sources), actions);
  }

  // ---------------------------------------------------------------- what Run returns

  ghost predicate FailsHere(s: State, a: Action, e: Error) {
    s.main.Building? && s.main.i < |s.workers| && a == Main(Some(e))
  }

  /** In this run from s the build of some source fails with error e. */
  ghost predicate BuildFails(s: State, actions: seq<Action>, e: Error)
    decreases |actions|
  {
    actions != [] && (FailsHere(s, actions[0], e) || BuildFails(Step(s, actions[0]), actions[1..], e))
  }

  ghost predicate AllBuild(sources: nat, actions: seq<Action>) {
    forall e :: !BuildFails(Start(sources), actions, e)
  }

  lemma {:induction false} ReturnStays(s: State, actions: seq<Action>, e: Error)
    requires s.main.Returned?
    ensures Exec(s, actions).main == s.main && Exec(s, actions).closed == s.closed
    ensures !BuildFails(s, actions, e)
    decreases |actions|
  {
    if actions != [] {
      ReturnStays(Step(s, actions[0]), actions[1..], e);
    }
  }

  lemma StepClosed(s: State, a: Action)
    requires !s.main.Returned? && (s.closed <==> s.main.Reading?)
    ensures var t := Step(s, a);
            && (!t.main.Returned? ==> (t.closed <==> t.main.Reading?))
            && (t.main.Returned? ==> (t.closed <==> s.closed))
            && (forall e :: FailsHere(s, a, e) <==> t.main == Returned(Some(e)) && !t.closed)
            && (t.main.Returned? && !t.closed ==> t.main.result.Some?)
  {
  }

  lemma {:induction false} EarlyReturn(s: State, actions: seq<Action>, e: Error)
    requires !s.main.Returned? && (s.closed <==> s.main.Reading?)
    ensures var t := Exec(s, actions);
            && (t.main == Returned(Some(e)) && !t.closed <==> BuildFails(s, actions, e))
            && (t.main.Returned? && !t.closed ==> t.main.result.Some?)
    decreases |actions|
  {
    if actions != [] {
      var t := Step(s, actions[0]);
      StepClosed(s, actions[0]);
      hide Step;
      if t.main.Returned? {
        ReturnStays(t, actions[1..], e);
      } else {
        EarlyReturn(t, actions[1..], e);
      }
    }
  }

  /** `Run` returns without having waited and closed exactly if the build of a source fails, and then with its error. */
  lemma EarlyReturnExactly(sources: nat, actions: seq<Action>, e: Error)
    ensures var s := Exec(Start(sources), actions);
            s.main == Returned(Some(e)) && !s.closed <==> BuildFails(Start(sources), actions, e)
  {
    EarlyReturn(Start(sources), actions, e);
  }

  lemma ReturnedClosed(sources: nat, actions: seq<Action>)
    requires AllBuild(sources, actions) && Exec(Start(sources), actions).main.Returned?
    ensures Exec(Start(sources), actions).closed
  {
    var s := Exec(Start(sources), actions);
    EarlyReturn(Start(sources), actions, "");
    if !s.closed {
      EarlyReturnExactly(sources, actions, s.main.result.value);
    }
  }

  // ---------------------------------------------------------------- what the transports and workers did

  /** The k-th action of the run is the transport of a running worker returning an error. */
  ghost predicate FailsAt(s: State, actions: seq<Action>, k: nat, w: nat, e: Error) {
    && k < |actions| && actions[k] == Return(w, Some(e))
    && var t := Exec(s, actions[..k]);
       w < |t.workers| && t.workers[w].Running?
  }

  ghost function SendOf(s: State, a: Action): seq<(nat, Error)> {
    if a.Work? && a.w < |s.workers| && s.workers[a.w].Sending? then [(a.w, s.workers[a.w].error)] else []
  }

  /** The sends of a run, in order. */
  ghost function Sends(s: State, actions: seq<Action>): seq<(nat, Error)>
    decreases |actions|
  {
    if actions == [] then [] else SendOf(s, actions[0]) + Sends(Step(s, actions[0]), actions[1..])
  }

  lemma ExecTail(s: State, actions: seq<Action>, k: nat)
    requires actions != [] && k < |actions|
    ensures Exec(s, actions[..k + 1]) == Exec(Step(s, actions[0]), actions[1..][..k])
  {
    assert actions[..k + 1][1..] == actions[1..][..k];
  }

  lemma FailsHead(s: State, actions: seq<Action>, w: nat, e: Error)
    requires actions != []
    ensures (exists k :: FailsAt(s, actions, k, w, e))
            <==> (actions[0] == Return(w, Some(e)) && w < |s.workers| && s.workers[w].Running?)
                 || exists k :: FailsAt(Step(s, actions[0]), actions[1..], k, w, e)
  {
    assert Exec(s, actions[..0]) == s;
    var t := Step(s, actions[0]);
    hide Step;
    if k: nat :| FailsAt(t, actions[1..], k, w, e) {
      ExecTail(s, actions, k);
      assert FailsAt(s, actions, k + 1, w, e);
    }
    if k: nat :| FailsAt(s, actions, k, w, e) && 0 < k {
      ExecTail(s, actions, k - 1);
      assert FailsAt(t, actions[1..], k - 1, w, e);
    }
    if actions[0] == Return(w, Some(e)) && w < |s.workers| && s.workers[w].Running? {
      assert FailsAt(s, actions, 0, w, e);
    }
  }

  lemma StepFailed(s: State, a: Action, w: nat, e: Error)
    ensures (w, e) in Step(s, a).failed
            <==> (w, e) in s.failed || (a == Return(w, Some(e)) && w < |s.workers| && s.workers[w].Running?)
  {
  }

  lemma {:induction false} FailedSince(s: State, actions: seq<Action>, w: nat, e: Error)
    ensures (w, e) in Exec(s, actions).failed <==> (w, e) in s.failed || exists k :: FailsAt(s, actions, k, w, e)
    decreases |actions|
  {
    if actions != [] {
      FailsHead(s, actions, w, e);
      StepFailed(s, actions[0], w, e);
      hide Step, FailsAt;
      FailedSince(Step(s, actions[0]), actions[1..], w, e);
    }
  }

  /** The failures logged in a run are those its transports returned, no more and no fewer. */
  lemma FailedExactly(sources: nat, actions: seq<Action>, w: nat, e: Error)
    ensures (w, e) in Exec(Start(sources), actions).failed <==> exists k :: FailsAt(Start(sources), actions, k, w, e)
  {
    FailedSince(Start(sources), actions, w, e);
  }

  lemma StepSent(s: State, a: Action)
    requires Inv(s)
    ensures Step(s, a).sent == s.sent + SendOf(s, a)
  {
    if a.Work? && a.w < |s.workers| && s.workers[a.w].Sending? {
      SendInv(s, a.w);
    }
    hide Inv;
  }

  lemma {:induction false} SentSince(s: State, actions: seq<Action>)
    requires Inv(s)
    ensures Exec(s, actions).sent == s.sent + Sends(s, actions)
    decreases |actions|
  {
    if actions == [] {
      Nothing(s.sent);
    } else {
      StepSent(s, actions[0]);
      StepInv(s, actions[0]);
      hide Step, Inv;
      SentSince(Step(s, actions[0]), actions[1..]);
      Assoc(s.sent, SendOf(s, actions[0]), Sends(Step(s, actions[0]), actions[1..]));
    }
  }

  /** The sends logged in a run are those its workers made, in order. */
  lemma SentExactly(sources: nat, actions: seq<Action>)
    ensures Exec(Start(sources), actions).sent == Sends(Start(sources), actions)
  {
    StartInv(sources);
    SentSince(Start(sources), actions);
    hide Exec, Sends, Inv;
    assert Start(sources).sent == [];
    assert [] + Sends(Start(sources), actions) == Sends(Start(sources), actions);
  }

  lemma WorkersDone(sources: nat, actions: seq<Action>)
    requires AllBuild(sources, actions) && Exec(Start(sources), actions).main.Returned?
    ensures var s := Exec(Start(sources), actions);
            && (forall w | 0 <= w < |s.workers| :: s.workers[w].Exited?)
            && s.main.result == (if s.sent == [] then None else Some(s.sent[0].1))
            && (forall f :: f in s.failed <==> f in s.sent)
  {
    StartInv(sources);
    ExecInv(Start(sources), actions);
    ReturnedClosed(sources, actions);
    var s := Exec(Start(sources), actions);
    hide Exec, AllBuild;
    SumZero(s.workers, Alive);
    forall f | f in s.failed ensures f in s.sent {
      var i :| 0 <= i < |s.failed| && s.failed[i] == f;
      assert s.failed[i] in s.sent || IsSending(s, s.failed[i]);
    }
    forall f | f in s.sent ensures f in s.failed {
      var i :| 0 <= i < |s.sent| && s.sent[i] == f;
    }
  }

  /** If all sources build, `Run` returns after every worker has exited; with nil exactly if no transport returned an
      error, and otherwise with the error that was sent first, which a transport returned. */
  lemma ManagerReturnsFirstError(sources: nat, actions: seq<Action>)
    requires AllBuild(sources, actions) && Exec(Start(sources), actions).main.Returned?
    ensures var s := Exec(Start(sources), actions);
            var sends := Sends(Start(sources), actions);
            && (forall w | 0 <= w < |s.workers| :: s.workers[w].Exited?)
            && (s.main.result.None? <==> forall k: nat, w: nat, e :: !FailsAt(Start(sources), actions, k, w, e))
            && (s.main.result.Some? ==>
                  && sends != [] && s.main.result.value == sends[0].1
                  && exists k :: FailsAt(Start(sources), actions, k, sends[0].0, sends[0].1))
  {
    var s := Exec(Start(sources), actions);
    WorkersDone(sources, actions);
    SentExactly(sources, actions);
    forall w: nat, e ensures (w, e) in s.failed <==> exists k :: FailsAt(Start(sources), actions, k, w, e) {
      FailedExactly(sources, actions, w, e);
    }
    hide Exec, Start, Sends, AllBuild, FailsAt;
    if s.sent != [] {
      assert s.sent[0] in s.sent && s.sent[0] in s.failed;
      assert (s.sent[0].0, s.sent[0].1) in s.failed;
      var k: nat :| FailsAt(Start(sources), actions, k, s.sent[0].0, s.sent[0].1);
    }
    if k: nat, w: nat, e :| FailsAt(Start(sources), actions, k, w, e) {
      assert (w, e) in s.failed;
      assert (w, e) in s.sent;
    }
  }

  /** `Run` is documented to wait for all. It leaves workers running only by returning the error of a failed build at
      once; ... */
  lemma OnlyBuildFailureLeavesWorkers(sources: nat, actions: seq<Action>, w: nat) returns (e: Error)
    requires var s := Exec(Start(sources), actions); s.main.Returned? && w < |s.workers| && IsLive(s.workers[w])
    ensures Exec(Start(sources), actions).main == Returned(Some(e)) && BuildFails(Start(sources), actions, e)
  {
    var s := Exec(Start(sources), actions);
    if forall e :: !BuildFails(Start(sources), actions, e) {
      WorkersDone(sources, actions);
      assert false;
    } else {
      e :| BuildFails(Start(sources), actions, e);
      EarlyReturnExactly(sources, actions, e);
    }
  }

  lemma Exec3(s: State, a: Action, b: Action, c: Action)
    ensures Exec(s, [a, b, c]) == Step(Step(Step(s, a), b), c)
  {
    assert [a, b, c][1..] == [b, c] && [b, c][1..] == [c] && [c][1..] == [];
    assert Exec(s, [a, b, c]) == Exec(Step(s, a), [b, c]);
    assert Exec(Step(s, a), [b, c]) == Exec(Step(Step(s, a), b), [c]);
  }

  /** ... and so it does when a source follows one already started: here the second of two does not build, and the first
      one's transport is still running when `Run` has returned. */
  lemma BuildFailureLeavesWorker(e: Error)
    ensures var actions := [Main(None), Main(None), Main(Some(e))];
            var s := Exec(Start(2), actions);
            && BuildFails(Start(2), actions, e)
            && s.main == Returned(Some(e)) && s.workers == [Running, Idle]
  {
    var s := Start(2);
    Exec3(s, Main(None), Main(None), Main(Some(e)));
    assert Step(s, Main(None)) == s.(main := Starting(0), wg := 1);
    assert Step(s.(main := Starting(0), wg := 1), Main(None))
           == s.(main := Building(1), wg := 1, workers := s.workers[0 := Running]);
    EarlyReturnExactly(2, [Main(None), Main(None), Main(Some(e))], e);
  }

  // ---------------------------------------------------------------- progress

  ghost function ToDo(k: Worker): nat {
    match k case Idle => 4 case Running => 3 case Sending(_) => 2 case Closing => 1 case Exited => 0
  }

  ghost function Rank(main: Main, n: nat): int {
    match main
    case Building(i) => 2 * (n - i) + 4
    case Starting(i) => 2 * (n - i) + 3
    case Waiting => 3
    case BeforeClose => 2
    case Reading => 1
    case Returned(_) => 0
  }

  ghost function Left(s: State): int {
    Sum(s.workers, ToDo) + Rank(s.main, |s.workers|)
  }

  lemma LeftNat(s: State)
    requires Inv(s)
    ensures 0 <= Left(s)
  {
  }

  lemma MainShrinks(s: State, build: Option<Error>)
    requires Progress(s)
    ensures MainStep(s, build) == s || Left(MainStep(s, build)) < Left(s)
  {
    hide Sum;
    if s.main.Starting? {
      SumUpdate(s.workers, ToDo, s.main.i, Running);
    }
  }

  /** Every step brings the end nearer or does nothing. */
  lemma StepShrinks(s: State, a: Action)
    requires Inv(s)
    ensures Step(s, a) == s || Left(Step(s, a)) < Left(s)
  {
    hide Sum, Grouped, Queued, Accounted, SentOnce;
    match a
    case Main(build) => MainShrinks(s, build);
    case Return(w, result) =>
      if w < |s.workers| {
        SumUpdate(s.workers, ToDo, w, if result.Some? then Sending(result.value) else Closing);
      }
    case Work(w) =>
      if w < |s.workers| {
        if s.workers[w].Sending? { SendInv(s, w); }
        SumUpdate(s.workers, ToDo, w, if s.workers[w].Sending? then Closing else Exited);
      }
  }

  /** The steps of a schedule that change the state. */
  ghost function Effective(s: State, actions: seq<Action>): nat
    decreases |actions|
  {
    if actions == [] then 0
    else (if Step(s, actions[0]) == s then 0 else 1) + Effective(Step(s, actions[0]), actions[1..])
  }

  lemma {:induction false} EffectiveBounded(s: State, actions: seq<Action>)
    requires Inv(s)
    ensures Effective(s, actions) <= Left(s)
    decreases |actions|
  {
    hide Step, Left, Inv;
    if actions == [] {
      LeftNat(s);
    } else {
      StepShrinks(s, actions[0]);
      StepInv(s, actions[0]);
      EffectiveBounded(Step(s, actions[0]), actions[1..]);
    }
  }

  lemma WorkerMoves(s: State, w: nat)
    requires Inv(s) && w < |s.workers| && IsLive(s.workers[w]) && !s.workers[w].Running?
    ensures Step(s, Work(w)) != s
  {
    var t := WorkerStep(s, w);
    if s.workers[w].Sending? {
      SendInv(s, w);
      hide Inv;
      assert t.workers == s.workers[w := Closing];
    } else {
      hide Inv;
      assert t.workers == s.workers[w := Exited];
    }
    assert t.workers[w] != s.workers[w];
  }

  /** A state in which `Run` has not returned lets it or a worker move, unless it waits for a transport. */
  lemma SomeStep(s: State) returns (a: Action)
    requires Inv(s) && !s.main.Returned? && forall w | 0 <= w < |s.workers| :: !s.workers[w].Running?
    ensures !a.Return? && Step(s, a) != s
  {
    hide Sum;
    a := Main(None);
    if s.main.Waiting? && s.wg != 0 {
      SumZero(s.workers, Alive);
      var w :| 0 <= w < |s.workers| && IsLive(s.workers[w]);
      WorkerMoves(s, w);
      a := Work(w);
    }
  }

  lemma {:induction false} IdleToDo(n: nat)
    ensures Sum(seq(n, _ => Idle), ToDo) == 4 * n
  {
    if 0 < n {
      assert seq(n, _ => Idle)[..n - 1] == seq(n - 1, _ => Idle);
      IdleToDo(n - 1);
    }
  }

  lemma {:induction false} StartLeft(sources: nat)
    ensures Left(Start(sources)) == 6 * sources + 4
  {
    IdleToDo(sources);
  }

  /** `Run` always finishes: no schedule has more than 6 n + 4 steps with an effect, n being the number of sources; and
      when every transport that was started has returned and neither `Run` nor a worker can move, `Run` has returned. A
      transport can always return, which ends its worker's running. */
  lemma RunFinishes(sources: nat, actions: seq<Action>)
    ensures Effective(Start(sources), actions) <= 6 * sources + 4
    ensures var s := Exec(Start(sources), actions);
            && (forall w | 0 <= w < |s.workers| :: !s.workers[w].Running?)
            && (forall a: Action | !a.Return? :: Step(s, a) == s)
            ==> s.main.Returned?
    ensures var s := Exec(Start(sources), actions);
            forall w: nat, result | w < |s.workers| && s.workers[w].Running? ::
              !Step(s, Return(w, result)).workers[w].Running?
  {
    StartInv(sources);
    StartLeft(sources);
    ExecInv(Start(sources), actions);
    EffectiveBounded(Start(sources), actions);
    hide Inv, Exec, Left, Effective;
    var s := Exec(Start(sources), actions);
    if !s.main.Returned? && forall w | 0 <= w < |s.workers| :: !s.workers[w].Running? {
      var a := SomeStep(s);
    }
  }
}
