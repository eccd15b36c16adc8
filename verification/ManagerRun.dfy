/** `Manager.Run` as the code it is, proved to make the moves of module Manager. */
module ManagerRun {
  import opened Wrappers
  import opened Manager

  class Run {
    // The goroutines' shared variables, and the actions of the run still to come.
    var actions: seq<Action>
    var wg: int
    var workers: seq<Worker>
    const capacity: nat
    var queue: seq<Error>
    var closed: bool
    var fault: Option<Fault>
    ghost var failed: seq<(nat, Error)>
    ghost var sent: seq<(nat, Error)>

    constructor (sources: nat, actions: seq<Action>)
      ensures At(Building(0)) == Start(sources) && this.actions == actions
    {
      this.actions, wg, workers, capacity := actions, 0, seq(sources, _ => Idle), sources;
      queue, closed, fault, failed, sent := [], false, None, [], [];
    }

    ghost function At(main: Main): State
      reads this
    {
      State(main, wg, workers, capacity, queue, closed, fault, failed, sent)
    }

    /** Where the run ends from here. */
    ghost function Ahead(main: Main): State
      reads this
    {
      Exec(At(main), actions)
    }

    /** A transport returns. */
    method Finish(w: nat, result: Option<Error>, ghost main: Main)
      modifies this`workers, this`failed
      ensures At(main) == Step(old(At(main)), Return(w, result)) && |workers| == |old(workers)|
    {
      if w < |workers| && workers[w].Running? {
        workers := workers[w := if result.Some? then Sending(result.value) else Closing];
        failed := failed + (if result.Some? then [(w, result.value)] else []);
      }
    }

    /** A worker's own step: `errs <- ...` if its transport failed, and then the deferred wg.Done. */
    method Advance(w: nat, ghost main: Main)
      modifies this`workers, this`queue, this`sent, this`wg, this`fault
      ensures At(main) == Step(old(At(main)), Work(w)) && |workers| == |old(workers)|
    {
      if |workers| <= w { return; }
      match workers[w]
      case Sending(error) =>
        if closed {
          fault := Some(SendOnClosed);
        } else if |queue| < capacity {
          workers := workers[w := Closing];
          queue := queue + [error];
          sent := sent + [(w, error)];
        }
      case Closing =>
        workers := workers[w := Exited];
        if wg < 1 { fault := Some(NegativeGroup); }
        wg := wg - 1;
      case _ =>
    }

    /** Lets the workers act until `Run` may make its next step, or the run ends. */
    method Await(ghost main: Main) returns (go: bool, build: Option<Error>)
      modifies this`actions, this`workers, this`queue, this`failed, this`sent, this`wg, this`fault
      ensures |workers| == |old(workers)|
      ensures go ==> |actions| < |old(actions)| && old(Ahead(main)) == Exec(MainStep(At(main), build), actions)
      ensures !go ==> actions == [] && old(Ahead(main)) == Ahead(main)
    {
      hide MainStep, WorkerStep;
      go, build := false, None;
      while actions != [] && !go
        invariant |workers| == |old(workers)|
        invariant go ==> |actions| < |old(actions)| && old(Ahead(main)) == Exec(MainStep(At(main), build), actions)
        invariant !go ==> |actions| <= |old(actions)| && old(Ahead(main)) == Ahead(main)
        decreases |actions|, !go
      {
        var a := actions[0];
        actions := actions[1..];
        match a
        case Main(b) => go, build := true, b;
        case Return(w, result) => Finish(w, result, main);
        case Work(w) => Advance(w, main);
      }
    }

    /** The loop over the sources: build, wg.Add(1), go. */
    method StartAll() returns (done: bool, result: Option<Error>, ghost main: Main)
      modifies this`actions, this`workers, this`queue, this`failed, this`sent, this`wg, this`fault
      ensures |actions| <= |old(actions)|
      ensures old(Ahead(Building(0))) == Ahead(main)
      ensures if done then main == Returned(result) || actions == [] else main == Waiting
    {
      hide Exec, WorkerStep;
      done, result, main := true, None, Building(0);
      var go, build;
      for i := 0 to |workers|
        invariant |workers| == |old(workers)| && |actions| <= |old(actions)|
        invariant main == Building(i) && old(Ahead(Building(0))) == Ahead(main)
      {
        go, build := Await(main);
        if !go { return; }
        if build.Some? { return true, build, Returned(build); }
        wg := wg + 1;
        main := Starting(i);
        go, build := Await(main);
        if !go { return; }
        workers := workers[i := Running];
        main := Building(i + 1);
      }
      go, build := Await(main);
      if !go { return; }
      return false, None, Waiting;
    }

    /** wg.Wait. */
    method WaitAll() returns (go: bool)
      modifies this`actions, this`workers, this`queue, this`failed, this`sent, this`wg, this`fault
      ensures if go then old(Ahead(Waiting)) == Ahead(BeforeClose)
              else actions == [] && old(Ahead(Waiting)) == Ahead(Waiting)
    {
      hide Exec, WorkerStep;
      var build;
      go, build := Await(Waiting);
      while go && wg != 0
        invariant if go then old(Ahead(Waiting)) == Exec(MainStep(At(Waiting), build), actions)
                  else actions == [] && old(Ahead(Waiting)) == Ahead(Waiting)
        decreases |actions|, go
      {
        go, build := Await(Waiting);
      }
    }

    /** wg.Wait, close, and the first error received, if any. */
    method Collect() returns (result: Option<Error>, ghost main: Main)
      modifies this
      ensures old(Ahead(Waiting)) == Ahead(main)
      ensures main == Returned(result) || actions == []
    {
      hide Exec, WorkerStep;
      result, main := None, Waiting;
      var build;
      var go := WaitAll();
      if !go { return; }
      main := BeforeClose;
      go, build := Await(main);
      if !go { return; }
      closed := true;
      main := Reading;
      go, build := Await(main);
      if !go { return; }
      if queue != [] {
        result := Some(queue[0]);
        queue := queue[1..];
      }
      main := Returned(result);
    }

    /** Runs until it returns or the actions run out. The run of the machine from the start is the run from here, so the
        lemmas about `Exec` are about this code; what follows a return are only steps of workers. */
    method Execute() returns (result: Option<Error>, ghost main: Main)
      modifies this
      ensures old(Ahead(Building(0))) == Ahead(main)
      ensures main == Returned(result) || actions == []
    {
      var done;
      done, result, main := StartAll();
      if done { return; }
      result, main := Collect();
    }
  }
}
