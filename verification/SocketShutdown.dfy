/** The drain cannot get stuck: after cancellation the listener's own goroutines, without any peer's help, always finish,
    so wg.Wait is never waited for in vain. */
module SocketShutdown {
  import opened Wrappers
  import opened Sequences
  import opened Framing
  import opened Socket
  import opened SocketProofs

  /** Steps of the relay itself; the read of a connection closed by its watcher fails, hence HangUp. */
  ghost predicate Own(a: Action) {
    !a.Cancel? && !a.Accept? && !a.Deliver?
  }

  ghost function Work(k: Conn): nat {
    match k.phase
    case Accepted => |k.data| + 4
    case Scanning => |k.data| + (if k.ended then 2 else 3)
    case Leaving => 1
    case Gone => 0
  }

  ghost function Rank(main: Main): nat {
    match main case Adding => 4 case Spawning => 3 case Accepting => 2 case Draining => 1 case Returned => 0
  }

  ghost function Left<E>(s: State<E>): nat {
    Sum(s.conns, Work) + Rank(s.main)
  }

  lemma SomeLive(conns: seq<Conn>) returns (c: nat)
    requires 0 < Sum(conns, Alive)
    ensures c < |conns| && IsLive(conns[c])
  {
    SumZero(conns, Alive);
    c :| 0 <= c < |conns| && IsLive(conns[c]);
  }

  /** The step a live handler can take once its connection is closed. */
  lemma HandlerCan(k: Conn, c: nat) returns (a: Action)
    requires IsLive(k)
    ensures Own(a) && OfHandler(a) && a.c == c && Work(Advance(k, a)) < Work(k)
  {
    a := if k.phase.Leaving? then Finish(c) else if !k.ended then HangUp(c) else Handle(c);
    hide IndexByte;
  }

  lemma OwnStep<E>(parse: Bytes -> Option<E>, s: State<E>) returns (a: Action)
    requires Counted(s) && s.cancelled && !s.main.Returned?
    ensures Own(a) && Step(parse, s, a).cancelled && Left(Step(parse, s, a)) < Left(s)
  {
    hide Advance, Sum, Emit;
    match s.main
    case Accepting => a := AcceptError;
    case Adding => a := Add;
    case Spawning =>
      a := Spawn;
      var c := |s.conns| - 1;
      SumUpdate(s.conns, Work, c, s.conns[c].(phase := Scanning));
    case Draining =>
      if s.wg == 0 {
        a := Drain;
      } else {
        var c := SomeLive(s.conns);
        a := HandlerCan(s.conns[c], c);
        SumUpdate(s.conns, Work, c, Advance(s.conns[c], a));
      }
  }

  lemma {:induction false} Drains<E>(parse: Bytes -> Option<E>, s: State<E>) returns (rest: seq<Action>)
    requires Counted(s) && s.cancelled
    ensures forall i | 0 <= i < |rest| :: Own(rest[i])
    ensures Exec(parse, s, rest).main.Returned?
    decreases Left(s)
  {
    rest := [];
    if !s.main.Returned? {
      var a := OwnStep(parse, s);
      StepCounted(parse, s, a);
      var more := Drains(parse, Step(parse, s, a));
      rest := [a] + more;
      assert rest[1..] == more;
    }
  }

  /** From every state a cancelled run can reach, own steps alone lead to the return of `ListenSocket`. */
  lemma ShutdownCompletes<E>(parse: Bytes -> Option<E>, actions: seq<Action>) returns (rest: seq<Action>)
    requires Exec(parse, Start(), actions).cancelled
    ensures forall i | 0 <= i < |rest| :: Own(rest[i])
    ensures Exec(parse, Exec(parse, Start(), actions), rest).main.Returned?
  {
    ExecCounted(parse, Start(), actions);
    rest := Drains(parse, Exec(parse, Start(), actions));
  }

  // ---------------------------------------------------------------- every schedule of own steps

  lemma WorkShrinks(k: Conn, a: Action)
    requires a.HangUp? || a.Handle? || a.Finish?
    ensures Advance(k, a) == k || Work(Advance(k, a)) < Work(k)
    ensures |Advance(k, a).seen| <= |k.seen| || Advance(k, a) != k
    ensures a.Finish? && k.phase.Leaving? ==> Advance(k, a) != k
  {
    hide IndexByte;
  }

  lemma HandlerShrinks<E>(parse: Bytes -> Option<E>, s: State<E>, a: Action)
    requires (a.HangUp? || a.Handle? || a.Finish?) && a.c < |s.conns|
    ensures HandlerStep(parse, s, a) == s || Left(HandlerStep(parse, s, a)) < Left(s)
  {
    hide Advance, Sum, Emit, Work;
    WorkShrinks(s.conns[a.c], a);
    SumUpdate(s.conns, Work, a.c, Advance(s.conns[a.c], a));
    if Advance(s.conns[a.c], a) == s.conns[a.c] {
      assert s.conns[a.c := s.conns[a.c]] == s.conns;
      Nothing(s.emitted);
    }
  }

  lemma StartShrinks(k: Conn)
    requires k.phase.Accepted?
    ensures Work(k.(phase := Scanning)) < Work(k)
  {
  }

  /** Once the listener is closed, an own step does nothing or brings the return nearer. */
  lemma OwnShrinks<E>(parse: Bytes -> Option<E>, s: State<E>, a: Action)
    requires Own(a) && !s.listening
    ensures Step(parse, s, a) == s || Left(Step(parse, s, a)) < Left(s)
    ensures !Step(parse, s, a).listening && Step(parse, s, a).cancelled == s.cancelled
  {
    hide Advance, Sum, Emit, Work;
    var c := |s.conns| - 1;
    if a.Spawn? && s.conns != [] && s.conns[c].phase.Accepted? {
      SumUpdate(s.conns, Work, c, s.conns[c].(phase := Scanning));
      StartShrinks(s.conns[c]);
    }
    if (a.HangUp? || a.Handle? || a.Finish?) && a.c < |s.conns| {
      HandlerShrinks(parse, s, a);
    }
  }

  /** The steps of a schedule that change the state. */
  ghost function Effective<E>(parse: Bytes -> Option<E>, s: State<E>, actions: seq<Action>): nat
    decreases |actions|
  {
    if actions == [] then 0
    else (if Step(parse, s, actions[0]) == s then 0 else 1) + Effective(parse, Step(parse, s, actions[0]), actions[1..])
  }

  lemma {:induction false} OwnRun<E>(parse: Bytes -> Option<E>, s: State<E>, own: seq<Action>)
    requires Counted(s) && s.cancelled && !s.listening && forall i | 0 <= i < |own| :: Own(own[i])
    ensures Effective(parse, s, own) <= Left(s)
    ensures Counted(Exec(parse, s, own)) && Exec(parse, s, own).cancelled
    decreases |own|
  {
    hide Step, Left, Counted;
    if own != [] {
      OwnShrinks(parse, s, own[0]);
      StepCounted(parse, s, own[0]);
      OwnRun(parse, Step(parse, s, own[0]), own[1..]);
    }
  }

  /** However the own steps are scheduled: with the listener closed no more than `Left` of them have an effect, and when
      none has any more, `ListenSocket` has returned. */
  lemma EveryShutdownCompletes<E>(parse: Bytes -> Option<E>, actions: seq<Action>, own: seq<Action>)
    requires var s := Exec(parse, Start(), actions); s.cancelled && !s.listening
    requires forall i | 0 <= i < |own| :: Own(own[i])
    ensures var s := Exec(parse, Start(), actions);
            var t := Exec(parse, s, own);
            && Effective(parse, s, own) <= Left(s)
            && ((forall a | Own(a) :: Step(parse, t, a) == t) ==> t.main.Returned?)
  {
    ExecCounted(parse, Start(), actions);
    hide *;
    var s := Exec(parse, Start(), actions);
    OwnRun(parse, s, own);
    var t := Exec(parse, s, own);
    if !t.main.Returned? {
      var a := OwnStep(parse, t);
      assert Step(parse, t, a) != t;
    }
  }

  // ---------------------------------------------------------------- connections and cancellation

  lemma {:induction false} NoMoreAccepted<E>(parse: Bytes -> Option<E>, s: State<E>, later: seq<Action>)
    requires !s.listening
    ensures |Exec(parse, s, later).conns| == |s.conns| && !Exec(parse, s, later).listening
    decreases |later|
  {
    if later != [] {
      var t := Step(parse, s, later[0]);
      assert |t.conns| == |s.conns| && !t.listening by { hide Advance, Emit; }
      hide Step;
      NoMoreAccepted(parse, t, later[1..]);
    }
  }

  /** The listener is closed only after cancellation, its watcher can always close it then, and from then on no
      connection is accepted any more. */
  lemma ClosesOnCancel<E>(parse: Bytes -> Option<E>, actions: seq<Action>, later: seq<Action>)
    ensures var s := Exec(parse, Start(), actions);
            var closed := Step(parse, s, CloseListener);
            && (!s.listening ==> s.cancelled) && Step(parse, s, Cancel).cancelled
            && (closed.listening <==> s.listening && !s.cancelled)
            && (s.cancelled ==> |Exec(parse, closed, later).conns| == |s.conns|)
  {
    ExecCounted(parse, Start(), actions);
    var s := Exec(parse, Start(), actions);
    var closed := Step(parse, s, CloseListener);
    assert closed == s.(listening := closed.listening);
    if s.cancelled {
      NoMoreAccepted(parse, closed, later);
    }
  }

  /** Between the two, connections are still accepted and handled. */
  lemma AcceptsAfterCancel<E>(parse: Bytes -> Option<E>, s: State<E>)
    requires Counted(s) && s.main.Accepting? && s.listening && s.cancelled
    ensures var t := Step(parse, Step(parse, Step(parse, s, Accept), Add), Spawn);
            && t.main.Accepting? && t.wg == s.wg + 1
            && t.conns == s.conns + [Conn(Scanning, [], false, [], [])]
  {
    hide HandlerStep, Sum;
    var k := NewConn();
    var a := Step(parse, s, Accept);
    assert a.conns[|s.conns|] == k;
    assert (s.conns + [k])[|s.conns| := k.(phase := Scanning)] == s.conns + [k.(phase := Scanning)];
  }
}
