/** `ListenSocket` and `handleSocketConn` as the code that makes the moves of module Socket. */
module Listeners {
  import opened Wrappers
  import opened Sequences
  import opened Framing
  import opened Scanner
  import opened LineScanners
  import opened Socket
  import opened SocketProofs

  /** The body of the scan loop. */
  method ParseLine<E>(parse: Bytes -> Option<E>, line: Bytes) returns (out: seq<E>)
    ensures out == Parsed(parse, line)
  {
    out := [];
    if line == [] { return; }
    match parse(line)
    case Some(event) => out := [event];
    case None =>
  }

  /** The scan loop of `handleSocketConn`. */
  method ScanLoop<E>(parse: Bytes -> Option<E>, scanner: LineScanner) returns (emitted: seq<E>)
    requires scanner.Valid()
    modifies scanner
    ensures emitted == Framing.Deliver(parse, old(scanner.left))
  {
    emitted := [];
    while true
      invariant scanner.Valid()
      invariant Framing.Deliver(parse, old(scanner.left)) == emitted + Framing.Deliver(parse, scanner.left)
      decreases |scanner.left|
    {
      var ok, line := scanner.Scan();
      if !ok { break; }
      DeliverCons(parse, line, scanner.left);
      Assoc(emitted, Parsed(parse, line), Framing.Deliver(parse, scanner.left));
      var out := ParseLine(parse, line);
      emitted := emitted + out;
    }
  }

  /** `handleSocketConn`: scans a connection until its reads end. The events are those of the whole stream's tokens,
      however the stream was cut into reads. */
  method HandleSocketConn<E>(parse: Bytes -> Option<E>, pieces: seq<Bytes>) returns (emitted: seq<E>)
    ensures emitted == Framing.Deliver(parse, Tokens(Flatten(pieces), 0x10_0000).tokens)
  {
    var scanner := new LineScanner(pieces, SOCKET_SCAN_BUF);
    emitted := ScanLoop(parse, scanner);
  }

  /** The steps of the accept loop; all others are those of other goroutines, of a peer or of the context. */
  ghost predicate OfMain(a: Action) {
    a.Accept? || a.AcceptError? || a.Add? || a.Spawn? || a.Drain?
  }

  /** The turns the scheduler gives to the goroutine of connection c. */
  ghost predicate OfGoroutine(a: Action, c: nat) {
    a == Handle(c) || a == Finish(c)
  }

  /** Steps of others leave the accept loop where it is, ... */
  lemma OthersKeepMain<E>(parse: Bytes -> Option<E>, s: Socket.State<E>, a: Action)
    requires !OfMain(a)
    ensures Step(parse, s, a).main == s.main && |Step(parse, s, a).conns| == |s.conns|
  {
  }

  /** ... and so do its own that are not due. */
  lemma NotDue<E>(parse: Bytes -> Option<E>, s: Socket.State<E>, a: Action)
    requires OfMain(a)
    requires s.main.Accepting? ==> !a.AcceptError? && (a.Accept? ==> !s.listening)
    requires s.main.Adding? ==> !a.Add?
    requires s.main.Spawning? ==> !a.Spawn?
    requires s.main.Draining? ==> !a.Drain?
    ensures Step(parse, s, a) == s
  {
  }

  lemma SpawnDue<E>(s: Socket.State<E>)
    requires Counted(s) && s.main.Spawning?
    ensures s.conns != [] && s.conns[|s.conns| - 1].phase.Accepted?
  {
  }

  lemma AllGone<E>(s: Socket.State<E>)
    requires Counted(s) && s.main.Returned?
    ensures s.cancelled && s.wg == 0 && forall c | 0 <= c < |s.conns| :: s.conns[c].phase.Gone?
  {
    SumZero(s.conns, Alive);
  }

  /** Others leave the phase of a running goroutine alone. */
  lemma OthersKeepPhase<E>(parse: Bytes -> Option<E>, s: Socket.State<E>, a: Action, c: nat)
    requires !OfGoroutine(a, c) && c < |s.conns| && (s.conns[c].phase.Scanning? || s.conns[c].phase.Leaving?)
    ensures c < |Step(parse, s, a).conns| && Step(parse, s, a).conns[c].phase == s.conns[c].phase
  {
    hide Scan1, Emit;
  }

  ghost predicate EndsWith(seen: seq<Bytes>, line: Bytes) {
    seen != [] && seen[|seen| - 1] == line
  }

  lemma EmitIsParsed<E>(parse: Bytes -> Option<E>, c: nat, line: Bytes)
    ensures var out := Parsed(parse, line);
            Emit(parse, c, line) == if out == [] then [] else [(c, out[0])]
  {
  }

  lemma TurnNotDue<E>(parse: Bytes -> Option<E>, s: Socket.State<E>, a: Action)
    requires a.Handle? || a.Finish?
    requires a.c < |s.conns| && Advance(s.conns[a.c], a) == s.conns[a.c] && !(a.Finish? && s.conns[a.c].phase.Leaving?)
    ensures Step(parse, s, a) == s
  {
    assert s.conns[a.c := s.conns[a.c]] == s.conns;
    Nothing(s.emitted);
  }

  /** The variables the goroutines of a listener share, and the schedule still to come. Each of the two methods
      `ListenSocket` and `HandleConn` is the code of one goroutine; while it waits for its turn, the schedule lets all
      the others move. */
  class Listener<E> {
    const parse: Bytes -> Option<E>
    var schedule: seq<Action>
    var main: Main  // set by `ListenSocket` as it goes, and read by no code
    var cancelled: bool
    var listening: bool
    var wg: int
    var conns: seq<Conn>
    var emitted: seq<(nat, E)>

    constructor (parse: Bytes -> Option<E>, schedule: seq<Action>)
      ensures this.parse == parse && this.schedule == schedule && Now() == Start() && Counted(Now())
    {
      this.parse, this.schedule := parse, schedule;
      main, cancelled, listening, wg, conns, emitted := Accepting, false, true, 0, [], [];
    }

    function Now(): Socket.State<E>
      reads this
    {
      State(main, cancelled, listening, wg, conns, emitted)
    }

    /** Where the run ends from here. */
    ghost function Ahead(): Socket.State<E>
      reads this
    {
      Exec(parse, Now(), schedule)
    }

    /** Another goroutine, a peer or the context moves. */
    method Others(a: Action)
      modifies this
      ensures Now() == Step(parse, old(Now()), a) && schedule == old(schedule)
    {
      var t := Step(parse, Now(), a);
      main, cancelled, listening, wg, conns, emitted := t.main, t.cancelled, t.listening, t.wg, t.conns, t.emitted;
    }

    // ---------------------------------------------------------------- the accept loop

    /** Lets others move until the schedule names the accept loop, or ends. */
    method Await() returns (go: bool, a: Action)
      requires Counted(Now())
      modifies this
      ensures Counted(Now()) && main == old(main) && |conns| == |old(conns)|
      ensures go ==> OfMain(a) && |schedule| < |old(schedule)|
      ensures go ==> old(Ahead()) == Exec(parse, Step(parse, Now(), a), schedule)
      ensures !go ==> schedule == [] && old(Ahead()) == Ahead()
    {
      hide Step, Counted;
      go, a := false, Drain;
      while schedule != [] && !go
        invariant Counted(Now()) && main == old(main) && |conns| == |old(conns)|
        invariant go ==> OfMain(a) && |schedule| < |old(schedule)|
        invariant go ==> old(Ahead()) == Exec(parse, Step(parse, Now(), a), schedule)
        invariant !go ==> |schedule| <= |old(schedule)| && old(Ahead()) == Ahead()
        decreases |schedule|, !go
      {
        a := schedule[0];
        schedule := schedule[1..];
        if a.Accept? || a.AcceptError? || a.Add? || a.Spawn? || a.Drain? {
          go := true;
        } else {
          StepCounted(parse, Now(), a);
          OthersKeepMain(parse, Now(), a);
          Others(a);
        }
      }
    }

    /** `ln.Accept`: blocks until there is a connection or an error. */
    method AcceptCall() returns (go: bool, conn: Option<Conn>)
      requires Counted(Now()) && main == Accepting
      modifies this
      ensures Counted(Now()) && main == Accepting
      ensures go ==> |schedule| < |old(schedule)| && (conn.Some? ==> listening && conn.value == NewConn())
      ensures go ==>
              old(Ahead()) == Exec(parse, Step(parse, Now(), if conn.Some? then Accept else AcceptError), schedule)
      ensures !go ==> schedule == [] && old(Ahead()) == Ahead()
    {
      hide Step, Counted, Exec;
      while true
        invariant Counted(Now()) && main == Accepting
        invariant |schedule| <= |old(schedule)| && old(Ahead()) == Ahead()
        decreases |schedule|
      {
        var a;
        go, a := Await();
        if !go { return false, None; }
        if a.AcceptError? { return true, None; }
        if a.Accept? && listening { return true, Some(NewConn()); }
        NotDue(parse, Now(), a);
      }
    }

    /** Blocks until the scheduler lets the accept loop make the step it is at. */
    method Turn(due: Action) returns (go: bool)
      requires Counted(Now())
      requires (main.Adding? && due.Add?) || (main.Spawning? && due.Spawn?) || (main.Draining? && due.Drain?)
      modifies this
      ensures Counted(Now()) && main == old(main)
      ensures go ==> |schedule| < |old(schedule)| && old(Ahead()) == Exec(parse, Step(parse, Now(), due), schedule)
      ensures !go ==> schedule == [] && old(Ahead()) == Ahead()
    {
      hide Step, Counted, Exec;
      while true
        invariant Counted(Now()) && main == old(main)
        invariant |schedule| <= |old(schedule)| && old(Ahead()) == Ahead()
        decreases |schedule|
      {
        var a;
        go, a := Await();
        if !go || a == due { return; }
        NotDue(parse, Now(), a);
      }
    }

    /** wg.Wait. */
    method WaitAll() returns (returned: bool)
      requires Counted(Now()) && main == Draining
      modifies this
      ensures Counted(Now()) && old(Ahead()) == Ahead()
      ensures if returned then main == Returned else schedule == []
    {
      hide Exec, HandlerStep;
      while true
        invariant Counted(Now()) && main == Draining
        invariant |schedule| <= |old(schedule)| && old(Ahead()) == Ahead()
        decreases |schedule|
      {
        var go := Turn(Drain);
        if !go { return false; }
        StepCounted(parse, Now(), Drain);
        if wg == 0 {
          main := Returned;
          return true;
        }
      }
    }

    /** wg.Add(1) and the go statement for the connection just accepted. */
    method StartHandler() returns (go: bool)
      requires Counted(Now()) && main == Adding
      modifies this
      ensures Counted(Now()) && old(Ahead()) == Ahead()
      ensures if go then main == Accepting && |schedule| <= |old(schedule)| else schedule == []
    {
      hide Exec, HandlerStep, Counted;
      go := Turn(Add);
      if !go { return; }
      StepCounted(parse, Now(), Add);
      wg := wg + 1;
      main := Spawning;
      go := Turn(Spawn);
      if !go { return; }
      SpawnDue(Now());
      StepCounted(parse, Now(), Spawn);
      var c := |conns| - 1;
      conns := conns[c := conns[c].(phase := Scanning)];
      main := Accepting;
    }

    /** `ListenSocket`, from the loop on. It runs until it returns or the schedule ends, and either way the machine's run
        is the one it has made; it returns only when cancelled and with every handler gone. */
    method ListenSocket() returns (returned: bool)
      requires Counted(Now()) && main == Accepting
      modifies this
      ensures old(Ahead()) == Ahead()
      ensures !returned ==> schedule == []
      ensures returned ==> main == Returned && cancelled && wg == 0
      ensures returned ==> forall c | 0 <= c < |conns| :: conns[c].phase.Gone?
    {
      hide Exec, HandlerStep, Counted;
      while true
        invariant Counted(Now()) && main == Accepting
        invariant |schedule| <= |old(schedule)| && old(Ahead()) == Ahead()
        decreases |schedule|
      {
        var go, conn := AcceptCall();
        if !go { return false; }
        if conn.None? {
          StepCounted(parse, Now(), AcceptError);
          if cancelled {
            main := Draining;
            returned := WaitAll();
            if returned { AllGone(Now()); }
            return;
          }
          continue;
        }
        StepCounted(parse, Now(), Accept);
        conns := conns + [conn.value];
        main := Adding;
        go := StartHandler();
        if !go { return false; }
      }
    }

    // ---------------------------------------------------------------- a handler

    /** Lets others move until the schedule names the goroutine of connection c, or ends. */
    method AwaitGoroutine(c: nat) returns (go: bool, a: Action)
      requires c < |conns| && (conns[c].phase.Scanning? || conns[c].phase.Leaving?)
      modifies this
      ensures c < |conns| && conns[c].phase == old(conns[c].phase)
      ensures go ==> OfGoroutine(a, c) && |schedule| < |old(schedule)|
      ensures go ==> old(Ahead()) == Exec(parse, Step(parse, Now(), a), schedule)
      ensures !go ==> schedule == [] && old(Ahead()) == Ahead()
    {
      hide Step;
      go, a := false, Handle(c);
      while schedule != [] && !go
        invariant c < |conns| && conns[c].phase == old(conns[c].phase)
        invariant go ==> OfGoroutine(a, c) && |schedule| < |old(schedule)|
        invariant go ==> old(Ahead()) == Exec(parse, Step(parse, Now(), a), schedule)
        invariant !go ==> |schedule| <= |old(schedule)| && old(Ahead()) == Ahead()
        decreases |schedule|, !go
      {
        a := schedule[0];
        schedule := schedule[1..];
        if a == Handle(c) || a == Finish(c) {
          go := true;
        } else {
          OthersKeepPhase(parse, Now(), a, c);
          Others(a);
        }
      }
    }

    /** `scanner.Scan`: blocks until a line can be taken from what the connection has received, or none will come. The
        event of the line is still to be emitted. */
    method Scan(c: nat) returns (go: bool, line: Option<Bytes>)
      requires c < |conns| && conns[c].phase.Scanning?
      modifies this
      ensures c < |conns|
      ensures go ==> |schedule| < |old(schedule)|
      ensures go && line.Some? ==> conns[c].phase.Scanning? && EndsWith(conns[c].seen, line.value)
      ensures go && line.None? ==> Scan1(conns[c].data, conns[c].ended, SOCKET_SCAN_BUF).Stop?
      ensures go && line.Some? ==>
              old(Ahead()) == Exec(parse, Now().(emitted := emitted + Emit(parse, c, line.value)), schedule)
      ensures go && line.None? ==> conns[c].phase.Leaving? && old(Ahead()) == Ahead()
      ensures !go ==> schedule == [] && old(Ahead()) == Ahead()
    {
      hide Scan1, Exec, Emit;
      while true
        invariant c < |conns| && conns[c].phase.Scanning?
        invariant |schedule| <= |old(schedule)| && old(Ahead()) == Ahead()
        decreases |schedule|
      {
        var a;
        go, a := AwaitGoroutine(c);
        if !go { return false, None; }
        Nothing(emitted);
        var k := conns[c];
        if a == Handle(c) {
          match Scan1(k.data, k.ended, SOCKET_SCAN_BUF)
          case Token(token, rest) =>
            var taken := k.scanned + k.data[..|k.data| - |rest|];
            conns := conns[c := k.(data := rest, scanned := taken, seen := k.seen + [token])];
            return true, Some(token);
          case Stop =>
            conns := conns[c := k.(phase := Leaving)];
            return true, None;
          case NeedRead => TurnNotDue(parse, Now(), a);
        } else {
          TurnNotDue(parse, Now(), a);
        }
      }
    }

    /** The deferred wg.Done. */
    method Done(c: nat) returns (go: bool)
      requires c < |conns| && conns[c].phase.Leaving?
      modifies this
      ensures old(Ahead()) == Ahead()
      ensures if go then c < |conns| && conns[c].phase.Gone? else schedule == []
    {
      hide Scan1, Exec, Emit;
      while true
        invariant c < |conns| && conns[c].phase.Leaving?
        invariant |schedule| <= |old(schedule)| && old(Ahead()) == Ahead()
        decreases |schedule|
      {
        var a;
        go, a := AwaitGoroutine(c);
        if !go { return; }
        if a == Finish(c) {
          Nothing(emitted);
          conns := conns[c := conns[c].(phase := Gone)];
          wg := wg - 1;
          return;
        }
        TurnNotDue(parse, Now(), a);
      }
    }

    /** The goroutine of connection c: `handleSocketConn` and the deferred wg.Done, among whatever all others do. */
    method HandleConn(c: nat) returns (done: bool)
      requires c < |conns| && conns[c].phase.Scanning?
      modifies this
      ensures old(Ahead()) == Ahead()
      ensures if done then c < |conns| && conns[c].phase.Gone? else schedule == []
    {
      hide Exec, Emit, Parsed;
      while true
        invariant c < |conns| && conns[c].phase.Scanning?
        invariant |schedule| <= |old(schedule)| && old(Ahead()) == Ahead()
        decreases |schedule|
      {
        var go, line := Scan(c);
        if !go { return false; }
        if line.None? { break; }
        EmitIsParsed(parse, c, line.value);
        var out := ParseLine(parse, line.value);
        Nothing(emitted);
        if out != [] { emitted := emitted + [(c, out[0])]; }
      }
      done := Done(c);
    }
  }
}
