/** relay/socket_listener.go as an interleaving of atomic actions: the accept loop, one handler per connection, the
    watchers that close listener and connections on cancellation, and the peers. A list of actions is a schedule;
    an action that is not enabled does nothing, so every list is one. */
module Socket {
  import opened Wrappers
  import opened Framing
  import opened Scanner

  const SOCKET_SCAN_BUF := 0x10_0000

  /** A handler goroutine: not started, in its scan loop, returned but yet to call wg.Done, gone. */
  datatype Phase = Accepted | Scanning | Leaving | Gone

  /** One connection: `data` is what its scanner has buffered, `ended` that its reads now fail. `scanned` and `seen`
      log the bytes already taken as tokens and the tokens; no action consults them. */
  datatype Conn = Conn(phase: Phase, data: Bytes, ended: bool, scanned: Bytes, seen: seq<Bytes>) {
    /** All bytes read from the connection. */
    ghost function Received(): Bytes {
      scanned + data
    }
  }

  function NewConn(): Conn {
    Conn(Accepted, [], false, [], [])
  }

  /** Where the accept loop is: in Accept, before wg.Add, before the go statement, in wg.Wait, returned nil. */
  datatype Main = Accepting | Adding | Spawning | Draining | Returned

  /** `emitted` tags every event with the connection that emitted it. */
  datatype State<E> = State(main: Main, cancelled: bool, listening: bool, wg: int,
                            conns: seq<Conn>, emitted: seq<(nat, E)>)

  datatype Action =
    | Cancel | CloseListener
    | Accept | AcceptError | Add | Spawn | Drain
    | Deliver(c: nat, data: Bytes) | HangUp(c: nat) | Handle(c: nat) | Finish(c: nat)

  function Start<E>(): State<E> {
    State(Accepting, false, true, 0, [], [])
  }

  /** What the action does to the connection: a read, a failed read, one turn of the scan loop, or the exit. */
  function Advance(k: Conn, a: Action): Conn {
    if k.phase.Leaving? then (if a.Finish? then k.(phase := Gone) else k)
    else if !k.phase.Scanning? then k
    else match a
      case Deliver(_, data) =>
        if !k.ended && Scan1(k.data, false, SOCKET_SCAN_BUF).NeedRead?
        then k.(data := k.data + data) else k
      case HangUp(_) => k.(ended := true)
      case Handle(_) =>
        (match Scan1(k.data, k.ended, SOCKET_SCAN_BUF)
         case Token(token, rest) =>
           k.(data := rest, scanned := k.scanned + k.data[..|k.data| - |rest|], seen := k.seen + [token])
         case Stop => k.(phase := Leaving)
         case NeedRead => k)
      case _ => k
  }

  /** The body of the scan loop: skip an empty line, emit what the source parses. */
  function Emit<E>(parse: Bytes -> Option<E>, c: nat, line: Bytes): seq<(nat, E)> {
    if line == [] then [] else match parse(line) case None => [] case Some(e) => [(c, e)]
  }

  function HandlerStep<E>(parse: Bytes -> Option<E>, s: State<E>, a: Action): State<E>
    requires (a.Deliver? || a.HangUp? || a.Handle? || a.Finish?) && a.c < |s.conns|
  {
    var k := s.conns[a.c];
    var k' := Advance(k, a);
    s.(wg := if a.Finish? && k.phase.Leaving? then s.wg - 1 else s.wg,
       conns := s.conns[a.c := k'],
       emitted := s.emitted + (if |k.seen| < |k'.seen| then Emit(parse, a.c, k'.seen[|k'.seen| - 1]) else []))
  }

  function Step<E>(parse: Bytes -> Option<E>, s: State<E>, a: Action): State<E> {
    match a
    case Cancel => s.(cancelled := true)
    case CloseListener => if s.cancelled then s.(listening := false) else s
    case Accept =>
      if s.main.Accepting? && s.listening
      then s.(main := Adding, conns := s.conns + [NewConn()]) else s
    case AcceptError =>
      if s.main.Accepting? && s.cancelled then s.(main := Draining) else s
    case Add =>
      if s.main.Adding? then s.(main := Spawning, wg := s.wg + 1) else s
    case Spawn =>
      var c := |s.conns| - 1;
      if s.main.Spawning? && 0 <= c && s.conns[c].phase.Accepted?
      then s.(main := Accepting, conns := s.conns[c := s.conns[c].(phase := Scanning)]) else s
    case Drain =>
      if s.main.Draining? && s.wg == 0 then s.(main := Returned) else s
    case _ =>
      if a.c < |s.conns| then HandlerStep(parse, s, a) else s
  }

  function Exec<E>(parse: Bytes -> Option<E>, s: State<E>, actions: seq<Action>): State<E>
    decreases |actions|
  {
    if actions == [] then s else Exec(parse, Step(parse, s, actions[0]), actions[1..])
  }

  ghost predicate OfHandler(a: Action) {
    a.Deliver? || a.HangUp? || a.Handle? || a.Finish?
  }
}
