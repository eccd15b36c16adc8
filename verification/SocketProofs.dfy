/** What holds in every schedule of the socket listener. */
module SocketProofs {
  import opened Wrappers
  import opened Sequences
  import opened Framing
  import opened Scanner
  import opened Socket

  // ---------------------------------------------------------------- the wait group

  ghost predicate IsLive(k: Conn) {
    k.phase.Scanning? || k.phase.Leaving?
  }

  ghost function Alive(k: Conn): nat {
    if IsLive(k) then 1 else 0
  }

  /** The group counts the live handlers and the one whose go statement is due; only the last connection can be
      without its handler, and only between Accept and go. */
  ghost predicate Counted<E>(s: State<E>) {
    && s.wg == Sum(s.conns, Alive) + (if s.main.Spawning? then 1 else 0)
    && (s.main.Adding? || s.main.Spawning? ==> s.conns != [] && s.conns[|s.conns| - 1].phase.Accepted?)
    && (forall c | 0 <= c < |s.conns| :: s.conns[c].phase.Accepted? ==>
          c == |s.conns| - 1 && (s.main.Adding? || s.main.Spawning?))
    && (s.main.Draining? || s.main.Returned? || !s.listening ==> s.cancelled)
    && (s.main.Returned? ==> s.wg == 0)
  }

  lemma AdvanceLive(k: Conn, a: Action)
    ensures Advance(k, a).phase.Accepted? <==> k.phase.Accepted?
    ensures IsLive(Advance(k, a)) <==> IsLive(k) && !(a.Finish? && k.phase.Leaving?)
  {
    hide Scan1;
  }

  lemma HandlerCounted<E>(parse: Bytes -> Option<E>, s: State<E>, a: Action)
    requires Counted(s) && OfHandler(a) && a.c < |s.conns|
    ensures Counted(HandlerStep(parse, s, a))
  {
    hide Advance, Sum, Emit;
    AdvanceLive(s.conns[a.c], a);
    SumUpdate(s.conns, Alive, a.c, Advance(s.conns[a.c], a));
    if s.main.Returned? {
      SumZero(s.conns, Alive);
    }
  }

  lemma AcceptCounted<E>(parse: Bytes -> Option<E>, s: State<E>)
    requires Counted(s)
    ensures Counted(Step(parse, s, Accept))
  {
    SumSnoc(s.conns, Alive, NewConn());
    hide Sum, HandlerStep;
  }

  lemma SpawnCounted<E>(parse: Bytes -> Option<E>, s: State<E>)
    requires Counted(s)
    ensures Counted(Step(parse, s, Spawn))
  {
    if s.conns != [] {
      var c := |s.conns| - 1;
      SumUpdate(s.conns, Alive, c, s.conns[c].(phase := Scanning));
    }
    hide Sum, HandlerStep;
  }

  lemma StepCounted<E>(parse: Bytes -> Option<E>, s: State<E>, a: Action)
    requires Counted(s)
    ensures Counted(Step(parse, s, a))
  {
    hide Sum, HandlerStep;
    match a
    case Accept => AcceptCounted(parse, s);
    case Spawn => SpawnCounted(parse, s);
    case Cancel =>
    case CloseListener =>
    case AcceptError =>
    case Add =>
    case Drain => assert Counted(Step(parse, s, Drain));
    case _ => if a.c < |s.conns| { HandlerCounted(parse, s, a); }
  }

  lemma {:induction false} ExecCounted<E>(parse: Bytes -> Option<E>, s: State<E>, actions: seq<Action>)
    requires Counted(s)
    ensures Counted(Exec(parse, s, actions))
    decreases |actions|
  {
    if actions != [] {
      StepCounted(parse, s, actions[0]);
      ExecCounted(parse, Step(parse, s, actions[0]), actions[1..]);
    }
  }

  /** In every schedule, connections accepted after cancellation included. */
  lemma WaitGroupCountsHandlers<E>(parse: Bytes -> Option<E>, actions: seq<Action>)
    ensures var s := Exec(parse, Start(), actions);
            s.wg == Sum(s.conns, Alive) + (if s.main.Spawning? then 1 else 0)
  {
    ExecCounted(parse, Start(), actions);
  }

  /** `ListenSocket` returns only when cancelled and with every handler gone, ... */
  lemma ReturnsWhenDrained<E>(parse: Bytes -> Option<E>, actions: seq<Action>)
    requires Exec(parse, Start(), actions).main.Returned?
    ensures var s := Exec(parse, Start(), actions);
            s.cancelled && forall c | 0 <= c < |s.conns| :: s.conns[c].phase.Gone?
  {
    ExecCounted(parse, Start(), actions);
    SumZero(Exec(parse, Start(), actions).conns, Alive);
  }

  lemma {:induction false} ReturnedStays<E>(parse: Bytes -> Option<E>, s: State<E>, later: seq<Action>)
    requires s.main.Returned? && Counted(s)
    ensures Exec(parse, s, later).main.Returned? && Exec(parse, s, later).emitted == s.emitted
    decreases |later|
  {
    if later != [] {
      SumZero(s.conns, Alive);
      StepCounted(parse, s, later[0]);
      ReturnedStays(parse, Step(parse, s, later[0]), later[1..]);
    }
  }

  /** ... and whatever happens afterwards, nothing is emitted any more. */
  lemma NoEmitAfterReturn<E>(parse: Bytes -> Option<E>, actions: seq<Action>, later: seq<Action>)
    requires Exec(parse, Start(), actions).main.Returned?
    ensures var s := Exec(parse, Start(), actions);
            Exec(parse, s, later).main.Returned? && Exec(parse, s, later).emitted == s.emitted
  {
    ExecCounted(parse, Start(), actions);
    ReturnedStays(parse, Exec(parse, Start(), actions), later);
  }

  // ---------------------------------------------------------------- what is emitted

  /** The events of connection `c`, in the order emitted. */
  ghost function Project<E>(emitted: seq<(nat, E)>, c: nat): seq<E> {
    if emitted == [] then []
    else Project(emitted[..|emitted| - 1], c)
         + (if emitted[|emitted| - 1].0 == c then [emitted[|emitted| - 1].1] else [])
  }

  lemma {:induction false} ProjectAppend<E>(a: seq<(nat, E)>, b: seq<(nat, E)>, c: nat)
    ensures Project(a + b, c) == Project(a, c) + Project(b, c)
    decreases |b|
  {
    if b == [] {
      assert a + b == a;
    } else {
      assert (a + b)[..|a + b| - 1] == a + b[..|b| - 1];
      ProjectAppend(a, b[..|b| - 1], c);
    }
  }

  ghost predicate Underway(k: Conn) {
    Whole(k.scanned, SOCKET_SCAN_BUF) && k.seen == DropCRs(Lines(k.scanned))
  }

  ghost predicate Complete(k: Conn) {
    var scan := Tokens(k.Received(), SOCKET_SCAN_BUF);
    k.seen == scan.tokens && (k.ended || scan.tooLong)
  }

  /** How a connection's tokens relate to the bytes received: while it scans they are those of the whole lines taken,
      or already all there are; once it has left they are all there are. */
  ghost predicate Progress(k: Conn) {
    match k.phase
    case Accepted => Underway(k)
    case Scanning => Underway(k) || (k.ended && k.data == [] && Complete(k))
    case _ => Complete(k)
  }

  lemma ScanLine(k: Conn, i: nat)
    requires k.phase.Scanning? && Underway(k) && i == IndexByte(k.data, LF) && i < SOCKET_SCAN_BUF
    ensures Underway(Advance(k, Handle(0))) && Advance(k, Handle(0)).phase.Scanning?
  {
    hide Lines, Rest, DropCRs, IndexByte, Whole;
    WholeSnoc(k.scanned, k.data[..i], SOCKET_SCAN_BUF);
    assert k.data[..|k.data| - |k.data[i + 1..]|] == k.data[..i] + [LF];
  }

  lemma ScanLast(k: Conn)
    requires k.phase.Scanning? && Underway(k) && !(0 <= IndexByte(k.data, LF) < SOCKET_SCAN_BUF)
    ensures Progress(Advance(k, Handle(0)))
  {
    hide Lines, Rest, DropCRs, IndexByte, Whole;
    TokensAfter(k.scanned, k.data, SOCKET_SCAN_BUF);
    if |k.data| < SOCKET_SCAN_BUF && k.ended && k.data != [] {
      assert k.data[..|k.data|] == k.data;
      assert k.Received() + [] == k.Received();
    }
  }

  lemma ScanDone(k: Conn)
    requires k.phase.Scanning? && k.ended && k.data == [] && Complete(k)
    ensures Progress(Advance(k, Handle(0)))
  {
    assert Advance(k, Handle(0)) == k.(phase := Leaving);
    hide Tokens, Scan1;
  }

  lemma HandleProgress(k: Conn)
    requires k.phase.Scanning? && Progress(k)
    ensures Progress(Advance(k, Handle(0)))
  {
    hide Tokens, Scan1, Advance, Underway, Complete;
    var i := IndexByte(k.data, LF);
    if !Underway(k) {
      ScanDone(k);
    } else if 0 <= i < SOCKET_SCAN_BUF {
      ScanLine(k, i);
    } else {
      ScanLast(k);
    }
  }

  lemma OtherAdvance(k: Conn, a: Action)
    requires !(k.phase.Scanning? && a.Handle?)
    ensures var k' := Advance(k, a);
            && k'.scanned == k.scanned && k'.seen == k.seen
            && (k.phase.Scanning? ==> k'.phase == k.phase && (k.ended ==> k'.data == k.data && k'.ended))
            && (k.ended ==> k'.ended)
            && (k.phase.Leaving? || k.phase.Gone? ==> k'.data == k.data && (k'.phase.Leaving? || k'.phase.Gone?))
            && (k.phase.Accepted? ==> k' == k)
  {
    hide Scan1;
  }

  lemma OtherProgress(k: Conn, a: Action)
    requires Progress(k) && !(k.phase.Scanning? && a.Handle?)
    ensures Progress(Advance(k, a))
  {
    hide Tokens, Scan1, Advance, Whole, DropCRs, Lines;
    OtherAdvance(k, a);
  }

  lemma AdvanceProgress(k: Conn, a: Action)
    requires Progress(k)
    ensures Progress(Advance(k, a))
  {
    hide Tokens, Scan1, Progress;
    if k.phase.Scanning? && a.Handle? {
      HandleProgress(k);
      assert Advance(k, a) == Advance(k, Handle(0));
    } else {
      OtherProgress(k, a);
    }
  }

  /** Every connection progresses, and the emitted sequence, projected on it, is what its tokens deliver. */
  ghost predicate Interleaved<E>(parse: Bytes -> Option<E>, s: State<E>) {
    && (forall c | 0 <= c < |s.conns| ::
          Progress(s.conns[c]) && Project(s.emitted, c) == Framing.Deliver(parse, s.conns[c].seen))
    && (forall i | 0 <= i < |s.emitted| :: s.emitted[i].0 < |s.conns|)
  }

  lemma EmitProjects<E>(parse: Bytes -> Option<E>, c: nat, line: Bytes, d: nat)
    ensures Project(Emit(parse, c, line), d) == if c == d then Framing.Deliver(parse, [line]) else []
  {
    var out := Emit(parse, c, line);
    if out != [] {
      assert out[..|out| - 1] == [];
    }
    assert [line][1..] == [];
  }

  lemma AdvanceSeen(k: Conn, a: Action)
    ensures var k' := Advance(k, a);
            k'.seen == k.seen || (|k'.seen| == |k.seen| + 1 && k'.seen[..|k.seen|] == k.seen)
  {
    hide Scan1;
  }

  lemma HandlerEmits<E>(parse: Bytes -> Option<E>, s: State<E>, a: Action, d: nat)
    requires Interleaved(parse, s) && OfHandler(a) && a.c < |s.conns| && d < |s.conns|
    ensures var t := HandlerStep(parse, s, a);
            Project(t.emitted, d) == Framing.Deliver(parse, t.conns[d].seen)
  {
    hide Advance, Emit, Framing.Deliver, Project, Progress;
    var k, k' := s.conns[a.c], Advance(s.conns[a.c], a);
    AdvanceSeen(k, a);
    if |k.seen| < |k'.seen| {
      var line := k'.seen[|k'.seen| - 1];
      assert k'.seen == k.seen + [line];
      EmitProjects(parse, a.c, line, d);
      ProjectAppend(s.emitted, Emit(parse, a.c, line), d);
      DeliverAppend(parse, k.seen, [line]);
    } else {
      assert s.emitted + [] == s.emitted;
    }
  }

  lemma HandlerTags<E>(parse: Bytes -> Option<E>, s: State<E>, a: Action)
    requires OfHandler(a) && a.c < |s.conns| && forall i | 0 <= i < |s.emitted| :: s.emitted[i].0 < |s.conns|
    ensures var t := HandlerStep(parse, s, a);
            |t.conns| == |s.conns| && forall i | 0 <= i < |t.emitted| :: t.emitted[i].0 < |t.conns|
  {
    hide Advance;
  }

  lemma HandlerInterleaved<E>(parse: Bytes -> Option<E>, s: State<E>, a: Action)
    requires Interleaved(parse, s) && OfHandler(a) && a.c < |s.conns|
    ensures Interleaved(parse, HandlerStep(parse, s, a))
  {
    hide Advance, Emit, Framing.Deliver, Project, Progress;
    AdvanceProgress(s.conns[a.c], a);
    var t := HandlerStep(parse, s, a);
    HandlerTags(parse, s, a);
    forall d | 0 <= d < |s.conns|
      ensures Progress(t.conns[d]) && Project(t.emitted, d) == Framing.Deliver(parse, t.conns[d].seen)
    {
      HandlerEmits(parse, s, a, d);
    }
  }

  /** A connection whose handler has not started. */
  lemma NewProgress(k: Conn)
    requires k == NewConn()
    ensures Progress(k) && Progress(k.(phase := Scanning))
  {
    var none: Bytes := [];
    assert Lines(none) == [] && Rest(none) == [];
  }

  lemma {:induction false} Unheard<E>(emitted: seq<(nat, E)>, c: nat)
    requires forall i | 0 <= i < |emitted| :: emitted[i].0 < c
    ensures Project(emitted, c) == []
  {
    if emitted != [] {
      Unheard(emitted[..|emitted| - 1], c);
    }
  }

  lemma AcceptInterleaved<E>(parse: Bytes -> Option<E>, s: State<E>)
    requires Interleaved(parse, s)
    ensures Interleaved(parse, s.(main := Adding, conns := s.conns + [NewConn()]))
  {
    var k := NewConn();
    var conns := s.conns + [k];
    NewProgress(k);
    Unheard(s.emitted, |s.conns|);
    assert Framing.Deliver(parse, k.seen) == [];
    hide Progress, Project, Framing.Deliver;
    forall c | 0 <= c < |conns|
      ensures Progress(conns[c]) && Project(s.emitted, c) == Framing.Deliver(parse, conns[c].seen)
    {
      assert c < |s.conns| ==> conns[c] == s.conns[c];
    }
  }

  lemma StartProgress(k: Conn)
    requires k.phase.Accepted? && Progress(k)
    ensures Progress(k.(phase := Scanning))
  {
    hide Whole, DropCRs, Lines, Tokens;
  }

  lemma SpawnInterleaved<E>(parse: Bytes -> Option<E>, s: State<E>)
    requires Interleaved(parse, s)
    ensures Interleaved(parse, Step(parse, s, Spawn))
  {
    hide Progress, Project, Framing.Deliver, HandlerStep;
    var c := |s.conns| - 1;
    if s.main.Spawning? && 0 <= c && s.conns[c].phase.Accepted? {
      StartProgress(s.conns[c]);
    }
  }

  lemma StepInterleaved<E>(parse: Bytes -> Option<E>, s: State<E>, a: Action)
    requires Interleaved(parse, s)
    ensures Interleaved(parse, Step(parse, s, a))
  {
    match a
    case Accept => AcceptInterleaved(parse, s);
    case Spawn => SpawnInterleaved(parse, s);
    case Cancel =>
    case CloseListener =>
    case AcceptError =>
    case Add =>
    case Drain =>
    case _ => if a.c < |s.conns| { HandlerInterleaved(parse, s, a); }
  }

  lemma {:induction false} ExecInterleaved<E>(parse: Bytes -> Option<E>, s: State<E>, actions: seq<Action>)
    requires Interleaved(parse, s)
    ensures Interleaved(parse, Exec(parse, s, actions))
    decreases |actions|
  {
    if actions != [] {
      StepInterleaved(parse, s, actions[0]);
      ExecInterleaved(parse, Step(parse, s, actions[0]), actions[1..]);
    }
  }

  // ---------------------------------------------------------------- what arrives

  ghost predicate NeedsRead(k: Conn) {
    k.phase.Scanning? && !k.ended && LF !in k.data && |k.data| < 0x10_0000
  }

  /** The scanner of connection c reads these bytes: its handler runs, the connection is open, and the buffer holds no
      line and has room. */
  ghost predicate ReadsOf<E>(s: State<E>, a: Action, c: nat) {
    a.Deliver? && a.c == c && c < |s.conns| && NeedsRead(s.conns[c])
  }

  /** The bytes that a schedule, from s on, lets the scanner of connection c read, in order. */
  ghost function Arrived<E>(parse: Bytes -> Option<E>, s: State<E>, actions: seq<Action>, c: nat): Bytes
    decreases |actions|
  {
    if actions == [] then []
    else
      (if ReadsOf(s, actions[0], c) then actions[0].data else [])
      + Arrived(parse, Step(parse, s, actions[0]), actions[1..], c)
  }

  lemma TokenKeepsRest(data: Bytes, ended: bool, limit: nat)
    ensures var r := Scan1(data, ended, limit);
            && (r.Token? ==> data[..|data| - |r.rest|] + r.rest == data)
            && (!ended ==> (r.NeedRead? <==> LF !in data && |data| < limit))
  {
    var i := IndexByte(data, LF);
    hide IndexByte, DropCR;
    if 0 <= i < limit {
      assert data[..|data| - |data[i + 1..]|] == data[..i + 1];
    }
  }

  lemma HandleReceives(k: Conn, a: Action)
    requires a.Handle? && k.phase.Scanning?
    ensures Advance(k, a).Received() == k.Received()
  {
    hide Scan1;
    TokenKeepsRest(k.data, k.ended, SOCKET_SCAN_BUF);
    var r := Scan1(k.data, k.ended, SOCKET_SCAN_BUF);
    if r.Token? {
      Assoc(k.scanned, k.data[..|k.data| - |r.rest|], r.rest);
    }
  }

  lemma AdvanceReceives(k: Conn, a: Action)
    ensures Advance(k, a).Received() == k.Received() + (if a.Deliver? && NeedsRead(k) then a.data else [])
  {
    hide Scan1;
    TokenKeepsRest(k.data, k.ended, SOCKET_SCAN_BUF);
    Nothing(k.Received());
    if a.Handle? && k.phase.Scanning? {
      HandleReceives(k, a);
    } else if a.Deliver? && NeedsRead(k) {
      Assoc(k.scanned, k.data, a.data);
      assert Advance(k, a) == k.(data := k.data + a.data);
    } else {
      assert Advance(k, a).scanned == k.scanned && Advance(k, a).data == k.data;
    }
  }

  ghost function ReceivedBy<E>(s: State<E>, c: nat): Bytes {
    if c < |s.conns| then s.conns[c].Received() else []
  }

  lemma StepReceives<E>(parse: Bytes -> Option<E>, s: State<E>, a: Action, c: nat)
    ensures ReceivedBy(Step(parse, s, a), c) == ReceivedBy(s, c) + (if ReadsOf(s, a, c) then a.data else [])
  {
    hide Advance, NeedsRead, Emit;
    Nothing(ReceivedBy(s, c));
    if OfHandler(a) && a.c == c < |s.conns| {
      AdvanceReceives(s.conns[c], a);
    }
  }

  lemma {:induction false} RunReceives<E>(parse: Bytes -> Option<E>, s: State<E>, actions: seq<Action>, c: nat)
    ensures ReceivedBy(Exec(parse, s, actions), c) == ReceivedBy(s, c) + Arrived(parse, s, actions, c)
    decreases |actions|
  {
    if actions == [] {
      Nothing(ReceivedBy(s, c));
    } else {
      var a := actions[0];
      var t := Step(parse, s, a);
      var piece := if ReadsOf(s, a, c) then a.data else [];
      StepReceives(parse, s, a, c);
      hide Step, ReceivedBy, ReadsOf;
      RunReceives(parse, t, actions[1..], c);
      Assoc(ReceivedBy(s, c), piece, Arrived(parse, t, actions[1..], c));
    }
  }

  /** What a connection has received is what was sent on it: nothing is lost, added or moved, in any schedule. */
  lemma ReceivedIsArrived<E>(parse: Bytes -> Option<E>, actions: seq<Action>, c: nat)
    requires c < |Exec(parse, Start(), actions).conns|
    ensures Exec(parse, Start(), actions).conns[c].Received() == Arrived(parse, Start(), actions, c)
  {
    RunReceives(parse, Start(), actions, c);
    hide Exec, Arrived;
    assert ReceivedBy(Start<E>(), c) == [];
    assert [] + Arrived(parse, Start(), actions, c) == Arrived(parse, Start(), actions, c);
  }

  ghost predicate EndedIn<E>(s: State<E>, c: nat) {
    c < |s.conns| && s.conns[c].ended
  }

  lemma StepEnds<E>(parse: Bytes -> Option<E>, s: State<E>, a: Action, c: nat)
    ensures EndedIn(Step(parse, s, a), c) ==> EndedIn(s, c) || a == HangUp(c)
  {
    hide Scan1, Emit;
  }

  lemma {:induction false} EndsByHangUp<E>(parse: Bytes -> Option<E>, s: State<E>, actions: seq<Action>, c: nat)
    ensures EndedIn(Exec(parse, s, actions), c) ==> EndedIn(s, c) || HangUp(c) in actions
    decreases |actions|
  {
    if actions != [] {
      StepEnds(parse, s, actions[0], c);
      hide Step, EndedIn;
      EndsByHangUp(parse, Step(parse, s, actions[0]), actions[1..], c);
    }
  }

  lemma SeenIsPrefix(k: Conn)
    requires Progress(k)
    ensures k.seen <= Tokens(k.Received(), SOCKET_SCAN_BUF).tokens
    ensures k.phase.Leaving? || k.phase.Gone? ==> Complete(k)
  {
    if Underway(k) {
      TokensAfter(k.scanned, k.data, SOCKET_SCAN_BUF);
    }
  }

  /** The global sequence is an interleaving of the per-connection sequences: every event is some connection's, and
      each connection's events, in order, are those of the lines it has scanned so far of what was sent on it; once its
      handler has left, of all that was read, however the reads were cut; and it leaves only when reads fail or a line is
      too long. */
  lemma EmitsInterleaveConnections<E>(parse: Bytes -> Option<E>, actions: seq<Action>)
    ensures var s := Exec(parse, Start(), actions);
            && (forall i | 0 <= i < |s.emitted| :: s.emitted[i].0 < |s.conns|)
            && (forall c | 0 <= c < |s.conns| ::
                  && Project(s.emitted, c) == Framing.Deliver(parse, s.conns[c].seen)
                  && s.conns[c].seen <= Tokens(Arrived(parse, Start(), actions, c), SOCKET_SCAN_BUF).tokens
                  && (s.conns[c].phase.Leaving? || s.conns[c].phase.Gone? ==>
                        Project(s.emitted, c)
                        == Framing.Deliver(parse, Tokens(Arrived(parse, Start(), actions, c), SOCKET_SCAN_BUF).tokens)
                        && (HangUp(c) in actions
                            || Tokens(Arrived(parse, Start(), actions, c), SOCKET_SCAN_BUF).tooLong)))
  {
    ExecInterleaved(parse, Start(), actions);
    var s := Exec(parse, Start(), actions);
    forall c: nat ensures EndedIn(s, c) ==> HangUp(c) in actions {
      EndsByHangUp(parse, Start(), actions, c);
    }
    hide Exec, Start, Arrived, Tokens, Project, Framing.Deliver, Progress;
    forall c | 0 <= c < |s.conns|
      ensures s.conns[c].seen <= Tokens(Arrived(parse, Start(), actions, c), SOCKET_SCAN_BUF).tokens
      ensures s.conns[c].phase.Leaving? || s.conns[c].phase.Gone? ==>
                s.conns[c].seen == Tokens(Arrived(parse, Start(), actions, c), SOCKET_SCAN_BUF).tokens
      ensures s.conns[c].phase.Leaving? || s.conns[c].phase.Gone? ==>
                HangUp(c) in actions || Tokens(Arrived(parse, Start(), actions, c), SOCKET_SCAN_BUF).tooLong
    {
      ReceivedIsArrived(parse, actions, c);
      SeenIsPrefix(s.conns[c]);
      assert EndedIn(s, c) <==> s.conns[c].ended;
    }
  }

  /** The events tagged with the first n connections. */
  ghost function Counts<E>(emitted: seq<(nat, E)>, n: nat): nat {
    if n == 0 then 0 else Counts(emitted, n - 1) + |Project(emitted, n - 1)|
  }

  lemma {:induction false} CountsSnoc<E>(emitted: seq<(nat, E)>, n: nat)
    requires emitted != []
    ensures Counts(emitted, n)
            == Counts(emitted[..|emitted| - 1], n) + (if emitted[|emitted| - 1].0 < n then 1 else 0)
  {
    if 0 < n {
      CountsSnoc(emitted, n - 1);
    }
  }

  lemma {:induction false} CountsNothing<E>(emitted: seq<(nat, E)>, n: nat)
    requires emitted == []
    ensures Counts(emitted, n) == 0
  {
    if 0 < n {
      CountsNothing(emitted, n - 1);
    }
  }

  lemma {:induction false} CountsAll<E>(emitted: seq<(nat, E)>, n: nat)
    requires forall i | 0 <= i < |emitted| :: emitted[i].0 < n
    ensures |emitted| == Counts(emitted, n)
    decreases |emitted|
  {
    if emitted == [] {
      CountsNothing(emitted, n);
    } else {
      CountsAll(emitted[..|emitted| - 1], n);
      CountsSnoc(emitted, n);
    }
  }

  /** How many events the lines scanned from a connection deliver. */
  ghost function Yield<E>(parse: Bytes -> Option<E>): Conn -> nat {
    (k: Conn) => |Framing.Deliver(parse, k.seen)|
  }

  lemma {:induction false} CountsAreYields<E>(parse: Bytes -> Option<E>, emitted: seq<(nat, E)>, conns: seq<Conn>)
    requires forall c | 0 <= c < |conns| :: Project(emitted, c) == Framing.Deliver(parse, conns[c].seen)
    ensures Counts(emitted, |conns|) == Sum(conns, Yield(parse))
  {
    hide Project, Framing.Deliver;
    if conns != [] {
      var front := conns[..|conns| - 1];
      assert forall c | 0 <= c < |front| :: front[c] == conns[c];
      CountsAreYields(parse, emitted, front);
      assert Project(emitted, |front|) == Framing.Deliver(parse, conns[|front|].seen);
    }
  }

  /** Nothing is duplicated or invented: in every schedule as many events are emitted as the lines scanned from all
      connections deliver. */
  lemma EmitsCountUp<E>(parse: Bytes -> Option<E>, actions: seq<Action>)
    ensures var s := Exec(parse, Start(), actions);
            |s.emitted| == Sum(s.conns, Yield(parse))
  {
    ExecInterleaved(parse, Start(), actions);
    var s := Exec(parse, Start(), actions);
    hide Exec, Counts, Yield, Sum;
    CountsAll(s.emitted, |s.conns|);
    CountsAreYields(parse, s.emitted, s.conns);
  }

  /** The two transports agree: on a stream without CR whose lines fit the scanner's buffer, a handler emits what the
      file tailer's framer emits, and then the event of the unterminated fragment, if there is one. */
  lemma TransportsAgree<E>(parse: Bytes -> Option<E>, s: Bytes)
    requires CR !in s && Short(Lines(s), 0x10_0000) && |Rest(s)| < 0x10_0000
    ensures Framing.Deliver(parse, Tokens(s, 0x10_0000).tokens)
            == Framing.Deliver(parse, Lines(s)) + Framing.Deliver(parse, [Rest(s)])
  {
    ScanIsSplit(s, SOCKET_SCAN_BUF);
    DeliverAppend(parse, Lines(s), Fragment(s));
    assert [Rest(s)][1..] == [];
  }
}
