/** Where the tailer starts, when it starts over and when it stops: what single calls mean for whole runs. */
module TailCalls {
  import opened Wrappers
  import opened Framing
  import opened Tail
  import opened TailProofs
  import opened TailLedger
  import opened TailTruncation

  // ---------------------------------------------------------------- the start

  /** The generation once held, or grew to hold, these bytes first. */
  ghost predicate Held(fs: FileSystem, i: Inode, gen: nat, history: Bytes) {
    gen < |fs.Generations(i)| && history <= fs.Generations(i)[gen]
  }

  lemma HeldOn(fs: FileSystem, e: Env, i: Inode, gen: nat, history: Bytes)
    requires Held(fs, i, gen, history)
    ensures Held(fs.Apply(e), i, gen, history)
  {
  }

  lemma {:induction false} HeldRun<E>(parse: Bytes -> Option<E>, s: State<E>, moves: seq<Move>, i: Inode, gen: nat,
                                      history: Bytes)
    requires Held(s.fs, i, gen, history)
    ensures Held(Exec(parse, s, moves).fs, i, gen, history)
    decreases |moves|
  {
    if moves != [] {
      var t := Step(parse, s, moves[0]);
      if moves[0].World? {
        HeldOn(s.fs, moves[0].e, i, gen, history);
      } else {
        var _ := ResetOrNot(parse, s, moves[0]);
      }
      assert Held(t.fs, i, gen, history);
      hide Step, Held;
      HeldRun(parse, t, moves[1..], i, gen, history);
    }
  }

  /** The seek of `Tail` makes the epoch that all others follow. */
  lemma SeekBegins<E>(parse: Bytes -> Option<E>, s: State<E>, n: nat)
    requires s.pc.SeekEnd? && AtOffset(s)
    ensures var t := Step(parse, s, Reply(true, n));
            && Settled(t) && t.past == [] && t.fs == s.fs && s.f.Open?
            && t.now == Epoch(s.f.inode, s.fs.Generation(s.f.inode), |s.fs.Content(s.f.inode)|, [])
  {
  }

  lemma RunTo<E>(parse: Bytes -> Option<E>, fs: FileSystem, a: seq<Move>, m: Move, b: seq<Move>)
    ensures Exec(parse, Start(fs), a + ([m] + b)) == Exec(parse, Step(parse, Exec(parse, Start(fs), a), m), b)
  {
    hide Exec, Step, Start;
    ExecAppend(parse, Start(fs), a, [m] + b);
    ExecCons(parse, Exec(parse, Start(fs), a), m, b);
  }

  /** In every run the first epoch starts where the file ended when the seek was made. */
  lemma FirstEpochStartsAtEnd<E>(parse: Bytes -> Option<E>, fs: FileSystem, a: seq<Move>, n: nat, b: seq<Move>)
    requires Exec(parse, Start(fs), a).pc.SeekEnd?
    ensures var s := Exec(parse, Start(fs), a);
            var e := Epochs(Exec(parse, Start(fs), a + ([Reply(true, n)] + b)));
            && s.f.Open? && e != []
            && e[0].inode == s.f.inode && e[0].gen == s.fs.Generation(s.f.inode)
            && e[0].start == |s.fs.Content(s.f.inode)|
  {
    hide Exec, Step, Start, AtOffset, Settled, FileSystem.Generation, FileSystem.Content;
    var s := Exec(parse, Start(fs), a);
    StartDated(parse, fs);
    DatedRun(parse, Start(fs), a);
    SeekBegins(parse, s, n);
    EpochsStay(parse, Step(parse, s, Reply(true, n)), b);
    RunTo(parse, fs, a, Reply(true, n), b);
  }

  lemma {:induction false} EmissionsPrefix<E>(parse: Bytes -> Option<E>, epochs: seq<Epoch>)
    requires epochs != []
    ensures Deliver(parse, Lines(epochs[0].bytes)) <= Emissions(parse, epochs)
  {
    hide Deliver, Lines;
    if |epochs| == 1 {
      assert epochs[..0] == [];
    } else {
      EmissionsPrefix(parse, epochs[..|epochs| - 1]);
    }
  }

  lemma HeldNow(fs: FileSystem, i: Inode)
    ensures Held(fs, i, fs.Generation(i), fs.Content(i))
  {
  }

  lemma HeldFurther(fs: FileSystem, e: Epoch, history: Bytes)
    requires Held(fs, e.inode, e.gen, history) && SliceOf(fs, e) && e.start == |history|
    ensures Held(fs, e.inode, e.gen, history + e.bytes)
  {
    hide FileSystem.Generations;
    var g := fs.Generations(e.inode)[e.gen];
    assert g[..|history|] == history && e.bytes == g[|history|..|history| + |e.bytes|];
    assert g[..|history| + |e.bytes|] == history + e.bytes;
  }

  /** History is not replayed: on a faithful run the first epoch reads on from the content found at the seek, and delivers
      the lines of what it has read and nothing of what was there before. */
  lemma HistorySkipped<E>(parse: Bytes -> Option<E>, fs: FileSystem, a: seq<Move>, n: nat, b: seq<Move>)
    requires Exec(parse, Start(fs), a).pc.SeekEnd?
    requires Faithful(parse, Start(fs), a + ([Reply(true, n)] + b))
    ensures var s := Exec(parse, Start(fs), a);
            var t := Exec(parse, Start(fs), a + ([Reply(true, n)] + b));
            && s.f.Open? && Epochs(t) != []
            && var e := Epochs(t)[0];
            && Held(t.fs, e.inode, e.gen, s.fs.Content(s.f.inode) + e.bytes)
            && Deliver(parse, Lines(e.bytes)) <= t.emitted
  {
    hide Exec, Step, Start, AtOffset, Settled, Faithful, Emissions, Held, SliceOf, Lines, Deliver, FileSystem.Generation,
      FileSystem.Content;
    var s := Exec(parse, Start(fs), a);
    StartDated(parse, fs);
    DatedRun(parse, Start(fs), a);
    SeekBegins(parse, s, n);
    FirstEpochStartsAtEnd(parse, fs, a, n, b);
    RunTo(parse, fs, a, Reply(true, n), b);
    var t := Exec(parse, Start(fs), a + ([Reply(true, n)] + b));
    TailConsumesSlices(parse, fs, a + ([Reply(true, n)] + b));
    EmissionsPrefix(parse, Epochs(t));
    var e := Epochs(t)[0];
    HeldNow(s.fs, s.f.inode);
    HeldRun(parse, Step(parse, s, Reply(true, n)), b, e.inode, e.gen, s.fs.Content(s.f.inode));
    HeldFurther(t.fs, e, s.fs.Content(s.f.inode));
  }

  // ---------------------------------------------------------------- starting over

  /** The tailer starts over exactly when it opens the path after a rotation, or finds the open file shorter than its
      offset; it then reads that file from the start with nothing pending. A size that cannot be had changes nothing. */
  lemma StartsOverExactly<E>(parse: Bytes -> Option<E>, s: State<E>, m: Move)
    ensures var t := Step(parse, s, m);
            var reopens := m.Reply? && m.ok && s.pc == Opening(false) && s.fs.path.Some?;
            var truncated := m.Reply? && m.ok && s.pc.StatSize? && s.f.Open? && |s.fs.Content(s.f.inode)| < s.f.offset;
            && (t.past != s.past <==> reopens || truncated)
            && (reopens || truncated ==>
                  var i := if reopens then s.fs.path.value else s.f.inode;
                  && t.pc.Select? && t.f == Open(i, 0) && t.pending == [] && t.emitted == s.emitted
                  && t.now == Epoch(i, s.fs.Generation(i), 0, []))
            && (m.Reply? && s.pc.StatSize? && !truncated ==> t == s.(pc := Read))
            && (m.Reply? && m.ok && s.pc == Opening(true) && s.fs.path.Some? ==> t.f == Open(s.fs.path.value, 0))
  {
    hide Rest, Lines, Deliver, Taken, FileSystem.Generations;
  }

  /** Where the checks of a tick lead: to the reopening exactly if the path's stat fails or names another file or none,
      the handle's own stat having succeeded. */
  lemma ReopensExactly<E>(parse: Bytes -> Option<E>, s: State<E>, handle: bool, path: bool)
    requires s.pc.StatHandle? && s.f.Open?
    ensures var t := Step(parse, s, Reply(handle, 0));
            var u := if handle then Step(parse, t, Reply(path, 0)) else t;
            if handle && !(path && s.fs.path == Some(s.f.inode)) then u == s.(pc := Opening(false), f := Closed)
            else u == s.(pc := StatSize)
  {
  }

  // ---------------------------------------------------------------- stopping

  function Refuse(n: nat): seq<Move> {
    if n == 0 then [] else [Reply(false, 0)] + Refuse(n - 1)
  }

  function CallsToEnd(pc: Pc): nat {
    match pc
    case Done(_) => 0
    case Opening(_) => 2
    case OpenWait(_) => 1
    case SeekEnd => 1
    case Select => 1
    case Read => 2
    case StatHandle => 4
    case StatPath => 3
    case StatSize => 3
  }

  lemma RefusedCall<E>(parse: Bytes -> Option<E>, s: State<E>)
    requires s.cancelled
    ensures var t := Step(parse, s, Reply(false, 0));
            t.cancelled && CallsToEnd(t.pc) <= if s.pc.Done? then 0 else CallsToEnd(s.pc) - 1
  {
    hide Rest, Lines, Deliver, Taken, FileSystem.Generations;
  }

  lemma {:induction false} RefusedRun<E>(parse: Bytes -> Option<E>, s: State<E>, n: nat)
    requires s.cancelled && CallsToEnd(s.pc) <= n
    ensures Exec(parse, s, Refuse(n)).pc.Done?
    decreases n
  {
    if n == 0 {
      assert Refuse(0) == [];
    } else {
      RefusedCall(parse, s);
      assert Refuse(n) == [Reply(false, 0)] + Refuse(n - 1);
      hide Step, Exec, Refuse, CallsToEnd;
      ExecCons(parse, s, Reply(false, 0), Refuse(n - 1));
      RefusedRun(parse, Step(parse, s, Reply(false, 0)), n - 1);
    }
  }

  /** Cancellation is not missed: from any state of a cancelled run four more calls suffice to return, if the timers are
      not taken before the context and the other calls fail. */
  lemma CancelReturns<E>(parse: Bytes -> Option<E>, s: State<E>)
    requires s.cancelled
    ensures Exec(parse, s, Refuse(4)).pc.Done?
  {
    RefusedRun(parse, s, 4);
  }
}
