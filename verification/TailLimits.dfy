/** Runs in which the tailer does what its documentation does not promise: the conditions in TailProofs are needed. */
module TailLimits {
  import opened Wrappers
  import opened Framing
  import opened Tail
  import opened TailProofs
  import opened TailLedger
  import opened TailTruncation

  // ---------------------------------------------------------------- replay after a failed stat

  /** Another tick: the path still names the file, but its stat fails, then the file is opened and a buffer read. */
  function ReplayMoves(): seq<Move> {
    [Reply(false, 0)] + ([Reply(true, 0)] + (Succeed(4) + [Reply(true, TAIL_BUF_SIZE)]))
  }

  lemma ExecOne<E>(parse: Bytes -> Option<E>, s: State<E>, m: Move)
    ensures Exec(parse, s, [m]) == Step(parse, s, m)
  {
    assert [m][1..] == [];
  }

  /** From the wait: a tick without writes, in a file that is not shorter than the offset. */
  lemma QuietTick<E>(parse: Bytes -> Option<E>, s: State<E>)
    requires s.pc.Select? && s.f.Open? && s.fs.path == Some(s.f.inode) && s.f.offset <= |s.fs.Content(s.f.inode)|
    ensures Exec(parse, s, Succeed(4) + [Reply(true, TAIL_BUF_SIZE)])
            == Step(parse, s.(pc := Read), Reply(true, TAIL_BUF_SIZE))
  {
    hide Step, Succeed, Exec;
    ExecAppend(parse, s, Succeed(4), [Reply(true, TAIL_BUF_SIZE)]);
    ChecksDecide(parse, s);
    ExecOne(parse, s.(pc := Read), Reply(true, TAIL_BUF_SIZE));
  }

  /** A failed `os.Stat` of the path counts as rotation: when the path still names the file being read, the tailer opens
      it again and reads it from its start. */
  lemma FailedStatRereads<E>(parse: Bytes -> Option<E>, s: State<E>)
    requires s.pc.StatPath? && s.f.Open? && s.fs.path == Some(s.f.inode)
    ensures Exec(parse, s, ReplayMoves())
            == Step(parse, Reset(s, s.f.inode).(pc := Read), Reply(true, TAIL_BUF_SIZE))
  {
    var tick := Succeed(4) + [Reply(true, TAIL_BUF_SIZE)];
    var a := Step(parse, s, Reply(false, 0));
    var b := Step(parse, a, Reply(true, 0));
    assert a == s.(pc := Opening(false), f := Closed);
    assert b == Reset(s, s.f.inode);
    hide Exec, Step, Succeed;
    ExecCons(parse, s, Reply(false, 0), [Reply(true, 0)] + tick);
    ExecCons(parse, a, Reply(true, 0), tick);
    QuietTick(parse, b);
  }

  /** A full read right after a reset. */
  lemma ReadFromReset<E>(parse: Bytes -> Option<E>, s: State<E>, i: Inode)
    ensures var t := Step(parse, Reset(s, i).(pc := Read), Reply(true, TAIL_BUF_SIZE));
            var data := TakenOf(s.fs.Content(i), 0, TAIL_BUF_SIZE);
            && t.fs == s.fs && t.past == s.past + [s.now] && t.now == Epoch(i, s.fs.Generation(i), 0, data)
            && t.emitted == s.emitted + Deliver(parse, Lines(data))
  {
    TakenIs(s.fs, Open(i, 0), TAIL_BUF_SIZE);
    hide Rest, Lines, Deliver, FileSystem.Generations, FileSystem.Content, FileSystem.Generation, Taken, TakenOf;
    var data := TakenOf(s.fs.Content(i), 0, TAIL_BUF_SIZE);
    assert [] + data == data;
  }

  lemma FirstBuffer(content: Bytes)
    ensures |TakenOf(content, 0, TAIL_BUF_SIZE)| == Min(TAIL_BUF_SIZE, |content|)
    ensures |content| <= TAIL_BUF_SIZE ==> TakenOf(content, 0, TAIL_BUF_SIZE) == content
  {
  }

  /** Whenever the epoch has read something that still lies within the first buffer of an unchanged file, that byte is
      consumed a second time, and the lines there are delivered once more. */
  lemma FailedStatReplays<E>(parse: Bytes -> Option<E>, s: State<E>)
    requires s.pc.StatPath? && AtOffset(s) && s.fs.path == Some(s.f.inode)
    requires s.now.gen == s.fs.Generation(s.now.inode)
    requires s.now.bytes != [] && s.now.start < TAIL_BUF_SIZE && s.now.start < |s.fs.Content(s.now.inode)|
    ensures var t := Exec(parse, s, ReplayMoves());
            && t.past == s.past + [s.now]
            && Covers(s.now, s.now.inode, s.now.gen, s.now.start) && Covers(t.now, s.now.inode, s.now.gen, s.now.start)
            && t.emitted == s.emitted + Deliver(parse, Lines(TakenOf(s.fs.Content(s.now.inode), 0, TAIL_BUF_SIZE)))
  {
    hide Exec, Step, ReplayMoves, Rest, Lines, Deliver, FileSystem.Generations, Taken, TakenOf;
    FailedStatRereads(parse, s);
    FirstBuffer(s.fs.Content(s.now.inode));
    ReadFromReset(parse, s, s.now.inode);
  }

  // ---------------------------------------------------------------- runs from the start

  /** The path names an empty file. */
  function EmptyFile(): FileSystem {
    FileSystem(Some(0), map[0 := [[]]])
  }

  /** It is opened, `data` is appended, and a tick passes. */
  function OpenAndRead(data: Bytes): seq<Move> {
    [Reply(true, 0)] + ([Reply(true, 0)] + ([World(Append(0, data))] + (Succeed(4) + [Reply(true, TAIL_BUF_SIZE)])))
  }

  /** The tailer's state then. */
  function HasRead<E>(parse: Bytes -> Option<E>, data: Bytes): State<E> {
    State(FileSystem(Some(0), map[0 := [data]]), false, Select, Open(0, |data|), Rest(data), Deliver(parse, Lines(data)),
          [], Epoch(0, 0, 0, data), 0)
  }

  function HasOpened<E>(): State<E> {
    State(EmptyFile(), false, Select, Open(0, 0), [], [], [], Epoch(0, 0, 0, []), 0)
  }

  lemma OpensEmpty<E>(parse: Bytes -> Option<E>)
    ensures var a := Step(parse, Start(EmptyFile()), Reply(true, 0));
            !a.pc.Select? && Step(parse, a, Reply(true, 0)) == HasOpened()
  {
  }

  function Holding(data: Bytes): FileSystem {
    FileSystem(Some(0), map[0 := [data]])
  }

  lemma AppendFills(data: Bytes)
    ensures EmptyFile().Apply(Append(0, data)) == Holding(data) && Holding(data).Content(0) == data
  {
    assert [] + data == data;
    assert EmptyFile().Generations(0) == [[]];
    var none: seq<Bytes> := [[]];
    assert none[0 := data] == [data];
    var files := EmptyFile().files;
    assert files[0 := [data]] == map[0 := [data]];
  }

  lemma ReadsAll<E>(parse: Bytes -> Option<E>, data: Bytes)
    requires |data| <= TAIL_BUF_SIZE
    ensures Step(parse, HasOpened().(fs := Holding(data), pc := Read), Reply(true, TAIL_BUF_SIZE)) == HasRead(parse, data)
  {
    AppendFills(data);
    TakenIs(Holding(data), Open(0, 0), TAIL_BUF_SIZE);
    FirstBuffer(data);
    hide Rest, Lines, Deliver, Taken, TakenOf, FileSystem.Generations;
    assert [] + data == data;
    var none: seq<E> := [];
    assert none + Deliver(parse, Lines(data)) == Deliver(parse, Lines(data));
  }

  lemma OpensAndReads<E>(parse: Bytes -> Option<E>, data: Bytes)
    requires |data| <= TAIL_BUF_SIZE
    ensures Exec(parse, Start(EmptyFile()), OpenAndRead(data)) == HasRead(parse, data)
  {
    var ok := Reply(true, 0);
    var tick := Succeed(4) + [Reply(true, TAIL_BUF_SIZE)];
    var a := Step(parse, Start(EmptyFile()), ok);
    var c := HasOpened<E>().(fs := Holding(data));
    OpensEmpty(parse);
    AppendFills(data);
    assert Step(parse, HasOpened(), World(Append(0, data))) == c;
    ReadsAll(parse, data);
    hide Exec, Step, Succeed, Start, EmptyFile, FileSystem.Generations, FileSystem.Apply;
    ExecCons(parse, Start(EmptyFile()), ok, [ok] + ([World(Append(0, data))] + tick));
    ExecCons(parse, a, ok, [World(Append(0, data))] + tick);
    ExecCons(parse, HasOpened(), World(Append(0, data)), tick);
    QuietTick(parse, c);
  }

  // ---------------------------------------------------------------- replay from the start

  function ReplayRun(): seq<Move> {
    OpenAndRead([120, LF]) + (Succeed(2) + ReplayMoves())
  }

  lemma OneLine(line: Bytes)
    requires LF !in line
    ensures Lines(line + [LF]) == [line] && Rest(line + [LF]) == []
  {
    FirstLine(line, []);
    assert line + [LF] + [] == line + [LF];
    var none: Bytes := [];
    assert Lines(none) == [] && Rest(none) == [];
  }

  lemma DeliverOne<E>(parse: Bytes -> Option<E>, line: Bytes)
    ensures Deliver(parse, [line]) == Parsed(parse, line)
  {
    assert [line][1..] == [];
  }

  lemma TwoCalls<E>(parse: Bytes -> Option<E>, s: State<E>)
    requires s.pc.Select? && s.f.Open?
    ensures Exec(parse, s, Succeed(2)) == s.(pc := StatPath)
  {
    var ok := Reply(true, 0);
    assert Succeed(2) == [ok] + Succeed(1) && Succeed(1) == [ok] + Succeed(0) && Succeed(0) == [];
    var a := Step(parse, s, ok);
    assert a == s.(pc := StatHandle) && Step(parse, a, ok) == s.(pc := StatPath);
    hide Exec, Step, Succeed;
    ExecCons(parse, s, ok, Succeed(1));
    ExecCons(parse, a, ok, Succeed(0));
    ExecNothing(parse, s.(pc := StatPath));
  }

  lemma ReadsAgain<E>(parse: Bytes -> Option<E>, data: Bytes)
    requires |data| <= TAIL_BUF_SIZE
    ensures var s := HasRead(parse, data);
            var t := Step(parse, Reset(s.(pc := StatPath), 0).(pc := Read), Reply(true, TAIL_BUF_SIZE));
            && t.fs == s.fs && t.emitted == s.emitted + Deliver(parse, Lines(data))
            && t.past == [Epoch(0, 0, 0, data)] && t.now == Epoch(0, 0, 0, data)
  {
    AppendFills(data);
    FirstBuffer(data);
    assert Holding(data).Generation(0) == 0;
    hide Step, Rest, Lines, Deliver, Taken, TakenOf, FileSystem.Generations, FileSystem.Generation, FileSystem.Content;
    ReadFromReset(parse, HasRead(parse, data).(pc := StatPath), 0);
    var none: seq<Epoch> := [];
    assert none + [Epoch(0, 0, 0, data)] == [Epoch(0, 0, 0, data)];
  }

  /** One appended line, delivered twice: the second time after a stat that fails though nothing has happened to the
      file. */
  lemma ReplayFromStart<E>(parse: Bytes -> Option<E>)
    ensures var s := Exec(parse, Start(EmptyFile()), ReplayRun());
            && s.fs == Holding([120, LF])
            && s.emitted == Parsed(parse, [120]) + Parsed(parse, [120])
            && s.past == [Epoch(0, 0, 0, [120, LF])] && s.now == Epoch(0, 0, 0, [120, LF])
  {
    var line: Bytes := [120];
    var data := line + [LF];
    var s := HasRead(parse, data);
    assert data == [120, LF];
    assert ReplayRun() == OpenAndRead(data) + (Succeed(2) + ReplayMoves());
    assert s.emitted == Deliver(parse, Lines(data)) && s.fs == Holding(data);
    OneLine(line);
    DeliverOne(parse, line);
    ReadsAgain(parse, data);
    TwoCalls(parse, s);
    assert s.pc.Select? && s.f == Open(0, |data|) && s.fs.path == Some(0);
    hide Exec, Step, Succeed, Start, EmptyFile, Holding, OpenAndRead, ReplayMoves, ReplayRun, Lines, Deliver,
      Parsed, HasRead;
    OpensAndReads(parse, data);
    ExecAppend(parse, Start(EmptyFile()), OpenAndRead(data), Succeed(2) + ReplayMoves());
    ExecAppend(parse, s, Succeed(2), ReplayMoves());
    FailedStatRereads(parse, s.(pc := StatPath));
  }

  lemma {:induction false} AllSeenAppend<E>(parse: Bytes -> Option<E>, s: State<E>, a: seq<Move>, b: seq<Move>)
    requires AllSeen(parse, s, a) && AllSeen(parse, Exec(parse, s, a), b)
    ensures AllSeen(parse, s, a + b)
    decreases |a|
  {
    if a == [] {
      assert a + b == b;
    } else {
      assert (a + b)[1..] == a[1..] + b;
      AllSeenAppend(parse, Step(parse, s, a[0]), a[1..], b);
    }
  }

  ghost predicate OnlyReplies(moves: seq<Move>) {
    forall i | 0 <= i < |moves| :: moves[i].Reply?
  }

  lemma {:induction false} RepliesSeen<E>(parse: Bytes -> Option<E>, s: State<E>, moves: seq<Move>)
    requires OnlyReplies(moves)
    ensures AllSeen(parse, s, moves)
    decreases |moves|
  {
    if moves != [] {
      hide Step;
      RepliesSeen(parse, Step(parse, s, moves[0]), moves[1..]);
    }
  }

  lemma {:induction false} SucceedReplies(n: nat)
    ensures OnlyReplies(Succeed(n))
  {
    if 0 < n {
      SucceedReplies(n - 1);
    }
  }

  lemma AppendSeen<E>(parse: Bytes -> Option<E>, data: Bytes)
    ensures AllSeen(parse, HasOpened<E>(), [World(Append(0, data))])
  {
    var m := World(Append(0, data));
    AppendFills(data);
    assert [m][1..] == [];
    assert SeenMove(HasOpened<E>(), m);
  }

  lemma OpenAndReadSeen<E>(parse: Bytes -> Option<E>, data: Bytes)
    ensures AllSeen(parse, Start(EmptyFile()), OpenAndRead(data))
  {
    var ok := Reply(true, 0);
    var tick := Succeed(4) + [Reply(true, TAIL_BUF_SIZE)];
    var a := Step(parse, Start(EmptyFile()), ok);
    OpensEmpty(parse);
    SucceedReplies(4);
    AppendSeen(parse, data);
    assert OnlyReplies(tick) && OnlyReplies([ok] + [ok]);
    assert OpenAndRead(data) == ([ok] + [ok]) + ([World(Append(0, data))] + tick);
    hide Exec, Step, Succeed, Start, EmptyFile, OpenAndRead, AllSeen, FileSystem.Generations, FileSystem.Apply;
    RepliesSeen(parse, Start(EmptyFile()), [ok] + [ok]);
    ExecCons(parse, Start(EmptyFile()), ok, [ok]);
    ExecOne(parse, a, ok);
    RepliesSeen(parse, Exec(parse, HasOpened(), [World(Append(0, data))]), tick);
    AllSeenAppend(parse, HasOpened(), [World(Append(0, data))], tick);
    AllSeenAppend(parse, Start(EmptyFile()), [ok] + [ok], [World(Append(0, data))] + tick);
  }

  lemma ReplaySeen<E>(parse: Bytes -> Option<E>)
    ensures AllSeen(parse, Start(EmptyFile()), ReplayRun())
  {
    var data: Bytes := [120, LF];
    var last := Succeed(2) + ReplayMoves();
    SucceedReplies(2);
    SucceedReplies(4);
    assert OnlyReplies(last);
    assert ReplayRun() == OpenAndRead(data) + last;
    hide *;
    OpenAndReadSeen(parse, data);
    RepliesSeen(parse, Exec(parse, Start(EmptyFile()), OpenAndRead(data)), last);
    AllSeenAppend(parse, Start(EmptyFile()), OpenAndRead(data), last);
  }

  /** In that run the file only grows, but what is reopened is not a newer generation: two epochs cover byte 0, so
      without `Fresh` the conclusion of `NoByteTwice` is false. */
  lemma FreshIsNeeded<E>(parse: Bytes -> Option<E>)
    ensures Faithful(parse, Start(EmptyFile()), ReplayRun()) && !Fresh(parse, Start(EmptyFile()), ReplayRun())
    ensures var e := Epochs(Exec(parse, Start(EmptyFile()), ReplayRun()));
            |e| == 2 && Covers(e[0], 0, 0, 0) && Covers(e[1], 0, 0, 0)
  {
    ReplayFromStart(parse);
    ReplaySeen(parse);
    hide Exec, Start, EmptyFile, ReplayRun, AllSeen, Faithful, Fresh;
    SeenIsFaithful(parse, EmptyFile(), ReplayRun());
    if Fresh(parse, Start(EmptyFile()), ReplayRun()) {
      NoByteTwice(parse, EmptyFile(), ReplayRun(), 0, 1, 0, 0, 0);
    }
  }

  // ---------------------------------------------------------------- a line that was never written

  /** "a" is read; then the file is rewritten as "bc" and a newline, longer than the offset, and read on. */
  function SpliceRun(): seq<Move> {
    OpenAndRead([97]) + (([World(Rewrite(0, [98, 99, LF]))] + Succeed(4)) + [Reply(true, TAIL_BUF_SIZE)])
  }

  lemma SpliceTail()
    ensures var data: Bytes := [98, 99, LF];
            [97] + TakenOf(data, 1, TAIL_BUF_SIZE) == [97, 99] + [LF]
  {
    var data: Bytes := [98, 99, LF];
    assert data[1..] == [99, LF];
  }

  /** The tailer delivers the line "ac", which no generation of the file contains. */
  lemma UnnoticedRewriteSplices<E>(parse: Bytes -> Option<E>)
    ensures var s := Exec(parse, Start(EmptyFile()), SpliceRun());
            && s.fs.Generations(0) == [[97], [98, 99, LF]]
            && s.emitted == Parsed(parse, [97, 99])
            && forall g | g in s.fs.Generations(0) :: [97, 99] !in Lines(g)
  {
    var was: Bytes := [97];
    var data: Bytes := [98, 99, LF];
    var s := HasRead(parse, was);
    var read := Reply(true, TAIL_BUF_SIZE);
    NoLine(was);
    OneLine([98, 99]);
    OneLine([97, 99]);
    DeliverOne(parse, [97, 99]);
    SpliceTail();
    assert data == [98, 99] + [LF];
    assert s.fs.Apply(Rewrite(0, data)).Generations(0) == [was, data] by { assert s.fs.Generations(0) == [was]; }
    assert s.emitted == [] && s.pending == was;
    RewriteNoticedExactly(parse, s, data, true, TAIL_BUF_SIZE);
    var t := Rewritten(parse, s, data);
    assert Step(parse, t, read).fs == t.fs;
    assert Rewritten(parse, s, data) == Exec(parse, s, [World(Rewrite(0, data))] + Succeed(4));
    assert SpliceRun() == OpenAndRead(was) + (([World(Rewrite(0, data))] + Succeed(4)) + [read]);
    hide Exec, Step, Succeed, Start, EmptyFile, OpenAndRead, SpliceRun, Lines, Deliver, Parsed, FileSystem.Generations,
      FileSystem.Apply, HasRead, Rewritten;
    OpensAndReads(parse, was);
    ExecAppend(parse, Start(EmptyFile()), OpenAndRead(was), ([World(Rewrite(0, data))] + Succeed(4)) + [read]);
    ExecAppend(parse, s, [World(Rewrite(0, data))] + Succeed(4), [read]);
    ExecOne(parse, t, read);
  }

  // ---------------------------------------------------------------- returning an error on cancellation

  /** Cancelled while there is no file to open, `Tail` returns the context's error and not nil. */
  lemma CancelledWhileOpening<E>(parse: Bytes -> Option<E>, fs: FileSystem)
    requires fs.path.None?
    ensures Exec(parse, Start(fs), [Reply(true, 0)] + ([Cancel] + [Reply(false, 0)])).pc == Done(Cancelled)
  {
    var a := Step(parse, Start(fs), Reply(true, 0));
    var b := Step(parse, a, Cancel);
    assert Step(parse, b, Reply(false, 0)).pc == Done(Cancelled);
    hide Exec, Step, Start;
    ExecCons(parse, Start(fs), Reply(true, 0), [Cancel] + [Reply(false, 0)]);
    ExecCons(parse, a, Cancel, [Reply(false, 0)]);
    ExecOne(parse, b, Reply(false, 0));
  }
}
