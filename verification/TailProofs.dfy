/** What every run of the tailer delivers, consumes and loses. */
module TailProofs {
  import opened Wrappers
  import opened Framing
  import opened Tail

  // ---------------------------------------------------------------- delivery

  /** What a one-shot split of each epoch's bytes would deliver, epoch after epoch. */
  ghost function Emissions<E>(parse: Bytes -> Option<E>, epochs: seq<Epoch>): seq<E> {
    if epochs == [] then []
    else Emissions(parse, epochs[..|epochs| - 1]) + Deliver(parse, Lines(epochs[|epochs| - 1].bytes))
  }

  ghost predicate Framed<E>(parse: Bytes -> Option<E>, s: State<E>) {
    && s.emitted == Emissions(parse, s.past) + Deliver(parse, Lines(s.now.bytes))
    && s.pending == Rest(s.now.bytes)
  }

  lemma EmissionsSnoc<E>(parse: Bytes -> Option<E>, epochs: seq<Epoch>, e: Epoch)
    ensures Emissions(parse, epochs + [e]) == Emissions(parse, epochs) + Deliver(parse, Lines(e.bytes))
  {
    assert (epochs + [e])[..|epochs + [e]| - 1] == epochs;
  }

  ghost predicate AtOffset<E>(s: State<E>) {
    match s.pc
    case Opening(first) => s.f.Closed? && (first ==> s.past == [] && s.now.bytes == [])
    case OpenWait(first) => s.f.Closed? && (first ==> s.past == [] && s.now.bytes == [])
    case SeekEnd => s.f.Open? && s.past == [] && s.now.bytes == []
    case Done(_) => true
    case _ => s.f == Open(s.now.inode, s.now.start + |s.now.bytes|)
  }

  ghost predicate FromZero(past: seq<Epoch>, now: Epoch) {
    && (forall i | 0 <= i < |past| :: 0 < i ==> past[i].start == 0)
    && (past != [] ==> now.start == 0)
  }

  /** The open handle stands where the current epoch has read to, and only the first epoch starts beyond 0. */
  ghost predicate Positioned<E>(s: State<E>) {
    AtOffset(s) && FromZero(s.past, s.now)
  }

  lemma Regroup<E>(all: seq<E>, a: seq<E>, b: seq<E>, c: seq<E>, bc: seq<E>)
    requires all == a + b && bc == b + c
    ensures all + c == a + bc
  {
  }

  lemma ReadFramed<E>(parse: Bytes -> Option<E>, s: State<E>, n: nat)
    requires s.pc.Read? && Framed(parse, s)
    ensures Framed(parse, Call(parse, s, true, n))
  {
    var data := Taken(s.fs, s.f, n);
    DeliverChunk(parse, s.now.bytes, data);
    RestChunk(s.now.bytes, data);
    Regroup(s.emitted, Emissions(parse, s.past), Deliver(parse, Lines(s.now.bytes)),
            Deliver(parse, Lines(s.pending + data)), Deliver(parse, Lines(s.now.bytes + data)));
  }

  lemma ResetFramed<E>(parse: Bytes -> Option<E>, s: State<E>, i: Inode)
    requires Framed(parse, s)
    ensures Framed(parse, Reset(s, i))
  {
    var none: Bytes := [];
    assert Deliver(parse, Lines(none)) == [] && Rest(none) == [];
    hide Rest, Lines, Deliver, IndexByte;
    EmissionsSnoc(parse, s.past, s.now);
  }

  lemma StepFramed<E>(parse: Bytes -> Option<E>, s: State<E>, m: Move)
    requires Framed(parse, s) && Positioned(s)
    ensures Framed(parse, Step(parse, s, m))
  {
    hide Rest, Lines, Deliver, IndexByte, Emissions, Taken;
    if m.Reply? {
      match s.pc
      case Opening(first) => if s.fs.path.Some? { ResetFramed(parse, s, s.fs.path.value); }
      case StatSize => if s.f.Open? { ResetFramed(parse, s, s.f.inode); }
      case Read => ReadFramed(parse, s, m.n);
      case _ =>
    }
  }

  lemma StepAtOffset<E>(parse: Bytes -> Option<E>, s: State<E>, m: Move)
    requires AtOffset(s)
    ensures AtOffset(Step(parse, s, m))
  {
    hide Rest, Lines, Deliver, IndexByte, Taken, FileSystem.Apply, FileSystem.Generations;
    var t := Step(parse, s, m);
    if !m.Reply? {
      assert AtOffset(t);
    } else {
      match s.pc
      case Opening(first) => assert AtOffset(t);
      case OpenWait(first) => assert AtOffset(t);
      case SeekEnd => assert AtOffset(t);
      case StatPath => assert AtOffset(t);
      case StatSize => assert AtOffset(t);
      case Read =>
        var data := Taken(s.fs, s.f, m.n);
        assert |s.now.bytes + data| == |s.now.bytes| + |data|;
        assert AtOffset(t);
      case _ => assert AtOffset(t);
    }
  }

  /** A step either resets or leaves the closed epochs alone. */
  lemma ResetOrNot<E>(parse: Bytes -> Option<E>, s: State<E>, m: Move) returns (i: Option<Inode>)
    ensures i.None? ==> Step(parse, s, m).past == s.past && Step(parse, s, m).dropped == s.dropped
    ensures i.None? && !(m.Reply? && (s.pc.Read? || s.pc.SeekEnd?)) ==> Step(parse, s, m).now == s.now
    ensures m.Reply? ==> Step(parse, s, m).fs == s.fs
    ensures i.Some? ==> Step(parse, s, m) == Reset(s, i.value)
  {
    hide Rest, Lines, Deliver, IndexByte, Taken;
    i := None;
    if m.Reply? && m.ok {
      if s.pc == Opening(false) {
        i := s.fs.path;
      } else if s.pc.StatSize? && s.f.Open? && |s.fs.Content(s.f.inode)| < s.f.offset {
        i := Some(s.f.inode);
      }
    }
  }

  lemma StepFromZero<E>(parse: Bytes -> Option<E>, s: State<E>, m: Move)
    requires Positioned(s)
    ensures FromZero(Step(parse, s, m).past, Step(parse, s, m).now)
  {
    hide Rest, Lines, Deliver, IndexByte, Taken;
    var i := ResetOrNot(parse, s, m);
    if i.None? {
      assert Step(parse, s, m).now.start == s.now.start || s.past == [];
    }
  }

  lemma StepPositioned<E>(parse: Bytes -> Option<E>, s: State<E>, m: Move)
    requires Positioned(s)
    ensures Positioned(Step(parse, s, m))
  {
    StepFromZero(parse, s, m);
    StepAtOffset(parse, s, m);
  }

  lemma {:induction false} ExecFramed<E>(parse: Bytes -> Option<E>, s: State<E>, moves: seq<Move>)
    requires Framed(parse, s) && Positioned(s)
    ensures Framed(parse, Exec(parse, s, moves)) && Positioned(Exec(parse, s, moves))
    decreases |moves|
  {
    if moves != [] {
      StepFramed(parse, s, moves[0]);
      StepPositioned(parse, s, moves[0]);
      ExecFramed(parse, Step(parse, s, moves[0]), moves[1..]);
    }
  }

  /** `e` read exactly the bytes start .. start + |bytes| of its generation. */
  ghost predicate SliceOf(fs: FileSystem, e: Epoch) {
    var g := fs.Generations(e.inode);
    && e.gen < |g|
    && e.start + |e.bytes| <= |g[e.gen]|
    && e.bytes == g[e.gen][e.start..e.start + |e.bytes|]
  }

  ghost predicate Sliced<E>(s: State<E>) {
    && (forall i | 0 <= i < |s.past| :: SliceOf(s.fs, s.past[i]))
    && SliceOf(s.fs, s.now)
  }

  /** The epochs of one inode have rising generations. */
  ghost predicate Rising<E>(s: State<E>) {
    && (forall i, j | 0 <= i < j < |s.past| :: s.past[i].inode == s.past[j].inode ==> s.past[i].gen < s.past[j].gen)
    && (forall i | 0 <= i < |s.past| :: s.past[i].inode == s.now.inode ==> s.past[i].gen < s.now.gen)
  }

  lemma StartKeeps<E>(parse: Bytes -> Option<E>, fs: FileSystem)
    ensures Framed(parse, Start(fs)) && Positioned(Start<E>(fs)) && Sliced(Start<E>(fs)) && Rising(Start<E>(fs))
  {
  }

  /** Whatever the interleaving and however the reads were cut, the events are those of a one-shot split of the bytes
      read, epoch by epoch, and `pending` is exactly the newline-free remainder of the open epoch. */
  lemma TailRefinesOneShotSplit<E>(parse: Bytes -> Option<E>, fs: FileSystem, moves: seq<Move>)
    ensures var s := Exec(parse, Start(fs), moves);
            && s.emitted == Emissions(parse, s.past + [s.now])
            && s.pending == Rest(s.now.bytes) && LF !in s.pending
  {
    var s := Exec(parse, Start(fs), moves);
    StartKeeps(parse, fs);
    hide Exec, Start, Emissions, Lines, Rest, Deliver, Positioned;
    ExecFramed(parse, Start(fs), moves);
    EmissionsSnoc(parse, s.past, s.now);
    SplitLineFree(s.now.bytes);
  }

  // ---------------------------------------------------------------- what is consumed

  ghost predicate SeesRewrites<E>(s: State<E>, m: Move) {
    m.Reply? && s.pc.Read? && Taken(s.fs, s.f, m.n) != [] ==> s.fs.Generation(s.now.inode) == s.now.gen
  }

  /** No byte is read from a file that was rewritten, unnoticed, since the epoch began. */
  ghost predicate Faithful<E>(parse: Bytes -> Option<E>, s: State<E>, moves: seq<Move>)
    decreases |moves|
  {
    moves != [] ==> SeesRewrites(s, moves[0]) && Faithful(parse, Step(parse, s, moves[0]), moves[1..])
  }

  ghost predicate Older(epochs: seq<Epoch>, fs: FileSystem, i: Inode) {
    forall k | 0 <= k < |epochs| :: epochs[k].inode == i ==> epochs[k].gen < fs.Generation(i)
  }

  ghost predicate ReopensNewer<E>(s: State<E>, m: Move) {
    m.Reply? && m.ok && s.pc == Opening(false) && s.fs.path.Some? ==> Older(s.past + [s.now], s.fs, s.fs.path.value)
  }

  /** Every reopened file is a generation newer than any read before under its inode. */
  ghost predicate Fresh<E>(parse: Bytes -> Option<E>, s: State<E>, moves: seq<Move>)
    decreases |moves|
  {
    moves != [] ==> ReopensNewer(s, moves[0]) && Fresh(parse, Step(parse, s, moves[0]), moves[1..])
  }

  lemma SliceKept(fs: FileSystem, env: Env, e: Epoch)
    requires SliceOf(fs, e)
    ensures SliceOf(fs.Apply(env), e)
  {
    if env.Append? && env.i == e.inode && e.gen == fs.Generation(e.inode) {
      var c := fs.Content(e.inode);
      assert (c + env.data)[e.start..e.start + |e.bytes|] == c[e.start..e.start + |e.bytes|];
    }
  }

  lemma SliceGrows(c: Bytes, from: nat, at: nat, to: nat)
    requires from <= at <= to <= |c|
    ensures c[from..at] + c[at..to] == c[from..to]
  {
  }

  lemma ReadSlice(fs: FileSystem, f: Handle, e: Epoch, n: nat)
    requires SliceOf(fs, e) && f == Open(e.inode, e.start + |e.bytes|)
    requires Taken(fs, f, n) != [] ==> fs.Generation(e.inode) == e.gen
    ensures SliceOf(fs, e.(bytes := e.bytes + Taken(fs, f, n)))
  {
    var data := Taken(fs, f, n);
    if data != [] {
      SliceGrows(fs.Content(e.inode), e.start, f.offset, f.offset + |data|);
    } else {
      assert e.bytes + data == e.bytes;
    }
  }

  lemma ReadSliced<E>(parse: Bytes -> Option<E>, s: State<E>, ok: bool, n: nat)
    requires Sliced(s) && AtOffset(s) && s.pc.Read? && SeesRewrites(s, Reply(ok, n))
    ensures Sliced(Step(parse, s, Reply(ok, n)))
  {
    hide SliceOf, Taken, Rest, Lines, Deliver, IndexByte, FileSystem.Generations;
    ReadSlice(s.fs, s.f, s.now, n);
  }

  lemma WorldSliced<E>(s: State<E>, e: Env)
    requires Sliced(s)
    ensures Sliced(s.(fs := s.fs.Apply(e)))
  {
    hide FileSystem.Apply, SliceOf;
    forall i | 0 <= i < |s.past| ensures SliceOf(s.fs.Apply(e), s.past[i]) { SliceKept(s.fs, e, s.past[i]); }
    SliceKept(s.fs, e, s.now);
  }

  lemma ResetSliced<E>(s: State<E>, i: Inode)
    requires Sliced(s)
    ensures Sliced(Reset(s, i))
  {
    assert SliceOf(s.fs, Reset(s, i).now);
    hide SliceOf;
  }

  lemma SeekSliced<E>(parse: Bytes -> Option<E>, s: State<E>, ok: bool, n: nat)
    requires Sliced(s) && s.pc.SeekEnd?
    ensures Sliced(Step(parse, s, Reply(ok, n)))
  {
    assert SliceOf(s.fs, Step(parse, s, Reply(ok, n)).now);
    hide SliceOf;
  }

  lemma StepSliced<E>(parse: Bytes -> Option<E>, s: State<E>, m: Move)
    requires Sliced(s) && Positioned(s) && SeesRewrites(s, m)
    ensures Sliced(Step(parse, s, m))
  {
    hide Call, Taken, FileSystem.Apply, AtOffset, FromZero, SliceOf, SeesRewrites;
    match m
    case World(e) => WorldSliced(s, e);
    case Cancel =>
    case Reply(ok, n) =>
      var i := ResetOrNot(parse, s, m);
      if i.Some? {
        ResetSliced(s, i.value);
      } else if s.pc.Read? {
        ReadSliced(parse, s, ok, n);
      } else if s.pc.SeekEnd? {
        SeekSliced(parse, s, ok, n);
      }
  }

  lemma ResetRising<E>(s: State<E>, i: Inode)
    requires Rising(s) && Older(s.past + [s.now], s.fs, i)
    ensures Rising(Reset(s, i))
  {
    var all := s.past + [s.now];
    forall k | 0 <= k < |all| ensures all[k].inode == i ==> all[k].gen < s.fs.Generation(i) {}
  }

  lemma NoticedRises<E>(s: State<E>)
    requires s.pc.StatSize? && Rising(s) && Sliced(s) && Positioned(s)
    requires |s.fs.Content(s.f.inode)| < s.f.offset
    ensures Older(s.past + [s.now], s.fs, s.f.inode)
  {
  }

  lemma StepRising<E>(parse: Bytes -> Option<E>, s: State<E>, m: Move)
    requires Rising(s) && Sliced(s) && Positioned(s) && ReopensNewer(s, m)
    ensures Rising(Step(parse, s, m))
  {
    hide Rest, Lines, Deliver, IndexByte, Taken, FromZero, SliceOf, FileSystem.Apply, FileSystem.Generations;
    if m.Reply? && m.ok {
      if s.pc == Opening(false) && s.fs.path.Some? {
        ResetRising(s, s.fs.path.value);
      } else if s.pc.StatSize? && s.f.Open? && |s.fs.Content(s.f.inode)| < s.f.offset {
        NoticedRises(s);
        ResetRising(s, s.f.inode);
      }
    }
  }

  lemma {:induction false} ExecSliced<E>(parse: Bytes -> Option<E>, s: State<E>, moves: seq<Move>)
    requires Sliced(s) && Positioned(s) && Faithful(parse, s, moves)
    ensures Sliced(Exec(parse, s, moves)) && Positioned(Exec(parse, s, moves))
    decreases |moves|
  {
    if moves != [] {
      StepSliced(parse, s, moves[0]);
      StepPositioned(parse, s, moves[0]);
      ExecSliced(parse, Step(parse, s, moves[0]), moves[1..]);
    }
  }

  lemma {:induction false} ExecRising<E>(parse: Bytes -> Option<E>, s: State<E>, moves: seq<Move>)
    requires Sliced(s) && Positioned(s) && Rising(s) && Faithful(parse, s, moves) && Fresh(parse, s, moves)
    ensures Rising(Exec(parse, s, moves))
    decreases |moves|
  {
    if moves != [] {
      StepSliced(parse, s, moves[0]);
      StepPositioned(parse, s, moves[0]);
      StepRising(parse, s, moves[0]);
      ExecRising(parse, Step(parse, s, moves[0]), moves[1..]);
    }
  }

  ghost function Epochs<E>(s: State<E>): seq<Epoch> {
    s.past + [s.now]
  }

  ghost predicate Covers(e: Epoch, i: Inode, gen: nat, k: nat) {
    e.inode == i && e.gen == gen && e.start <= k < e.start + |e.bytes|
  }

  lemma SlicedEpochs<E>(s: State<E>)
    requires Sliced(s) && Positioned(s)
    ensures Epochs(s) == s.past + [s.now]
    ensures forall k | 0 <= k < |Epochs(s)| :: SliceOf(s.fs, Epochs(s)[k]) && (0 < k ==> Epochs(s)[k].start == 0)
    ensures s.pc.Select? ==> s.f == Open(s.now.inode, s.now.start + |s.now.bytes|)
  {
    hide SliceOf;
  }

  /** On a faithful run every epoch is a slice of one generation, from offset 0 unless it is the first; and so what
      was emitted is exactly the complete lines of those slices, in order. */
  lemma TailConsumesSlices<E>(parse: Bytes -> Option<E>, fs: FileSystem, moves: seq<Move>)
    requires Faithful(parse, Start(fs), moves)
    ensures var s := Exec(parse, Start(fs), moves);
            && (forall k | 0 <= k < |Epochs(s)| :: SliceOf(s.fs, Epochs(s)[k]) && (0 < k ==> Epochs(s)[k].start == 0))
            && (s.pc.Select? ==> s.f == Open(s.now.inode, s.now.start + |s.now.bytes|))
            && s.emitted == Emissions(parse, Epochs(s))
  {
    hide *;
    StartKeeps(parse, fs);
    ExecSliced(parse, Start(fs), moves);
    TailRefinesOneShotSplit(parse, fs, moves);
    SlicedEpochs(Exec(parse, Start(fs), moves));
  }

  /** If, besides, every reopened file is a new generation, no byte is consumed twice. */
  lemma NoByteTwice<E>(parse: Bytes -> Option<E>, fs: FileSystem, moves: seq<Move>, a: nat, b: nat,
                       i: Inode, gen: nat, k: nat)
    requires Faithful(parse, Start(fs), moves) && Fresh(parse, Start(fs), moves)
    requires a < b < |Epochs(Exec(parse, Start(fs), moves))|
    ensures var e := Epochs(Exec(parse, Start(fs), moves));
            !(Covers(e[a], i, gen, k) && Covers(e[b], i, gen, k))
  {
    StartKeeps(parse, fs);
    hide Exec, Start, Sliced, Positioned, Faithful, Fresh;
    ExecRising(parse, Start(fs), moves);
  }

  /** Without that condition two epochs of one generation share a byte exactly when both read something and the
      later one has got past where the earlier one started. */
  lemma RereadExactlyWhen<E>(parse: Bytes -> Option<E>, fs: FileSystem, moves: seq<Move>, a: nat, b: nat)
    requires a < b < |Epochs(Exec(parse, Start(fs), moves))|
    requires var e := Epochs(Exec(parse, Start(fs), moves)); e[a].inode == e[b].inode && e[a].gen == e[b].gen
    ensures var e := Epochs(Exec(parse, Start(fs), moves));
            (exists k: nat :: Covers(e[a], e[a].inode, e[a].gen, k) && Covers(e[b], e[a].inode, e[a].gen, k))
            <==> e[a].bytes != [] && e[a].start < |e[b].bytes|
  {
    StartKeeps(parse, fs);
    hide Exec, Start, Framed, AtOffset;
    ExecFramed(parse, Start(fs), moves);
    var e := Epochs(Exec(parse, Start(fs), moves));
    if e[a].bytes != [] && e[a].start < |e[b].bytes| {
      assert Covers(e[a], e[a].inode, e[a].gen, e[a].start) && Covers(e[b], e[a].inode, e[a].gen, e[a].start);
    }
  }
}
