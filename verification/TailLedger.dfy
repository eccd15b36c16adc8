/** Where every byte the tailer read has gone, what a reset costs, and how `Tail` returns. */
module TailLedger {
  import opened Wrappers
  import opened Sequences
  import opened Framing
  import opened Tail
  import opened TailProofs

  ghost function BytesRead(epochs: seq<Epoch>): nat {
    if epochs == [] then 0 else BytesRead(epochs[..|epochs| - 1]) + |epochs[|epochs| - 1].bytes|
  }

  /** The lines' bytes, with one LF each. */
  ghost function LineBytes(lines: seq<Bytes>): nat {
    if lines == [] then 0 else |lines[0]| + 1 + LineBytes(lines[1..])
  }

  ghost function BytesFramed(epochs: seq<Epoch>): nat {
    if epochs == [] then 0 else BytesFramed(epochs[..|epochs| - 1]) + LineBytes(Lines(epochs[|epochs| - 1].bytes))
  }

  lemma {:induction false} UnlinesSize(lines: seq<Bytes>)
    ensures |Unlines(lines)| == LineBytes(lines)
  {
    if lines != [] {
      UnlinesSize(lines[1..]);
    }
  }

  lemma EpochBalance(s: Bytes)
    ensures |s| == LineBytes(Lines(s)) + |Rest(s)|
  {
    SplitJoins(s);
    UnlinesSize(Lines(s));
  }

  lemma SumsSnoc(epochs: seq<Epoch>, e: Epoch)
    ensures BytesRead(epochs + [e]) == BytesRead(epochs) + |e.bytes|
    ensures BytesFramed(epochs + [e]) == BytesFramed(epochs) + LineBytes(Lines(e.bytes))
  {
    assert (epochs + [e])[..|epochs + [e]| - 1] == epochs;
  }

  /** The closed epochs are balanced by what the resets dropped. */
  ghost predicate Balanced<E>(s: State<E>) {
    BytesRead(s.past) == BytesFramed(s.past) + s.dropped
  }

  lemma ResetBalanced<E>(parse: Bytes -> Option<E>, s: State<E>, i: Inode)
    requires Balanced(s) && Framed(parse, s)
    ensures Balanced(Reset(s, i))
  {
    EpochBalance(s.now.bytes);
    SumsSnoc(s.past, s.now);
  }

  lemma StepBalanced<E>(parse: Bytes -> Option<E>, s: State<E>, m: Move)
    requires Balanced(s) && Framed(parse, s)
    ensures Balanced(Step(parse, s, m))
  {
    var i := ResetOrNot(parse, s, m);
    if i.Some? {
      ResetBalanced(parse, s, i.value);
    }
  }

  lemma {:induction false} ExecBalanced<E>(parse: Bytes -> Option<E>, s: State<E>, moves: seq<Move>)
    requires Balanced(s) && Framed(parse, s) && Positioned(s)
    ensures Balanced(Exec(parse, s, moves))
    decreases |moves|
  {
    if moves != [] {
      StepBalanced(parse, s, moves[0]);
      StepFramed(parse, s, moves[0]);
      StepPositioned(parse, s, moves[0]);
      ExecBalanced(parse, Step(parse, s, moves[0]), moves[1..]);
    }
  }

  /** Bytes read = bytes framed into lines with their newlines + bytes pending + bytes dropped at resets. */
  lemma ByteLedger<E>(parse: Bytes -> Option<E>, fs: FileSystem, moves: seq<Move>)
    ensures var s := Exec(parse, Start(fs), moves);
            BytesRead(Epochs(s)) == BytesFramed(Epochs(s)) + |s.pending| + s.dropped
  {
    var s := Exec(parse, Start(fs), moves);
    StartKeeps(parse, fs);
    assert Balanced(Start<E>(fs));
    hide Exec, Start, Positioned, Emissions, BytesRead, BytesFramed, LineBytes, Lines, Rest, Deliver;
    ExecBalanced(parse, Start(fs), moves);
    ExecFramed(parse, Start(fs), moves);
    SumsSnoc(s.past, s.now);
    EpochBalance(s.now.bytes);
  }

  lemma {:induction false} UnlinesEnd(lines: seq<Bytes>)
    ensures lines != [] ==> Unlines(lines) != [] && Unlines(lines)[|Unlines(lines)| - 1] == LF
  {
    if lines != [] {
      UnlinesEnd(lines[1..]);
    }
  }

  lemma RestEmptyWhen(s: Bytes)
    ensures Rest(s) == [] <==> s == [] || s[|s| - 1] == LF
  {
    SplitJoins(s);
    SplitLineFree(s);
    if Rest(s) == [] {
      UnlinesEnd(Lines(s));
      assert Unlines(Lines(s)) + [] == Unlines(Lines(s));
    } else {
      assert s[|s| - 1] == Rest(s)[|Rest(s)| - 1];
    }
  }

  /** `lost` is what no event of epoch `e` accounts for in the file it read: the delivered lines and `lost` together
      are the file from the epoch's start; and there is none exactly when the epoch had read the whole file and
      stopped on a line boundary. */
  ghost predicate LossOf(file: Bytes, e: Epoch, lost: Bytes) {
    && e.start + |e.bytes| <= |file|
    && file[e.start..] == Unlines(Lines(e.bytes)) + lost
    && Lines(file[e.start..]) == Lines(e.bytes) + Lines(lost)
    && (lost == [] <==> e.start + |e.bytes| == |file| && (e.bytes == [] || e.bytes[|e.bytes| - 1] == LF))
  }

  lemma Regroup(file: Bytes, e: Epoch, unread: Bytes)
    requires e.start <= |file| && file[e.start..] == e.bytes + unread
    ensures file[e.start..] == Unlines(Lines(e.bytes)) + (Rest(e.bytes) + unread)
  {
    SplitJoins(e.bytes);
    Assoc(Unlines(Lines(e.bytes)), Rest(e.bytes), unread);
  }

  lemma Loss(file: Bytes, e: Epoch)
    requires e.start + |e.bytes| <= |file| && e.bytes == file[e.start..e.start + |e.bytes|]
    ensures LossOf(file, e, Rest(e.bytes) + file[e.start + |e.bytes|..])
  {
    var unread := file[e.start + |e.bytes|..];
    assert file[e.start..] == e.bytes + unread;
    Regroup(file, e, unread);
    assert Lines(e.bytes + unread) == Lines(e.bytes) + Lines(Rest(e.bytes) + unread) by {
      SplitAppend(e.bytes, unread);
    }
    RestEmptyWhen(e.bytes);
  }

  lemma LossNow<E>(parse: Bytes -> Option<E>, s: State<E>)
    requires Sliced(s) && Framed(parse, s)
    ensures SliceOf(s.fs, s.now)
    ensures var file := s.fs.Generations(s.now.inode)[s.now.gen];
            LossOf(file, s.now, s.pending + file[s.now.start + |s.now.bytes|..])
  {
    hide Emissions, Rest, Lines, Deliver, LossOf, FileSystem.Generations;
    Loss(s.fs.Generations(s.now.inode)[s.now.gen], s.now);
  }

  lemma ResetKeeps<E>(parse: Bytes -> Option<E>, s: State<E>, m: Move)
    requires Step(parse, s, m).past != s.past
    ensures var t := Step(parse, s, m);
            t.past == s.past + [s.now] && t.now.bytes == [] && t.emitted == s.emitted
  {
    hide Step, Call;
    var i := ResetOrNot(parse, s, m);
  }

  /** A reset emits nothing and loses exactly `pending` and the unread suffix of the file the epoch was reading; so it
      loses nothing exactly when the tailer was caught up on a line boundary. */
  lemma ResetLosesExactly<E>(parse: Bytes -> Option<E>, fs: FileSystem, moves: seq<Move>, m: Move)
    requires Faithful(parse, Start(fs), moves)
    requires Step(parse, Exec(parse, Start(fs), moves), m).past != Exec(parse, Start(fs), moves).past
    ensures var s := Exec(parse, Start(fs), moves);
            var t := Step(parse, s, m);
            && t.past == s.past + [s.now] && t.now.bytes == [] && t.emitted == s.emitted
            && SliceOf(s.fs, s.now)
            && var file := s.fs.Generations(s.now.inode)[s.now.gen];
            && LossOf(file, s.now, s.pending + file[s.now.start + |s.now.bytes|..])
  {
    hide *;
    var s := Exec(parse, Start(fs), moves);
    StartKeeps(parse, fs);
    ExecFramed(parse, Start(fs), moves);
    ExecSliced(parse, Start(fs), moves);
    LossNow(parse, s);
    ResetKeeps(parse, s, m);
  }

  lemma {:induction false} ExecAppend<E>(parse: Bytes -> Option<E>, s: State<E>, a: seq<Move>, b: seq<Move>)
    ensures Exec(parse, s, a + b) == Exec(parse, Exec(parse, s, a), b)
    decreases |a|
  {
    if a == [] {
      assert a + b == b;
    } else {
      assert (a + b)[1..] == a[1..] + b;
      ExecAppend(parse, Step(parse, s, a[0]), a[1..], b);
    }
  }

  // ---------------------------------------------------------------- how Tail returns

  ghost predicate Returned<E>(s: State<E>) {
    && (s.pc == Done(Nil) ==> s.cancelled && s.f.Open?)
    && (s.pc == Done(Cancelled) ==> s.cancelled && s.f.Closed?)
  }

  lemma StepReturned<E>(parse: Bytes -> Option<E>, s: State<E>, m: Move)
    requires Returned(s) && Positioned(s)
    ensures Returned(Step(parse, s, m))
  {
  }

  lemma {:induction false} ExecReturned<E>(parse: Bytes -> Option<E>, s: State<E>, moves: seq<Move>)
    requires Returned(s) && Positioned(s)
    ensures Returned(Exec(parse, s, moves))
    decreases |moves|
  {
    if moves != [] {
      StepPositioned(parse, s, moves[0]);
      StepReturned(parse, s, moves[0]);
      ExecReturned(parse, Step(parse, s, moves[0]), moves[1..]);
    }
  }

  /** `Tail` does not always return nil on cancellation, as its comment says: it does so exactly when it holds an open
      file; cancelled while it waits to open one, at the start or after a rotation, it returns the context's error. */
  lemma TailReturns<E>(parse: Bytes -> Option<E>, fs: FileSystem, moves: seq<Move>)
    requires Exec(parse, Start(fs), moves).pc.Done? && Exec(parse, Start(fs), moves).pc.result != SeekFailed
    ensures var s := Exec(parse, Start(fs), moves);
            && s.cancelled
            && (s.pc.result == Nil <==> s.f.Open?)
            && (s.pc.result == Cancelled <==> s.f.Closed?)
  {
    StartKeeps(parse, fs);
    assert Returned(Start<E>(fs));
    hide Exec, Start, Positioned;
    ExecReturned(parse, Start(fs), moves);
  }
}
