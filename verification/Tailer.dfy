/** `Tail` of relay/tailer.go as the loops it is, proved to run the machine of module Tail move for move. */
module Tailer {
  import opened Wrappers
  import opened Sequences
  import opened Framing
  import opened Tail

  class Tailer<E> {
    // The environment: files, context, and the moves of the run still to come.
    var fs: FileSystem
    var cancelled: bool
    var moves: seq<Move>

    // The variables of `Tail`.
    const parse: Bytes -> Option<E>
    const buf: array<byte>
    var f: Handle
    var pending: Bytes
    var emitted: seq<E>

    // The log of the run.
    ghost var past: seq<Epoch>
    ghost var now: Epoch
    ghost var dropped: nat

    constructor (fs: FileSystem, parse: Bytes -> Option<E>, moves: seq<Move>)
      ensures this.parse == parse && this.moves == moves && fresh(buf) && buf.Length == TAIL_BUF_SIZE
      ensures At(Opening(true)) == Start(fs)
    {
      this.fs, this.cancelled, this.moves, this.parse := fs, false, moves, parse;
      this.buf := new byte[TAIL_BUF_SIZE];
      this.f, this.pending, this.emitted := Closed, [], [];
      this.past, this.now, this.dropped := [], Epoch(0, 0, 0, []), 0;
    }

    /** The machine's state when the tailer is about to make call `pc`. */
    ghost function At(pc: Pc): State<E>
      reads this
    {
      State(fs, cancelled, pc, f, pending, emitted, past, now, dropped)
    }

    /** Where the run ends from here. */
    ghost function Ahead(pc: Pc): State<E>
      reads this
    {
      Exec(parse, At(pc), moves)
    }

    /** Lets the environment act until the tailer may make its next call, or the run ends. */
    method Await(ghost pc: Pc) returns (go: bool, ok: bool, n: nat)
      modifies this`fs, this`cancelled, this`moves
      ensures go ==> |moves| < |old(moves)| && old(Ahead(pc)) == Exec(parse, Step(parse, At(pc), Reply(ok, n)), moves)
      ensures !go ==> moves == [] && old(Ahead(pc)) == Ahead(pc)
    {
      go, ok, n := false, false, 0;
      while moves != [] && !go
        invariant go ==> |moves| < |old(moves)| && old(Ahead(pc)) == Exec(parse, Step(parse, At(pc), Reply(ok, n)), moves)
        invariant !go ==> |moves| <= |old(moves)| && old(Ahead(pc)) == Ahead(pc)
        decreases |moves|, !go
      {
        var m := moves[0];
        moves := moves[1..];
        match m
        case World(e) => fs := fs.Apply(e);
        case Cancel => cancelled := true;
        case Reply(ok', n') => go, ok, n := true, ok', n';
      }
    }

    /** `openWithRetry`: opens the path, waiting after each failure, until it succeeds or the context is cancelled. */
    method OpenWithRetry(first: bool) returns (got: bool, i: Inode, ghost pc: Pc)
      requires f.Closed?
      modifies this`fs, this`cancelled, this`moves
      ensures |moves| <= |old(moves)|
      ensures got ==> fs.path == Some(i) && |moves| < |old(moves)|
      ensures got ==> old(Ahead(Opening(first))) == Exec(parse, Call(parse, At(Opening(first)), true, 0), moves)
      ensures !got ==> old(Ahead(Opening(first))) == Ahead(pc)
      ensures !got ==> (pc == Done(Cancelled) && cancelled) || moves == []
    {
      i, pc := 0, Opening(first);
      while true
        invariant |moves| <= |old(moves)| && pc == Opening(first)
        invariant old(Ahead(Opening(first))) == Ahead(Opening(first))
        decreases |moves|
      {
        var go, ok, n := Await(pc);
        if !go { return false, 0, pc; }
        if ok && fs.path.Some? { return true, fs.path.value, pc; }
        pc := OpenWait(first);
        go, ok, n := Await(pc);
        if !go { return false, 0, pc; }
        if cancelled && !ok { return false, 0, Done(Cancelled); }
        pc := Opening(first);
      }
    }

    /** `isRotated`: whether the path names another file than `f`, or none, or its stat fails; `stat` says whether that
        call was made and succeeded. When the first stat, that of the handle, fails, the answer is no. */
    method IsRotated() returns (go: bool, rotated: bool, ghost stat: Option<bool>, ghost pc: Pc)
      modifies this`fs, this`cancelled, this`moves
      ensures go ==> (rotated <==> stat.Some? && !(stat.value && f.Open? && fs.path == Some(f.inode)))
      ensures go ==> |moves| < |old(moves)| && pc == (if rotated then Opening(false) else StatSize)
      ensures go && rotated ==> old(Ahead(StatHandle)) == Exec(parse, At(pc).(f := Closed), moves)
      ensures go && !rotated ==> old(Ahead(StatHandle)) == Ahead(pc)
      ensures !go ==> moves == [] && old(Ahead(StatHandle)) == Ahead(pc)
    {
      hide Taken, Rest, Lines, Deliver, FileSystem.Apply, Exec;
      pc, rotated, stat := StatHandle, false, None;
      var ok, n;
      go, ok, n := Await(pc);
      if !go { return; }
      if !ok || f.Closed? { return true, false, None, StatSize; }
      pc := StatPath;
      go, ok, n := Await(pc);
      if !go { return; }
      stat := Some(ok);
      rotated := !(ok && fs.path == Some(f.inode));
      pc := if rotated then Opening(false) else StatSize;
    }

    /** Fills the buffer from the file at the handle's offset. */
    method ReadInto(n: nat) returns (k: nat)
      requires buf.Length == TAIL_BUF_SIZE
      modifies this`f, buf
      ensures k <= buf.Length && buf[..k] == Taken(fs, old(f), n)
      ensures f == if old(f).Open? then old(f).(offset := old(f).offset + k) else Closed
    {
      var data := Taken(fs, f, n);
      k := |data|;
      forall j | 0 <= j < k { buf[j] := data[j]; }
      if f.Open? { f := f.(offset := f.offset + k); }
    }

    /** The inner loop: appends the bytes read to `pending` and peels off its lines one at a time. */
    method Frame(data: Bytes)
      modifies this`pending, this`emitted
      ensures pending == Rest(old(pending) + data)
      ensures emitted == old(emitted) + Deliver(parse, Lines(old(pending) + data))
    {
      pending := pending + data;
      ghost var all := pending;
      while true
        invariant Rest(pending) == Rest(all)
        invariant emitted + Deliver(parse, Lines(pending)) == old(emitted) + Deliver(parse, Lines(all))
        decreases |pending|
      {
        var idx := IndexByte(pending, LF);
        if idx < 0 { break; }
        var line := pending[..idx];
        ghost var left := Lines(pending[idx + 1..]);
        assert Lines(pending) == [line] + left && Rest(pending) == Rest(pending[idx + 1..]);
        DeliverCons(parse, line, left);
        Assoc(emitted, Parsed(parse, line), Deliver(parse, left));
        pending := pending[idx + 1..];
        if line == [] { continue; }
        match parse(line)
        case Some(event) => emitted := emitted + [event];
        case None =>
      }
      NoLine(pending);
    }

    /** `pending = nil` with the file open at offset 0. */
    method StartOver(i: Inode)
      modifies this`f, this`pending, this`past, this`now, this`dropped
      ensures At(Select) == Reset(old(At(Select)), i)
    {
      past, now, dropped := past + [now], Epoch(i, fs.Generation(i), 0, []), dropped + |pending|;
      f, pending := Open(i, 0), [];
    }

    /** Reads available bytes and delivers the lines they complete. */
    method Consume(n: nat)
      requires buf.Length == TAIL_BUF_SIZE
      modifies this`f, this`pending, this`emitted, this`now, buf
      ensures At(Select) == Call(parse, old(At(Read)), true, n)
    {
      var k := ReadInto(n);
      now := now.(bytes := now.bytes + buf[..k]);
      Frame(buf[..k]);
    }

    /** Closes the rotated file and opens the path anew. */
    method Reopen() returns (stop: bool, ghost pc: Pc)
      modifies this
      ensures old(Exec(parse, At(Opening(false)).(f := Closed), moves)) == Ahead(pc)
      ensures |moves| <= |old(moves)|
      ensures if stop then pc.Done? || moves == [] else pc == Select
    {
      hide Taken, Rest, Lines, Deliver, FileSystem.Apply, Exec;
      f := Closed;
      var got, i;
      got, i, pc := OpenWithRetry(false);
      if !got { return true, pc; }
      StartOver(i);
      return false, Select;
    }

    /** Seeks to the start if the position is beyond the end of the file, and reads otherwise. */
    method ReadOn() returns (stop: bool, ghost pc: Pc)
      requires buf.Length == TAIL_BUF_SIZE
      modifies this, buf
      ensures old(Ahead(StatSize)) == Ahead(pc)
      ensures |moves| <= |old(moves)|
      ensures if stop then moves == [] else pc == Select
    {
      hide Taken, Rest, Lines, Deliver, FileSystem.Apply, Exec;
      stop, pc := true, StatSize;
      var go, ok, n := Await(pc);
      if !go { return; }
      if ok && f.Open? && |fs.Content(f.inode)| < f.offset {
        StartOver(f.inode);
        return false, Select;
      }

      pc := Read;
      go, ok, n := Await(pc);
      if !go { return; }
      Consume(n);
      return false, Select;
    }

    /** One iteration of the loop of `Tail`; `stop` when it returns or the moves run out. */
    method Tick() returns (stop: bool, ghost pc: Pc)
      requires buf.Length == TAIL_BUF_SIZE
      modifies this, buf
      ensures old(Ahead(Select)) == Ahead(pc)
      ensures |moves| <= |old(moves)|
      ensures if stop then pc.Done? || moves == [] else pc == Select && |moves| < |old(moves)|
    {
      stop, pc := true, Select;
      var go, ok, n := Await(pc);
      if !go { return; }
      if !ok {
        stop := cancelled;
        if cancelled { pc := Done(Nil); }
        return;
      }

      var rotated;
      ghost var stat;
      go, rotated, stat, pc := IsRotated();
      if !go { return; }
      if rotated {
        stop, pc := Reopen();
      } else {
        stop, pc := ReadOn();
      }
    }

    /** Opens the file and seeks to its end; `stop` when `Tail` returns without having done so. */
    method Begin() returns (stop: bool, ghost pc: Pc)
      requires f.Closed?
      modifies this
      ensures old(Ahead(Opening(true))) == Ahead(pc)
      ensures |moves| <= |old(moves)|
      ensures if stop then pc.Done? || moves == [] else pc == Select
      ensures !stop ==> f.Open? && f.offset == |fs.Content(f.inode)|
      ensures !stop ==> now == Epoch(f.inode, fs.Generation(f.inode), f.offset, [])
    {
      hide Taken, Rest, Lines, Deliver, FileSystem.Apply, Exec;
      stop := true;
      var got, i;
      got, i, pc := OpenWithRetry(true);
      if !got { return; }
      f := Open(i, 0);
      pc := SeekEnd;
      var go, ok, n := Await(pc);
      if !go { return; }
      if !ok { return true, Done(SeekFailed); }
      f := f.(offset := |fs.Content(i)|);
      now := Epoch(i, fs.Generation(i), |fs.Content(i)|, []);
      return false, Select;
    }

    /** Runs until it returns or the moves run out. Either way the machine's whole run from the start ends with the
        tailer's variables as they are here, so every lemma about `Exec` is one about this loop. */
    method Tail() returns (ghost pc: Pc)
      requires buf.Length == TAIL_BUF_SIZE && f.Closed?
      modifies this, buf
      ensures pc.Done? || moves == []
      ensures var end := old(Ahead(Opening(true)));
              end == At(pc).(fs := end.fs, cancelled := end.cancelled)
    {
      var stop;
      stop, pc := Begin();
      while !stop
        invariant old(Ahead(Opening(true))) == Ahead(pc) && |moves| <= |old(moves)|
        invariant if stop then pc.Done? || moves == [] else pc == Select
        decreases |moves|, !stop
      {
        stop, pc := Tick();
      }
      if pc.Done? {
        Ended(parse, At(pc), moves);
      }
    }
  }
}
