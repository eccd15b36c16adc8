/** What the tailer makes of a file that is rewritten in place: when it notices, what follows when it does and when it
    does not, and which writers let it read faithfully. */
module TailTruncation {
  import opened Wrappers
  import opened Framing
  import opened Tail
  import opened TailProofs

  // ---------------------------------------------------------------- when it notices

  ghost predicate BeforeCheck(pc: Pc) {
    pc.Select? || pc.StatHandle? || pc.StatPath? || pc.StatSize?
  }

  function ChecksLeft(pc: Pc): nat {
    match pc case Select => 4 case StatHandle => 3 case StatPath => 2 case StatSize => 1 case _ => 0
  }

  /** n calls that succeed. */
  function Succeed(n: nat): seq<Move> {
    if n == 0 then [] else [Reply(true, 0)] + Succeed(n - 1)
  }

  lemma NextCheck<E>(parse: Bytes -> Option<E>, s: State<E>)
    requires BeforeCheck(s.pc) && s.f.Open? && s.fs.path == Some(s.f.inode)
    ensures var t := Step(parse, s, Reply(true, 0));
            if s.pc.StatSize? then
              t == if |s.fs.Content(s.f.inode)| < s.f.offset then Reset(s, s.f.inode) else s.(pc := Read)
            else BeforeCheck(t.pc) && ChecksLeft(t.pc) == ChecksLeft(s.pc) - 1 && t == s.(pc := t.pc)
  {
  }

  lemma ExecCons<E>(parse: Bytes -> Option<E>, s: State<E>, m: Move, moves: seq<Move>)
    ensures Exec(parse, s, [m] + moves) == Exec(parse, Step(parse, s, m), moves)
  {
    assert ([m] + moves)[1..] == moves;
  }

  lemma ExecNothing<E>(parse: Bytes -> Option<E>, s: State<E>)
    ensures Exec(parse, s, []) == s
  {
  }

  lemma NoneLeft()
    ensures Succeed(0) == []
  {
  }

  /** With the path unchanged and every call successful, the checks of a tick end in a reset if the file is shorter than
      the offset, and otherwise at the read, with nothing touched. */
  lemma {:induction false} ChecksDecide<E>(parse: Bytes -> Option<E>, s: State<E>)
    requires BeforeCheck(s.pc) && s.f.Open? && s.fs.path == Some(s.f.inode)
    ensures Exec(parse, s, Succeed(ChecksLeft(s.pc)))
            == if |s.fs.Content(s.f.inode)| < s.f.offset then Reset(s, s.f.inode) else s.(pc := Read)
    decreases ChecksLeft(s.pc)
  {
    var t := Step(parse, s, Reply(true, 0));
    NextCheck(parse, s);
    assert Succeed(ChecksLeft(s.pc)) == [Reply(true, 0)] + Succeed(ChecksLeft(s.pc) - 1);
    hide Step, Exec, Succeed;
    ExecCons(parse, s, Reply(true, 0), Succeed(ChecksLeft(s.pc) - 1));
    if s.pc.StatSize? {
      NoneLeft();
      ExecNothing(parse, t);
    } else {
      ChecksDecide(parse, t);
    }
  }

  /** The file being read is rewritten while the tailer waits, or anywhere before its size check. */
  ghost function Rewritten<E>(parse: Bytes -> Option<E>, s: State<E>, data: Bytes): State<E>
    requires s.f.Open?
  {
    Exec(parse, s, [World(Rewrite(s.f.inode, data))] + Succeed(ChecksLeft(s.pc)))
  }

  /** What a read of up to n bytes at an offset gives. */
  function TakenOf(content: Bytes, offset: nat, n: nat): Bytes {
    if |content| <= offset then [] else content[offset..][..Min(n, Min(TAIL_BUF_SIZE, |content| - offset))]
  }

  lemma TakenIs(fs: FileSystem, f: Handle, n: nat)
    requires f.Open?
    ensures Taken(fs, f, n) == TakenOf(fs.Content(f.inode), f.offset, n)
  {
  }

  lemma RewriteReplaces(fs: FileSystem, i: Inode, data: Bytes)
    ensures var after := fs.Apply(Rewrite(i, data));
            after.path == fs.path && after.Content(i) == data && after.Generation(i) == fs.Generation(i) + 1
  {
  }

  /** The tick then resets if and only if the new content is shorter than the offset. If it is, `pending` is dropped and
      the new content is read from its start. If it is not, the old epoch goes on with the old `pending`, in a generation
      that it did not begin in, and the lines delivered next are those of `pending` spliced onto the new content from the
      offset. */
  lemma RewriteNoticedExactly<E>(parse: Bytes -> Option<E>, s: State<E>, data: Bytes, ok: bool, n: nat)
    requires BeforeCheck(s.pc) && s.f.Open? && s.fs.path == Some(s.f.inode)
    requires s.f.inode == s.now.inode && s.now.gen <= s.fs.Generation(s.now.inode)
    ensures var t := Rewritten(parse, s, data);
            && t.fs == s.fs.Apply(Rewrite(s.f.inode, data))
            && (t.past != s.past <==> |data| < s.f.offset)
            && (t.past != s.past ==>
                  t.pc.Select? && t.pending == [] && t.f == Open(s.f.inode, 0)
                  && t.now == Epoch(s.f.inode, t.fs.Generation(s.f.inode), 0, []))
            && (t.past == s.past ==>
                  && t.pc.Read? && t.now == s.now && t.now.gen < t.fs.Generation(t.now.inode) && t.pending == s.pending
                  && Step(parse, t, Reply(ok, n)).emitted
                     == s.emitted + Deliver(parse, Lines(s.pending + TakenOf(data, s.f.offset, n))))
  {
    var u := Step(parse, s, World(Rewrite(s.f.inode, data)));
    assert u == s.(fs := s.fs.Apply(Rewrite(s.f.inode, data)));
    RewriteReplaces(s.fs, s.f.inode, data);
    hide Exec, Succeed, Rest, Lines, Deliver, FileSystem.Apply, FileSystem.Generations, FileSystem.Content;
    ExecCons(parse, s, World(Rewrite(s.f.inode, data)), Succeed(ChecksLeft(s.pc)));
    ChecksDecide(parse, u);
    TakenIs(u.fs, s.f, n);
  }

  /** A rewrite between check and read is not noticed by that tick at all: it reads on in the new content, and gets
      something if and only if that goes beyond the offset. */
  lemma RewriteAfterCheck<E>(parse: Bytes -> Option<E>, s: State<E>, data: Bytes, ok: bool, n: nat)
    requires s.pc.Read? && s.f.Open? && 0 < n
    ensures var t := Step(parse, Step(parse, s, World(Rewrite(s.f.inode, data))), Reply(ok, n));
            && t.past == s.past && t.now == s.now.(bytes := s.now.bytes + TakenOf(data, s.f.offset, n))
            && (t.now != s.now <==> s.f.offset < |data|)
            && t.emitted == s.emitted + Deliver(parse, Lines(s.pending + TakenOf(data, s.f.offset, n)))
  {
    RewriteReplaces(s.fs, s.f.inode, data);
    hide Rest, Lines, Deliver, FileSystem.Apply, FileSystem.Generations;
    var taken := TakenOf(data, s.f.offset, n);
    assert Taken(s.fs.Apply(Rewrite(s.f.inode, data)), s.f, n) == taken;
    assert taken == [] <==> |data| <= s.f.offset;
    assert (s.now.bytes + taken == s.now.bytes) <==> taken == [] by {
      assert |s.now.bytes + taken| == |s.now.bytes| + |taken|;
      if taken == [] { assert s.now.bytes + taken == s.now.bytes; }
    }
  }

  // ---------------------------------------------------------------- writers that are seen

  /** In the loop, with an offset that means something. */
  ghost predicate InLoop(pc: Pc) {
    BeforeCheck(pc) || pc.Read?
  }

  /** A writer of the file being read whose work the tailer will see: a rewrite leaves the file shorter than the offset,
      and a file shorter than the offset does not grow up to it before the tailer has looked. Of anything else, and of
      appends to a file that is not shorter, nothing is asked. */
  ghost predicate SeenMove<E>(s: State<E>, m: Move) {
    m.World? && InLoop(s.pc) && s.f.Open? ==>
      (m.e.Rewrite? && m.e.i == s.f.inode ==> |m.e.data| < s.f.offset)
      && (m.e.Append? && m.e.i == s.f.inode && |s.fs.Content(s.f.inode)| < s.f.offset ==>
            |s.fs.Content(s.f.inode)| + |m.e.data| < s.f.offset)
  }

  ghost predicate AllSeen<E>(parse: Bytes -> Option<E>, s: State<E>, moves: seq<Move>)
    decreases |moves|
  {
    moves != [] ==> SeenMove(s, moves[0]) && AllSeen(parse, Step(parse, s, moves[0]), moves[1..])
  }

  /** The file is as the epoch has known it, grown perhaps, or visibly shorter. */
  ghost predicate CurrentOrShort<E>(s: State<E>) {
    InLoop(s.pc) && s.f.Open? ==>
      || |s.fs.Content(s.f.inode)| < s.f.offset
      || s.fs.Generation(s.f.inode) == s.now.gen
  }

  lemma WorldSeen<E>(parse: Bytes -> Option<E>, s: State<E>, m: Move)
    requires CurrentOrShort(s) && SeenMove(s, m) && m.World?
    ensures CurrentOrShort(Step(parse, s, m))
  {
  }

  lemma CallSeen<E>(parse: Bytes -> Option<E>, s: State<E>, m: Move)
    requires CurrentOrShort(s) && AtOffset(s) && m.Reply?
    ensures CurrentOrShort(Step(parse, s, m))
  {
    hide Rest, Lines, Deliver, FileSystem.Generations;
  }

  lemma ShortGivesNothing<E>(s: State<E>, m: Move)
    requires CurrentOrShort(s) && AtOffset(s)
    ensures SeesRewrites(s, m)
  {
    hide FileSystem.Generations;
  }

  lemma {:induction false} SeenRun<E>(parse: Bytes -> Option<E>, s: State<E>, moves: seq<Move>)
    requires CurrentOrShort(s) && AtOffset(s) && AllSeen(parse, s, moves)
    ensures Faithful(parse, s, moves)
    decreases |moves|
  {
    if moves != [] {
      var m := moves[0];
      assert SeesRewrites(s, m) by { ShortGivesNothing(s, m); }
      if m.World? {
        WorldSeen(parse, s, m);
      } else if m.Reply? {
        CallSeen(parse, s, m);
      }
      StepAtOffset(parse, s, m);
      assert m.Cancel? ==> CurrentOrShort(Step(parse, s, m));
      hide Step, CurrentOrShort, AtOffset, SeenMove, SeesRewrites;
      SeenRun(parse, Step(parse, s, m), moves[1..]);
    }
  }

  /** If files only grow, or shrink so that the tailer sees it, the run is faithful. */
  lemma SeenIsFaithful<E>(parse: Bytes -> Option<E>, fs: FileSystem, moves: seq<Move>)
    requires AllSeen(parse, Start(fs), moves)
    ensures Faithful(parse, Start(fs), moves)
  {
    StartKeeps(parse, fs);
    assert CurrentOrShort(Start<E>(fs));
    hide AllSeen, Faithful, CurrentOrShort, FromZero;
    SeenRun(parse, Start(fs), moves);
  }

  // ---------------------------------------------------------------- a noticed truncation never replays

  /** No epoch is of a generation yet to come, the open one is of the latest read of its file, and where the file has not
      been rewritten the offset is not beyond its end. */
  ghost predicate Dated<E>(s: State<E>) {
    && (forall i | 0 <= i < |s.past| :: s.past[i].gen <= s.fs.Generation(s.past[i].inode))
    && s.now.gen <= s.fs.Generation(s.now.inode)
    && (forall i | 0 <= i < |s.past| :: s.past[i].inode == s.now.inode ==> s.past[i].gen <= s.now.gen)
    && (InLoop(s.pc) && s.f.Open? && s.fs.Generation(s.f.inode) == s.now.gen ==>
          s.f.offset <= |s.fs.Content(s.f.inode)|)
  }

  lemma GenerationsGrow(fs: FileSystem, e: Env, i: Inode)
    ensures fs.Generation(i) <= fs.Apply(e).Generation(i)
    ensures fs.Apply(e).Generation(i) == fs.Generation(i) ==> |fs.Content(i)| <= |fs.Apply(e).Content(i)|
  {
  }

  lemma WorldDated<E>(parse: Bytes -> Option<E>, s: State<E>, m: Move)
    requires Dated(s) && AtOffset(s) && m.World?
    ensures Dated(Step(parse, s, m))
  {
    forall i: Inode ensures s.fs.Generation(i) <= s.fs.Apply(m.e).Generation(i)
      ensures s.fs.Apply(m.e).Generation(i) == s.fs.Generation(i) ==> |s.fs.Content(i)| <= |s.fs.Apply(m.e).Content(i)|
    {
      GenerationsGrow(s.fs, m.e, i);
    }
    hide FileSystem.Apply, FileSystem.Generations, FileSystem.Generation, FileSystem.Content;
  }

  lemma ResetDated<E>(s: State<E>, i: Inode)
    requires Dated(s)
    ensures Dated(Reset(s, i))
  {
    hide FileSystem.Generations, FileSystem.Content;
    var all := s.past + [s.now];
    forall k | 0 <= k < |all| ensures all[k].gen <= s.fs.Generation(all[k].inode) {}
  }

  lemma CallDated<E>(parse: Bytes -> Option<E>, s: State<E>, m: Move)
    requires Dated(s) && AtOffset(s) && m.Reply?
    ensures Dated(Step(parse, s, m))
  {
    hide Rest, Lines, Deliver, FileSystem.Generations;
    var i := ResetOrNot(parse, s, m);
    if i.Some? {
      hide Step, Call;
      ResetDated(s, i.value);
    }
  }

  lemma {:induction false} DatedRun<E>(parse: Bytes -> Option<E>, s: State<E>, moves: seq<Move>)
    requires Dated(s) && AtOffset(s)
    ensures Dated(Exec(parse, s, moves)) && AtOffset(Exec(parse, s, moves))
    decreases |moves|
  {
    if moves != [] {
      var m := moves[0];
      StepAtOffset(parse, s, m);
      if m.World? {
        WorldDated(parse, s, m);
      } else if m.Reply? {
        CallDated(parse, s, m);
      }
      assert m.Cancel? ==> Dated(Step(parse, s, m));
      hide Step, Dated, AtOffset;
      DatedRun(parse, Step(parse, s, m), moves[1..]);
    }
  }

  /** Past the start of `Tail` every epoch stays as it is, but that the open one may read on. */
  ghost predicate Settled<E>(s: State<E>) {
    !s.pc.SeekEnd? && s.pc != Opening(true) && s.pc != OpenWait(true)
  }

  ghost predicate SameEpoch(e: Epoch, later: Epoch) {
    later.inode == e.inode && later.gen == e.gen && later.start == e.start && e.bytes <= later.bytes
  }

  lemma StepSettled<E>(parse: Bytes -> Option<E>, s: State<E>, m: Move)
    requires Settled(s)
    ensures var t := Step(parse, s, m);
            && Settled(t)
            && ((t.past == s.past && SameEpoch(s.now, t.now)) || t.past == s.past + [s.now])
  {
    hide Rest, Lines, Deliver, Taken, FileSystem.Generations;
  }

  lemma {:induction false} EpochsStay<E>(parse: Bytes -> Option<E>, s: State<E>, moves: seq<Move>)
    requires Settled(s)
    ensures var e := Epochs(Exec(parse, s, moves));
            && s.past <= e && |s.past| < |e| && SameEpoch(s.now, e[|s.past|])
    decreases |moves|
  {
    if moves != [] {
      var t := Step(parse, s, moves[0]);
      StepSettled(parse, s, moves[0]);
      hide Step, Settled;
      EpochsStay(parse, t, moves[1..]);
      assert Exec(parse, s, moves) == Exec(parse, t, moves[1..]);
    }
  }

  /** The generation an epoch that a noticed truncation begins is newer than any read before of that file. */
  lemma NoticedNewer<E>(s: State<E>)
    requires s.pc.StatSize? && s.f.Open? && AtOffset(s) && Dated(s) && |s.fs.Content(s.f.inode)| < s.f.offset
    ensures Older(s.past + [s.now], s.fs, s.f.inode)
  {
    hide FileSystem.Generations;
    var all := s.past + [s.now];
    forall k | 0 <= k < |all| && all[k].inode == s.f.inode ensures all[k].gen < s.fs.Generation(s.f.inode) {
      assert all[k].gen <= s.now.gen;
    }
  }

  lemma NoticedResets<E>(parse: Bytes -> Option<E>, s: State<E>, m: Move)
    requires s.pc.StatSize? && Step(parse, s, m).past != s.past
    ensures s.f.Open? && |s.fs.Content(s.f.inode)| < s.f.offset && Step(parse, s, m) == Reset(s, s.f.inode)
  {
  }

  lemma StartDated<E>(parse: Bytes -> Option<E>, fs: FileSystem)
    ensures Dated(Start<E>(fs)) && AtOffset(Start<E>(fs))
  {
  }

  lemma ResetSettled<E>(s: State<E>, i: Inode)
    ensures Settled(Reset(s, i))
  {
  }

  lemma NewerSharesNothing<E>(s: State<E>, e: seq<Epoch>, a: nat, i: Inode, gen: nat, k: nat)
    requires s.f.Open? && Older(s.past + [s.now], s.fs, s.f.inode) && a <= |s.past|
    requires var t := Reset(s, s.f.inode);
             t.past <= e && |t.past| < |e| && SameEpoch(t.now, e[|t.past|])
    ensures var b := |s.past| + 1;
            b < |e| && e[b].start == 0 && !(Covers(e[a], i, gen, k) && Covers(e[b], i, gen, k))
  {
    hide FileSystem.Generations;
    assert e[a] == (s.past + [s.now])[a];
  }

  /** In every run, whatever the writers do: the epoch that a noticed truncation begins shares no byte with any earlier
      one, however the run goes on. So only reopening a file can replay. */
  lemma NoticedNeverReplays<E>(parse: Bytes -> Option<E>, fs: FileSystem, moves: seq<Move>, m: Move, later: seq<Move>,
                               a: nat, i: Inode, gen: nat, k: nat)
    requires var s := Exec(parse, Start(fs), moves);
             s.pc.StatSize? && Step(parse, s, m).past != s.past && a <= |s.past|
    ensures var s := Exec(parse, Start(fs), moves);
            var e := Epochs(Exec(parse, Step(parse, s, m), later));
            var b := |s.past| + 1;
            b < |e| && e[b].start == 0 && !(Covers(e[a], i, gen, k) && Covers(e[b], i, gen, k))
  {
    hide *;
    var s := Exec(parse, Start(fs), moves);
    StartDated(parse, fs);
    DatedRun(parse, Start(fs), moves);
    NoticedResets(parse, s, m);
    NoticedNewer(s);
    ResetSettled(s, s.f.inode);
    EpochsStay(parse, Reset(s, s.f.inode), later);
    NewerSharesNothing(s, Epochs(Exec(parse, Reset(s, s.f.inode), later)), a, i, gen, k);
  }
}
