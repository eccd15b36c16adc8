/** How far behind the tailer can fall when nothing resets it: 4096 bytes a tick, to the byte. */
module TailLag {
  import opened Wrappers
  import opened Framing
  import opened Tail
  import opened TailLedger

  /** An append to some file. */
  datatype Write = Write(i: Inode, data: Bytes)

  /** One tick of full reads: the five calls of an undisturbed iteration of the loop, with any appends before each. */
  datatype Tick = Tick(g0: seq<Write>, g1: seq<Write>, g2: seq<Write>, g3: seq<Write>, g4: seq<Write>)

  function Appends(g: seq<Write>): seq<Move> {
    if g == [] then [] else [World(Append(g[0].i, g[0].data))] + Appends(g[1..])
  }

  function Gap(g: seq<Write>): seq<Move> {
    Appends(g) + [Reply(true, TAIL_BUF_SIZE)]
  }

  function TickMoves(t: Tick): seq<Move> {
    Gap(t.g0) + (Gap(t.g1) + (Gap(t.g2) + (Gap(t.g3) + Gap(t.g4))))
  }

  function Moves(ticks: seq<Tick>): seq<Move> {
    if ticks == [] then [] else TickMoves(ticks[0]) + Moves(ticks[1..])
  }

  /** The bytes that a gap appends to file `i`. */
  function Added(i: Inode, g: seq<Write>): nat {
    if g == [] then 0 else (if g[0].i == i then |g[0].data| else 0) + Added(i, g[1..])
  }

  function TickAdded(i: Inode, t: Tick): nat {
    Added(i, t.g0) + Added(i, t.g1) + Added(i, t.g2) + Added(i, t.g3) + Added(i, t.g4)
  }

  /** Waiting for a tick with the tailed file open and not beyond its end. */
  ghost predicate Following<E>(s: State<E>, i: Inode) {
    && s.pc.Select? && s.f.Open? && s.f.inode == i && s.fs.path == Some(i)
    && s.f.offset <= |s.fs.Content(i)|
  }

  ghost function Backlog<E>(s: State<E>, i: Inode): nat
    requires Following(s, i)
  {
    |s.fs.Content(i)| - s.f.offset
  }

  lemma AppendGrows(fs: FileSystem, w: Write, i: Inode)
    ensures var after := fs.Apply(Append(w.i, w.data));
            && after.path == fs.path
            && |after.Content(i)| == |fs.Content(i)| + Added(i, [w])
  {
    assert [w][1..] == [];
  }

  lemma {:induction false} AppendsGrow<E>(parse: Bytes -> Option<E>, s: State<E>, g: seq<Write>, i: Inode)
    ensures var t := Exec(parse, s, Appends(g));
            && t == s.(fs := t.fs) && t.fs.path == s.fs.path
            && |t.fs.Content(i)| == |s.fs.Content(i)| + Added(i, g)
    decreases |g|
  {
    if g != [] {
      var m := World(Append(g[0].i, g[0].data));
      assert Appends(g)[1..] == Appends(g[1..]);
      assert Added(i, [g[0]]) == if g[0].i == i then |g[0].data| else 0 by { assert [g[0]][1..] == []; }
      AppendGrows(s.fs, g[0], i);
      AppendsGrow(parse, Step(parse, s, m), g[1..], i);
    }
  }

  lemma GapThenCall<E>(parse: Bytes -> Option<E>, s: State<E>, g: seq<Write>, i: Inode) returns (mid: State<E>)
    ensures mid == s.(fs := mid.fs) && mid.fs.path == s.fs.path
    ensures |mid.fs.Content(i)| == |s.fs.Content(i)| + Added(i, g)
    ensures Exec(parse, s, Gap(g)) == Call(parse, mid, true, TAIL_BUF_SIZE)
  {
    mid := Exec(parse, s, Appends(g));
    AppendsGrow(parse, s, g, i);
    var last := [Reply(true, TAIL_BUF_SIZE)];
    ExecAppend(parse, s, Appends(g), last);
    assert last[1..] == [];
  }

  /** Before the read: three calls that leave the tailer's own state alone. */
  lemma QuietCall<E>(parse: Bytes -> Option<E>, s: State<E>, g: seq<Write>, i: Inode)
    requires s.f.Open? && s.f.inode == i && s.fs.path == Some(i) && s.f.offset <= |s.fs.Content(i)|
    requires s.pc.Select? || s.pc.StatHandle? || s.pc.StatPath? || s.pc.StatSize?
    ensures var t := Exec(parse, s, Gap(g));
            && t.f == s.f && t.fs.path == Some(i)
            && t.pc == (match s.pc
                        case Select => StatHandle case StatHandle => StatPath case StatPath => StatSize case _ => Read)
            && |t.fs.Content(i)| == |s.fs.Content(i)| + Added(i, g)
  {
    var mid := GapThenCall(parse, s, g, i);
  }

  lemma ReadCall<E>(parse: Bytes -> Option<E>, s: State<E>, g: seq<Write>, i: Inode)
    requires s.f.Open? && s.f.inode == i && s.fs.path == Some(i) && s.f.offset <= |s.fs.Content(i)|
    requires s.pc.Read?
    ensures var t := Exec(parse, s, Gap(g));
            && Following(t, i)
            && |t.fs.Content(i)| == |s.fs.Content(i)| + Added(i, g)
            && t.f.offset == Min(s.f.offset + TAIL_BUF_SIZE, |t.fs.Content(i)|)
  {
    var mid := GapThenCall(parse, s, g, i);
  }

  /** One tick advances the offset by 4096, or to the end of the file as it is when read. */
  lemma TickAdvances<E>(parse: Bytes -> Option<E>, s: State<E>, t: Tick, i: Inode)
    requires Following(s, i)
    ensures var u := Exec(parse, s, TickMoves(t));
            && Following(u, i)
            && |u.fs.Content(i)| == |s.fs.Content(i)| + TickAdded(i, t)
            && u.f.offset == Min(s.f.offset + 4096, |u.fs.Content(i)|)
  {
    var s1 := Exec(parse, s, Gap(t.g0));
    QuietCall(parse, s, t.g0, i);
    var s2 := Exec(parse, s1, Gap(t.g1));
    QuietCall(parse, s1, t.g1, i);
    var s3 := Exec(parse, s2, Gap(t.g2));
    QuietCall(parse, s2, t.g2, i);
    var s4 := Exec(parse, s3, Gap(t.g3));
    QuietCall(parse, s3, t.g3, i);
    ReadCall(parse, s4, t.g4, i);
    ExecAppend(parse, s, Gap(t.g0), Gap(t.g1) + (Gap(t.g2) + (Gap(t.g3) + Gap(t.g4))));
    ExecAppend(parse, s1, Gap(t.g1), Gap(t.g2) + (Gap(t.g3) + Gap(t.g4)));
    ExecAppend(parse, s2, Gap(t.g2), Gap(t.g3) + Gap(t.g4));
    ExecAppend(parse, s3, Gap(t.g3), Gap(t.g4));
  }

  /** With no writes to the file, k ticks leave the tailer at min(offset + 4096k, size): caught up after exactly
      ceil(backlog / 4096) of them and not before. */
  lemma {:induction false} CatchesUpExactly<E>(parse: Bytes -> Option<E>, s: State<E>, ticks: seq<Tick>, i: Inode)
    requires Following(s, i) && forall k | 0 <= k < |ticks| :: TickAdded(i, ticks[k]) == 0
    ensures var t := Exec(parse, s, Moves(ticks));
            && Following(t, i)
            && t.f.offset == Min(s.f.offset + 4096 * |ticks|, |s.fs.Content(i)|)
            && (Backlog(t, i) == 0 <==> (Backlog(s, i) + 4095) / 4096 <= |ticks|)
    decreases |ticks|
  {
    if ticks != [] {
      var u := Exec(parse, s, TickMoves(ticks[0]));
      TickAdvances(parse, s, ticks[0], i);
      CatchesUpExactly(parse, u, ticks[1..], i);
      ExecAppend(parse, s, TickMoves(ticks[0]), Moves(ticks[1..]));
    }
  }

  function Max(a: int, b: int): int {
    if a < b then b else a
  }

  lemma BacklogTick<E>(parse: Bytes -> Option<E>, s: State<E>, t: Tick, i: Inode, d: nat)
    requires Following(s, i) && d <= TAIL_BUF_SIZE && TickAdded(i, t) <= TAIL_BUF_SIZE - d
    ensures var u := Exec(parse, s, TickMoves(t));
            Following(u, i) && Backlog(u, i) <= Max(0, Backlog(s, i) - d)
  {
    TickAdvances(parse, s, t, i);
  }

  /** k ticks' worth of a backlog that loses d a tick, stopping at nothing. */
  function Drained(b: int, d: nat, k: nat): int
    decreases k
  {
    if k == 0 then b else Drained(Max(0, b - d), d, k - 1)
  }

  lemma {:induction false} DrainedMonotone(b: int, c: int, d: nat, k: nat)
    requires b <= c
    ensures Drained(b, d, k) <= Drained(c, d, k)
    decreases k
  {
    if 0 < k {
      DrainedMonotone(Max(0, b - d), Max(0, c - d), d, k - 1);
    }
  }

  lemma {:induction false} DrainedClosed(b: nat, d: nat, k: nat)
    ensures Drained(b, d, k) == Max(0, b - k * d)
    decreases k
  {
    if 0 < k {
      DrainedClosed(Max(0, b - d), d, k - 1);
      assert k * d == (k - 1) * d + d && 0 <= (k - 1) * d;
    }
  }

  lemma NoMoves<E>(parse: Bytes -> Option<E>, s: State<E>)
    ensures Exec(parse, s, []) == s
  {
  }

  lemma {:induction false} BacklogDrains<E>(parse: Bytes -> Option<E>, s: State<E>, ticks: seq<Tick>, i: Inode, d: nat)
    requires Following(s, i) && d <= TAIL_BUF_SIZE
    requires forall k | 0 <= k < |ticks| :: TickAdded(i, ticks[k]) <= TAIL_BUF_SIZE - d
    ensures var t := Exec(parse, s, Moves(ticks));
            Following(t, i) && Backlog(t, i) <= Drained(Backlog(s, i), d, |ticks|)
    decreases |ticks|
  {
    hide Following, Backlog, TickMoves, TickAdded, Exec, Call;
    if ticks == [] {
      NoMoves(parse, s);
    } else {
      assert Moves(ticks) == TickMoves(ticks[0]) + Moves(ticks[1..]);
      assert Drained(Backlog(s, i), d, |ticks|) == Drained(Max(0, Backlog(s, i) - d), d, |ticks| - 1);
      hide *;
      var u := Exec(parse, s, TickMoves(ticks[0]));
      BacklogTick(parse, s, ticks[0], i, d);
      BacklogDrains(parse, u, ticks[1..], i, d);
      ExecAppend(parse, s, TickMoves(ticks[0]), Moves(ticks[1..]));
      DrainedMonotone(Backlog(u, i), Max(0, Backlog(s, i) - d), d, |ticks| - 1);
    }
  }

  /** If at most 4096 - d bytes arrive per tick, k ticks cut the backlog by k*d or to nothing; with d = 0 it never
      grows. */
  lemma BacklogBound<E>(parse: Bytes -> Option<E>, s: State<E>, ticks: seq<Tick>, i: Inode, d: nat)
    requires Following(s, i) && d <= 4096
    requires forall k | 0 <= k < |ticks| :: TickAdded(i, ticks[k]) <= 4096 - d
    ensures var t := Exec(parse, s, Moves(ticks));
            Following(t, i) && Backlog(t, i) <= Max(0, Backlog(s, i) - |ticks| * d)
  {
    BacklogDrains(parse, s, ticks, i, d);
    DrainedClosed(Backlog(s, i), d, |ticks|);
    hide *;
  }
}
