/** relay/tailer.go as a machine of single system calls. Between any two calls of the tailer the environment may
    append to, rewrite, unlink or relink files, and the context may be cancelled, so a list of moves is one
    interleaving, and every interleaving is such a list. */
module Tail {
  import opened Wrappers
  import opened Framing

  const TAIL_BUF_SIZE := 4096

  type Inode = nat

  /** What writers do to files: append to one, replace the content of one (truncation included), make the tailed
      path name a file (creation, rename and replacement included), or remove the path. */
  datatype Env = Append(i: Inode, data: Bytes) | Rewrite(i: Inode, data: Bytes) | Link(i: Inode) | Unlink

  /** A file is the list of its generations: the bytes it held before each rewrite, and last what it holds now. */
  datatype FileSystem = FileSystem(path: Option<Inode>, files: map<Inode, seq<Bytes>>) {
    function Generations(i: Inode): (g: seq<Bytes>)
      ensures g != []
    {
      if i in files && files[i] != [] then files[i] else [[]]
    }

    function Generation(i: Inode): nat {
      |Generations(i)| - 1
    }

    function Content(i: Inode): Bytes {
      Generations(i)[Generation(i)]
    }

    function Apply(e: Env): FileSystem {
      match e
      case Append(i, data) =>
        this.(files := files[i := Generations(i)[Generation(i) := Content(i) + data]])
      case Rewrite(i, data) =>
        this.(files := files[i := Generations(i) + [data]])
      case Link(i) => this.(path := Some(i))
      case Unlink => this.(path := None)
    }
  }

  /** A handle of the tailer; calls on a closed one fail. */
  datatype Handle = Closed | Open(inode: Inode, offset: nat)

  datatype Result = Nil | Cancelled | SeekFailed

  /** The call of `Tail` that comes next. `Opening` and `OpenWait` are the two halves of `openWithRetry`; `Select` is the
      wait for the ticker; `StatHandle` and `StatPath` are the two halves of `isRotated`. */
  datatype Pc =
    | Opening(first: bool) | OpenWait(first: bool) | SeekEnd
    | Select | StatHandle | StatPath | StatSize | Read
    | Done(result: Result)

  /** A stretch of reading without a reset: which generation of which file, from where, and the bytes read. */
  datatype Epoch = Epoch(inode: Inode, gen: nat, start: nat, bytes: Bytes)

  /** `fs`, `cancelled` belong to the environment, `f`, `pending`, `emitted` to the tailer. The rest is a log of the
      run that no step consults: the closed epochs, the open one, and the bytes of `pending` that resets discarded. */
  datatype State<E> = State(
    fs: FileSystem, cancelled: bool,
    pc: Pc, f: Handle, pending: Bytes, emitted: seq<E>,
    past: seq<Epoch>, now: Epoch, dropped: nat)

  /** `Reply(ok, n)` lets the tailer make its next call: `ok` says whether it succeeds (in a select: that the timer is
      taken when both are ready), `n` how many bytes a read may return. */
  datatype Move = World(e: Env) | Cancel | Reply(ok: bool, n: nat)

  function Start<E>(fs: FileSystem): State<E> {
    State(fs, false, Opening(true), Closed, [], [], [], Epoch(0, 0, 0, []), 0)
  }

  /** A new epoch at offset 0: what both resets do. */
  function Reset<E>(s: State<E>, i: Inode): State<E> {
    s.(pc := Select, f := Open(i, 0), pending := [],
       past := s.past + [s.now], now := Epoch(i, s.fs.Generation(i), 0, []), dropped := s.dropped + |s.pending|)
  }

  function Min(a: nat, b: nat): nat {
    if a < b then a else b
  }

  /** What a read gives: at most a buffer, at most what the file holds beyond the offset, maybe less. */
  function Taken(fs: FileSystem, f: Handle, n: nat): (data: Bytes)
    ensures |data| <= TAIL_BUF_SIZE
  {
    if f.Closed? || |fs.Content(f.inode)| <= f.offset then []
    else
      var left := fs.Content(f.inode)[f.offset..];
      var k := Min(n, Min(TAIL_BUF_SIZE, |left|));
      left[..k]
  }

  function Call<E>(parse: Bytes -> Option<E>, s: State<E>, ok: bool, n: nat): State<E> {
    match s.pc
    case Opening(first) =>
      if !(ok && s.fs.path.Some?) then s.(pc := OpenWait(first))
      else if first then s.(pc := SeekEnd, f := Open(s.fs.path.value, 0))
      else Reset(s, s.fs.path.value)
    case OpenWait(first) =>
      if s.cancelled && !ok then s.(pc := Done(Cancelled)) else s.(pc := Opening(first))
    case SeekEnd =>
      if ok && s.f.Open? then
        var size := |s.fs.Content(s.f.inode)|;
        s.(pc := Select, f := s.f.(offset := size), now := Epoch(s.f.inode, s.fs.Generation(s.f.inode), size, []))
      else s.(pc := Done(SeekFailed))
    case Select =>
      if ok then s.(pc := StatHandle) else if s.cancelled then s.(pc := Done(Nil)) else s
    case StatHandle =>
      s.(pc := if ok && s.f.Open? then StatPath else StatSize)
    case StatPath =>
      if ok && s.f.Open? && s.fs.path == Some(s.f.inode) then s.(pc := StatSize)
      else s.(pc := Opening(false), f := Closed)
    case StatSize =>
      if ok && s.f.Open? && |s.fs.Content(s.f.inode)| < s.f.offset then Reset(s, s.f.inode)
      else s.(pc := Read)
    case Read =>
      var data := Taken(s.fs, s.f, n);
      s.(pc := Select, f := if s.f.Open? then s.f.(offset := s.f.offset + |data|) else s.f,
         pending := Rest(s.pending + data),
         emitted := s.emitted + Deliver(parse, Lines(s.pending + data)),
         now := s.now.(bytes := s.now.bytes + data))
    case Done(_) => s
  }

  function Step<E>(parse: Bytes -> Option<E>, s: State<E>, m: Move): State<E> {
    match m
    case World(e) => s.(fs := s.fs.Apply(e))
    case Cancel => s.(cancelled := true)
    case Reply(ok, n) => Call(parse, s, ok, n)
  }

  function Exec<E>(parse: Bytes -> Option<E>, s: State<E>, moves: seq<Move>): State<E>
    decreases |moves|
  {
    if moves == [] then s else Exec(parse, Step(parse, s, moves[0]), moves[1..])
  }

  /** A tailer that has returned does nothing more, whatever the environment does. */
  lemma {:induction false} Ended<E>(parse: Bytes -> Option<E>, s: State<E>, moves: seq<Move>)
    requires s.pc.Done?
    ensures var t := Exec(parse, s, moves);
            t == s.(fs := t.fs, cancelled := t.cancelled)
    decreases |moves|
  {
    if moves != [] {
      Ended(parse, Step(parse, s, moves[0]), moves[1..]);
    }
  }
}
