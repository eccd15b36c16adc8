/** Byte strings and their division into lines: the one-shot reference against which the relay's incremental line
    framers are proved. A complete line ends in LF; what follows the last LF is the remainder. */
module Framing {
  import opened Wrappers
  import opened Sequences

  newtype byte = b: int | 0 <= b < 256
  type Bytes = seq<byte>

  const LF: byte := 10
  const CR: byte := 13

  /** The position of the first `b` in `s`, or -1. */
  function IndexByte(s: Bytes, b: byte): (i: int)
    ensures -1 <= i < |s|
    ensures i == -1 ==> b !in s
    ensures 0 <= i ==> s[i] == b && b !in s[..i]
  {
    if s == [] then -1
    else if s[0] == b then 0
    else
      var j := IndexByte(s[1..], b);
      assert 0 <= j ==> s[..j + 1] == [s[0]] + s[1..][..j];
      assert s == [s[0]] + s[1..];
      if j < 0 then -1 else j + 1
  }

  /** The complete lines of `s`, without their LF. */
  function Lines(s: Bytes): seq<Bytes> {
    var i := IndexByte(s, LF);
    if i < 0 then [] else [s[..i]] + Lines(s[i + 1..])
  }

  /** What follows the last LF of `s`. */
  function Rest(s: Bytes): Bytes {
    var i := IndexByte(s, LF);
    if i < 0 then s else Rest(s[i + 1..])
  }

  /** Puts the LF back after every line. */
  function Unlines(lines: seq<Bytes>): Bytes {
    if lines == [] then [] else lines[0] + [LF] + Unlines(lines[1..])
  }

  ghost predicate LineFree(lines: seq<Bytes>) {
    forall i | 0 <= i < |lines| :: LF !in lines[i]
  }

  /** What a source makes of one line: an empty line is skipped, an unparsed one dropped. */
  function Parsed<E>(parse: Bytes -> Option<E>, line: Bytes): seq<E> {
    if line == [] then [] else match parse(line) case None => [] case Some(e) => [e]
  }

  /** What it makes of a list of lines, in order. */
  function Deliver<E>(parse: Bytes -> Option<E>, lines: seq<Bytes>): seq<E> {
    if lines == [] then [] else Parsed(parse, lines[0]) + Deliver(parse, lines[1..])
  }

  lemma DeliverCons<E>(parse: Bytes -> Option<E>, line: Bytes, lines: seq<Bytes>)
    ensures Deliver(parse, [line] + lines) == Parsed(parse, line) + Deliver(parse, lines)
  {
    assert ([line] + lines)[1..] == lines;
  }

  lemma {:induction false} IndexIs(s: Bytes, b: byte, k: nat)
    requires k < |s| && s[k] == b && b !in s[..k]
    ensures IndexByte(s, b) == k
  {
    if 0 < k {
      assert s[0] == s[..k][0];
      assert s[..k] == [s[0]] + s[1..][..k - 1];
      IndexIs(s[1..], b, k - 1);
    }
  }

  lemma {:induction false} FirstLine(line: Bytes, tail: Bytes)
    requires LF !in line
    ensures Lines(line + [LF] + tail) == [line] + Lines(tail)
    ensures Rest(line + [LF] + tail) == Rest(tail)
  {
    var s := line + [LF] + tail;
    assert s[..|line|] == line && s[|line| + 1..] == tail;
    IndexIs(s, LF, |line|);
  }

  lemma NoLine(s: Bytes)
    requires LF !in s
    ensures Lines(s) == [] && Rest(s) == s
  {
  }

  lemma UnlinesCons(line: Bytes, lines: seq<Bytes>)
    ensures Unlines([line] + lines) == line + [LF] + Unlines(lines)
  {
    assert ([line] + lines)[1..] == lines;
  }

  /** Splitting loses nothing and invents nothing ... */
  lemma {:induction false} SplitJoins(s: Bytes)
    ensures Unlines(Lines(s)) + Rest(s) == s
    decreases |s|
  {
    var i := IndexByte(s, LF);
    if i < 0 {
      assert Unlines([]) + s == s;
    } else {
      var line, tail := s[..i], s[i + 1..];
      var lines, rest := Lines(tail), Rest(tail);
      assert Lines(s) == [line] + lines && Rest(s) == rest;
      CutAt(s, i);
      SplitJoins(tail);
      hide *;
      UnlinesCons(line, lines);
      Assoc(line + [LF], Unlines(lines), rest);
    }
  }

  lemma LineFreeCons(line: Bytes, lines: seq<Bytes>)
    requires LF !in line && LineFree(lines)
    ensures LineFree([line] + lines)
  {
  }

  /** ... it cuts at every LF ... */
  lemma {:induction false} SplitLineFree(s: Bytes)
    ensures LineFree(Lines(s)) && LF !in Rest(s)
    decreases |s|
  {
    var i := IndexByte(s, LF);
    if 0 <= i {
      SplitLineFree(s[i + 1..]);
      LineFreeCons(s[..i], Lines(s[i + 1..]));
    }
  }

  /** ... and is the only such division: this pair of facts, not the recursion above, is what a line is. */
  lemma {:induction false} SplitUnique(lines: seq<Bytes>, rest: Bytes)
    requires LineFree(lines) && LF !in rest
    ensures Lines(Unlines(lines) + rest) == lines && Rest(Unlines(lines) + rest) == rest
  {
    hide Lines, Rest, IndexByte;
    if lines == [] {
      assert Unlines(lines) + rest == rest;
      NoLine(rest);
    } else {
      var tail := Unlines(lines[1..]) + rest;
      assert Unlines(lines) + rest == lines[0] + [LF] + tail;
      FirstLine(lines[0], tail);
      SplitUnique(lines[1..], rest);
    }
  }

  lemma {:induction false} UnlinesAppend(a: seq<Bytes>, b: seq<Bytes>)
    ensures Unlines(a + b) == Unlines(a) + Unlines(b)
  {
    if a == [] {
      assert a + b == b;
    } else {
      assert (a + b)[1..] == a[1..] + b;
      UnlinesAppend(a[1..], b);
    }
  }

  /** Framing a stream in two chunks, carrying the remainder over, equals framing it in one. */
  lemma {:induction false} SplitAppend(a: Bytes, b: Bytes)
    ensures Lines(a + b) == Lines(a) + Lines(Rest(a) + b)
    ensures Rest(a + b) == Rest(Rest(a) + b)
  {
    SplitJoins(a);
    SplitLineFree(a);
    SplitJoins(Rest(a) + b);
    SplitLineFree(Rest(a) + b);
    var more, rest := Lines(Rest(a) + b), Rest(Rest(a) + b);
    UnlinesAppend(Lines(a), more);
    assert LineFree(Lines(a) + more);
    SplitUnique(Lines(a) + more, rest);
    Assoc(Unlines(Lines(a)), Rest(a), b);
    Assoc(Unlines(Lines(a)), Unlines(more), rest);
  }

  lemma {:induction false} DeliverAppend<E>(parse: Bytes -> Option<E>, a: seq<Bytes>, b: seq<Bytes>)
    ensures Deliver(parse, a + b) == Deliver(parse, a) + Deliver(parse, b)
  {
    if a == [] {
      assert a + b == b;
    } else {
      assert (a + b)[1..] == a[1..] + b;
      DeliverAppend(parse, a[1..], b);
    }
  }

  /** What a source keeps of a line: nothing of an empty one, otherwise what it makes of the whole of it. */
  ghost function Kept<E>(parse: Bytes -> Option<E>): Bytes -> Option<E> {
    (line: Bytes) => if line == [] then None else parse(line)
  }

  /** Every line that is not empty is parsed as a whole, and each event stands in its line's place. */
  lemma {:induction false} DeliverExactly<E>(parse: Bytes -> Option<E>, lines: seq<Bytes>)
    ensures Picks(Kept(parse), lines, Deliver(parse, lines))
  {
    if lines != [] {
      var front, last := lines[..|lines| - 1], lines[|lines| - 1];
      assert lines == front + [last];
      DeliverExactly(parse, front);
      DeliverAppend(parse, front, [last]);
      DeliverCons(parse, last, []);
      assert [last] + [] == [last] && Parsed(parse, last) + [] == Parsed(parse, last);
      PicksSnoc(Kept(parse), front, Deliver(parse, front), last);
      hide Picks, Deliver;
    }
  }

  /** The carried remainder is all the state a framer needs. */
  lemma RestChunk(a: Bytes, b: Bytes)
    ensures Rest(a + b) == Rest(Rest(a) + b)
  {
    SplitAppend(a, b);
  }

  lemma DeliverChunk<E>(parse: Bytes -> Option<E>, a: Bytes, b: Bytes)
    ensures Deliver(parse, Lines(a + b)) == Deliver(parse, Lines(a)) + Deliver(parse, Lines(Rest(a) + b))
  {
    SplitAppend(a, b);
    DeliverAppend(parse, Lines(a), Lines(Rest(a) + b));
  }
}
