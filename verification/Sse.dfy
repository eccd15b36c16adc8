/** The event-stream reader of relay/subscriber.go, next to the algorithm of section 9.2.6, "Interpreting an event
    stream", of the WHATWG HTML standard. */
module Sse {
  import opened Wrappers
  import opened Sequences
  import opened Framing
  import opened Scanner

  const SSE_LIMIT := 0x80_0000        // 8 MiB of one connection's body
  const SSE_SCAN_BUF := 0x1_0000      // the default buffer of the scanner

  const COLON: byte := 58
  const SPACE: byte := 32
  const DATA: Bytes := [100, 97, 116, 97]
  const DATA_PREFIX: Bytes := DATA + [COLON, SPACE]

  // ---------------------------------------------------------------- the relay's reader

  /** The payload the reader takes from one line: none from a comment, an empty line, or any line but `data: ...`. */
  function LinePayload(line: Bytes): (payload: seq<Bytes>)
    ensures payload == if DATA_PREFIX <= line then [line[6..]] else []
  {
    if line == [] || line[0] == COLON then []
    else if DATA_PREFIX <= line then [line[|DATA_PREFIX|..]]
    else []
  }

  function Payloads(lines: seq<Bytes>): seq<Bytes> {
    if lines == [] then [] else LinePayload(lines[0]) + Payloads(lines[1..])
  }

  /** Undecodable payloads are dropped. */
  function Decoded<S>(decode: Bytes -> Option<S>, payloads: seq<Bytes>): seq<S> {
    if payloads == [] then []
    else (match decode(payloads[0]) case None => [] case Some(s) => [s]) + Decoded(decode, payloads[1..])
  }

  function Take<T>(s: seq<T>, n: nat): (r: seq<T>)
    ensures r <= s && |r| == if n < |s| then n else |s|
  {
    if n < |s| then s[..n] else s
  }

  /** The SETs handed to the router by a connection whose body yields `body` and whose context is first seen cancelled
      at token `cancelAt`. */
  function Handled<S>(decode: Bytes -> Option<S>, body: Bytes, cancelAt: nat): seq<S> {
    Decoded(decode, Payloads(Take(Tokens(Take(body, SSE_LIMIT), SSE_SCAN_BUF).tokens, cancelAt)))
  }

  lemma {:induction false} PayloadsAppend(a: seq<Bytes>, b: seq<Bytes>)
    ensures Payloads(a + b) == Payloads(a) + Payloads(b)
  {
    if a == [] {
      assert a + b == b;
    } else {
      assert (a + b)[1..] == a[1..] + b;
      PayloadsAppend(a[1..], b);
      Assoc(LinePayload(a[0]), Payloads(a[1..]), Payloads(b));
    }
  }

  lemma {:induction false} DecodedAppend<S>(decode: Bytes -> Option<S>, a: seq<Bytes>, b: seq<Bytes>)
    ensures Decoded(decode, a + b) == Decoded(decode, a) + Decoded(decode, b)
  {
    if a == [] {
      assert a + b == b;
    } else {
      assert (a + b)[1..] == a[1..] + b;
      DecodedAppend(decode, a[1..], b);
    }
  }

  /** Every payload that decodes is handed on, in its place. */
  lemma {:induction false} DecodedExactly<S>(decode: Bytes -> Option<S>, payloads: seq<Bytes>)
    ensures Picks(decode, payloads, Decoded(decode, payloads))
  {
    if payloads != [] {
      var front, last := payloads[..|payloads| - 1], payloads[|payloads| - 1];
      assert payloads == front + [last];
      DecodedExactly(decode, front);
      DecodedAppend(decode, front, [last]);
      assert [last][1..] == [];
      PicksSnoc(decode, front, Decoded(decode, front), last);
      hide Picks;
    }
  }

  lemma OnePayload(line: Bytes)
    ensures Payloads([line]) == LinePayload(line)
  {
    assert [line][1..] == [];
  }

  // ---------------------------------------------------------------- the standard

  function LineEnd(s: Bytes): (i: nat)
    ensures i <= |s|
    ensures i < |s| ==> s[i] == CR || s[i] == LF
    ensures CR !in s[..i] && LF !in s[..i]
  {
    if s == [] || s[0] == CR || s[0] == LF then 0
    else
      var j := LineEnd(s[1..]);
      assert s[..j + 1] == [s[0]] + s[1..][..j];
      j + 1
  }

  /** A line ends at CR LF, LF or CR. */
  function StdLines(s: Bytes): seq<Bytes>
    decreases |s|
  {
    var i := LineEnd(s);
    if i == |s| then []
    else
      var next := if s[i] == CR && i + 1 < |s| && s[i + 1] == LF then i + 2 else i + 1;
      [s[..i]] + StdLines(s[next..])
  }

  predicate HasBOM(s: Bytes) {
    [0xEF, 0xBB, 0xBF] <= s
  }

  /** One leading byte order mark is dropped. */
  function WithoutBOM(s: Bytes): Bytes {
    if HasBOM(s) then s[3..] else s
  }

  /** The field name and value of a line. */
  function Field(line: Bytes): (Bytes, Bytes) {
    var i := IndexByte(line, COLON);
    if i < 0 then (line, [])
    else
      var value := line[i + 1..];
      (line[..i], if value != [] && value[0] == SPACE then value[1..] else value)
  }

  /** The data buffer and the data of the events dispatched. */
  datatype Std = Std(data: Bytes, out: seq<Bytes>)

  function StdLine(st: Std, line: Bytes): Std {
    if line == [] then
      if st.data == [] then st
      else Std([], st.out + [if st.data[|st.data| - 1] == LF then st.data[..|st.data| - 1] else st.data])
    else if line[0] == COLON then st
    else if Field(line).0 == DATA then st.(data := st.data + Field(line).1 + [LF])
    else st
  }

  function StdRun(st: Std, lines: seq<Bytes>): Std
    decreases |lines|
  {
    if lines == [] then st else StdRun(StdLine(st, lines[0]), lines[1..])
  }

  /** What the standard dispatches; the data of an unfinished event is discarded. */
  function StdDispatch(s: Bytes): seq<Bytes> {
    StdRun(Std([], []), StdLines(WithoutBOM(s))).out
  }

  lemma {:induction false} StdRunAppend(st: Std, a: seq<Bytes>, b: seq<Bytes>)
    ensures StdRun(st, a + b) == StdRun(StdRun(st, a), b)
    decreases |a|
  {
    if a == [] {
      assert a + b == b;
    } else {
      assert (a + b)[1..] == a[1..] + b;
      StdRunAppend(StdLine(st, a[0]), a[1..], b);
    }
  }

  lemma LineEndIsIndex(s: Bytes)
    requires CR !in s
    ensures LineEnd(s) == if IndexByte(s, LF) < 0 then |s| else IndexByte(s, LF)
  {
    var i := LineEnd(s);
    hide LineEnd;
    if i == |s| {
      assert s[..i] == s;
    } else {
      hide IndexByte;
      IndexIs(s, LF, i);
    }
  }

  /** Without CR the standard's lines are the complete lines. */
  lemma {:induction false} StdLinesAreLines(s: Bytes)
    requires CR !in s
    ensures StdLines(s) == Lines(s)
    decreases |s|
  {
    hide LineEnd, IndexByte;
    LineEndIsIndex(s);
    var i := IndexByte(s, LF);
    if i < 0 {
      assert StdLines(s) == [] && Lines(s) == [];
    } else {
      assert StdLines(s) == [s[..i]] + StdLines(s[i + 1..]);
      assert Lines(s) == [s[..i]] + Lines(s[i + 1..]);
      hide *;
      StdLinesAreLines(s[i + 1..]);
    }
  }
}
