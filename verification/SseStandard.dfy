/** Where exactly the relay's event-stream reader agrees with section 9.2.6 of the WHATWG HTML standard. */
module SseStandard {
  import opened Wrappers
  import opened Sequences
  import opened Framing
  import opened Scanner
  import opened Sse

  // ---------------------------------------------------------------- one event block

  ghost predicate IsData(line: Bytes) {
    line != [] && line[0] != COLON && Field(line).0 == DATA
  }

  /** The values of a block's data fields. */
  ghost function Values(block: seq<Bytes>): seq<Bytes> {
    if block == [] then []
    else (if IsData(block[0]) then [Field(block[0]).1] else []) + Values(block[1..])
  }

  /** The lines of an event before its blank line. */
  ghost predicate IsBlock(block: seq<Bytes>) {
    forall i | 0 <= i < |block| :: block[i] != []
  }

  /** Every data field is written with the colon and one space that the reader looks for. */
  ghost predicate Prefixed(block: seq<Bytes>) {
    forall i | 0 <= i < |block| && IsData(block[i]) :: DATA_PREFIX <= block[i]
  }

  /** At most one data field, and that one written `data: `. Comments and other fields are free. */
  ghost predicate Plain(block: seq<Bytes>) {
    |Values(block)| <= 1 && Prefixed(block)
  }

  /** What a block adds to the data buffer. */
  ghost function Buffered(values: seq<Bytes>): Bytes {
    if values == [] then [] else values[0] + [LF] + Buffered(values[1..])
  }

  /** What a block makes the standard dispatch. */
  ghost function Dispatched(block: seq<Bytes>): seq<Bytes> {
    var data := Buffered(Values(block));
    if data == [] then [] else [data[..|data| - 1]]
  }

  lemma DataPrefixIsData(line: Bytes)
    requires DATA_PREFIX <= line
    ensures IsData(line) && LinePayload(line) == [Field(line).1]
  {
    assert line[..4] == DATA && line[4] == COLON && line[5] == SPACE by {
      assert line[..4] == DATA_PREFIX[..4];
    }
    IndexIs(line, COLON, 4);
    assert line[5..][1..] == line[6..];
  }

  lemma PrefixedCons(block: seq<Bytes>)
    requires block != []
    ensures Prefixed(block) <==> (IsData(block[0]) ==> DATA_PREFIX <= block[0]) && Prefixed(block[1..])
  {
    hide IsData;
    assert forall i | 0 < i < |block| :: block[i] == block[1..][i - 1];
    assert forall i | 0 <= i < |block| - 1 :: block[1..][i] == block[i + 1];
  }

  lemma {:induction false} PayloadsAreValues(block: seq<Bytes>)
    ensures |Payloads(block)| <= |Values(block)|
    ensures forall k | 0 <= k < |Payloads(block)| :: Payloads(block)[k] in Values(block)
    ensures |Payloads(block)| == |Values(block)| ==> Payloads(block) == Values(block)
    ensures |Payloads(block)| == |Values(block)| <==> Prefixed(block)
  {
    if block != [] {
      PayloadsAreValues(block[1..]);
      PrefixedCons(block);
      var line := block[0];
      if DATA_PREFIX <= line {
        DataPrefixIsData(line);
      }
      hide IsData, Field, IndexByte, Prefixed;
    }
  }

  lemma BufferedCons(data: Bytes, block: seq<Bytes>)
    requires block != []
    ensures data + Buffered(Values(block))
            == (if IsData(block[0]) then data + Field(block[0]).1 + [LF] else data) + Buffered(Values(block[1..]))
  {
    hide Field;
    var tail := Values(block[1..]);
    if IsData(block[0]) {
      var value := Field(block[0]).1;
      assert ([value] + tail)[1..] == tail;
      assert Values(block) == [value] + tail;
      hide Values;
      assert Buffered([value] + tail) == value + [LF] + Buffered(tail);
      Assoc(data, value, [LF]);
      Assoc(data, value + [LF], Buffered(tail));
    } else {
      assert Values(block) == [] + tail == tail;
    }
  }

  lemma {:induction false} BlockBuffers(st: Std, block: seq<Bytes>)
    requires IsBlock(block)
    ensures StdRun(st, block) == st.(data := st.data + Buffered(Values(block)))
    decreases |block|
  {
    if block == [] {
      assert st.data + [] == st.data;
    } else {
      BlockBuffers(StdLine(st, block[0]), block[1..]);
      hide StdRun;
      BufferedCons(st.data, block);
    }
  }

  lemma {:induction false} BufferedEnd(values: seq<Bytes>)
    ensures values != [] ==> Buffered(values) != [] && Buffered(values)[|Buffered(values)| - 1] == LF
  {
    if values != [] {
      BufferedEnd(values[1..]);
    }
  }

  lemma BlankLine(data: Bytes, out: seq<Bytes>)
    requires data != [] ==> data[|data| - 1] == LF
    ensures StdRun(Std(data, out), [[]]) == Std([], if data == [] then out else out + [data[..|data| - 1]])
  {
    var blank: seq<Bytes> := [[]];
    assert blank[1..] == [];
  }

  /** A block and its blank line dispatch the joined values of its data fields, and leave the buffer empty. */
  lemma BlockDispatches(out: seq<Bytes>, block: seq<Bytes>)
    requires IsBlock(block)
    ensures StdRun(Std([], out), block + [[]]) == Std([], out + Dispatched(block))
  {
    var st := Std([], out);
    var data := Buffered(Values(block));
    var out' := Dispatched(block);
    assert out' == if data == [] then [] else [data[..|data| - 1]];
    hide Values, Buffered, IsData, Field, StdRun, Dispatched;
    StdRunAppend(st, block, [[]]);
    BlockBuffers(st, block);
    BufferedEnd(Values(block));
    BlankLine(data, out);
    assert [] + data == data && out + [] == out;
  }

  lemma {:induction false} BufferedAtLeast(values: seq<Bytes>)
    ensures |values| <= |Buffered(values)|
  {
    if values != [] {
      BufferedAtLeast(values[1..]);
    }
  }

  lemma {:induction false} BufferedSize(values: seq<Bytes>, v: Bytes)
    requires v in values
    ensures |v| + |values| <= |Buffered(values)|
  {
    if v != values[0] {
      BufferedSize(values[1..], v);
    } else {
      BufferedAtLeast(values[1..]);
    }
  }

  lemma BufferedOne(v: Bytes)
    ensures Buffered([v]) == v + [LF]
  {
    assert [v][1..] == [];
    assert v + [LF] + [] == v + [LF];
  }

  /** The reader and the standard agree on a block exactly when it is plain. */
  lemma AgreeOnBlock(block: seq<Bytes>)
    ensures Payloads(block) == Dispatched(block) <==> Plain(block)
  {
    PayloadsAreValues(block);
    BufferedEnd(Values(block));
    var values, payloads := Values(block), Payloads(block);
    var data := Buffered(values);
    hide Values, Payloads;
    if |values| == 1 {
      assert values == [values[0]];
      BufferedOne(values[0]);
      assert data[..|data| - 1] == values[0];
    }
    if 2 <= |values| && payloads == Dispatched(block) {
      BufferedSize(values, payloads[0]);
      assert false;
    }
  }

  // ---------------------------------------------------------------- whole streams

  /** The position of the first blank line, or the end. */
  ghost function BlankAt(lines: seq<Bytes>): (n: nat)
    ensures n <= |lines|
    ensures n < |lines| ==> lines[n] == []
    ensures IsBlock(lines[..n])
  {
    if lines == [] || lines[0] == [] then 0 else 1 + BlankAt(lines[1..])
  }

  /** The blocks of a stream whose every event ends with its blank line; `Unfinished` is what follows the last one. */
  ghost function Blocks(lines: seq<Bytes>): seq<seq<Bytes>>
    decreases |lines|
  {
    var n := BlankAt(lines);
    if n == |lines| then [] else [lines[..n]] + Blocks(lines[n + 1..])
  }

  ghost function Unfinished(lines: seq<Bytes>): seq<Bytes>
    decreases |lines|
  {
    var n := BlankAt(lines);
    if n == |lines| then lines else Unfinished(lines[n + 1..])
  }

  /** The lines of a stream made of these blocks. */
  ghost function Unblock(blocks: seq<seq<Bytes>>): seq<Bytes> {
    if blocks == [] then [] else blocks[0] + [[]] + Unblock(blocks[1..])
  }

  ghost predicate AreBlocks(blocks: seq<seq<Bytes>>) {
    forall k | 0 <= k < |blocks| :: IsBlock(blocks[k])
  }

  lemma UnblockCons(block: seq<Bytes>, blocks: seq<seq<Bytes>>)
    ensures Unblock([block] + blocks) == block + [[]] + Unblock(blocks)
  {
    assert ([block] + blocks)[1..] == blocks;
  }

  lemma CutBlank(lines: seq<Bytes>, n: nat)
    requires n < |lines| && lines[n] == []
    ensures lines == lines[..n] + [[]] + lines[n + 1..]
  {
    CutAt(lines, n);
  }

  lemma BlocksStep(lines: seq<Bytes>, n: nat)
    requires n == BlankAt(lines) && n < |lines|
    ensures Blocks(lines) == [lines[..n]] + Blocks(lines[n + 1..])
    ensures Unfinished(lines) == Unfinished(lines[n + 1..])
  {
    hide BlankAt, IsBlock;
  }

  lemma NoBlocks(lines: seq<Bytes>)
    requires BlankAt(lines) == |lines|
    ensures Unblock(Blocks(lines)) + Unfinished(lines) == lines
  {
    hide BlankAt, IsBlock;
    assert Unblock([]) == [];
  }

  lemma {:induction false} BlocksJoin(lines: seq<Bytes>)
    ensures Unblock(Blocks(lines)) + Unfinished(lines) == lines
    decreases |lines|
  {
    hide *;
    var n := BlankAt(lines);
    if n == |lines| {
      NoBlocks(lines);
    } else {
      var tail := lines[n + 1..];
      BlocksStep(lines, n);
      CutBlank(lines, n);
      BlocksJoin(tail);
      UnblockCons(lines[..n], Blocks(tail));
      Assoc(lines[..n] + [[]], Unblock(Blocks(tail)), Unfinished(tail));
    }
  }

  lemma {:induction false} BlocksAreBlocks(lines: seq<Bytes>)
    ensures AreBlocks(Blocks(lines))
    decreases |lines|
  {
    var n := BlankAt(lines);
    if n < |lines| {
      BlocksAreBlocks(lines[n + 1..]);
      hide IsBlock, BlankAt;
    }
  }

  /** What the reader and the standard take from a list of blocks. */
  ghost function ReaderOut(blocks: seq<seq<Bytes>>): seq<Bytes> {
    if blocks == [] then [] else ReaderOut(blocks[..|blocks| - 1]) + Payloads(blocks[|blocks| - 1])
  }

  ghost function StandardOut(blocks: seq<seq<Bytes>>): seq<Bytes> {
    if blocks == [] then [] else StandardOut(blocks[..|blocks| - 1]) + Dispatched(blocks[|blocks| - 1])
  }

  lemma UnblockSnoc(blocks: seq<seq<Bytes>>, last: seq<Bytes>)
    ensures Unblock(blocks + [last]) == Unblock(blocks) + (last + [[]])
    decreases |blocks|
  {
    if blocks == [] {
      assert blocks + [last] == [last] && [last][1..] == [];
    } else {
      assert (blocks + [last])[1..] == blocks[1..] + [last];
      UnblockSnoc(blocks[1..], last);
      Assoc(blocks[0] + [[]], Unblock(blocks[1..]), last + [[]]);
    }
  }

  lemma BlankPayload(block: seq<Bytes>)
    ensures Payloads(block + [[]]) == Payloads(block)
  {
    PayloadsAppend(block, [[]]);
    OnePayload([]);
  }

  lemma {:induction false} OutsAreRuns(blocks: seq<seq<Bytes>>)
    requires AreBlocks(blocks)
    ensures Payloads(Unblock(blocks)) == ReaderOut(blocks)
    ensures StdRun(Std([], []), Unblock(blocks)) == Std([], StandardOut(blocks))
    decreases |blocks|
  {
    if blocks != [] {
      var front, last := blocks[..|blocks| - 1], blocks[|blocks| - 1];
      assert blocks == front + [last];
      OutsAreRuns(front);
      hide Payloads, Dispatched, Unblock, StdRun;
      UnblockSnoc(front, last);
      PayloadsAppend(Unblock(front), last + [[]]);
      BlankPayload(last);
      StdRunAppend(Std([], []), Unblock(front), last + [[]]);
      BlockDispatches(StandardOut(front), last);
    }
  }

  /** The reader and the standard agree after every event. */
  ghost predicate AgreeThroughout(blocks: seq<seq<Bytes>>) {
    forall k | 0 <= k <= |blocks| :: ReaderOut(blocks[..k]) == StandardOut(blocks[..k])
  }

  ghost predicate AllPlain(blocks: seq<seq<Bytes>>) {
    forall k | 0 <= k < |blocks| :: Plain(blocks[k])
  }

  lemma AgreeSnoc(front: seq<seq<Bytes>>, last: seq<Bytes>)
    ensures AgreeThroughout(front + [last])
            <==> AgreeThroughout(front) && ReaderOut(front + [last]) == StandardOut(front + [last])
  {
    hide ReaderOut, StandardOut;
    var blocks := front + [last];
    assert blocks[..|blocks|] == blocks;
    assert forall k | 0 <= k <= |front| :: blocks[..k] == front[..k];
  }

  lemma PlainSnoc(front: seq<seq<Bytes>>, last: seq<Bytes>)
    ensures AllPlain(front + [last]) <==> AllPlain(front) && Plain(last)
  {
    hide Plain;
    var blocks := front + [last];
    assert blocks[|front|] == last;
    assert forall k | 0 <= k < |front| :: blocks[k] == front[k];
  }

  /** On streams of finished events the reader and the standard agree, event by event, exactly when every event is
      plain: has at most one data field, written `data: `, whatever comments and other fields surround it. */
  lemma {:induction false} AgreeExactlyOnPlain(blocks: seq<seq<Bytes>>)
    requires AreBlocks(blocks)
    ensures AgreeThroughout(blocks) <==> AllPlain(blocks)
    decreases |blocks|
  {
    if blocks == [] {
      assert blocks[..0] == [];
    } else {
      var front, last := blocks[..|blocks| - 1], blocks[|blocks| - 1];
      AgreeExactlyOnPlain(front);
      assert front[..|front|] == front && blocks == front + [last];
      assert ReaderOut(blocks) == ReaderOut(front) + Payloads(last);
      assert StandardOut(blocks) == StandardOut(front) + Dispatched(last);
      assert AgreeThroughout(front) ==> ReaderOut(front[..|front|]) == StandardOut(front[..|front|]);
      hide *;
      if ReaderOut(front) == StandardOut(front) {
        CancelLeft(ReaderOut(front), Payloads(last), Dispatched(last));
      }
      AgreeOnBlock(last);
      AgreeSnoc(front, last);
      PlainSnoc(front, last);
    }
  }

  /** LF only, no byte order mark, within both limits; the last line may lack its LF, the last event its blank line. */
  ghost predicate LFStream(s: Bytes) {
    CR !in s && !HasBOM(s) && |s| <= SSE_LIMIT && Short(Lines(s), SSE_SCAN_BUF) && |Rest(s)| < SSE_SCAN_BUF
  }

  /** What follows the last finished event, a line without LF included. */
  ghost function Tail(s: Bytes): seq<Bytes> {
    Unfinished(Lines(s)) + Fragment(s)
  }

  /** The payloads the reader takes from a stream. */
  ghost function ReaderTakes(s: Bytes): seq<Bytes> {
    Payloads(Tokens(Take(s, SSE_LIMIT), SSE_SCAN_BUF).tokens)
  }

  /** The reader and the standard agree after every finished event of the stream, and at its end. */
  ghost predicate AgreeOnStream(s: Bytes) {
    AgreeThroughout(Blocks(Lines(s))) && ReaderTakes(s) == StdDispatch(s)
  }

  lemma UnfinishedNotDispatched(lines: seq<Bytes>)
    ensures IsBlock(Unfinished(lines))
    decreases |lines|
  {
    var n := BlankAt(lines);
    if n < |lines| {
      UnfinishedNotDispatched(lines[n + 1..]);
    } else {
      assert lines[..n] == lines;
    }
  }

  lemma StandardOnStream(s: Bytes)
    requires LFStream(s)
    ensures StdDispatch(s) == StandardOut(Blocks(Lines(s)))
  {
    var lines := Lines(s);
    StdLinesAreLines(s);
    assert StdDispatch(s) == StdRun(Std([], []), lines).out;
    hide *;
    BlocksJoin(lines);
    BlocksAreBlocks(lines);
    OutsAreRuns(Blocks(lines));
    UnfinishedNotDispatched(lines);
    StdRunAppend(Std([], []), Unblock(Blocks(lines)), Unfinished(lines));
    BlockBuffers(Std([], StandardOut(Blocks(lines))), Unfinished(lines));
  }

  lemma ReaderOnStream(s: Bytes)
    requires LFStream(s)
    ensures ReaderTakes(s) == ReaderOut(Blocks(Lines(s))) + Payloads(Tail(s))
  {
    var lines := Lines(s);
    assert Take(s, SSE_LIMIT) == s;
    ScanIsSplit(s, SSE_SCAN_BUF);
    assert ReaderTakes(s) == Payloads(lines + Fragment(s)) && Tail(s) == Unfinished(lines) + Fragment(s);
    hide *;
    BlocksJoin(lines);
    BlocksAreBlocks(lines);
    OutsAreRuns(Blocks(lines));
    Assoc(Unblock(Blocks(lines)), Unfinished(lines), Fragment(s));
    PayloadsAppend(Unblock(Blocks(lines)), Unfinished(lines) + Fragment(s));
  }

  lemma AgreeAtEnd(blocks: seq<seq<Bytes>>)
    ensures AgreeThroughout(blocks) ==> ReaderOut(blocks) == StandardOut(blocks)
  {
    assert blocks[..|blocks|] == blocks;
  }

  /** On every such stream they agree exactly when every finished event is plain and what follows the last one has no
      payload. */
  lemma AgreeExactly(s: Bytes)
    requires LFStream(s)
    ensures AgreeOnStream(s) <==> AllPlain(Blocks(Lines(s))) && Payloads(Tail(s)) == []
  {
    var blocks := Blocks(Lines(s));
    StandardOnStream(s);
    ReaderOnStream(s);
    BlocksAreBlocks(Lines(s));
    AgreeExactlyOnPlain(blocks);
    AgreeAtEnd(blocks);
    hide Payloads, ReaderOut, StandardOut, Tail, AllPlain, AgreeThroughout, Blocks, Lines, LFStream, ReaderTakes,
      StdDispatch;
    Nothing(ReaderOut(blocks));
    CancelLeft(ReaderOut(blocks), Payloads(Tail(s)), []);
  }

  /** There the SETs handed to the router are the decoded data of exactly the events the standard dispatches. */
  lemma ReaderMeetsStandard<S>(decode: Bytes -> Option<S>, s: Bytes, cancelAt: nat)
    requires LFStream(s) && AllPlain(Blocks(Lines(s))) && Payloads(Tail(s)) == []
    requires |Tokens(s, SSE_SCAN_BUF).tokens| <= cancelAt
    ensures Handled(decode, s, cancelAt) == Decoded(decode, StdDispatch(s))
  {
    AgreeExactly(s);
    assert Take(s, SSE_LIMIT) == s;
    hide Payloads, Tail, AllPlain, AgreeThroughout, Blocks, Lines, Tokens, StdDispatch, Decoded;
  }
}
