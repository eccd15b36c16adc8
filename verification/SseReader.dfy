/** The loop of `readSSE`. */
module SseReader {
  import opened Wrappers
  import opened Sequences
  import opened Framing
  import opened Scanner
  import opened LineScanners
  import opened Sse

  // ---------------------------------------------------------------- the reader as a loop

  /** io.LimitReader: the reads of a body, cut off after n bytes. */
  function Limited(chunks: seq<Bytes>, n: nat): seq<Bytes> {
    if chunks == [] || n == 0 then []
    else if n < |chunks[0]| then [chunks[0][..n]]
    else [chunks[0]] + Limited(chunks[1..], n - |chunks[0]|)
  }

  lemma {:induction false} LimitedIsTake(chunks: seq<Bytes>, n: nat)
    ensures Flatten(Limited(chunks, n)) == Take(Flatten(chunks), n)
    decreases |chunks|
  {
    if chunks != [] && n != 0 {
      var head, tail := chunks[0], chunks[1..];
      if n < |head| {
        assert [head[..n]][1..] == [];
        assert head[..n] + [] == head[..n];
      } else {
        assert ([head] + Limited(tail, n - |head|))[1..] == Limited(tail, n - |head|);
        LimitedIsTake(tail, n - |head|);
        hide Limited;
      }
    }
  }

  /** How `readSSE` returns once connected: nil, "SSE read error" or "SSE stream closed". */
  datatype End = Nil | ReadError | Closed

  method Size(chunks: seq<Bytes>) returns (n: nat)
    ensures n == |Flatten(chunks)|
  {
    n := 0;
    for i := |chunks| downto 0
      invariant n == |Flatten(chunks[i..])|
    {
      n := n + |chunks[i]|;
    }
  }

  /** The payload of one line, decoded. */
  method DecodeLine<S>(decode: Bytes -> Option<S>, line: Bytes) returns (out: seq<S>)
    ensures out == Decoded(decode, LinePayload(line))
  {
    out := [];
    if line == [] || line[0] == COLON { return; }
    if !(DATA_PREFIX <= line) { return; }
    var payload := line[|DATA_PREFIX|..];
    assert [payload][1..] == [];
    match decode(payload)
    case Some(s) => out := [s];
    case None =>
  }

  lemma NothingYet<S>(decode: Bytes -> Option<S>)
    ensures Decoded(decode, Payloads([])) == []
  {
  }

  lemma OneMore<S>(decode: Bytes -> Option<S>, done: seq<Bytes>, line: Bytes)
    ensures Decoded(decode, Payloads(done + [line]))
            == Decoded(decode, Payloads(done)) + Decoded(decode, LinePayload(line))
  {
    PayloadsAppend(done, [line]);
    OnePayload(line);
    DecodedAppend(decode, Payloads(done), LinePayload(line));
  }

  /** The scan loop of `readSSE`. */
  method Dispatch<S>(decode: Bytes -> Option<S>, scanner: LineScanner, cancelAt: nat)
    returns (handled: seq<S>, stopped: bool)
    requires scanner.Valid()
    modifies scanner`data, scanner`chunks, scanner`left
    ensures scanner.Valid()
    ensures handled == Decoded(decode, Payloads(Take(old(scanner.left), cancelAt)))
    ensures stopped <==> cancelAt < |old(scanner.left)|
    ensures !stopped ==> Scan1(scanner.data, scanner.chunks == [], scanner.limit).Stop?
  {
    hide Payloads, Decoded, Scan1, LinePayload, Tokens;
    handled := [];
    var count := 0;
    ghost var all := scanner.left;
    ghost var done: seq<Bytes> := [];
    NothingYet(decode);
    while true
      invariant scanner.Valid()
      invariant all == done + scanner.left && count == |done| <= cancelAt
      invariant handled == Decoded(decode, Payloads(done))
      decreases |scanner.left|
    {
      var ok, line := scanner.Scan();
      if !ok {
        assert Take(all, cancelAt) == done;
        return handled, false;
      }
      if count == cancelAt {
        assert Take(all, cancelAt) == done;
        return handled, true;
      }
      var out := DecodeLine(decode, line);
      OneMore(decode, done, line);
      handled := handled + out;
      Assoc(done, [line], scanner.left);
      done := done + [line];
      count := count + 1;
    }
  }

  /** `readSSE` on a connection whose body yields `chunks` and then fails or ends; `handled` are the SETs given to the
      router. It returns nil exactly when it sees the cancellation; a line too long for the scanner, or a failed read
      that comes before the limit, is a read error. */
  method ReadSSE<S>(decode: Bytes -> Option<S>, chunks: seq<Bytes>, fails: bool, cancelAt: nat)
    returns (handled: seq<S>, end: End)
    ensures handled == Handled(decode, Flatten(chunks), cancelAt)
    ensures var scan := Tokens(Take(Flatten(chunks), SSE_LIMIT), SSE_SCAN_BUF);
            end == if cancelAt < |scan.tokens| then Nil
                   else if scan.tooLong || (fails && |Flatten(chunks)| < SSE_LIMIT) then ReadError
                   else Closed
  {
    LimitedIsTake(chunks, SSE_LIMIT);
    var total := Size(chunks);
    var scanner := new LineScanner(Limited(chunks, SSE_LIMIT), SSE_SCAN_BUF);
    var stopped;
    handled, stopped := Dispatch(decode, scanner, cancelAt);
    if stopped { return handled, Nil; }
    var tooLong := scanner.TooLong();
    end := if tooLong || (fails && total < SSE_LIMIT) then ReadError else Closed;
  }
}
