/** Wherever a connection is cut, the SETs handed to the router are an in-order prefix of those sent. */
module SseCut {
  import opened Wrappers
  import opened Sequences
  import opened Framing
  import opened Scanner
  import opened Sse

  /** The SETs a transmitter means to send with the stream `s`: those of its complete lines. */
  ghost function Sent<S>(decode: Bytes -> Option<S>, s: Bytes): seq<S> {
    Decoded(decode, Payloads(DropCRs(Lines(s))))
  }

  /** No proper prefix of a payload decodes to anything else; so it is for JSON objects. */
  ghost predicate PrefixSafe<S(!new)>(decode: Bytes -> Option<S>, payload: Bytes) {
    forall q | q < payload :: decode(q).None? || decode(q) == decode(payload)
  }

  ghost predicate LinePrefixSafe<S(!new)>(decode: Bytes -> Option<S>, line: Bytes) {
    forall p | p in LinePayload(line) :: PrefixSafe(decode, p)
  }

  ghost predicate AllPrefixSafe<S(!new)>(decode: Bytes -> Option<S>, lines: seq<Bytes>) {
    forall i | 0 <= i < |lines| :: LinePrefixSafe(decode, DropCR(lines[i]))
  }

  lemma DecodeOne<S>(decode: Bytes -> Option<S>, p: Bytes)
    ensures Decoded(decode, [p]) == match decode(p) case None => [] case Some(s) => [s]
  {
    assert [p][1..] == [];
  }

  /** A cut line yields what the whole line yields, or nothing. */
  lemma CutLine<S(!new)>(decode: Bytes -> Option<S>, cut: Bytes, line: Bytes)
    requires cut <= line && LinePrefixSafe(decode, line)
    ensures Decoded(decode, LinePayload(cut)) <= Decoded(decode, LinePayload(line))
  {
    if LinePayload(cut) != [] {
      var n := |DATA_PREFIX|;
      var a, b := cut[n..], line[n..];
      assert cut[0] == line[0] && line[..n] == cut[..n];
      assert LinePayload(cut) == [a] && LinePayload(line) == [b] && b in LinePayload(line);
      assert a == b[..|a|];
      assert a == b || a < b;
      hide LinePayload;
      DecodeOne(decode, a);
      DecodeOne(decode, b);
    }
  }

  lemma DropCRPrefix(cut: Bytes, line: Bytes)
    requires cut <= line
    ensures DropCR(cut) <= DropCR(line)
  {
  }

  lemma TakeCons<T>(x: T, s: seq<T>, m: nat)
    requires m <= |s|
    ensures ([x] + s)[..m + 1] == [x] + s[..m]
  {
  }

  lemma DropCRsCons(line: Bytes, lines: seq<Bytes>)
    ensures DropCRs([line] + lines) == [DropCR(line)] + DropCRs(lines)
  {
    assert ([line] + lines)[1..] == lines;
  }

  lemma ShortTail(line: Bytes, lines: seq<Bytes>, limit: nat)
    ensures Short([line] + lines, limit) ==> Short(lines, limit)
  {
    assert forall i | 0 <= i < |lines| :: ([line] + lines)[i + 1] == lines[i];
  }

  /** The tokens of a prefix of the stream: those of some of its whole lines, and perhaps a cut line. */
  lemma {:induction false} TokensShape(r: Bytes, limit: nat) returns (n: nat)
    ensures n <= |Lines(r)|
    ensures var t := Tokens(r, limit);
            || t.tokens == DropCRs(Lines(r)[..n])
            || (n == |Lines(r)| && t.tokens == DropCRs(Lines(r)) + [DropCR(Rest(r))])
    ensures Short(Lines(r), limit) && Rest(r) == [] ==> Tokens(r, limit) == Scan(DropCRs(Lines(r)), false)
    decreases |r|
  {
    var i := IndexByte(r, LF);
    if i < 0 {
      n := 0;
      assert Lines(r) == [] && Rest(r) == r;
      assert [] + [DropCR(r)] == [DropCR(r)];
    } else {
      var line, tail := r[..i], r[i + 1..];
      assert Lines(r) == [line] + Lines(tail) && Rest(r) == Rest(tail);
      if i < limit {
        var t := Tokens(tail, limit);
        assert Tokens(r, limit) == Scan([DropCR(line)] + t.tokens, t.tooLong);
        hide Tokens, IndexByte, DropCR, Rest, Lines;
        var m := TokensShape(tail, limit);
        n := m + 1;
        TakeCons(line, Lines(tail), m);
        DropCRsCons(line, Lines(tail)[..m]);
        DropCRsCons(line, Lines(tail));
        ShortTail(line, Lines(tail), limit);
        Assoc([DropCR(line)], DropCRs(Lines(tail)), [DropCR(Rest(tail))]);
      } else {
        n := 0;
        assert Lines(r)[..0] == [];
        assert Lines(r)[0] == line;
      }
    }
  }

  lemma FewerTokens<S>(decode: Bytes -> Option<S>, a: seq<Bytes>, b: seq<Bytes>)
    ensures Decoded(decode, Payloads(a)) <= Decoded(decode, Payloads(a + b))
  {
    PayloadsAppend(a, b);
    DecodedAppend(decode, Payloads(a), Payloads(b));
  }

  /** Fewer lines, fewer SETs. */
  lemma FewerLines<S>(decode: Bytes -> Option<S>, a: seq<Bytes>, b: seq<Bytes>)
    ensures Decoded(decode, Payloads(DropCRs(a))) <= Decoded(decode, Payloads(DropCRs(a + b)))
  {
    DropCRsAppend(a, b);
    FewerTokens(decode, DropCRs(a), DropCRs(b));
  }

  /** Whole lines and a cut one. */
  lemma WithCutLine<S(!new)>(decode: Bytes -> Option<S>, lines: seq<Bytes>, cut: Bytes, line: Bytes, more: seq<Bytes>)
    requires cut <= line && LinePrefixSafe(decode, DropCR(line))
    ensures Decoded(decode, Payloads(DropCRs(lines) + [DropCR(cut)]))
            <= Decoded(decode, Payloads(DropCRs(lines + ([line] + more))))
  {
    hide Decoded, Payloads, LinePayload, DropCR, LinePrefixSafe;
    var a, b, c, d := DropCRs(lines), DropCR(cut), DropCR(line), DropCRs(more);
    DropCRPrefix(cut, line);
    CutLine(decode, b, c);
    DropCRsAppend(lines, [line] + more);
    DropCRsCons(line, more);
    Assoc(a, [c], d);
    PayloadsAppend(a, [b]);
    PayloadsAppend(a, [c]);
    OnePayload(b);
    OnePayload(c);
    DecodedAppend(decode, Payloads(a), LinePayload(b));
    DecodedAppend(decode, Payloads(a), LinePayload(c));
    FewerTokens(decode, a + [c], d);
  }

  /** The line that a cut falls in continues the fragment before it. */
  lemma CutContinues(rest: Bytes, t: Bytes)
    requires LF !in rest && Lines(rest + t) != []
    ensures rest <= Lines(rest + t)[0]
  {
    var i := IndexByte(rest + t, LF);
    assert forall j | 0 <= j < |rest| :: (rest + t)[j] == rest[j];
    assert |rest| <= i;
    assert (rest + t)[..i][..|rest|] == rest;
  }

  lemma SafeHere<S(!new)>(decode: Bytes -> Option<S>, a: seq<Bytes>, b: seq<Bytes>)
    requires AllPrefixSafe(decode, a + b) && b != []
    ensures LinePrefixSafe(decode, DropCR(b[0]))
  {
    assert (a + b)[|a|] == b[0];
  }

  lemma CutBetween<S(!new)>(decode: Bytes -> Option<S>, lines: seq<Bytes>, n: nat, more: seq<Bytes>)
    requires n <= |lines|
    ensures Decoded(decode, Payloads(DropCRs(lines[..n]))) <= Decoded(decode, Payloads(DropCRs(lines + more)))
  {
    hide DropCRs, Payloads, Decoded;
    FewerLines(decode, lines[..n], lines[n..]);
    assert lines[..n] + lines[n..] == lines;
    FewerLines(decode, lines, more);
  }

  lemma EmptyFragment<S>(decode: Bytes -> Option<S>, lines: seq<Bytes>)
    ensures Decoded(decode, Payloads(DropCRs(lines) + [DropCR([])])) == Decoded(decode, Payloads(DropCRs(lines)))
  {
    PayloadsAppend(DropCRs(lines), [DropCR([])]);
    OnePayload([]);
    assert LinePayload([]) == [];
    assert Payloads(DropCRs(lines)) + [] == Payloads(DropCRs(lines));
  }

  lemma NonEmptyRest(rest: Bytes, t: Bytes)
    requires rest != [] && Rest(rest + t) == []
    ensures Lines(rest + t) != []
  {
  }

  lemma CutInside<S(!new)>(decode: Bytes -> Option<S>, lines: seq<Bytes>, rest: Bytes, t: Bytes)
    requires LF !in rest && AllPrefixSafe(decode, lines + Lines(rest + t)) && (rest != [] ==> Rest(rest + t) == [])
    ensures Decoded(decode, Payloads(DropCRs(lines) + [DropCR(rest)]))
            <= Decoded(decode, Payloads(DropCRs(lines + Lines(rest + t))))
  {
    var more := Lines(rest + t);
    if rest == [] {
      EmptyFragment(decode, lines);
      hide *;
      FewerLines(decode, lines, more);
    } else {
      NonEmptyRest(rest, t);
      CutContinues(rest, t);
      hide *;
      SafeHere(decode, lines, more);
      assert more == [more[0]] + more[1..];
      WithCutLine(decode, lines, rest, more[0], more[1..]);
    }
  }

  /** The tokens of a cut stream yield a prefix of what was sent. */
  lemma CutTokens<S(!new)>(decode: Bytes -> Option<S>, r: Bytes, t: Bytes)
    requires AllPrefixSafe(decode, Lines(r + t)) && (Rest(r) != [] ==> Rest(r + t) == [])
    ensures Decoded(decode, Payloads(Tokens(r, SSE_SCAN_BUF).tokens)) <= Sent(decode, r + t)
  {
    hide Tokens, Lines, Rest, DropCRs, Payloads, Decoded, DropCR, AllPrefixSafe;
    var n := TokensShape(r, SSE_SCAN_BUF);
    SplitAppend(r, t);
    SplitLineFree(r);
    if Tokens(r, SSE_SCAN_BUF).tokens == DropCRs(Lines(r)[..n]) {
      CutBetween(decode, Lines(r), n, Lines(Rest(r) + t));
    } else {
      CutInside(decode, Lines(r), Rest(r), t);
    }
  }

  lemma TakeTokens<S>(decode: Bytes -> Option<S>, tokens: seq<Bytes>, n: nat)
    ensures Decoded(decode, Payloads(Take(tokens, n))) <= Decoded(decode, Payloads(tokens))
  {
    hide Payloads, Decoded;
    if n < |tokens| {
      FewerTokens(decode, tokens[..n], tokens[n..]);
      assert tokens[..n] + tokens[n..] == tokens;
    }
  }

  lemma BodyIsCut(s: Bytes, k: nat)
    requires k <= |s|
    ensures var body := Take(s[..k], SSE_LIMIT);
            |body| <= |s| && body + s[|body|..] == s
  {
    var body := Take(s[..k], SSE_LIMIT);
    assert body == s[..|body|];
  }

  /** Let a transmitter send `s`, whole lines whose payloads are prefix-safe. Wherever the body is cut (by a close at
      byte k, in the middle of a line or not, by the 8 MiB limit, by an over-long line, by cancellation), the router
      gets an in-order prefix of the SETs sent. */
  lemma CutGivesPrefix<S(!new)>(decode: Bytes -> Option<S>, s: Bytes, k: nat, cancelAt: nat)
    requires k <= |s| && Rest(s) == [] && AllPrefixSafe(decode, Lines(s))
    ensures Handled(decode, s[..k], cancelAt) <= Sent(decode, s)
  {
    hide Tokens, Lines, Rest, Payloads, Decoded, AllPrefixSafe, Sent, Take;
    var body := Take(s[..k], SSE_LIMIT);
    BodyIsCut(s, k);
    CutTokens(decode, body, s[|body|..]);
    TakeTokens(decode, Tokens(body, SSE_SCAN_BUF).tokens, cancelAt);
  }

  lemma {:induction false} DropCRsSize(lines: seq<Bytes>)
    ensures |DropCRs(lines)| == |lines|
  {
    if lines != [] {
      DropCRsSize(lines[1..]);
    }
  }

  /** And all of them if the whole stream arrives within both limits and uncancelled. */
  lemma UncutGivesAll<S>(decode: Bytes -> Option<S>, s: Bytes, cancelAt: nat)
    requires Rest(s) == [] && |s| <= 0x80_0000 && Short(Lines(s), 0x1_0000) && |Lines(s)| <= cancelAt
    ensures Handled(decode, s, cancelAt) == Sent(decode, s)
  {
    var n := TokensShape(s, SSE_SCAN_BUF);
    DropCRsSize(Lines(s));
    hide Tokens, Lines, Rest, DropCRs, Payloads, Decoded;
  }

  /** What lies beyond the first 8 MiB of a body is nothing to the reader. */
  lemma NothingBeyondLimit<S>(decode: Bytes -> Option<S>, body: Bytes, more: Bytes, cancelAt: nat)
    requires |body| == 0x80_0000
    ensures Handled(decode, body + more, cancelAt) == Handled(decode, body, cancelAt)
  {
    hide Tokens, Payloads, Decoded;
    assert (body + more)[..|body|] == body;
    assert Take(body + more, SSE_LIMIT) == body == Take(body, SSE_LIMIT);
  }

  /** Token by token, up to the one at which the cancellation is seen, which is not handled any more. */
  lemma CancelCutsAtToken<S>(decode: Bytes -> Option<S>, body: Bytes, cancelAt: nat)
    ensures Handled(decode, body, 0) == []
    ensures var tokens := Tokens(Take(body, SSE_LIMIT), SSE_SCAN_BUF).tokens;
            Handled(decode, body, cancelAt + 1)
            == Handled(decode, body, cancelAt)
               + if cancelAt < |tokens| then Decoded(decode, LinePayload(tokens[cancelAt])) else []
  {
    var tokens := Tokens(Take(body, SSE_LIMIT), SSE_SCAN_BUF).tokens;
    var none: seq<Bytes> := [];
    assert Decoded(decode, Payloads(none)) == [] && Take(tokens, 0) == none;
    hide Tokens, Payloads, Decoded, LinePayload;
    if cancelAt < |tokens| {
      var first := tokens[..cancelAt];
      assert Take(tokens, cancelAt + 1) == first + [tokens[cancelAt]] && Take(tokens, cancelAt) == first;
      PayloadsAppend(first, [tokens[cancelAt]]);
      OnePayload(tokens[cancelAt]);
      DecodedAppend(decode, Payloads(first), LinePayload(tokens[cancelAt]));
    } else {
      assert Take(tokens, cancelAt + 1) == tokens == Take(tokens, cancelAt);
      Nothing(Handled(decode, body, cancelAt));
    }
  }
}
