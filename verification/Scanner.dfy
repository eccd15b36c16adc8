/** The documented line splitting of Go's bufio.Scanner, which both stream readers stand on: LF ends a line, one CR
    before it is dropped, the last line may lack its LF, and a line that with its LF exceeds the buffer ends the scan. */
module Scanner {
  import opened Sequences
  import opened Framing

  datatype Scan = Scan(tokens: seq<Bytes>, tooLong: bool)

  function DropCR(line: Bytes): Bytes {
    if line != [] && line[|line| - 1] == CR then line[..|line| - 1] else line
  }

  /** The tokens of a stream that delivers `s` and then ends, cleanly or with an error. */
  function Tokens(s: Bytes, limit: nat): Scan
    decreases |s|
  {
    var i := IndexByte(s, LF);
    if s == [] then Scan([], false)
    else if 0 <= i < limit then
      var r := Tokens(s[i + 1..], limit);
      Scan([DropCR(s[..i])] + r.tokens, r.tooLong)
    else if i < 0 && |s| < limit then Scan([DropCR(s)], false)
    else Scan([], true)
  }

  /** One call of Scan with `data` buffered: a token and what is left, the end of the scan, or the need to read. */
  datatype Next = Token(token: Bytes, rest: Bytes) | Stop | NeedRead

  function Scan1(data: Bytes, ended: bool, limit: nat): (r: Next)
    ensures r.Token? ==> |r.rest| < |data|
    ensures ended ==> !r.NeedRead?
  {
    var i := IndexByte(data, LF);
    if 0 <= i < limit then Token(DropCR(data[..i]), data[i + 1..])
    else if limit <= |data| || (ended && data == []) then Stop
    else if !ended then NeedRead
    else Token(DropCR(data), [])
  }

  function DropCRs(lines: seq<Bytes>): seq<Bytes> {
    if lines == [] then [] else [DropCR(lines[0])] + DropCRs(lines[1..])
  }

  ghost predicate Short(lines: seq<Bytes>, limit: nat) {
    forall i | 0 <= i < |lines| :: |lines[i]| < limit
  }

  /** `pre` is whole lines that fit the buffer. */
  ghost predicate Whole(pre: Bytes, limit: nat) {
    Rest(pre) == [] && Short(Lines(pre), limit)
  }

  lemma {:induction false} DropCRsAppend(a: seq<Bytes>, b: seq<Bytes>)
    ensures DropCRs(a + b) == DropCRs(a) + DropCRs(b)
  {
    if a == [] {
      assert a + b == b;
    } else {
      assert (a + b)[1..] == a[1..] + b;
      DropCRsAppend(a[1..], b);
    }
  }

  lemma TokensCons(line: Bytes, tail: Bytes, limit: nat)
    requires LF !in line && |line| < limit
    ensures Tokens(line + [LF] + tail, limit)
            == Scan([DropCR(line)] + Tokens(tail, limit).tokens, Tokens(tail, limit).tooLong)
  {
    var s := line + [LF] + tail;
    assert s[..|line|] == line && s[|line| + 1..] == tail;
    IndexIs(s, LF, |line|);
  }

  lemma UnlinesHead(lines: seq<Bytes>, data: Bytes)
    requires lines != []
    ensures Unlines(lines) + data == lines[0] + [LF] + (Unlines(lines[1..]) + data)
  {
  }

  lemma {:induction false} TokensAfterLines(lines: seq<Bytes>, data: Bytes, limit: nat)
    requires LineFree(lines) && Short(lines, limit)
    ensures Tokens(Unlines(lines) + data, limit).tokens == DropCRs(lines) + Tokens(data, limit).tokens
    ensures Tokens(Unlines(lines) + data, limit).tooLong == Tokens(data, limit).tooLong
  {
    hide Tokens, DropCR, IndexByte;
    if lines == [] {
      assert Unlines(lines) + data == data;
    } else {
      assert DropCRs(lines) == [DropCR(lines[0])] + DropCRs(lines[1..]);
      hide Unlines, DropCRs;
      TokensAfterLines(lines[1..], data, limit);
      var tail := Unlines(lines[1..]) + data;
      TokensCons(lines[0], tail, limit);
      UnlinesHead(lines, data);
      Assoc([DropCR(lines[0])], DropCRs(lines[1..]), Tokens(data, limit).tokens);
    }
  }

  /** Whole lines already scanned do not influence the rest. */
  lemma TokensAfter(pre: Bytes, data: Bytes, limit: nat)
    requires Whole(pre, limit)
    ensures Tokens(pre + data, limit)
            == Scan(DropCRs(Lines(pre)) + Tokens(data, limit).tokens, Tokens(data, limit).tooLong)
  {
    SplitJoins(pre);
    SplitLineFree(pre);
    assert Unlines(Lines(pre)) + [] == Unlines(Lines(pre));
    TokensAfterLines(Lines(pre), data, limit);
  }

  lemma LinesSnoc(pre: Bytes, line: Bytes)
    requires Rest(pre) == [] && LF !in line
    ensures Lines(pre + (line + [LF])) == Lines(pre) + [line] && Rest(pre + (line + [LF])) == []
  {
    var none: Bytes := [];
    assert Lines(none) == [] && Rest(none) == [];
    FirstLine(line, none);
    SplitAppend(pre, line + [LF]);
    hide *;
    assert none + (line + [LF]) == line + [LF] && line + [LF] + none == line + [LF];
    assert [line] + Lines(none) == [line];
  }

  /** One more whole line. */
  lemma WholeSnoc(pre: Bytes, line: Bytes, limit: nat)
    requires Whole(pre, limit) && LF !in line && |line| < limit
    ensures Whole(pre + (line + [LF]), limit)
    ensures DropCRs(Lines(pre + (line + [LF]))) == DropCRs(Lines(pre)) + [DropCR(line)]
  {
    LinesSnoc(pre, line);
    DropCRsAppend(Lines(pre), [line]);
  }

  lemma {:induction false} NoCR(lines: seq<Bytes>)
    requires forall i | 0 <= i < |lines| :: CR !in lines[i]
    ensures DropCRs(lines) == lines
  {
    if lines != [] {
      NoCR(lines[1..]);
    }
  }

  lemma {:induction false} LinesWithin(s: Bytes, b: byte)
    requires b !in s
    ensures forall i | 0 <= i < |Lines(s)| :: b !in Lines(s)[i]
    ensures b !in Rest(s)
    decreases |s|
  {
    var i := IndexByte(s, LF);
    if i < 0 {
      assert Lines(s) == [] && Rest(s) == s;
    } else {
      var line, tail := s[..i], s[i + 1..];
      assert Lines(s) == [line] + Lines(tail) && Rest(s) == Rest(tail);
      hide *;
      LinesWithin(tail, b);
    }
  }

  /** The final unterminated fragment, if any. */
  function Fragment(s: Bytes): seq<Bytes> {
    if Rest(s) == [] then [] else [Rest(s)]
  }

  lemma {:induction false} FragmentTokens(rest: Bytes, limit: nat)
    requires LF !in rest && CR !in rest && |rest| < limit
    ensures Tokens(rest, limit) == Scan(if rest == [] then [] else [rest], false)
  {
  }

  lemma {:induction false} WholePart(s: Bytes)
    ensures Lines(Unlines(Lines(s))) == Lines(s) && Rest(Unlines(Lines(s))) == []
  {
    SplitLineFree(s);
    SplitUnique(Lines(s), []);
    assert Unlines(Lines(s)) + [] == Unlines(Lines(s));
  }

  /** Without CR and with every line short of the limit, the scan is the plain split and the final fragment. */
  lemma ScanIsSplit(s: Bytes, limit: nat)
    requires CR !in s && Short(Lines(s), limit) && |Rest(s)| < limit
    ensures Tokens(s, limit) == Scan(Lines(s) + Fragment(s), false)
  {
    SplitJoins(s);
    SplitLineFree(s);
    LinesWithin(s, CR);
    WholePart(s);
    TokensAfter(Unlines(Lines(s)), Rest(s), limit);
    FragmentTokens(Rest(s), limit);
    NoCR(Lines(s));
  }

  /** The index of the first line too long for the buffer, or the number of lines. */
  ghost function FirstLong(lines: seq<Bytes>, limit: nat): (n: nat)
    ensures n <= |lines| && Short(lines[..n], limit)
    ensures n < |lines| ==> limit <= |lines[n]|
  {
    if lines == [] || limit <= |lines[0]| then 0
    else
      var m := FirstLong(lines[1..], limit);
      assert lines[..m + 1] == [lines[0]] + lines[1..][..m];
      m + 1
  }

  lemma LongLine(line: Bytes, tail: Bytes, limit: nat)
    requires LF !in line && limit <= |line| && 0 < limit
    ensures Tokens(line + [LF] + tail, limit) == Scan([], true)
  {
    var s := line + [LF] + tail;
    assert s[..|line|] == line;
    IndexIs(s, LF, |line|);
  }

  lemma UnlinesFrom(lines: seq<Bytes>, n: nat, rest: Bytes)
    requires n <= |lines|
    ensures Unlines(lines) + rest == Unlines(lines[..n]) + (Unlines(lines[n..]) + rest)
  {
    assert lines == lines[..n] + lines[n..];
    UnlinesAppend(lines[..n], lines[n..]);
    Assoc(Unlines(lines[..n]), Unlines(lines[n..]), rest);
  }

  lemma ScanFrom(lines: seq<Bytes>, n: nat, rest: Bytes, limit: nat)
    requires LineFree(lines) && LF !in rest && 0 < limit && n <= |lines| && (n < |lines| ==> limit <= |lines[n]|)
    ensures var t := Tokens(Unlines(lines[n..]) + rest, limit);
            if n < |lines| || limit <= |rest| then t == Scan([], true)
            else t == Scan(if rest == [] then [] else [DropCR(rest)], false)
  {
    if n < |lines| {
      UnlinesHead(lines[n..], rest);
      LongLine(lines[n], Unlines(lines[n + 1..]) + rest, limit);
      assert lines[n..][1..] == lines[n + 1..];
    } else {
      assert Unlines(lines[n..]) + rest == rest;
      assert IndexByte(rest, LF) == -1;
    }
  }

  /** What is scanned, exactly: every line, without its CR, up to the first one too long for the buffer, at which the scan
      ends; and at last the fragment, unless that is too long. */
  lemma ScanExactly(s: Bytes, limit: nat)
    requires 0 < limit
    ensures var t := Tokens(s, limit);
            var n := FirstLong(Lines(s), limit);
            if n < |Lines(s)| || limit <= |Rest(s)| then t == Scan(DropCRs(Lines(s)[..n]), true)
            else t == Scan(DropCRs(Lines(s)) + DropCRs(Fragment(s)), false)
  {
    var lines, rest := Lines(s), Rest(s);
    var n := FirstLong(lines, limit);
    SplitJoins(s);
    SplitLineFree(s);
    var data := Unlines(lines[n..]) + rest;
    assert LineFree(lines[..n]);
    ScanFrom(lines, n, rest, limit);
    hide *;
    UnlinesFrom(lines, n, rest);
    TokensAfterLines(lines[..n], data, limit);
    Nothing(DropCRs(lines[..n]));
    assert lines[..|lines|] == lines;
  }

  function WithCR(lines: seq<Bytes>): seq<Bytes> {
    if lines == [] then [] else [lines[0] + [CR]] + WithCR(lines[1..])
  }

  lemma {:induction false} WithCRLines(lines: seq<Bytes>, limit: nat)
    requires LineFree(lines) && forall i | 0 <= i < |lines| :: |lines[i]| + 1 < limit
    ensures LineFree(WithCR(lines)) && Short(WithCR(lines), limit) && DropCRs(WithCR(lines)) == lines
  {
    if lines != [] {
      WithCRLines(lines[1..], limit);
      var line := lines[0] + [CR];
      assert WithCR(lines) == [line] + WithCR(lines[1..]);
      assert ([line] + WithCR(lines[1..]))[1..] == WithCR(lines[1..]);
      assert line[..|line| - 1] == lines[0];
    }
  }

  /** Lines that end in CR LF are scanned as those that end in LF. */
  lemma CRLFIsLF(lines: seq<Bytes>, limit: nat)
    requires LineFree(lines) && forall i | 0 <= i < |lines| :: |lines[i]| + 1 < limit
    ensures Tokens(Unlines(WithCR(lines)), limit) == Scan(lines, false)
  {
    WithCRLines(lines, limit);
    TokensAfterLines(WithCR(lines), [], limit);
    Nothing(Unlines(WithCR(lines)));
    Nothing(lines);
  }
}
