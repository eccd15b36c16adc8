/** The scanner as an object: a buffer filled by reads of arbitrary sizes, and a Scan method that yields the tokens of
    the whole stream one by one. */
module LineScanners {
  import opened Sequences
  import opened Framing
  import opened Scanner

  function Flatten(chunks: seq<Bytes>): Bytes {
    if chunks == [] then [] else chunks[0] + Flatten(chunks[1..])
  }

  lemma TooLongStays(data: Bytes, more: Bytes, limit: nat)
    requires 0 < limit <= |data| && !(0 <= IndexByte(data, LF) < limit)
    ensures Tokens(data + more, limit) == Scan([], data != [])
  {
    var i, j := IndexByte(data, LF), IndexByte(data + more, LF);
    assert !(0 <= j < limit) by {
      forall k | 0 <= k < limit ensures (data + more)[k] != LF {
        assert data[k] in if 0 <= i then data[..i] else data;
      }
    }
  }

  /** What Scan1 finds in the buffer is what the whole stream holds next. */
  lemma Scan1IsNext(data: Bytes, more: Bytes, ended: bool, limit: nat)
    requires (ended ==> more == []) && 0 < limit
    requires !Scan1(data, ended, limit).NeedRead?
    ensures var r := Scan1(data, ended, limit);
            && (r.Token? ==> Tokens(data + more, limit).tokens == [r.token] + Tokens(r.rest + more, limit).tokens)
            && (r.Token? ==> Tokens(data + more, limit).tooLong == Tokens(r.rest + more, limit).tooLong)
            && (r.Stop? ==> Tokens(data + more, limit) == Scan([], data != []))
  {
    var i := IndexByte(data, LF);
    if 0 <= i < limit {
      assert Scan1(data, ended, limit) == Token(DropCR(data[..i]), data[i + 1..]);
      hide Tokens, IndexByte, Scan1, DropCR;
      TokensCons(data[..i], data[i + 1..] + more, limit);
      CutAt(data, i);
      Assoc(data[..i] + [LF], data[i + 1..], more);
    } else if limit <= |data| {
      TooLongStays(data, more, limit);
    } else {
      Nothing(data);
    }
  }

  class LineScanner {
    const limit: nat
    var data: Bytes
    var chunks: seq<Bytes>  // what the coming reads return, before one fails
    ghost var left: seq<Bytes>  // the tokens still to come
    ghost var overlong: bool  // whether a line too long will end the scan

    /** The tokens to come are those of the buffered and unread bytes, whatever the sizes of the reads. */
    ghost predicate Valid()
      reads this
    {
      0 < limit && Scanner.Scan(left, overlong) == Tokens(data + Flatten(chunks), limit)
    }

    constructor (chunks: seq<Bytes>, limit: nat)
      requires 0 < limit
      ensures Valid() && Scanner.Scan(left, overlong) == Tokens(Flatten(chunks), limit)
    {
      this.data, this.chunks, this.limit := [], chunks, limit;
      this.left := Tokens(Flatten(chunks), limit).tokens;
      this.overlong := Tokens(Flatten(chunks), limit).tooLong;
      new;
      assert [] + Flatten(chunks) == Flatten(chunks);
    }

    /** Reads until the buffer holds a token or none can come. */
    method Fill()
      requires Valid()
      modifies this`data, this`chunks
      ensures Valid() && !Scan1(data, chunks == [], limit).NeedRead?
    {
      hide Tokens, IndexByte, Scan1;
      while chunks != [] && Scan1(data, false, limit).NeedRead?
        invariant Valid()
        decreases |chunks|
      {
        Assoc(data, chunks[0], Flatten(chunks[1..]));
        data, chunks := data + chunks[0], chunks[1..];
      }
    }

    /** Yields the next token; false once there is none. */
    method Scan() returns (ok: bool, token: Bytes)
      requires Valid()
      modifies this`data, this`chunks, this`left
      ensures Valid()
      ensures ok ==> old(left) == [token] + left
      ensures !ok ==> old(left) == left == [] && Scan1(data, chunks == [], limit).Stop?
    {
      Fill();
      Scan1IsNext(data, Flatten(chunks), chunks == [], limit);
      var next := Scan1(data, chunks == [], limit);
      if next.Token? {
        assert left == [next.token] + Tokens(next.rest + Flatten(chunks), limit).tokens;
        data, left := next.rest, Tokens(next.rest + Flatten(chunks), limit).tokens;
        return true, next.token;
      } else {
        return false, [];
      }
    }

    /** After the last token: whether a line too long for the buffer ended the scan. */
    method TooLong() returns (b: bool)
      requires Valid() && Scan1(data, chunks == [], limit).Stop?
      ensures b == overlong
    {
      Scan1IsNext(data, Flatten(chunks), chunks == [], limit);
      b := data != [];
    }
  }
}
