/** Facts about sequences that proofs elsewhere name one at a time. */
module Sequences {
  import opened Wrappers

  lemma Assoc<T>(a: seq<T>, b: seq<T>, c: seq<T>)
    ensures (a + b) + c == a + (b + c)
  {
  }

  lemma Nothing<T>(s: seq<T>)
    ensures s + [] == s
  {
  }

  lemma CutAt<T>(s: seq<T>, i: nat)
    requires i < |s|
    ensures s == s[..i] + [s[i]] + s[i + 1..]
  {
  }

  lemma CancelLeft<T>(a: seq<T>, x: seq<T>, y: seq<T>)
    ensures a + x == a + y <==> x == y
  {
    assert (a + x)[|a|..] == x && (a + y)[|a|..] == y;
  }

  lemma CancelRight<T>(x: seq<T>, y: seq<T>, b: seq<T>)
    ensures x + b == y + b <==> x == y
  {
    if x + b == y + b {
      assert |x| == |y| && (x + b)[..|x|] == x && (y + b)[..|y|] == y;
    }
  }

  ghost function Sum<T>(s: seq<T>, f: T -> nat): nat {
    if s == [] then 0 else Sum(s[..|s| - 1], f) + f(s[|s| - 1])
  }

  lemma {:induction false} SumUpdate<T>(s: seq<T>, f: T -> nat, i: nat, x: T)
    requires i < |s|
    ensures Sum(s[i := x], f) == Sum(s, f) + f(x) - f(s[i])
  {
    var n := |s| - 1;
    if i == n {
      assert s[i := x][..n] == s[..n];
    } else {
      SumUpdate(s[..n], f, i, x);
      assert s[i := x][..n] == s[..n][i := x];
    }
  }

  lemma SumSnoc<T>(s: seq<T>, f: T -> nat, x: T)
    ensures Sum(s + [x], f) == Sum(s, f) + f(x)
  {
    assert (s + [x])[..|s|] == s;
  }

  lemma {:induction false} SumZero<T>(s: seq<T>, f: T -> nat)
    ensures Sum(s, f) == 0 <==> forall i | 0 <= i < |s| :: f(s[i]) == 0
  {
    if s != [] {
      SumZero(s[..|s| - 1], f);
      assert forall i | 0 <= i < |s| - 1 :: s[..|s| - 1][i] == s[i];
    }
  }

  /** How many elements f maps to something. */
  ghost function Hits<T, E>(f: T -> Option<E>, s: seq<T>): nat {
    if s == [] then 0 else Hits(f, s[..|s| - 1]) + (if f(s[|s| - 1]).Some? then 1 else 0)
  }

  /** `out` is what f makes of the elements of s, each in its place: nothing is left out, added, changed or moved. */
  ghost predicate Picks<T, E>(f: T -> Option<E>, s: seq<T>, out: seq<E>) {
    && |out| == Hits(f, s)
    && forall k | 0 <= k < |s| && f(s[k]).Some? ::
         Hits(f, s[..k]) < |out| && out[Hits(f, s[..k])] == f(s[k]).value
  }

  lemma PicksSnoc<T, E>(f: T -> Option<E>, s: seq<T>, out: seq<E>, x: T)
    requires Picks(f, s, out)
    ensures Picks(f, s + [x], out + (if f(x).Some? then [f(x).value] else []))
  {
    var longer := s + [x];
    assert longer[..|s|] == s;
    forall k | 0 <= k < |s| ensures longer[k] == s[k] && longer[..k] == s[..k] {
    }
  }
}
