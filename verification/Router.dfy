/** The inbound signal. Of its payload the adapters read only the key "reason", present or not. */
module Signals {
  import opened Wrappers

  datatype InboundSET = InboundSET(eventType: string, sourceID: string, correlationID: string, reason: string,
                                   payloadReason: Option<string>)

  const COMPROMISED := "https://schemas.openid.net/secevent/caep/event-type/source-compromised"
  const DEGRADED := "https://schemas.openid.net/secevent/caep/event-type/source-degraded"
  const RECOVERED := "https://schemas.openid.net/secevent/caep/event-type/source-recovered"

  lemma EventTypesDiffer()
    ensures COMPROMISED != DEGRADED && COMPROMISED != RECOVERED && DEGRADED != RECOVERED
  {
    assert |COMPROMISED| == |DEGRADED| + 3;
    assert DEGRADED[|DEGRADED| - 8] == 'd' && RECOVERED[|RECOVERED| - 8] == 'e';
  }
}

/** What routing is, on values: adapters by position in registration order, each with a state of its own. */
module Routing {
  import opened Wrappers
  import opened Sequences
  import opened Signals

  /** `act` takes the adapter's own state, which holds everything its outcome depends on, the answers its requests will
      get included, and gives the new state and an error, if any. */
  datatype Adapter<!S> = Adapter(name: string, types: seq<string>, act: (S, InboundSET) -> (S, Option<string>))

  function Count(types: seq<string>, t: string): nat {
    if types == [] then 0 else Count(types[..|types| - 1], t) + (if types[|types| - 1] == t then 1 else 0)
  }

  function Repeat(x: nat, n: nat): (r: seq<nat>)
    ensures |r| == n && forall k | 0 <= k < n :: r[k] == x
  {
    if n == 0 then [] else Repeat(x, n - 1) + [x]
  }

  ghost predicate Within(ids: seq<nat>, n: nat) {
    forall k | 0 <= k < |ids| :: ids[k] < n
  }

  /** The flat registration list for type t: each adapter as often as it declares t. */
  function Index<S>(table: seq<Adapter<S>>, t: string): (ids: seq<nat>)
    ensures Within(ids, |table|)
  {
    if table == [] then []
    else
      var n: nat := |table| - 1;
      Index(table[..n], t) + Repeat(n, Count(table[n].types, t))
  }

  /** The message of a failing call, as a list of none or one. */
  function Message(name: string, error: Option<string>): seq<string> {
    if error.Some? then [name + ": " + error.value] else []
  }

  /** One call. */
  function Called<S>(table: seq<Adapter<S>>, before: (seq<S>, seq<string>), i: nat, signal: InboundSET)
    : (r: (seq<S>, seq<string>))
    requires |before.0| == |table| && i < |table|
    ensures |r.0| == |table|
  {
    var after := table[i].act(before.0[i], signal);
    (before.0[i := after.0], before.1 + Message(table[i].name, after.1))
  }

  /** Calls the adapters listed, in order, whatever fails: the new states and the messages. */
  function Fan<S>(table: seq<Adapter<S>>, states: seq<S>, ids: seq<nat>, signal: InboundSET): (r: (seq<S>, seq<string>))
    requires |states| == |table| && Within(ids, |table|)
    ensures |r.0| == |table|
  {
    if ids == [] then (states, [])
    else
      var n := |ids| - 1;
      var before := Fan(table, states, ids[..n], signal);
      Called(table, before, ids[n], signal)
  }

  /** One adapter called n times with a signal, on its own. */
  function Times<S>(a: Adapter<S>, s: S, signal: InboundSET, n: nat): (S, seq<string>) {
    if n == 0 then (s, [])
    else
      var before := Times(a, s, signal, n - 1);
      var after := a.act(before.0, signal);
      (after.0, before.1 + Message(a.name, after.1))
  }

  /** The calls adapter i makes for a signal, on its own. */
  function OwnCalls<S>(table: seq<Adapter<S>>, states: seq<S>, signal: InboundSET, i: nat): (S, seq<string>)
    requires |states| == |table| && i < |table|
  {
    Times(table[i], states[i], signal, Count(table[i].types, signal.eventType))
  }

  /** Every adapter is where its own calls have left it. */
  ghost predicate AllAlone<S>(table: seq<Adapter<S>>, states: seq<S>, signal: InboundSET, after: seq<S>)
    requires |states| == |table|
  {
    |after| == |table| && forall i | 0 <= i < |table| :: after[i] == OwnCalls(table, states, signal, i).0
  }

  /** The messages of the first k adapters' own calls, adapter after adapter. */
  ghost function Messages<S>(table: seq<Adapter<S>>, states: seq<S>, signal: InboundSET, k: nat): seq<string>
    requires |states| == |table| && k <= |table|
  {
    if k == 0 then [] else Messages(table, states, signal, k - 1) + OwnCalls(table, states, signal, k - 1).1
  }

  lemma FanSnoc<S>(table: seq<Adapter<S>>, states: seq<S>, ids: seq<nat>, i: nat, signal: InboundSET)
    requires |states| == |table| && i < |table| && Within(ids, |table|)
    ensures Within(ids + [i], |table|)
    ensures Fan(table, states, ids + [i], signal) == Called(table, Fan(table, states, ids, signal), i, signal)
  {
    assert (ids + [i])[..|ids|] == ids;
  }

  /** What n calls of adapter i do to states and messages. */
  function CalledTimes<S>(table: seq<Adapter<S>>, before: (seq<S>, seq<string>), i: nat, n: nat, signal: InboundSET)
    : (r: (seq<S>, seq<string>))
    requires |before.0| == |table| && i < |table|
    ensures |r.0| == |table|
  {
    var own := Times(table[i], before.0[i], signal, n);
    (before.0[i := own.0], before.1 + own.1)
  }

  lemma CalledTimesSucc<S>(table: seq<Adapter<S>>, before: (seq<S>, seq<string>), i: nat, n: nat, signal: InboundSET)
    requires |before.0| == |table| && i < |table|
    ensures CalledTimes(table, before, i, 0, signal) == before
    ensures CalledTimes(table, before, i, n + 1, signal)
            == Called(table, CalledTimes(table, before, i, n, signal), i, signal)
  {
    var own := Times(table[i], before.0[i], signal, n);
    var after := table[i].act(own.0, signal);
    assert Times(table[i], before.0[i], signal, n + 1) == (after.0, own.1 + Message(table[i].name, after.1));
    assert Times(table[i], before.0[i], signal, 0) == (before.0[i], []);
    hide Times, Message;
    assert before.0[i := own.0][i := after.0] == before.0[i := after.0];
    assert before.0[i := before.0[i]] == before.0;
    assert before.1 + [] == before.1;
    Assoc(before.1, own.1, Message(table[i].name, after.1));
  }

  /** Calling one adapter n times more changes its own state only. */
  lemma {:induction false} FanRepeat<S>(table: seq<Adapter<S>>, states: seq<S>, ids: seq<nat>, i: nat, n: nat,
                                        signal: InboundSET)
    requires |states| == |table| && i < |table| && Within(ids, |table|)
    ensures Within(ids + Repeat(i, n), |table|)
    ensures Fan(table, states, ids + Repeat(i, n), signal)
            == CalledTimes(table, Fan(table, states, ids, signal), i, n, signal)
    decreases n
  {
    hide Fan, CalledTimes, Called;
    if n == 0 {
      assert ids + Repeat(i, 0) == ids;
      CalledTimesSucc(table, Fan(table, states, ids, signal), i, 0, signal);
    } else {
      FanRepeat(table, states, ids, i, n - 1, signal);
      Assoc(ids, Repeat(i, n - 1), [i]);
      FanSnoc(table, states, ids + Repeat(i, n - 1), i, signal);
      CalledTimesSucc(table, Fan(table, states, ids, signal), i, n - 1, signal);
    }
  }

  /** The first k adapters have made their own calls, the others none. */
  ghost predicate AloneUpTo<S>(table: seq<Adapter<S>>, states: seq<S>, signal: InboundSET, k: nat,
                               r: (seq<S>, seq<string>))
    requires |states| == |table| && k <= |table|
  {
    && |r.0| == |table|
    && (forall i | 0 <= i < k :: r.0[i] == OwnCalls(table, states, signal, i).0)
    && (forall i | k <= i < |table| :: r.0[i] == states[i])
    && r.1 == Messages(table, states, signal, k)
  }

  lemma AloneSucc<S>(table: seq<Adapter<S>>, states: seq<S>, signal: InboundSET, k: nat, r: (seq<S>, seq<string>))
    requires |states| == |table| && k < |table| && AloneUpTo(table, states, signal, k, r)
    ensures AloneUpTo(table, states, signal, k + 1,
                      CalledTimes(table, r, k, Count(table[k].types, signal.eventType), signal))
  {
    hide Times, Count;
  }

  lemma {:induction false} FanUpTo<S>(table: seq<Adapter<S>>, states: seq<S>, signal: InboundSET, k: nat)
    requires |states| == |table| && k <= |table|
    ensures Within(Index(table[..k], signal.eventType), |table|)
    ensures AloneUpTo(table, states, signal, k, Fan(table, states, Index(table[..k], signal.eventType), signal))
    decreases k
  {
    if k == 0 {
      assert Index(table[..0], signal.eventType) == [];
      assert Fan(table, states, [], signal) == (states, []);
    } else {
      var prefix := table[..k - 1];
      assert table[..k][..k - 1] == prefix && table[..k][k - 1] == table[k - 1];
      var n := Count(table[k - 1].types, signal.eventType);
      assert Index(table[..k], signal.eventType) == Index(prefix, signal.eventType) + Repeat(k - 1, n);
      hide Fan, Index, Repeat, AloneUpTo, CalledTimes, Count;
      FanUpTo(table, states, signal, k - 1);
      FanRepeat(table, states, Index(prefix, signal.eventType), k - 1, n, signal);
      AloneSucc(table, states, signal, k - 1, Fan(table, states, Index(prefix, signal.eventType), signal));
    }
  }

  /** Fan-out is non-interference: every adapter ends where its own calls alone would have left it, and the messages are
      those of the failing calls, in registration order. */
  lemma FanIsAlone<S>(table: seq<Adapter<S>>, states: seq<S>, signal: InboundSET)
    requires |states| == |table|
    ensures var r := Fan(table, states, Index(table, signal.eventType), signal);
            AllAlone(table, states, signal, r.0) && r.1 == Messages(table, states, signal, |table|)
  {
    hide Fan, Index, OwnCalls, Messages;
    FanUpTo(table, states, signal, |table|);
    assert table[..|table|] == table;
  }

  // ---------------------------------------------------------------- what an adapter's own calls are

  lemma {:induction false} CountIsMultiplicity(types: seq<string>, t: string)
    ensures Count(types, t) == multiset(types)[t]
  {
    if types != [] {
      CountIsMultiplicity(types[..|types| - 1], t);
      assert types == types[..|types| - 1] + [types[|types| - 1]];
    }
  }

  /** The adapter's state after n calls with the signal. */
  ghost function After<S>(a: Adapter<S>, s: S, signal: InboundSET, n: nat): S {
    if n == 0 then s else a.act(After(a, s, signal, n - 1), signal).0
  }

  /** The error of the call after j others, if it fails. */
  ghost function ErrorOf<S>(a: Adapter<S>, s: S, signal: InboundSET, j: nat): Option<string> {
    a.act(After(a, s, signal, j), signal).1
  }

  /** Every failing call complains once, as name, colon, space and error; no other does. */
  ghost predicate Complains<S>(a: Adapter<S>, s: S, signal: InboundSET, n: nat, messages: seq<string>) {
    && (forall j: nat | j < n && ErrorOf(a, s, signal, j).Some? ::
          a.name + ": " + ErrorOf(a, s, signal, j).value in messages)
    && (forall m | m in messages ::
          exists j: nat :: j < n && ErrorOf(a, s, signal, j).Some? && m == a.name + ": " + ErrorOf(a, s, signal, j).value)
    && (messages == [] <==> forall j: nat | j < n :: ErrorOf(a, s, signal, j).None?)
  }

  lemma ComplainsSucc<S>(a: Adapter<S>, s: S, signal: InboundSET, n: nat, messages: seq<string>)
    requires Complains(a, s, signal, n, messages)
    ensures var e := ErrorOf(a, s, signal, n);
            Complains(a, s, signal, n + 1, messages + if e.Some? then [a.name + ": " + e.value] else [])
  {
    hide ErrorOf;
    var e := ErrorOf(a, s, signal, n);
    var more := messages + if e.Some? then [a.name + ": " + e.value] else [];
    forall m | m in more
      ensures exists j: nat :: && j < n + 1 && ErrorOf(a, s, signal, j).Some?
                               && m == a.name + ": " + ErrorOf(a, s, signal, j).value
    {
      if m in messages {
        var j: nat :| j < n && ErrorOf(a, s, signal, j).Some? && m == a.name + ": " + ErrorOf(a, s, signal, j).value;
      } else {
        assert m == a.name + ": " + ErrorOf(a, s, signal, n).value;
      }
    }
  }

  /** An adapter's own calls take its state from one to the next and complain of exactly those that fail. */
  lemma {:induction false} TimesExactly<S>(a: Adapter<S>, s: S, signal: InboundSET, n: nat)
    ensures Times(a, s, signal, n).0 == After(a, s, signal, n)
    ensures Complains(a, s, signal, n, Times(a, s, signal, n).1)
  {
    if 0 < n {
      TimesExactly(a, s, signal, n - 1);
      ComplainsSucc(a, s, signal, n - 1, Times(a, s, signal, n - 1).1);
      hide Complains;
    }
  }

  /** Some call of adapter i for this signal fails. */
  ghost predicate SomeFails<S>(table: seq<Adapter<S>>, states: seq<S>, signal: InboundSET, i: nat)
    requires |states| == |table| && i < |table|
  {
    exists j: nat :: j < Count(table[i].types, signal.eventType) && ErrorOf(table[i], states[i], signal, j).Some?
  }

  lemma OwnFails<S>(table: seq<Adapter<S>>, states: seq<S>, signal: InboundSET, i: nat)
    requires |states| == |table| && i < |table|
    ensures OwnCalls(table, states, signal, i).1 == [] <==> !SomeFails(table, states, signal, i)
  {
    TimesExactly(table[i], states[i], signal, Count(table[i].types, signal.eventType));
    hide Times, ErrorOf, Count;
  }

  lemma AloneAfter<S>(table: seq<Adapter<S>>, states: seq<S>, signal: InboundSET, after: seq<S>)
    requires |states| == |table| && AllAlone(table, states, signal, after)
    ensures forall i | 0 <= i < |table| ::
              after[i] == After(table[i], states[i], signal, multiset(table[i].types)[signal.eventType])
  {
    hide Times, Count, After;
    forall i | 0 <= i < |table|
      ensures after[i] == After(table[i], states[i], signal, multiset(table[i].types)[signal.eventType])
    {
      TimesExactly(table[i], states[i], signal, Count(table[i].types, signal.eventType));
      CountIsMultiplicity(table[i].types, signal.eventType);
    }
  }

  /** There are no messages exactly if no call fails. */
  lemma {:induction false} NoMessages<S>(table: seq<Adapter<S>>, states: seq<S>, signal: InboundSET, k: nat)
    requires |states| == |table| && k <= |table|
    ensures Messages(table, states, signal, k) == [] <==> forall i | 0 <= i < k :: !SomeFails(table, states, signal, i)
    decreases k
  {
    if 0 < k {
      NoMessages(table, states, signal, k - 1);
      OwnFails(table, states, signal, k - 1);
      hide OwnCalls, SomeFails;
    }
  }

  // ---------------------------------------------------------------- runs of signals

  /** A run of signals through the router. */
  ghost function Run<S>(table: seq<Adapter<S>>, states: seq<S>, signals: seq<InboundSET>): (r: seq<S>)
    requires |states| == |table|
    ensures |r| == |table|
  {
    if signals == [] then states
    else
      var n := |signals| - 1;
      Fan(table, Run(table, states, signals[..n]), Index(table, signals[n].eventType), signals[n]).0
  }

  /** A run of one adapter by itself, on the signals of the types it declares. */
  ghost function Solo<S>(a: Adapter<S>, s: S, signals: seq<InboundSET>): S {
    if signals == [] then s
    else
      var n := |signals| - 1;
      Times(a, Solo(a, s, signals[..n]), signals[n], Count(a.types, signals[n].eventType)).0
  }

  /** Whatever the other adapters do and however they fail, each is in the state of its solo run. */
  lemma {:induction false} RunIsSolo<S>(table: seq<Adapter<S>>, states: seq<S>, signals: seq<InboundSET>, i: nat)
    requires |states| == |table| && i < |table|
    ensures Run(table, states, signals)[i] == Solo(table[i], states[i], signals)
    decreases |signals|
  {
    if signals != [] {
      var n := |signals| - 1;
      RunIsSolo(table, states, signals[..n], i);
      FanIsAlone(table, Run(table, states, signals[..n]), signals[n]);
      hide Fan, Times, Index, Count;
    }
  }

  ghost function Own<S>(a: Adapter<S>, signals: seq<InboundSET>): seq<InboundSET> {
    if signals == [] then []
    else
      var n := |signals| - 1;
      Own(a, signals[..n]) + (if signals[n].eventType in a.types then [signals[n]] else [])
  }

  lemma {:induction false} CountIsMembership(types: seq<string>, t: string)
    ensures 0 < Count(types, t) <==> t in types
  {
    if types != [] {
      var n := |types| - 1;
      CountIsMembership(types[..n], t);
      assert types == types[..n] + [types[n]];
    }
  }

  /** Signals of other types are nothing to an adapter. */
  lemma {:induction false} SoloIgnoresOthers<S>(a: Adapter<S>, s: S, signals: seq<InboundSET>)
    ensures Solo(a, s, signals) == Solo(a, s, Own(a, signals))
    decreases |signals|
  {
    if signals != [] {
      var n := |signals| - 1;
      SoloIgnoresOthers(a, s, signals[..n]);
      CountIsMembership(a.types, signals[n].eventType);
      var own := Own(a, signals[..n]);
      if signals[n].eventType in a.types {
        assert Own(a, signals) == own + [signals[n]];
        assert (own + [signals[n]])[..|own|] == own;
      } else {
        assert Own(a, signals) == own + [] == own;
      }
    }
  }

  /** Type t has a handler exactly when some registered adapter declares it. */
  lemma {:induction false} IndexedWhenDeclared<S>(table: seq<Adapter<S>>, t: string)
    ensures Index(table, t) != [] <==> exists i :: 0 <= i < |table| && t in table[i].types
  {
    if table != [] {
      var n := |table| - 1;
      IndexedWhenDeclared(table[..n], t);
      CountIsMembership(table[n].types, t);
      if t in table[n].types {
        assert t in table[n].types;
      } else if Index(table, t) != [] {
        var i :| 0 <= i < n && t in table[..n][i].types;
        assert t in table[i].types;
      } else {
        forall i | 0 <= i < |table| ensures t !in table[i].types {
          if i < n {
            assert table[..n][i] == table[i];
          }
        }
      }
    }
  }
}

/** relay/router.go and the sink loop of cmd/ssf-relay/main.go. */
module Router {
  import opened Wrappers
  import opened Sequences
  import opened Signals
  import opened Routing

  function Lookup(adapters: map<string, seq<nat>>, t: string): seq<nat> {
    if t in adapters then adapters[t] else []
  }

  ghost predicate AgreesWith<S(!new)>(adapters: map<string, seq<nat>>, table: seq<Adapter<S>>) {
    && (forall t :: Lookup(adapters, t) == Index(table, t))
    && (forall t :: t in adapters ==> adapters[t] != [])
  }

  /** The lists while adapter `id` has been entered under `types`. */
  ghost predicate Entering<S(!new)>(adapters: map<string, seq<nat>>, table: seq<Adapter<S>>, id: nat,
                                    types: seq<string>)
  {
    && (forall t :: Lookup(adapters, t) == Index(table, t) + Repeat(id, Count(types, t)))
    && (forall t :: t in adapters ==> adapters[t] != [])
  }

  lemma NoneEntered<S(!new)>(adapters: map<string, seq<nat>>, table: seq<Adapter<S>>, types: seq<string>)
    requires AgreesWith(adapters, table)
    ensures Entering(adapters, table, |table|, types[..0])
  {
    hide Index, Lookup;
    assert forall t :: Index(table, t) + Repeat(|table|, Count(types[..0], t)) == Index(table, t);
  }

  /** What appending the adapter under its j-th type does to the lists. */
  lemma OneMore(base: seq<nat>, id: nat, types: seq<string>, j: nat, t: string)
    requires j < |types|
    ensures base + Repeat(id, Count(types[..j + 1], t))
            == base + Repeat(id, Count(types[..j], t)) + (if types[j] == t then [id] else [])
  {
    assert types[..j + 1][..j] == types[..j];
    Assoc(base, Repeat(id, Count(types[..j], t)), if types[j] == t then [id] else []);
  }

  lemma OneEntered<S(!new)>(adapters: map<string, seq<nat>>, table: seq<Adapter<S>>, id: nat, types: seq<string>,
                            j: nat)
    requires j < |types| && Entering(adapters, table, id, types[..j])
    ensures Entering(adapters[types[j] := Lookup(adapters, types[j]) + [id]], table, id, types[..j + 1])
  {
    hide Index, Repeat, Count;
    var after := adapters[types[j] := Lookup(adapters, types[j]) + [id]];
    forall t ensures Lookup(after, t) == Index(table, t) + Repeat(id, Count(types[..j + 1], t)) {
      OneMore(Index(table, t), id, types, j, t);
    }
  }

  lemma IndexSnoc<S>(table: seq<Adapter<S>>, a: Adapter<S>, t: string)
    ensures Index(table + [a], t) == Index(table, t) + Repeat(|table|, Count(a.types, t))
  {
    assert (table + [a])[..|table|] == table;
  }

  lemma AllEntered<S(!new)>(adapters: map<string, seq<nat>>, table: seq<Adapter<S>>, a: Adapter<S>)
    requires Entering(adapters, table, |table|, a.types)
    ensures AgreesWith(adapters, table + [a])
  {
    hide Index, Repeat, Count, Lookup;
    forall t ensures Lookup(adapters, t) == Index(table + [a], t) {
      IndexSnoc(table, a, t);
    }
  }

  lemma NoCalls<S>(table: seq<Adapter<S>>, states: seq<S>, ids: seq<nat>, signal: InboundSET)
    requires |states| == |table|
    ensures ids[..0] == [] && Within(ids[..0], |table|) && Fan(table, states, ids[..0], signal) == (states, [])
  {
  }

  class Router<S(!new)> {
    var adapters: map<string, seq<nat>>  // event type URI to adapters, by position in `table`
    var table: seq<Adapter<S>>           // every adapter ever registered, in order
    var states: seq<S>                   // their states

    constructor ()
      ensures Valid() && table == [] && states == []
    {
      adapters, table, states := map[], [], [];
    }

    function Handlers(t: string): seq<nat>
      reads this`adapters
    {
      Lookup(adapters, t)
    }

    /** The index agrees with the flat list of registrations. */
    ghost predicate Valid()
      reads this
    {
      && |states| == |table|
      && AgreesWith(adapters, table)
    }

    method Register(a: Adapter<S>, state: S)
      requires Valid()
      modifies this
      ensures Valid() && table == old(table) + [a] && states == old(states) + [state]
    {
      var id: nat := |table|;
      hide AgreesWith, Entering;
      NoneEntered(adapters, table, a.types);
      for j := 0 to |a.types|
        invariant table == old(table) && states == old(states)
        invariant Entering(adapters, table, id, a.types[..j])
      {
        var et := a.types[j];
        OneEntered(adapters, table, id, a.types, j);
        adapters := adapters[et := Handlers(et) + [id]];
      }
      assert a.types[..|a.types|] == a.types;
      AllEntered(adapters, table, a);
      table := table + [a];
      states := states + [state];
    }

    /** Calls every adapter of the signal's type in registration order; nil when none errs, otherwise all messages. */
    method Handle(signal: InboundSET) returns (error: Option<seq<string>>)
      requires Valid()
      modifies this`states
      ensures Valid() && AllAlone(table, old(states), signal, states)
      ensures var messages := Messages(table, old(states), signal, |table|);
              error == if messages == [] then None else Some(messages)
      ensures error.None? <==> forall i | 0 <= i < |table| :: !SomeFails(table, old(states), signal, i)
      ensures forall i | 0 <= i < |table| ::
                states[i] == After(table[i], old(states[i]), signal, multiset(table[i].types)[signal.eventType])
    {
      hide Fan, Index, Messages, AllAlone, Message;
      FanIsAlone(table, states, signal);
      var ids := Handlers(signal.eventType);
      var errs: seq<string> := [];
      ghost var was := states;
      NoCalls(table, was, ids, signal);
      for k := 0 to |ids|
        invariant |states| == |table| && Within(ids[..k], |table|)
        invariant Fan(table, was, ids[..k], signal) == (states, errs)
      {
        var i := ids[k];
        FanSnoc(table, was, ids[..k], i, signal);
        assert ids[..k + 1] == ids[..k] + [i];
        var (state, err) := table[i].act(states[i], signal);
        states := states[i := state];
        errs := errs + Message(table[i].name, err);
      }
      assert ids[..|ids|] == ids;
      error := if |errs| > 0 then Some(errs) else None;
      NoMessages(table, was, signal, |table|);
      AloneAfter(table, was, signal, states);
    }

    /** The types with a registered adapter, each once, in the arbitrary order of the map. */
    method EventTypes() returns (out: seq<string>)
      requires Valid()
      ensures forall t :: t in out <==> Index(table, t) != []
      ensures forall i, j | 0 <= i < j < |out| :: out[i] != out[j]
    {
      out := [];
      var keys := adapters.Keys;
      while keys != {}
        invariant keys <= adapters.Keys
        invariant forall t :: t in out <==> t in adapters.Keys - keys
        invariant forall i, j | 0 <= i < j < |out| :: out[i] != out[j]
        decreases |keys|
      {
        var et :| et in keys;
        assert et !in out;
        out := out + [et];
        keys := keys - {et};
      }
      forall t ensures t in out <==> Index(table, t) != [] {
        assert Handlers(t) == Index(table, t);
      }
    }
  }

  // ---------------------------------------------------------------- the sink loop

  datatype Sink = Sink(action: string, config: map<string, string>)

  function Actions(sinks: seq<Sink>): set<string> {
    set k | 0 <= k < |sinks| :: sinks[k].action
  }

  /** The sinks that are the first with their action. */
  function Firsts(sinks: seq<Sink>): seq<Sink> {
    if sinks == [] then []
    else
      var n := |sinks| - 1;
      Firsts(sinks[..n]) + (if sinks[n].action in Actions(sinks[..n]) then [] else [sinks[n]])
  }

  /** Where an action first occurs. */
  function FirstAt(sinks: seq<Sink>, action: string): (k: nat)
    requires action in Actions(sinks)
    ensures k < |sinks| && sinks[k].action == action
    ensures forall j | 0 <= j < k :: sinks[j].action != action
  {
    var n := |sinks| - 1;
    if action in Actions(sinks[..n]) then FirstAt(sinks[..n], action) else n
  }

  lemma {:induction false} FirstAtPrefix(sinks: seq<Sink>, sink: Sink, action: string)
    requires action in Actions(sinks)
    ensures action in Actions(sinks + [sink]) && FirstAt(sinks + [sink], action) == FirstAt(sinks, action)
  {
    assert (sinks + [sink])[..|sinks|] == sinks;
    assert (sinks + [sink])[FirstAt(sinks, action)].action == action;
  }

  lemma NewAction(sinks: seq<Sink>, i: nat)
    requires i < |sinks|
    ensures Actions(sinks[..i + 1]) == Actions(sinks[..i]) + {sinks[i].action}
  {
    assert sinks[..i + 1] == sinks[..i] + [sinks[i]];
    assert forall k | 0 <= k < i :: sinks[..i + 1][k] == sinks[..i][k];
    assert sinks[..i + 1][i] == sinks[i];
  }

  lemma {:induction false} FirstsKeepActions(sinks: seq<Sink>)
    ensures Actions(Firsts(sinks)) == Actions(sinks)
  {
    if sinks != [] {
      var n := |sinks| - 1;
      FirstsKeepActions(sinks[..n]);
      var firsts := Firsts(sinks[..n]);
      NewAction(sinks, n);
      assert sinks[..n + 1] == sinks;
      if sinks[n].action !in Actions(sinks[..n]) {
        var longer := firsts + [sinks[n]];
        NewAction(longer, |firsts|);
        assert longer[..|firsts|] == firsts && longer[..|firsts| + 1] == longer;
        assert Firsts(sinks) == longer;
      } else {
        assert Firsts(sinks) == firsts + [] == firsts;
      }
    }
  }

  ghost predicate InFirstOrder(sinks: seq<Sink>, firsts: seq<Sink>) {
    && (forall i | 0 <= i < |firsts| ::
          firsts[i].action in Actions(sinks) && firsts[i] == sinks[FirstAt(sinks, firsts[i].action)])
    && (forall i, j | 0 <= i < j < |firsts| ::
          FirstAt(sinks, firsts[i].action) < FirstAt(sinks, firsts[j].action))
  }

  lemma OrderKept(front: seq<Sink>, last: Sink, firsts: seq<Sink>)
    requires InFirstOrder(front, firsts)
    ensures InFirstOrder(front + [last], firsts)
  {
    forall i | 0 <= i < |firsts|
      ensures firsts[i].action in Actions(front + [last])
      ensures FirstAt(front + [last], firsts[i].action) == FirstAt(front, firsts[i].action)
    {
      FirstAtPrefix(front, last, firsts[i].action);
    }
    hide Actions;
  }

  lemma OrderGrows(front: seq<Sink>, last: Sink, firsts: seq<Sink>)
    requires InFirstOrder(front + [last], firsts) && last.action !in Actions(front)
    requires forall i | 0 <= i < |firsts| :: firsts[i].action in Actions(front)
    ensures InFirstOrder(front + [last], firsts + [last])
  {
    var sinks, n := front + [last], |front|;
    assert sinks[n] == last && last.action in Actions(sinks);
    assert FirstAt(sinks, last.action) == n by {
      assert forall j | 0 <= j < n :: sinks[j] == front[j] && front[j].action in Actions(front);
    }
    forall i | 0 <= i < |firsts| ensures FirstAt(sinks, firsts[i].action) < n {
      FirstAtPrefix(front, last, firsts[i].action);
    }
    hide Actions, FirstAt;
    var longer := firsts + [last];
    assert forall i | 0 <= i < |firsts| :: longer[i] == firsts[i];
  }

  /** `Firsts` lists each distinct action once, by its first sink, in the order of first occurrence. */
  lemma {:induction false} FirstsAreFirst(sinks: seq<Sink>)
    ensures InFirstOrder(sinks, Firsts(sinks)) && Actions(Firsts(sinks)) == Actions(sinks)
  {
    FirstsKeepActions(sinks);
    if sinks != [] {
      var n := |sinks| - 1;
      var front, last := sinks[..n], sinks[n];
      var firsts := Firsts(front);
      FirstsAreFirst(front);
      assert sinks == front + [last];
      OrderKept(front, last, firsts);
      if last.action !in Actions(front) {
        assert forall i | 0 <= i < |firsts| :: firsts[i].action in Actions(front);
        OrderGrows(front, last, firsts);
        assert Firsts(sinks) == firsts + [last];
      } else {
        assert Firsts(sinks) == firsts + [] == firsts;
      }
      hide Firsts, Actions, InFirstOrder;
    }
  }

  ghost predicate AllBuild<S>(build: Sink -> Option<(Adapter<S>, S)>, sinks: seq<Sink>) {
    forall k | 0 <= k < |sinks| :: build(sinks[k]).Some?
  }

  function Built<S>(build: Sink -> Option<(Adapter<S>, S)>, sinks: seq<Sink>): seq<(Adapter<S>, S)> {
    if sinks == [] then []
    else
      var b := build(sinks[|sinks| - 1]);
      Built(build, sinks[..|sinks| - 1]) + (if b.Some? then [b.value] else [])
  }

  ghost predicate Holds<S>(table: seq<Adapter<S>>, states: seq<S>, built: seq<(Adapter<S>, S)>) {
    |table| == |states| == |built| && forall i | 0 <= i < |built| :: built[i] == (table[i], states[i])
  }

  /** What the loop has done for the sinks it has seen. */
  ghost predicate SoFar<S>(build: Sink -> Option<(Adapter<S>, S)>, sinks: seq<Sink>, seen: set<string>,
                           table: seq<Adapter<S>>, states: seq<S>)
  {
    seen == Actions(sinks) && AllBuild(build, Firsts(sinks)) && Holds(table, states, Built(build, Firsts(sinks)))
  }

  lemma FirstsStep(sinks: seq<Sink>, i: nat)
    requires i < |sinks|
    ensures Firsts(sinks[..i + 1])
            == if sinks[i].action in Actions(sinks[..i]) then Firsts(sinks[..i]) else Firsts(sinks[..i]) + [sinks[i]]
  {
    assert sinks[..i + 1][..i] == sinks[..i];
  }

  lemma SoFarSkip<S>(build: Sink -> Option<(Adapter<S>, S)>, sinks: seq<Sink>, i: nat, seen: set<string>,
                     table: seq<Adapter<S>>, states: seq<S>)
    requires i < |sinks| && SoFar(build, sinks[..i], seen, table, states) && sinks[i].action in seen
    ensures SoFar(build, sinks[..i + 1], seen, table, states)
  {
    hide Firsts, Built, AllBuild, Holds, Actions;
    NewAction(sinks, i);
    FirstsStep(sinks, i);
  }

  lemma HoldsSnoc<S>(table: seq<Adapter<S>>, states: seq<S>, built: seq<(Adapter<S>, S)>, b: (Adapter<S>, S))
    requires Holds(table, states, built)
    ensures Holds(table + [b.0], states + [b.1], built + [b])
  {
  }

  lemma BuiltSnoc<S>(build: Sink -> Option<(Adapter<S>, S)>, sinks: seq<Sink>, sink: Sink)
    ensures AllBuild(build, sinks + [sink]) <==> AllBuild(build, sinks) && build(sink).Some?
    ensures build(sink).Some? ==> Built(build, sinks + [sink]) == Built(build, sinks) + [build(sink).value]
  {
    var longer := sinks + [sink];
    assert longer[..|sinks|] == sinks && longer[|sinks|] == sink;
    assert forall k | 0 <= k < |sinks| :: longer[k] == sinks[k];
  }

  lemma SoFarAdd<S>(build: Sink -> Option<(Adapter<S>, S)>, sinks: seq<Sink>, i: nat, seen: set<string>,
                    table: seq<Adapter<S>>, states: seq<S>)
    requires i < |sinks| && SoFar(build, sinks[..i], seen, table, states) && sinks[i].action !in seen
    requires build(sinks[i]).Some?
    ensures var b := build(sinks[i]).value;
            SoFar(build, sinks[..i + 1], seen + {sinks[i].action}, table + [b.0], states + [b.1])
  {
    hide Firsts, Built, AllBuild, Holds, Actions;
    NewAction(sinks, i);
    FirstsStep(sinks, i);
    BuiltSnoc(build, Firsts(sinks[..i]), sinks[i]);
    HoldsSnoc(table, states, Built(build, Firsts(sinks[..i])), build(sinks[i]).value);
  }

  lemma Fatal<S>(build: Sink -> Option<(Adapter<S>, S)>, sinks: seq<Sink>, sink: Sink, all: seq<Sink>)
    requires sinks + [sink] <= all && build(sink).None?
    ensures !AllBuild(build, all)
  {
    assert all[|sinks|] == sink;
  }

  lemma {:induction false} FirstsGrow(sinks: seq<Sink>, i: nat)
    requires i <= |sinks|
    ensures Firsts(sinks[..i]) <= Firsts(sinks)
    decreases |sinks|
  {
    if i == |sinks| {
      assert sinks[..i] == sinks;
    } else {
      var front := sinks[..|sinks| - 1];
      FirstsGrow(front, i);
      assert front[..i] == sinks[..i];
    }
  }

  lemma SoFarFatal<S>(build: Sink -> Option<(Adapter<S>, S)>, sinks: seq<Sink>, i: nat, seen: set<string>,
                      table: seq<Adapter<S>>, states: seq<S>)
    requires i < |sinks| && SoFar(build, sinks[..i], seen, table, states) && sinks[i].action !in seen
    requires build(sinks[i]).None?
    ensures !AllBuild(build, Firsts(sinks))
  {
    hide Firsts, Built, AllBuild, Holds, Actions;
    FirstsStep(sinks, i);
    FirstsGrow(sinks, i + 1);
    Fatal(build, Firsts(sinks[..i]), sinks[i], Firsts(sinks));
  }

  lemma SoFarAll<S>(build: Sink -> Option<(Adapter<S>, S)>, sinks: seq<Sink>, seen: set<string>,
                    table: seq<Adapter<S>>, states: seq<S>)
    requires SoFar(build, sinks, seen, table, states)
    ensures AllBuild(build, Firsts(sinks)) && Holds(table, states, Built(build, Firsts(sinks)))
  {
  }

  lemma NoSinks<S>(build: Sink -> Option<(Adapter<S>, S)>, sinks: seq<Sink>, table: seq<Adapter<S>>, states: seq<S>)
    requires table == [] && states == []
    ensures SoFar(build, sinks[..0], {}, table, states)
  {
  }

  /** The loop over the configured sinks: one adapter for each action, from its first sink; a failed build is fatal. */
  method RegisterSinks<S(!new)>(router: Router<S>, build: Sink -> Option<(Adapter<S>, S)>, sinks: seq<Sink>)
    returns (fatal: bool)
    requires router.Valid() && router.table == []
    modifies router
    ensures router.Valid()
    ensures fatal <==> !AllBuild(build, Firsts(sinks))
    ensures !fatal ==> Holds(router.table, router.states, Built(build, Firsts(sinks)))
  {
    var seen: map<string, bool> := map[];
    NoSinks(build, sinks, router.table, router.states);
    hide Firsts, Built, AllBuild, Router<S>.Valid, Holds, Actions, SoFar;
    for i := 0 to |sinks|
      invariant router.Valid() && SoFar(build, sinks[..i], seen.Keys, router.table, router.states)
    {
      var sink := sinks[i];
      if sink.action in seen {
        SoFarSkip(build, sinks, i, seen.Keys, router.table, router.states);
        continue;
      }
      ghost var before := seen.Keys;
      seen := seen[sink.action := true];
      var adapter := build(sink);
      if adapter.None? {
        SoFarFatal(build, sinks, i, before, router.table, router.states);
        return true;
      }
      SoFarAdd(build, sinks, i, before, router.table, router.states);
      router.Register(adapter.value.0, adapter.value.1);
    }
    assert sinks[..|sinks|] == sinks;
    SoFarAll(build, sinks, seen.Keys, router.table, router.states);
    return false;
  }

  /** Each of them contributes one adapter, the one built from it. */
  lemma {:induction false} OneAdapterEach<S>(build: Sink -> Option<(Adapter<S>, S)>, sinks: seq<Sink>)
    requires AllBuild(build, sinks)
    ensures |Built(build, sinks)| == |sinks|
    ensures forall i | 0 <= i < |sinks| :: Built(build, sinks)[i] == build(sinks[i]).value
  {
    if sinks != [] {
      OneAdapterEach(build, sinks[..|sinks| - 1]);
    }
  }
}
