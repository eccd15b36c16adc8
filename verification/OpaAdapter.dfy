/** actions/opapolicy/adapter.go in its own form: the adapter's calls, against the server's policies. */
module OpaAdapters {
  import opened Wrappers
  import opened Signals
  import opened OpaPolicy
  import opened OpaProofs

  /** The errors that are there, in order; empty stands for nil. */
  method JoinErrs(errs: seq<Option<Error>>) returns (messages: seq<Error>)
    ensures messages == Somes(errs)
  {
    messages := [];
    for i := 0 to |errs|
      invariant messages == Somes(errs[..i])
    {
      assert errs[..i + 1][..i] == errs[..i];
      if errs[i].Some? {
        messages := messages + [errs[i].value];
      }
    }
    assert errs[..|errs|] == errs;
  }

  /** The policy is there before and after with the same text, or neither time. */
  ghost predicate SamePolicy(before: Store, after: Store, id: string) {
    (id in after <==> id in before) && (id in before ==> after[id] == before[id])
  }

  class OpaAdapter {
    const cfg: Config
    var store: Store  // the server's policies

    constructor (cfg: Config, store: Store)
      ensures this.cfg == cfg && this.store == store
    {
      this.cfg, this.store := cfg, store;
    }

    /** The part of a request that reaches the server, as `a` says; `put` carries a text, a deletion none. */
    method Request(id: string, put: Option<string>, a: Answer)
      modifies this
      ensures store == if !Applied(a) then old(store)
                       else if put.Some? then old(store)[id := put.value] else old(store) - {id}
    {
      if Applied(a) {
        store := if put.Some? then store[id := put.value] else store - {id};
      }
    }

    /** Puts the rendered text under the ID of source and state, and touches no other policy. An error does not mean that
        nothing was put: the answer may be what was lost. */
    method PutPolicy(signal: InboundSET, st: PolicyState, a: Answer) returns (err: Option<Error>)
      modifies this
      ensures var suffix := if st.Compromised? then "_compromised" else "_degraded";
              var id := IDOf(cfg, signal.sourceID, suffix);
              var text := Written(cfg, signal, if st.Compromised? then cfg.compromisedRego else cfg.degradedRego, suffix);
              && (forall other | other != id :: SamePolicy(old(store), store, other))
              && (text.Some? && Applied(a) ==> id in store && store[id] == text.value)
              && (!(text.Some? && Applied(a)) ==> store == old(store))
              && (err.None? <==> text.Some? && (a.Answered? || (a.Refused? && a.code < 400)))
              && (text.Some? && a.Refused? && a.code >= 400 ==> err == Some(Put(id, Status(a.code))))
      ensures (store, err) == OpaPolicy.PutPolicy(cfg, old(store), signal, st, a)
    {
      WhichTemplate(cfg, signal, signal.sourceID);
      hide IDOf, Written;
      var id := PolicyID(cfg.prefix, signal.sourceID, st);
      var reason := signal.reason;
      if reason == "" {
        if signal.payloadReason.Some? { reason := signal.payloadReason.value; }
      }
      var data := RegoData(id, PackageID(id), signal.sourceID, signal.eventType, reason);
      var text := cfg.render(Template(cfg, st), data);
      if text.None? { return Some(BadTemplate); }
      Request(id, text, a);
      if a.LostBefore? || a.LostAfter? { return Some(Put(id, Transport)); }
      if a.Refused? && a.code >= 400 { return Some(Put(id, Status(a.code))); }
      return None;
    }

    /** Deletes at most the policy named. */
    method DeletePolicy(id: string, a: Answer) returns (err: Option<Error>)
      modifies this
      ensures forall other | other != id :: SamePolicy(old(store), store, other)
      ensures if Applied(a) then id !in store else store == old(store)
      ensures err.None? <==> a.Answered? || (a.Refused? && (a.code < 400 || a.code == 404))
      ensures a.Refused? && a.code >= 400 && a.code != 404 ==> err == Some(Delete(id, Status(a.code)))
      ensures (store, err) == OpaPolicy.DeletePolicy(old(store), id, a)
    {
      Request(id, None, a);
      if a.LostBefore? || a.LostAfter? { return Some(Delete(id, Transport)); }
      if a == Refused(404) { return None; }
      if a.Refused? && a.code >= 400 { return Some(Delete(id, Status(a.code))); }
      return None;
    }

    /** Only the source's two policies can change. A compromise signal puts the one, a degraded signal the other; a
        recovery tries both deletions whatever the first one met; any other signal is an error. */
    method Act(s: Step) returns (errs: seq<Error>)
      modifies this
      ensures var first := IDOf(cfg, s.signal.sourceID, "_compromised");
              var second := IDOf(cfg, s.signal.sourceID, "_degraded");
              && (forall other | other != first && other != second :: SamePolicy(old(store), store, other))
              && (s.signal.eventType == COMPROMISED ==>
                    && SamePolicy(old(store), store, second)
                    && var text := Written(cfg, s.signal, cfg.compromisedRego, "_compromised");
                       if text.Some? && Applied(s.first) then first in store && store[first] == text.value
                       else store == old(store))
              && (s.signal.eventType == DEGRADED ==>
                    && SamePolicy(old(store), store, first)
                    && var text := Written(cfg, s.signal, cfg.degradedRego, "_degraded");
                       if text.Some? && Applied(s.first) then second in store && store[second] == text.value
                       else store == old(store))
              && (s.signal.eventType !in {COMPROMISED, DEGRADED, RECOVERED} ==> store == old(store) && errs != [])
              && (s.signal.eventType == RECOVERED ==>
                    && (first in store <==> first in old(store) && !Applied(s.first))
                    && (second in store <==> second in old(store) && !Applied(s.second))
                    && (errs == [] <==> && (Accepted(s.first) || s.first == Refused(404))
                                        && (Accepted(s.second) || s.second == Refused(404))))
      ensures (store, errs) == OpaPolicy.Act(cfg, old(store), s)
    {
      hide OpaPolicy.PutPolicy, OpaPolicy.DeletePolicy, PolicyID, Body, Somes, IDOf, Written;
      WhichTemplate(cfg, s.signal, s.signal.sourceID);
      EventTypesDiffer();
      var first := PolicyID(cfg.prefix, s.signal.sourceID, Compromised);
      var second := PolicyID(cfg.prefix, s.signal.sourceID, Degraded);
      PolicyIDInjective(cfg.prefix, s.signal.sourceID, Compromised, s.signal.sourceID, Degraded);
      if s.signal.eventType == COMPROMISED {
        var e := PutPolicy(s.signal, Compromised, s.first);
        errs := JoinErrs([e]);
      } else if s.signal.eventType == DEGRADED {
        var e := PutPolicy(s.signal, Degraded, s.first);
        errs := JoinErrs([e]);
      } else if s.signal.eventType == RECOVERED {
        ghost var before := store;
        var e1 := DeletePolicy(first, s.first);
        ghost var between := store;
        var e2 := DeletePolicy(second, s.second);
        assert SamePolicy(before, between, second) && SamePolicy(between, store, first);
        forall other | other != first && other != second ensures SamePolicy(before, store, other) {
          assert SamePolicy(before, between, other) && SamePolicy(between, store, other);
        }
        SomesTwo(e1, e2);
        SomesOne(e1);
        SomesOne(e2);
        errs := JoinErrs([e1, e2]);
      } else {
        errs := [UnhandledType(s.signal.eventType)];
      }
    }

    /** The sequence of signals the router hands over, however each request fares. */
    method ActAll(steps: seq<Step>)
      modifies this
      ensures store == Run(cfg, old(store), steps)
    {
      for i := 0 to |steps|
        invariant store == Run(cfg, old(store), steps[..i])
      {
        hide OpaPolicy.Act;
        assert steps[..i + 1][..i] == steps[..i];
        var _ := Act(steps[i]);
      }
      assert steps[..|steps|] == steps;
    }
  }
}
