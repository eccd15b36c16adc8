/** actions/opapolicy/adapter.go: policies put into and deleted from an OPA server, on values. */
module OpaPolicy {
  import opened Wrappers
  import opened Signals

  // ---------------------------------------------------------------- identifiers

  predicate IsSafe(c: char) {
    'a' <= c <= 'z' || 'A' <= c <= 'Z' || '0' <= c <= '9' || c == '_'
  }

  /** Every character outside [a-zA-Z0-9_] becomes an underscore. */
  function Sanitize(s: string): (r: string)
    ensures |r| == |s| && forall i | 0 <= i < |s| :: r[i] == if IsSafe(s[i]) then s[i] else '_'
    ensures forall i | 0 <= i < |s| ::
              'a' <= r[i] <= 'z' || 'A' <= r[i] <= 'Z' || '0' <= r[i] <= '9' || r[i] == '_'
    ensures forall i | 0 <= i < |s| && ('a' <= s[i] <= 'z' || 'A' <= s[i] <= 'Z' || '0' <= s[i] <= '9') :: r[i] == s[i]
  {
    if s == "" then "" else [if IsSafe(s[0]) then s[0] else '_'] + Sanitize(s[1..])
  }

  datatype PolicyState = Compromised | Degraded

  function StateName(st: PolicyState): string {
    match st case Compromised => "compromised" case Degraded => "degraded"
  }

  function PolicyID(prefix: string, sourceID: string, st: PolicyState): string {
    prefix + "_" + Sanitize(sourceID) + "_" + StateName(st)
  }

  function PackageID(id: string): string {
    Sanitize(id)
  }

  // ---------------------------------------------------------------- requests

  /** How a request fares: carried out and answered; refused by a status of 400 or more; lost before it takes effect; or
      carried out, but the answer is lost. */
  datatype Answer = Answered | Refused(code: nat) | LostBefore | LostAfter

  predicate Applied(a: Answer) {
    a.Answered? || a.LostAfter?
  }

  /** The answers the adapter takes for success. */
  predicate Accepted(a: Answer) {
    a.Answered? || (a.Refused? && a.code < 400)
  }

  datatype Failure = Transport | Status(code: nat)

  datatype Error = UnhandledType(eventType: string) | BadTemplate | Put(id: string, why: Failure)
                 | Delete(id: string, why: Failure)

  datatype RegoData = RegoData(policyID: string, packageID: string, sourceID: string, eventType: string,
                               reason: string)

  /** `render` is the text template engine: None if a template does not parse or render. */
  datatype Config = Config(prefix: string, compromisedRego: string, degradedRego: string,
                           render: (string, RegoData) -> Option<string>)

  type Store = map<string, string>

  function Template(cfg: Config, st: PolicyState): string {
    match st case Compromised => cfg.compromisedRego case Degraded => cfg.degradedRego
  }

  function DataOf(cfg: Config, signal: InboundSET, st: PolicyState): RegoData {
    var id := PolicyID(cfg.prefix, signal.sourceID, st);
    var reason := if signal.reason == "" && signal.payloadReason.Some? then signal.payloadReason.value else signal.reason;
    RegoData(id, PackageID(id), signal.sourceID, signal.eventType, reason)
  }

  /** The policy text a signal asks for. */
  function Body(cfg: Config, signal: InboundSET, st: PolicyState): Option<string> {
    cfg.render(Template(cfg, st), DataOf(cfg, signal, st))
  }

  function PutPolicy(cfg: Config, store: Store, signal: InboundSET, st: PolicyState, a: Answer)
    : (Store, Option<Error>)
  {
    var id := PolicyID(cfg.prefix, signal.sourceID, st);
    var body := Body(cfg, signal, st);
    if body.None? then (store, Some(BadTemplate))
    else (if Applied(a) then store[id := body.value] else store,
          match a
          case Answered => None
          case Refused(code) => if code >= 400 then Some(Put(id, Status(code))) else None
          case _ => Some(Put(id, Transport)))
  }

  /** Deleting what is not there is answered by a 404, which counts as success, whoever sends it. */
  function DeletePolicy(store: Store, id: string, a: Answer): (Store, Option<Error>) {
    (if Applied(a) then store - {id} else store,
     match a
     case Answered => None
     case Refused(code) => if code >= 400 && code != 404 then Some(Delete(id, Status(code))) else None
     case _ => Some(Delete(id, Transport)))
  }

  function Somes<T>(xs: seq<Option<T>>): seq<T> {
    if xs == [] then []
    else Somes(xs[..|xs| - 1]) + (if xs[|xs| - 1].Some? then [xs[|xs| - 1].value] else [])
  }

  /** One signal and the answers to the one or two requests it leads to. */
  datatype Step = Step(signal: InboundSET, first: Answer, second: Answer)

  function Act(cfg: Config, store: Store, s: Step): (Store, seq<Error>) {
    if s.signal.eventType == COMPROMISED then
      var r := PutPolicy(cfg, store, s.signal, Compromised, s.first);
      (r.0, Somes([r.1]))
    else if s.signal.eventType == DEGRADED then
      var r := PutPolicy(cfg, store, s.signal, Degraded, s.first);
      (r.0, Somes([r.1]))
    else if s.signal.eventType == RECOVERED then
      var r1 := DeletePolicy(store, PolicyID(cfg.prefix, s.signal.sourceID, Compromised), s.first);
      var r2 := DeletePolicy(r1.0, PolicyID(cfg.prefix, s.signal.sourceID, Degraded), s.second);
      (r2.0, Somes([r1.1, r2.1]))
    else (store, [UnhandledType(s.signal.eventType)])
  }

  function Run(cfg: Config, store: Store, steps: seq<Step>): Store {
    if steps == [] then store
    else Act(cfg, Run(cfg, store, steps[..|steps| - 1]), steps[|steps| - 1]).0
  }
}

/** What any run of signals leaves on the server. */
module OpaProofs {
  import opened Wrappers
  import opened Sequences
  import opened Signals
  import opened OpaPolicy

  // ---------------------------------------------------------------- identifiers

  lemma ThirdLast(x: string, n: string)
    requires 3 <= |n|
    ensures (x + n)[|x + n| - 3] == n[|n| - 3]
  {
  }

  lemma StatesDiffer(x: string, y: string, st: PolicyState, su: PolicyState)
    ensures x + StateName(st) == y + StateName(su) <==> x == y && st == su
  {
    if st == su {
      CancelRight(x, y, StateName(st));
    } else {
      ThirdLast(x, StateName(st));
      ThirdLast(y, StateName(su));
    }
  }

  lemma SchemeInjective(p: string, a: string, st: PolicyState, b: string, su: PolicyState)
    ensures p + "_" + a + "_" + StateName(st) == p + "_" + b + "_" + StateName(su) <==> a == b && st == su
  {
    hide *;
    StatesDiffer(p + "_" + a + "_", p + "_" + b + "_", st, su);
    CancelRight(p + "_" + a, p + "_" + b, "_");
    CancelLeft(p + "_", a, b);
  }

  /** A policy ID tells source and state apart, up to sanitising. */
  lemma PolicyIDInjective(prefix: string, s: string, st: PolicyState, t: string, su: PolicyState)
    ensures PolicyID(prefix, s, st) == PolicyID(prefix, t, su) <==> Sanitize(s) == Sanitize(t) && st == su
  {
    SchemeInjective(prefix, Sanitize(s), st, Sanitize(t), su);
  }

  lemma {:induction false} SanitizeAppend(a: string, b: string)
    ensures Sanitize(a + b) == Sanitize(a) + Sanitize(b)
  {
    if a == "" {
      assert a + b == b;
    } else {
      assert (a + b)[1..] == a[1..] + b;
      SanitizeAppend(a[1..], b);
    }
  }

  lemma SanitizeSafe(s: string)
    requires forall i | 0 <= i < |s| :: IsSafe(s[i])
    ensures Sanitize(s) == s
  {
  }

  lemma SanitizeParts(p: string, u: string, x: string, n: string)
    requires Sanitize(u) == u && Sanitize(x) == x && Sanitize(n) == n
    ensures Sanitize(p + u + x + u + n) == Sanitize(p) + u + x + u + n
  {
    hide Sanitize;
    SanitizeAppend(p, u);
    SanitizeAppend(p + u, x);
    SanitizeAppend(p + u + x, u);
    SanitizeAppend(p + u + x + u, n);
  }

  lemma SanitizeOfID(prefix: string, s: string, st: PolicyState)
    ensures PackageID(PolicyID(prefix, s, st)) == Sanitize(prefix) + "_" + Sanitize(s) + "_" + StateName(st)
  {
    SanitizeSafe(Sanitize(s));
    SanitizeSafe("_");
    SanitizeSafe(StateName(st));
    SanitizeParts(prefix, "_", Sanitize(s), StateName(st));
    hide Sanitize, StateName;
  }

  /** Distinct policy IDs of one prefix have distinct package IDs, even when the prefix is not itself safe. */
  lemma PackageIDInjective(prefix: string, s: string, st: PolicyState, t: string, su: PolicyState)
    ensures PackageID(PolicyID(prefix, s, st)) == PackageID(PolicyID(prefix, t, su))
            <==> PolicyID(prefix, s, st) == PolicyID(prefix, t, su)
  {
    SanitizeOfID(prefix, s, st);
    SanitizeOfID(prefix, t, su);
    SchemeInjective(Sanitize(prefix), Sanitize(s), st, Sanitize(t), su);
    PolicyIDInjective(prefix, s, st, t, su);
  }

  ghost predicate InScheme(prefix: string, id: string) {
    exists s: string, st: PolicyState :: id == PolicyID(prefix, s, st)
  }

  // ---------------------------------------------------------------- runs

  function EventOf(st: PolicyState): string {
    match st case Compromised => COMPROMISED case Degraded => DEGRADED
  }

  /** The step puts the policy of (source, st), and the request takes effect. */
  ghost predicate Puts(cfg: Config, s: Step, source: string, st: PolicyState) {
    && s.signal.eventType == EventOf(st) && Sanitize(s.signal.sourceID) == Sanitize(source)
    && Body(cfg, s.signal, st).Some? && Applied(s.first)
  }

  /** The step deletes it, and that request takes effect. */
  ghost predicate Clears(s: Step, source: string, st: PolicyState) {
    && s.signal.eventType == RECOVERED && Sanitize(s.signal.sourceID) == Sanitize(source)
    && Applied(if st.Compromised? then s.first else s.second)
  }

  lemma ActOn(cfg: Config, store: Store, s: Step, source: string, st: PolicyState)
    ensures var id := PolicyID(cfg.prefix, source, st);
            var after := Act(cfg, store, s).0;
            && (Puts(cfg, s, source, st) ==> id in after && after[id] == Body(cfg, s.signal, st).value)
            && (Clears(s, source, st) ==> id !in after)
            && (!Puts(cfg, s, source, st) && !Clears(s, source, st) ==>
                  (id in after <==> id in store) && (id in store ==> after[id] == store[id]))
  {
    EventTypesDiffer();
    PolicyIDInjective(cfg.prefix, s.signal.sourceID, Compromised, source, st);
    PolicyIDInjective(cfg.prefix, s.signal.sourceID, Degraded, source, st);
    hide PolicyID, Sanitize, Body, Somes;
  }

  ghost predicate NoneClears(steps: seq<Step>, k: nat, source: string, st: PolicyState) {
    forall j | k <= j < |steps| :: !Clears(steps[j], source, st)
  }

  ghost predicate NonePuts(cfg: Config, steps: seq<Step>, k: nat, source: string, st: PolicyState) {
    forall j | k <= j < |steps| :: !Puts(cfg, steps[j], source, st)
  }

  /** Put after the last deletion, or there from the start and never deleted. */
  ghost predicate PresentAfter(cfg: Config, initially: bool, steps: seq<Step>, source: string, st: PolicyState) {
    || (exists i :: 0 <= i < |steps| && Puts(cfg, steps[i], source, st) && NoneClears(steps, i + 1, source, st))
    || (initially && NoneClears(steps, 0, source, st))
  }

  lemma ClearsSnoc(steps: seq<Step>, s: Step, k: nat, source: string, st: PolicyState)
    requires k <= |steps|
    ensures NoneClears(steps + [s], k, source, st) <==> NoneClears(steps, k, source, st) && !Clears(s, source, st)
  {
    hide Clears;
    assert (steps + [s])[|steps|] == s;
    assert forall j | 0 <= j < |steps| :: (steps + [s])[j] == steps[j];
  }

  lemma PresentKept(cfg: Config, initially: bool, steps: seq<Step>, s: Step, source: string, st: PolicyState)
    requires PresentAfter(cfg, initially, steps, source, st) && !Clears(s, source, st)
    ensures PresentAfter(cfg, initially, steps + [s], source, st)
  {
    hide Puts, Clears, NoneClears;
    var all := steps + [s];
    ClearsSnoc(steps, s, 0, source, st);
    if i :| 0 <= i < |steps| && Puts(cfg, steps[i], source, st) && NoneClears(steps, i + 1, source, st) {
      ClearsSnoc(steps, s, i + 1, source, st);
      assert all[i] == steps[i];
    }
  }

  lemma PresentBefore(cfg: Config, initially: bool, steps: seq<Step>, s: Step, source: string, st: PolicyState)
    requires PresentAfter(cfg, initially, steps + [s], source, st) && !Puts(cfg, s, source, st)
    ensures PresentAfter(cfg, initially, steps, source, st) && !Clears(s, source, st)
  {
    hide Puts, Clears, NoneClears;
    var all := steps + [s];
    ClearsSnoc(steps, s, 0, source, st);
    if i :| 0 <= i < |all| && Puts(cfg, all[i], source, st) && NoneClears(all, i + 1, source, st) {
      assert i < |steps| && all[i] == steps[i];
      ClearsSnoc(steps, s, i + 1, source, st);
    }
  }

  lemma PresentSnoc(cfg: Config, initially: bool, steps: seq<Step>, s: Step, source: string, st: PolicyState)
    ensures PresentAfter(cfg, initially, steps + [s], source, st)
            <==> Puts(cfg, s, source, st)
                 || (PresentAfter(cfg, initially, steps, source, st) && !Clears(s, source, st))
  {
    if Puts(cfg, s, source, st) {
      var all := steps + [s];
      assert all[|steps|] == s && NoneClears(all, |steps| + 1, source, st);
    }
    hide Puts, Clears, PresentAfter;
    if PresentAfter(cfg, initially, steps + [s], source, st) && !Puts(cfg, s, source, st) {
      PresentBefore(cfg, initially, steps, s, source, st);
    }
    if PresentAfter(cfg, initially, steps, source, st) && !Clears(s, source, st) {
      PresentKept(cfg, initially, steps, s, source, st);
    }
  }

  lemma PutsNotClears(cfg: Config, s: Step, source: string, st: PolicyState)
    ensures !(Puts(cfg, s, source, st) && Clears(s, source, st))
  {
    EventTypesDiffer();
  }

  /** For every run, with any failures: the policy of (source, state) is there exactly when it was put after its last
      deletion, or was there at first and never deleted, counting the requests that took effect. */
  lemma {:induction false} PolicyPresence(cfg: Config, store: Store, steps: seq<Step>, source: string, st: PolicyState)
    ensures PolicyID(cfg.prefix, source, st) in Run(cfg, store, steps)
            <==> PresentAfter(cfg, PolicyID(cfg.prefix, source, st) in store, steps, source, st)
    decreases |steps|
  {
    if steps != [] {
      var front, last := steps[..|steps| - 1], steps[|steps| - 1];
      assert steps == front + [last];
      PolicyPresence(cfg, store, front, source, st);
      hide Puts, Clears, PresentAfter, PolicyID, Act;
      PutsNotClears(cfg, last, source, st);
      ActOn(cfg, Run(cfg, store, front), last, source, st);
      PresentSnoc(cfg, PolicyID(cfg.prefix, source, st) in store, front, last, source, st);
    }
  }

  lemma NoneInFront(cfg: Config, steps: seq<Step>, k: nat, source: string, st: PolicyState)
    requires k < |steps| && NoneClears(steps, k, source, st) && NonePuts(cfg, steps, k, source, st)
    ensures var front, last := steps[..|steps| - 1], steps[|steps| - 1];
            && NoneClears(front, k, source, st) && NonePuts(cfg, front, k, source, st)
            && !Clears(last, source, st) && !Puts(cfg, last, source, st)
  {
    hide Puts, Clears;
  }

  /** The ID of a source's policy with this suffix. */
  ghost function IDOf(cfg: Config, sourceID: string, suffix: string): string {
    cfg.prefix + "_" + Sanitize(sourceID) + suffix
  }

  /** The signal's own reason, or else the one in its payload. */
  ghost function ReasonOf(signal: InboundSET): string {
    if signal.reason != "" then signal.reason
    else if signal.payloadReason.Some? then signal.payloadReason.value
    else ""
  }

  /** What the template engine makes of a template for a signal. */
  ghost function Written(cfg: Config, signal: InboundSET, template: string, suffix: string): Option<string> {
    var id := IDOf(cfg, signal.sourceID, suffix);
    cfg.render(template, RegoData(policyID := id, packageID := Sanitize(id), sourceID := signal.sourceID,
                                  eventType := signal.eventType, reason := ReasonOf(signal)))
  }

  lemma SuffixJoins(cfg: Config, sourceID: string)
    ensures PolicyID(cfg.prefix, sourceID, Compromised) == IDOf(cfg, sourceID, "_compromised")
    ensures PolicyID(cfg.prefix, sourceID, Degraded) == IDOf(cfg, sourceID, "_degraded")
  {
    var start := cfg.prefix + "_" + Sanitize(sourceID);
    assert "_" + "compromised" == "_compromised" && "_" + "degraded" == "_degraded";
    assert PolicyID(cfg.prefix, sourceID, Compromised) == (start + "_") + "compromised";
    assert PolicyID(cfg.prefix, sourceID, Degraded) == (start + "_") + "degraded";
    hide PolicyID, Sanitize;
    Assoc(start, "_", "compromised");
    Assoc(start, "_", "degraded");
  }

  /** A compromised source's policy is written from the one template, a degraded one's from the other, each under its own
      suffix. */
  lemma WhichTemplate(cfg: Config, signal: InboundSET, sourceID: string)
    ensures PolicyID(cfg.prefix, sourceID, Compromised) == IDOf(cfg, sourceID, "_compromised")
    ensures PolicyID(cfg.prefix, sourceID, Degraded) == IDOf(cfg, sourceID, "_degraded")
    ensures Body(cfg, signal, Compromised) == Written(cfg, signal, cfg.compromisedRego, "_compromised")
    ensures Body(cfg, signal, Degraded) == Written(cfg, signal, cfg.degradedRego, "_degraded")
  {
    SuffixJoins(cfg, sourceID);
    SuffixJoins(cfg, signal.sourceID);
    hide PolicyID, IDOf, Sanitize;
  }

  lemma {:induction false} LastPutStays(cfg: Config, store: Store, steps: seq<Step>, i: nat, source: string,
                                        st: PolicyState)
    requires i < |steps| && Puts(cfg, steps[i], source, st)
    requires NoneClears(steps, i + 1, source, st) && NonePuts(cfg, steps, i + 1, source, st)
    ensures var id := PolicyID(cfg.prefix, source, st);
            id in Run(cfg, store, steps) && Run(cfg, store, steps)[id] == Body(cfg, steps[i].signal, st).value
    decreases |steps|
  {
    var front, last := steps[..|steps| - 1], steps[|steps| - 1];
    hide Puts, Clears, PolicyID, Act, Body;
    ActOn(cfg, Run(cfg, store, front), last, source, st);
    PutsNotClears(cfg, last, source, st);
    if i < |front| {
      assert front[i] == steps[i];
      NoneInFront(cfg, steps, i + 1, source, st);
      hide NoneClears, NonePuts;
      LastPutStays(cfg, store, front, i, source, st);
    }
  }

  /** The text of a policy is what its template gave for the last signal that put it. */
  lemma PolicyText(cfg: Config, store: Store, steps: seq<Step>, i: nat, source: string, st: PolicyState)
    requires i < |steps| && Puts(cfg, steps[i], source, st)
    requires NoneClears(steps, i + 1, source, st) && NonePuts(cfg, steps, i + 1, source, st)
    ensures var signal, after := steps[i].signal, Run(cfg, store, steps);
            match st
            case Compromised =>
              var id := IDOf(cfg, source, "_compromised");
              var text := Written(cfg, signal, cfg.compromisedRego, "_compromised");
              text.Some? && id in after && after[id] == text.value
            case Degraded =>
              var id := IDOf(cfg, source, "_degraded");
              var text := Written(cfg, signal, cfg.degradedRego, "_degraded");
              text.Some? && id in after && after[id] == text.value
  {
    LastPutStays(cfg, store, steps, i, source, st);
    WhichTemplate(cfg, steps[i].signal, source);
    hide PolicyID, IDOf, Body, Written, Run, NoneClears, NonePuts;
  }

  lemma ActElsewhere(cfg: Config, store: Store, s: Step, id: string)
    requires id != PolicyID(cfg.prefix, s.signal.sourceID, Compromised)
    requires id != PolicyID(cfg.prefix, s.signal.sourceID, Degraded)
    ensures var after := Act(cfg, store, s).0;
            (id in after <==> id in store) && (id in store ==> after[id] == store[id])
  {
    hide PolicyID, Body, Somes;
  }

  /** Policies outside the adapter's naming scheme are never touched, whatever fails. */
  lemma {:induction false} OthersUntouched(cfg: Config, store: Store, steps: seq<Step>, id: string)
    requires !InScheme(cfg.prefix, id)
    ensures id in Run(cfg, store, steps) <==> id in store
    ensures id in store ==> Run(cfg, store, steps)[id] == store[id]
    decreases |steps|
  {
    if steps != [] {
      var front, last := steps[..|steps| - 1], steps[|steps| - 1];
      OthersUntouched(cfg, store, front, id);
      assert id != PolicyID(cfg.prefix, last.signal.sourceID, Compromised);
      assert id != PolicyID(cfg.prefix, last.signal.sourceID, Degraded);
      hide PolicyID, InScheme, Act;
      ActElsewhere(cfg, Run(cfg, store, front), last, id);
    }
  }

  // ---------------------------------------------------------------- runs without failures

  ghost predicate SmoothStep(cfg: Config, s: Step) {
    && s.first.Answered? && s.second.Answered?
    && forall st: PolicyState :: s.signal.eventType == EventOf(st) ==> Body(cfg, s.signal, st).Some?
  }

  /** Every request is carried out and answered, and every template renders. */
  ghost predicate Smooth(cfg: Config, steps: seq<Step>) {
    forall i | 0 <= i < |steps| :: SmoothStep(cfg, steps[i])
  }

  ghost predicate Names(s: Step, eventType: string, source: string) {
    s.signal.eventType == eventType && Sanitize(s.signal.sourceID) == Sanitize(source)
  }

  /** Then the policy of (source, state) is there exactly when its signal came after the source's last recovery, or it
      was there at first and the source has not recovered since. */
  lemma SmoothPresence(cfg: Config, store: Store, steps: seq<Step>, source: string, st: PolicyState)
    requires Smooth(cfg, steps)
    ensures PolicyID(cfg.prefix, source, st) in Run(cfg, store, steps)
            <==> || (exists i :: && 0 <= i < |steps| && Names(steps[i], EventOf(st), source)
                              && forall j | i < j < |steps| :: !Names(steps[j], RECOVERED, source))
                 || (&& PolicyID(cfg.prefix, source, st) in store
                     && forall j | 0 <= j < |steps| :: !Names(steps[j], RECOVERED, source))
  {
    PolicyPresence(cfg, store, steps, source, st);
    forall i | 0 <= i < |steps|
      ensures Puts(cfg, steps[i], source, st) <==> Names(steps[i], EventOf(st), source)
      ensures Clears(steps[i], source, st) <==> Names(steps[i], RECOVERED, source)
    {
      assert SmoothStep(cfg, steps[i]);
    }
    hide Puts, Clears, Names, PolicyID, Run, Smooth;
    forall i | 0 <= i <= |steps|
      ensures NoneClears(steps, i, source, st) <==> forall j | i <= j < |steps| :: !Names(steps[j], RECOVERED, source)
    {
    }
  }

  lemma DeleteError(store: Store, id: string, a: Answer)
    ensures DeletePolicy(store, id, a).1.None? <==> Accepted(a) || a == Refused(404)
  {
  }

  lemma SomesOne<T>(x: Option<T>)
    ensures Somes([x]) == if x.Some? then [x.value] else []
  {
    assert [x][..0] == [];
  }

  lemma SomesTwo<T>(x: Option<T>, y: Option<T>)
    ensures Somes([x, y]) == Somes([x]) + Somes([y])
  {
    assert [x, y][..1] == [x] && [y][..0] == [];
  }

  /** Exactly when Act returns nil. A DELETE may be refused by a 404, whether or not the policy is there. */
  lemma NilExactlyWhen(cfg: Config, store: Store, s: Step)
    ensures Act(cfg, store, s).1 == [] <==>
            (if s.signal.eventType == COMPROMISED then Body(cfg, s.signal, Compromised).Some? && Accepted(s.first)
             else if s.signal.eventType == DEGRADED then Body(cfg, s.signal, Degraded).Some? && Accepted(s.first)
             else && s.signal.eventType == RECOVERED
                  && (Accepted(s.first) || s.first == Refused(404))
                  && (Accepted(s.second) || s.second == Refused(404)))
  {
    hide PolicyID, Body, DeletePolicy, Somes;
    var r1 := DeletePolicy(store, PolicyID(cfg.prefix, s.signal.sourceID, Compromised), s.first);
    var r2 := DeletePolicy(r1.0, PolicyID(cfg.prefix, s.signal.sourceID, Degraded), s.second);
    DeleteError(store, PolicyID(cfg.prefix, s.signal.sourceID, Compromised), s.first);
    DeleteError(r1.0, PolicyID(cfg.prefix, s.signal.sourceID, Degraded), s.second);
    SomesTwo(r1.1, r2.1);
    SomesOne(r1.1);
    SomesOne(r2.1);
    SomesOne(PutPolicy(cfg, store, s.signal, Compromised, s.first).1);
    SomesOne(PutPolicy(cfg, store, s.signal, Degraded, s.first).1);
    EventTypesDiffer();
  }

  /** What nil promises: unless the server refused the request after all, the policy the signal is about is put with its
      text, or both of the source's policies are gone. */
  lemma NilMeansApplied(cfg: Config, store: Store, s: Step, st: PolicyState)
    requires Act(cfg, store, s).1 == [] && !s.first.Refused? && !s.second.Refused?
    ensures var id := PolicyID(cfg.prefix, s.signal.sourceID, st);
            var after := Act(cfg, store, s).0;
            && (s.signal.eventType == EventOf(st) ==>
                  Body(cfg, s.signal, st).Some? && id in after && after[id] == Body(cfg, s.signal, st).value)
            && (s.signal.eventType == RECOVERED ==> id !in after)
  {
    EventTypesDiffer();
    NilExactlyWhen(cfg, store, s);
    ActOn(cfg, store, s, s.signal.sourceID, st);
    hide PolicyID, Body, Act, Sanitize;
  }
}
