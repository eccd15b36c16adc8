/** sources/vault/source.go: what becomes of one line of a Vault audit log. */
module VaultSource {
  import opened Wrappers

  /** The decoded fields of an audit entry. */
  datatype Entry = Entry(kind: string, accessor: string, displayName: string, authEntityID: string, id: string,
                         path: string, operation: string, entityID: string, remoteAddress: string, leaseID: string,
                         leaseDuration: int, error: string)

  datatype MountRule = MountRule(prefix: string, engine: string, event: string)

  datatype Event = Event(kind: string, correlationID: string, entityID: string, entityName: string, accessor: string,
                         metadata: map<string, string>)

  const REVOKED := "https://schemas.fiam/vault/credential-revoked"
  const DENIED := "https://schemas.fiam/vault/secret-denied"
  const AUTH := "https://schemas.fiam/vault/auth-event"

  predicate HasPrefix(s: string, p: string) {
    |p| <= |s| && s[..|p|] == p
  }

  predicate At(s: string, i: nat, part: string) {
    i + |part| <= |s| && s[i..i + |part|] == part
  }

  predicate Contains(s: string, part: string) {
    exists i: nat | i <= |s| :: At(s, i, part)
  }

  function Decimal(n: int): string
    decreases n < 0, n
  {
    if n < 0 then "-" + Decimal(-n)
    else if n < 10 then [('0' as int + n) as char]
    else Decimal(n / 10) + [('0' as int + n % 10) as char]
  }

  predicate IsRevoke(e: Entry) {
    e.operation == "revoke" || Contains(e.path, "/revoke")
  }

  predicate IsLogin(path: string) {
    HasPrefix(path, "auth/") && Contains(path, "/login")
  }

  predicate Dropped(drops: seq<string>, path: string) {
    exists i | 0 <= i < |drops| :: HasPrefix(path, drops[i])
  }

  /** The first rule whose prefix the path has. */
  function MatchRule(rules: seq<MountRule>, path: string): Option<MountRule> {
    if rules == [] then None
    else if HasPrefix(path, rules[0].prefix) then Some(rules[0])
    else MatchRule(rules[1..], path)
  }

  function When(c: bool, k: string, v: string): map<string, string> {
    if c then map[k := v] else map[]
  }

  function Metadata(e: Entry, engine: string): map<string, string> {
    map["secret_path" := e.path, "remote_address" := e.remoteAddress, "vault_request_id" := e.id]
    + When(engine != "", "secret_engine", engine)
    + When(e.leaseID != "", "lease_id", e.leaseID) + When(e.leaseID != "", "ttl_seconds", Decimal(e.leaseDuration))
    + When(e.error != "", "error", e.error)
  }

  function Build(e: Entry, kind: string, engine: string): Event {
    Event(kind, e.id, if e.entityID == "" then e.authEntityID else e.entityID, e.displayName, e.accessor,
          Metadata(e, engine))
  }

  /** The event of a line, if it has one. */
  function Classify(rules: seq<MountRule>, drops: seq<string>, entry: Option<Entry>): Option<Event> {
    if entry.None? || entry.value.kind != "response" then None
    else
      var e := entry.value;
      if IsRevoke(e) then Some(Build(e, REVOKED, ""))
      else if Dropped(drops, e.path) then None
      else if e.error != "" then Some(Build(e, DENIED, ""))
      else if IsLogin(e.path) then Some(Build(e, AUTH, ""))
      else
        var rule := MatchRule(rules, e.path);
        if rule.Some? then Some(Build(e, rule.value.event, rule.value.engine)) else None
  }

  lemma PutWhen(m: map<string, string>, c: bool, k: string, v: string)
    ensures m + When(c, k, v) == if c then m[k := v] else m
  {
  }

  ghost predicate Tells(m: map<string, string>, key: string, c: bool, v: string) {
    (key in m <==> c) && (c ==> m[key] == v)
  }

  lemma AddTells(m: map<string, string>, c: bool, k: string, v: string)
    requires k !in m
    ensures Tells(m + When(c, k, v), k, c, v)
    ensures forall key | key != k :: key in m + When(c, k, v) <==> key in m
    ensures forall key | key != k && key in m :: (m + When(c, k, v))[key] == m[key]
  {
  }

  lemma FourTell(base: map<string, string>, k1: string, c1: bool, v1: string, k2: string, c2: bool, v2: string,
                 k3: string, c3: bool, v3: string, k4: string, c4: bool, v4: string)
    requires k1 !in base && k2 !in base && k3 !in base && k4 !in base
    requires k1 != k2 && k1 != k3 && k1 != k4 && k2 != k3 && k2 != k4 && k3 != k4
    ensures var m := base + When(c1, k1, v1) + When(c2, k2, v2) + When(c3, k3, v3) + When(c4, k4, v4);
            && Tells(m, k1, c1, v1) && Tells(m, k2, c2, v2) && Tells(m, k3, c3, v3) && Tells(m, k4, c4, v4)
            && (forall key | key in base :: Tells(m, key, true, base[key]))
            && (forall key | key in m :: key in base || key in {k1, k2, k3, k4})
  {
    hide When;
    var m1 := base + When(c1, k1, v1);
    var m2 := m1 + When(c2, k2, v2);
    var m3 := m2 + When(c3, k3, v3);
    AddTells(base, c1, k1, v1);
    AddTells(m1, c2, k2, v2);
    AddTells(m2, c3, k3, v3);
    AddTells(m3, c4, k4, v4);
  }

  lemma KeysDiffer(base: map<string, string>)
    requires base.Keys == {"secret_path", "remote_address", "vault_request_id"}
    ensures "secret_engine" !in base && "lease_id" !in base && "ttl_seconds" !in base && "error" !in base
    ensures "secret_engine" != "lease_id" && "secret_engine" != "ttl_seconds" && "secret_engine" != "error"
    ensures "lease_id" != "ttl_seconds" && "lease_id" != "error" && "ttl_seconds" != "error"
  {
    assert |"secret_engine"| == 13 && |"lease_id"| == 8 && |"ttl_seconds"| == 11 && |"error"| == 5;
    assert |"secret_path"| == 11 && |"remote_address"| == 14 && |"vault_request_id"| == 16;
    assert "secret_path"[0] == 's' && "ttl_seconds"[0] == 't';
  }

  /** Which keys the metadata of an event have, and with what values. */
  lemma MetadataTells(e: Entry, engine: string)
    ensures var m := Metadata(e, engine);
            && Tells(m, "secret_engine", engine != "", engine)
            && Tells(m, "lease_id", e.leaseID != "", e.leaseID)
            && Tells(m, "ttl_seconds", e.leaseID != "", Decimal(e.leaseDuration))
            && Tells(m, "error", e.error != "", e.error)
            && Tells(m, "vault_request_id", true, e.id)
            && Tells(m, "secret_path", true, e.path)
            && Tells(m, "remote_address", true, e.remoteAddress)
            && forall key | key in m ::
                 || key in {"secret_path", "remote_address", "vault_request_id"}
                 || key in {"secret_engine", "lease_id", "ttl_seconds", "error"}
  {
    hide When, Decimal, Tells;
    var base := map["secret_path" := e.path, "remote_address" := e.remoteAddress, "vault_request_id" := e.id];
    assert base.Keys == {"secret_path", "remote_address", "vault_request_id"};
    assert base["secret_path"] == e.path && base["remote_address"] == e.remoteAddress
           && base["vault_request_id"] == e.id by {
      assert |"secret_path"| == 11 && |"remote_address"| == 14 && |"vault_request_id"| == 16;
    }
    KeysDiffer(base);
    FourTell(base, "secret_engine", engine != "", engine, "lease_id", e.leaseID != "", e.leaseID,
             "ttl_seconds", e.leaseID != "", Decimal(e.leaseDuration), "error", e.error != "", e.error);
  }

  /** The event reports the entry: this kind and secret engine, the request's entity or else the token's, every field of
      interest that is not empty, and nothing else. */
  ghost predicate Reports(event: Event, e: Entry, kind: string, engine: string) {
    && event.kind == kind && event.correlationID == e.id
    && event.entityID == (if e.entityID != "" then e.entityID else e.authEntityID)
    && event.entityName == e.displayName && event.accessor == e.accessor
    && var m := event.metadata;
       && Tells(m, "secret_path", true, e.path)
       && Tells(m, "remote_address", true, e.remoteAddress)
       && Tells(m, "vault_request_id", true, e.id)
       && Tells(m, "secret_engine", engine != "", engine)
       && Tells(m, "lease_id", e.leaseID != "", e.leaseID)
       && Tells(m, "ttl_seconds", e.leaseID != "", Decimal(e.leaseDuration))
       && Tells(m, "error", e.error != "", e.error)
       && forall key | key in m ::
            || key in {"secret_path", "remote_address", "vault_request_id"}
            || key in {"secret_engine", "lease_id", "ttl_seconds", "error"}
  }

  lemma BuildReports(e: Entry, kind: string, engine: string)
    ensures Reports(Build(e, kind, engine), e, kind, engine)
  {
    MetadataTells(e, engine);
    hide Metadata, Tells, Decimal;
  }

  /** The value of a string of digits. */
  ghost function Value(s: string): int {
    if s == "" then 0 else 10 * Value(s[..|s| - 1]) + (s[|s| - 1] as int - '0' as int)
  }

  ghost predicate Digits(s: string) {
    s != "" && forall i | 0 <= i < |s| :: '0' <= s[i] <= '9'
  }

  lemma ValueSnoc(s: string, c: char)
    ensures Value(s + [c]) == 10 * Value(s) + (c as int - '0' as int)
  {
    assert (s + [c])[..|s|] == s;
  }

  /** Decimal writes a number that reads as itself, in digits, without leading zeros, and with a sign if negative. */
  lemma {:induction false} DecimalReads(n: int)
    ensures 0 <= n ==> Digits(Decimal(n)) && Value(Decimal(n)) == n && (0 < n ==> Decimal(n)[0] != '0')
    ensures n < 0 ==> Decimal(n) == "-" + Decimal(-n)
    decreases n < 0, n
  {
    if 10 <= n {
      DecimalReads(n / 10);
      ValueSnoc(Decimal(n / 10), ('0' as int + n % 10) as char);
    } else if 0 <= n {
      var c := ('0' as int + n) as char;
      assert Decimal(n) == "" + [c];
      ValueSnoc("", c);
    }
  }

  // ---------------------------------------------------------------- the decision

  /** Rule i is the first whose prefix the path has. */
  ghost predicate FirstFitting(rules: seq<MountRule>, path: string, i: nat) {
    && i < |rules| && rules[i].prefix <= path
    && forall j | 0 <= j < i :: !(rules[j].prefix <= path)
  }

  /** What is to become of a line, in the order in which the cases are told apart. */
  ghost predicate Decides(rules: seq<MountRule>, drops: seq<string>, entry: Option<Entry>, event: Option<Event>) {
    if entry.None? || entry.value.kind != "response" then event.None?
    else
      var e := entry.value;
      if e.operation == "revoke" || Contains(e.path, "/revoke") then
        event.Some? && Reports(event.value, e, "https://schemas.fiam/vault/credential-revoked", "")
      else if exists i :: 0 <= i < |drops| && drops[i] <= e.path then event.None?
      else if e.error != "" then event.Some? && Reports(event.value, e, "https://schemas.fiam/vault/secret-denied", "")
      else if "auth/" <= e.path && Contains(e.path, "/login") then
        event.Some? && Reports(event.value, e, "https://schemas.fiam/vault/auth-event", "")
      else
        && (event.None? <==> forall i | 0 <= i < |rules| :: !(rules[i].prefix <= e.path))
        && (event.Some? ==>
              exists i: nat :: FirstFitting(rules, e.path, i)
                               && Reports(event.value, e, rules[i].event, rules[i].engine))
  }

  lemma PrefixIs(s: string, p: string)
    ensures HasPrefix(s, p) <==> p <= s
  {
  }

  lemma {:induction false} MatchIsFirst(rules: seq<MountRule>, path: string) returns (i: nat)
    ensures MatchRule(rules, path).None? ==> forall j | 0 <= j < |rules| :: !(rules[j].prefix <= path)
    ensures MatchRule(rules, path).Some? ==> FirstFitting(rules, path, i) && MatchRule(rules, path).value == rules[i]
  {
    i := 0;
    if rules != [] {
      PrefixIs(path, rules[0].prefix);
      if !HasPrefix(path, rules[0].prefix) {
        hide HasPrefix;
        var k := MatchIsFirst(rules[1..], path);
        i := k + 1;
        assert forall j | 0 < j < |rules| :: rules[j] == rules[1..][j - 1];
      }
    }
  }

  lemma FirstFits(rules: seq<MountRule>, path: string, i: nat)
    requires FirstFitting(rules, path, i)
    ensures i < |rules| && rules[i].prefix <= path
  {
  }

  /** The classification is the decision. */
  lemma ClassifyDecides(rules: seq<MountRule>, drops: seq<string>, entry: Option<Entry>)
    ensures Decides(rules, drops, entry, Classify(rules, drops, entry))
  {
    if entry.Some? {
      var e := entry.value;
      forall p: string ensures HasPrefix(e.path, p) <==> p <= e.path { PrefixIs(e.path, p); }
      BuildReports(e, REVOKED, "");
      BuildReports(e, DENIED, "");
      BuildReports(e, AUTH, "");
      hide Reports, Build, Contains, HasPrefix, MatchRule, FirstFitting;
      var i := MatchIsFirst(rules, e.path);
      if MatchRule(rules, e.path).Some? {
        var rule := MatchRule(rules, e.path).value;
        BuildReports(e, rule.event, rule.engine);
        assert FirstFitting(rules, e.path, i);
        FirstFits(rules, e.path, i);
      }
    }
  }

  class Source {
    const mountRules: seq<MountRule>
    const dropPrefixes: seq<string>
    const decode: string -> Option<Entry>  // the JSON decoder

    constructor (mountRules: seq<MountRule>, dropPrefixes: seq<string>, decode: string -> Option<Entry>)
      ensures this.mountRules == mountRules && this.dropPrefixes == dropPrefixes && this.decode == decode
    {
      this.mountRules, this.dropPrefixes, this.decode := mountRules, dropPrefixes, decode;
    }

    /** The optional keys are there exactly when there is something to say, and the request's entity has precedence over
        that of the token. */
    method BuildEvent(entry: Entry, kind: string, engine: string) returns (event: Event)
      ensures Reports(event, entry, kind, engine)
      ensures event == Build(entry, kind, engine)
    {
      var entityID := entry.entityID;
      if entityID == "" {
        entityID := entry.authEntityID;
      }
      var meta := map["secret_path" := entry.path, "remote_address" := entry.remoteAddress,
                      "vault_request_id" := entry.id];
      PutWhen(meta, engine != "", "secret_engine", engine);
      if engine != "" {
        meta := meta["secret_engine" := engine];
      }
      PutWhen(meta, entry.leaseID != "", "lease_id", entry.leaseID);
      PutWhen(meta["lease_id" := entry.leaseID], true, "ttl_seconds", Decimal(entry.leaseDuration));
      PutWhen(meta, false, "ttl_seconds", Decimal(entry.leaseDuration));
      if entry.leaseID != "" {
        meta := meta["lease_id" := entry.leaseID];
        meta := meta["ttl_seconds" := Decimal(entry.leaseDuration)];
      }
      PutWhen(meta, entry.error != "", "error", entry.error);
      if entry.error != "" {
        meta := meta["error" := entry.error];
      }
      BuildReports(entry, kind, engine);
      hide When, Decimal, Reports;
      event := Event(kind, entry.id, entityID, entry.displayName, entry.accessor, meta);
    }

    method Parse(line: string) returns (event: Option<Event>)
      ensures Decides(mountRules, dropPrefixes, decode(line), event)
      ensures event == Classify(mountRules, dropPrefixes, decode(line))
    {
      hide Build, Contains, Decides, Reports;
      ClassifyDecides(mountRules, dropPrefixes, decode(line));
      var decoded := decode(line);
      if decoded.None? { return None; }
      var entry := decoded.value;
      if entry.kind != "response" { return None; }
      var path, op := entry.path, entry.operation;
      var isRevoke := op == "revoke" || Contains(path, "/revoke");
      if isRevoke {
        var e := BuildEvent(entry, REVOKED, "");
        return Some(e);
      }
      for i := 0 to |dropPrefixes|
        invariant forall k | 0 <= k < i :: !HasPrefix(path, dropPrefixes[k])
      {
        if HasPrefix(path, dropPrefixes[i]) { return None; }
      }
      if entry.error != "" {
        var e := BuildEvent(entry, DENIED, "");
        return Some(e);
      }
      if HasPrefix(path, "auth/") && Contains(path, "/login") {
        var e := BuildEvent(entry, AUTH, "");
        return Some(e);
      }
      for i := 0 to |mountRules|
        invariant MatchRule(mountRules, path) == MatchRule(mountRules[i..], path)
      {
        var rule := mountRules[i];
        if HasPrefix(path, rule.prefix) {
          var e := BuildEvent(entry, rule.event, rule.engine);
          return Some(e);
        }
      }
      return None;
    }
  }
}

/** When configuration order matters, and what a drop prefix does. */
module VaultSourceProofs {
  import opened Wrappers
  import opened VaultSource

  // ---------------------------------------------------------------- drop prefixes

  lemma DroppedConcat(a: seq<string>, b: seq<string>, path: string)
    ensures Dropped(a + b, path) <==> Dropped(a, path) || Dropped(b, path)
  {
    hide HasPrefix;
    assert forall i | 0 <= i < |a| :: (a + b)[i] == a[i];
    assert forall i | 0 <= i < |b| :: (a + b)[|a| + i] == b[i];
    if Dropped(a, path) {
      var i :| 0 <= i < |a| && HasPrefix(path, a[i]);
      assert HasPrefix(path, (a + b)[i]);
    }
    if Dropped(b, path) {
      var i :| 0 <= i < |b| && HasPrefix(path, b[i]);
      assert HasPrefix(path, (a + b)[|a| + i]);
    }
  }

  lemma DroppedMore(a: seq<string>, p: string, b: seq<string>, path: string)
    ensures Dropped(a + [p] + b, path) <==> Dropped(a + b, path) || HasPrefix(path, p)
  {
    assert Dropped([p], path) <==> HasPrefix(path, [p][0]);
    hide Dropped, HasPrefix;
    DroppedConcat(a + [p], b, path);
    DroppedConcat(a, [p], path);
    DroppedConcat(a, b, path);
  }

  /** Adding a drop prefix, wherever in the list, removes exactly the events of other than revocations whose path starts
      with it, and changes none that stay. */
  lemma DropRemovesExactly(rules: seq<MountRule>, a: seq<string>, p: string, b: seq<string>, entry: Option<Entry>)
    ensures Classify(rules, a + [p] + b, entry)
            == if entry.Some? && !IsRevoke(entry.value) && HasPrefix(entry.value.path, p) then None
               else Classify(rules, a + b, entry)
  {
    hide Dropped, Build, MatchRule, IsRevoke, HasPrefix, IsLogin;
    if entry.Some? {
      DroppedMore(a, p, b, entry.value.path);
    }
  }

  /** A probe: an error entry on a path. */
  function ErrorOn(path: string): Entry {
    Entry("response", "", "", "", "", path, "read", "", "", "", 0, "permission denied")
  }

  /** Two lists of drop prefixes give every line the same result exactly if they drop the same paths, paths of
      revocations aside. */
  lemma SameDropsExactly(rules: seq<MountRule>, drops: seq<string>, others: seq<string>)
    ensures (forall entry :: Classify(rules, drops, entry) == Classify(rules, others, entry))
            <==> (forall path :: !Contains(path, "/revoke") ==> (Dropped(drops, path) <==> Dropped(others, path)))
  {
    hide Dropped, Contains, MatchRule, IsLogin, Build;
    if forall entry :: Classify(rules, drops, entry) == Classify(rules, others, entry) {
      forall path | !Contains(path, "/revoke") ensures Dropped(drops, path) <==> Dropped(others, path) {
        var e := ErrorOn(path);
        assert e.operation == "read" && e.error != "" && !IsRevoke(e);
        assert Classify(rules, drops, Some(e)) == Classify(rules, others, Some(e));
      }
    }
  }

  lemma DroppedWithin(drops: seq<string>, others: seq<string>, path: string)
    requires multiset(drops) == multiset(others)
    ensures Dropped(drops, path) ==> Dropped(others, path)
  {
    hide HasPrefix;
    if Dropped(drops, path) {
      var i :| 0 <= i < |drops| && HasPrefix(path, drops[i]);
      assert drops[i] in multiset(drops);
      var j :| 0 <= j < |others| && others[j] == drops[i];
    }
  }

  /** So their order never matters. */
  lemma DropOrderFree(rules: seq<MountRule>, drops: seq<string>, others: seq<string>, entry: Option<Entry>)
    requires multiset(drops) == multiset(others)
    ensures Classify(rules, drops, entry) == Classify(rules, others, entry)
  {
    forall path ensures Dropped(drops, path) <==> Dropped(others, path) {
      DroppedWithin(drops, others, path);
      DroppedWithin(others, drops, path);
      hide Dropped;
    }
    hide Dropped, Contains;
    SameDropsExactly(rules, drops, others);
  }

  // ---------------------------------------------------------------- mount rules

  lemma PrefixOfPrefix(path: string, a: string, b: string)
    requires HasPrefix(path, a) && HasPrefix(path, b) && |a| <= |b|
    ensures HasPrefix(b, a)
  {
    assert path[..|b|][..|a|] == path[..|a|];
  }

  lemma PrefixTransitive(path: string, b: string, a: string)
    requires HasPrefix(path, b) && HasPrefix(b, a)
    ensures HasPrefix(path, a)
  {
    assert path[..|b|][..|a|] == path[..|a|];
  }

  lemma ContainsExtends(path: string, b: string, part: string)
    requires HasPrefix(path, b) && Contains(b, part)
    ensures Contains(path, part)
  {
    var i: nat :| i <= |b| && At(b, i, part);
    assert path[..|b|][i..i + |part|] == path[i..i + |part|];
    assert At(path, i, part);
  }

  /** Mount rules are consulted for some entry on this path. */
  ghost predicate Reaches(drops: seq<string>, path: string) {
    !Contains(path, "/revoke") && !Dropped(drops, path) && !IsLogin(path)
  }

  lemma ReachesBack(drops: seq<string>, path: string, b: string)
    requires HasPrefix(path, b) && Reaches(drops, path)
    ensures Reaches(drops, b)
  {
    if Contains(b, "/revoke") { ContainsExtends(path, b, "/revoke"); }
    if IsLogin(b) {
      ContainsExtends(path, b, "/login");
      PrefixTransitive(path, b, "auth/");
    }
    if Dropped(drops, b) {
      var i :| 0 <= i < |drops| && HasPrefix(b, drops[i]);
      PrefixTransitive(path, b, drops[i]);
    }
  }

  lemma {:induction false} MatchIsMember(rules: seq<MountRule>, path: string)
    ensures var m := MatchRule(rules, path);
            && (m.Some? ==> m.value in rules && HasPrefix(path, m.value.prefix))
            && (m.None? ==> forall r | r in rules :: !HasPrefix(path, r.prefix))
  {
    hide HasPrefix;
    if rules != [] {
      MatchIsMember(rules[1..], path);
      assert rules == [rules[0]] + rules[1..];
    }
  }

  ghost predicate SameEffect(r: MountRule, s: MountRule) {
    r.event == s.event && r.engine == s.engine
  }

  /** Two rules that apply to a common path that gets as far as the mount rules. */
  ghost predicate Compete(drops: seq<string>, r: MountRule, s: MountRule) {
    || (HasPrefix(r.prefix, s.prefix) && Reaches(drops, r.prefix))
    || (HasPrefix(s.prefix, r.prefix) && Reaches(drops, s.prefix))
  }

  ghost predicate OrderFree(rules: seq<MountRule>, drops: seq<string>) {
    forall q: seq<MountRule>, entry | multiset(q) == multiset(rules) ::
      Classify(q, drops, entry) == Classify(rules, drops, entry)
  }

  ghost predicate NoRivals(rules: seq<MountRule>, drops: seq<string>) {
    forall i, j | 0 <= i < j < |rules| :: Compete(drops, rules[i], rules[j]) ==> SameEffect(rules[i], rules[j])
  }

  /** A probe: an entry without error on a path. */
  function ReadOn(path: string): Entry {
    Entry("response", "", "", "", "", path, "read", "", "", "", 0, "")
  }

  lemma BuildTells(e: Entry, r: MountRule, s: MountRule)
    ensures Build(e, r.event, r.engine) == Build(e, s.event, s.engine) <==> SameEffect(r, s)
  {
    MetadataTells(e, r.engine);
    MetadataTells(e, s.engine);
    hide Metadata;
  }

  lemma PathsCompete(drops: seq<string>, path: string, r: MountRule, s: MountRule)
    requires Reaches(drops, path) && HasPrefix(path, r.prefix) && HasPrefix(path, s.prefix)
    ensures Compete(drops, r, s)
  {
    ReachesBack(drops, path, r.prefix);
    ReachesBack(drops, path, s.prefix);
    if |r.prefix| <= |s.prefix| {
      PrefixOfPrefix(path, r.prefix, s.prefix);
    } else {
      PrefixOfPrefix(path, s.prefix, r.prefix);
    }
  }

  lemma Symmetric(drops: seq<string>, r: MountRule, s: MountRule)
    ensures Compete(drops, r, s) <==> Compete(drops, s, r)
    ensures SameEffect(r, s) <==> SameEffect(s, r)
    ensures SameEffect(r, r)
  {
  }

  lemma RivalsAgree(rules: seq<MountRule>, drops: seq<string>, r: MountRule, s: MountRule)
    requires NoRivals(rules, drops) && r in rules && s in rules && Compete(drops, r, s)
    ensures SameEffect(r, s)
  {
    hide Compete, SameEffect;
    var i :| 0 <= i < |rules| && rules[i] == r;
    var j :| 0 <= j < |rules| && rules[j] == s;
    Symmetric(drops, r, s);
  }

  /** The rules decide only entries that reach them, by the rule they match. */
  lemma ClassifyByRule(rules: seq<MountRule>, q: seq<MountRule>, drops: seq<string>, e: Entry)
    requires Reaches(drops, e.path) ==>
             var m, n := MatchRule(rules, e.path), MatchRule(q, e.path);
             (m.Some? <==> n.Some?) && (m.Some? ==> SameEffect(m.value, n.value))
    ensures Classify(q, drops, Some(e)) == Classify(rules, drops, Some(e))
  {
    hide Dropped, Contains, MatchRule, IsLogin, Build;
  }

  lemma NoRivalsSuffices(rules: seq<MountRule>, q: seq<MountRule>, drops: seq<string>, entry: Option<Entry>)
    requires NoRivals(rules, drops) && multiset(q) == multiset(rules)
    ensures Classify(q, drops, entry) == Classify(rules, drops, entry)
  {
    if entry.Some? {
      var path := entry.value.path;
      assert forall r :: r in rules <==> r in multiset(rules);
      assert forall r :: r in q <==> r in multiset(q);
      hide MatchRule, HasPrefix, NoRivals, SameEffect, Compete, Reaches, Classify;
      MatchIsMember(rules, path);
      MatchIsMember(q, path);
      var m, n := MatchRule(rules, path), MatchRule(q, path);
      if Reaches(drops, path) && m.Some? && n.Some? {
        PathsCompete(drops, path, m.value, n.value);
        RivalsAgree(rules, drops, m.value, n.value);
      }
      ClassifyByRule(rules, q, drops, entry.value);
    }
  }

  /** The rules with the k-th moved to the front. */
  function Promoted(rules: seq<MountRule>, k: nat): (q: seq<MountRule>)
    requires k < |rules|
    ensures multiset(q) == multiset(rules) && |q| == |rules| && q[0] == rules[k]
  {
    assert rules == rules[..k] + [rules[k]] + rules[k + 1..];
    [rules[k]] + rules[..k] + rules[k + 1..]
  }

  lemma PromotedDecides(rules: seq<MountRule>, k: nat, drops: seq<string>, path: string)
    requires k < |rules| && HasPrefix(path, rules[k].prefix) && Reaches(drops, path)
    ensures Classify(Promoted(rules, k), drops, Some(ReadOn(path)))
            == Some(Build(ReadOn(path), rules[k].event, rules[k].engine))
  {
    hide Promoted, Dropped, Contains, HasPrefix, IsLogin, Build;
    assert Promoted(rules, k)[0] == rules[k];
    assert ReadOn(path).operation == "read" && ReadOn(path).path == path;
  }

  lemma RivalsMatter(rules: seq<MountRule>, drops: seq<string>, i: nat, j: nat)
    requires i < |rules| && j < |rules| && OrderFree(rules, drops)
    requires Compete(drops, rules[i], rules[j])
    ensures SameEffect(rules[i], rules[j])
  {
    var path := if HasPrefix(rules[i].prefix, rules[j].prefix) && Reaches(drops, rules[i].prefix)
                then rules[i].prefix else rules[j].prefix;
    assert HasPrefix(path, rules[i].prefix) && HasPrefix(path, rules[j].prefix) && Reaches(drops, path);
    hide HasPrefix, Reaches, SameEffect, Compete, Classify, Build, Promoted;
    PromotedDecides(rules, i, drops, path);
    PromotedDecides(rules, j, drops, path);
    BuildTells(ReadOn(path), rules[i], rules[j]);
  }

  /** The order of the mount rules matters for no line exactly if any two that apply to a common path, one that gets as
      far as the rules, agree on event and engine. In particular rules with incomparable prefixes may come in any order. */
  lemma RuleOrderExactly(rules: seq<MountRule>, drops: seq<string>)
    ensures OrderFree(rules, drops) <==> NoRivals(rules, drops)
  {
    hide Compete, SameEffect, Classify;
    if OrderFree(rules, drops) {
      forall i, j | 0 <= i < j < |rules| && Compete(drops, rules[i], rules[j])
        ensures SameEffect(rules[i], rules[j])
      {
        RivalsMatter(rules, drops, i, j);
      }
    }
    if NoRivals(rules, drops) {
      forall q: seq<MountRule>, entry | multiset(q) == multiset(rules)
        ensures Classify(q, drops, entry) == Classify(rules, drops, entry)
      {
        NoRivalsSuffices(rules, q, drops, entry);
      }
    }
  }

  lemma IncomparableRules(rules: seq<MountRule>, q: seq<MountRule>, drops: seq<string>, entry: Option<Entry>)
    requires multiset(q) == multiset(rules)
    requires forall i, j | 0 <= i < j < |rules| ::
               !HasPrefix(rules[i].prefix, rules[j].prefix) && !HasPrefix(rules[j].prefix, rules[i].prefix)
    ensures Classify(q, drops, entry) == Classify(rules, drops, entry)
  {
    hide HasPrefix, Reaches, SameEffect, Classify;
    NoRivalsSuffices(rules, q, drops, entry);
  }
}
