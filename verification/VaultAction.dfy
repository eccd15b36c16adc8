/** actions/vault/adapter.go on values: the calls a signal leads to, and the server they drive. */
module VaultAction {
  import opened Wrappers
  import opened Signals

  /** How a request fares. Served: carried out and answered as the server's state demands. Garbled: likewise, but the body
      of the answer cannot be decoded. Refused: turned away with a status of the server's choice, without effect. Lost: no
      answer, the request having been carried out (LostAfter) or not (LostBefore). */
  datatype Answer = Served | Garbled | Refused(code: nat) | LostBefore | LostAfter

  predicate Arrives(a: Answer) {
    a.Served? || a.Garbled? || a.LostAfter?
  }

  /** What the client sees. `body` is the decoded body. */
  datatype Response = NoResponse | Response(status: nat, body: Option<string>)

  function Seen(a: Answer, status: nat, body: string): Response {
    match a
    case Served => Response(status, Some(body))
    case Garbled => Response(status, None)
    case Refused(code) => Response(code, None)
    case _ => NoResponse
  }

  type Meta = map<string, string>

  /** `live`: the tokens not revoked, each with the ID of its entity, "" if it has none. */
  datatype Server = Server(live: map<string, string>, metadata: map<string, Meta>)

  /** How the server takes an update of an entity's metadata: in place of what was there, or key by key. */
  datatype Mode = Replace | Merge

  function MetaOf(sv: Server, entity: string): Meta {
    if entity in sv.metadata then sv.metadata[entity] else map[]
  }

  function Combined(mode: Mode, was: Meta, update: Meta): Meta {
    if mode.Replace? then update else was + update
  }

  // ---------------------------------------------------------------- the server's requests

  function ServeRevoke(sv: Server, token: string, a: Answer): (Server, Response) {
    if Arrives(a) && token in sv.live then (sv.(live := sv.live - {token}), Seen(a, 204, ""))
    else (sv, Seen(a, 403, ""))
  }

  function ServeLookup(sv: Server, token: string, a: Answer): Response {
    if token in sv.live then Seen(a, 200, sv.live[token]) else Seen(a, 403, "")
  }

  function ServeUpdate(mode: Mode, sv: Server, token: string, entity: string, update: Meta, a: Answer)
    : (Server, Response)
  {
    if Arrives(a) && token in sv.live then
      (sv.(metadata := sv.metadata[entity := Combined(mode, MetaOf(sv, entity), update)]), Seen(a, 204, ""))
    else (sv, Seen(a, 403, ""))
  }

  // ---------------------------------------------------------------- the adapter's calls

  datatype Error = UnhandledType(eventType: string) | NoToken | Transport | Status(code: nat) | Undecodable
                 | Lookup(why: Error)

  function RevokeSelf(sv: Server, token: string, a: Answer): (Server, Option<Error>) {
    if token == "" then (sv, Some(NoToken))
    else
      var (after, resp) := ServeRevoke(sv, token, a);
      (after,
       if resp.NoResponse? then Some(Transport)
       else if resp.status in {200, 204, 403} then None
       else Some(Status(resp.status)))
  }

  /** The entity ID, empty for a token that is not valid; or an error. */
  function LookupEntityID(sv: Server, token: string, a: Answer): (string, Option<Error>) {
    var resp := ServeLookup(sv, token, a);
    if resp.NoResponse? then ("", Some(Transport))
    else if resp.status == 403 then ("", None)
    else if resp.status != 200 then ("", Some(Status(resp.status)))
    else if resp.body.None? then ("", Some(Undecodable))
    else (resp.body.value, None)
  }

  const STATUS := "ssf_status"
  const SOURCE := "ssf_source_id"
  const EVENT := "ssf_event_type"
  const CORRELATION := "ssf_correlation_id"
  const SSF := {STATUS, SOURCE, EVENT, CORRELATION}

  /** The metadata a flag posts. Clearing empties two keys and leaves the other two naming the clearing signal. */
  function Flag(signal: InboundSET): Meta {
    if signal.eventType == DEGRADED then
      map[STATUS := "degraded", SOURCE := signal.sourceID,
          EVENT := signal.eventType, CORRELATION := signal.correlationID]
    else
      map[STATUS := "", SOURCE := "", EVENT := signal.eventType, CORRELATION := signal.correlationID]
  }

  /** A signal, the token in the environment at that moment, and how the one or two requests fare. */
  datatype Step = Step(signal: InboundSET, token: string, first: Answer, second: Answer)

  function FlagEntity(mode: Mode, sv: Server, s: Step): (Server, Option<Error>) {
    if s.token == "" then (sv, Some(NoToken))
    else
      var (entity, err) := LookupEntityID(sv, s.token, s.first);
      if err.Some? then (sv, Some(Lookup(err.value)))
      else if entity == "" then (sv, None)
      else
        var (after, resp) := ServeUpdate(mode, sv, s.token, entity, Flag(s.signal), s.second);
        (after,
         if resp.NoResponse? then Some(Transport)
         else if resp.status >= 400 then Some(Status(resp.status))
         else None)
  }

  function Act(mode: Mode, sv: Server, s: Step): (Server, Option<Error>) {
    if s.signal.eventType == COMPROMISED then RevokeSelf(sv, s.token, s.first)
    else if s.signal.eventType == DEGRADED || s.signal.eventType == RECOVERED then FlagEntity(mode, sv, s)
    else (sv, Some(UnhandledType(s.signal.eventType)))
  }

  function Run(mode: Mode, sv: Server, steps: seq<Step>): Server {
    if steps == [] then sv
    else Act(mode, Run(mode, sv, steps[..|steps| - 1]), steps[|steps| - 1]).0
  }
}

/** What any run of signals leaves on the server, whatever the requests meet. */
module VaultProofs {
  import opened Wrappers
  import opened Signals
  import opened VaultAction

  // ---------------------------------------------------------------- what one signal does

  /** The step's revocation reaches the server with this token. */
  ghost predicate Revokes(s: Step, token: string) {
    s.signal.eventType == COMPROMISED && s.token == token != "" && Arrives(s.first)
  }

  /** The step's update reaches the server for this entity. */
  ghost predicate Flags(sv: Server, s: Step, entity: string) {
    && (s.signal.eventType == DEGRADED || s.signal.eventType == RECOVERED)
    && s.token != "" && s.token in sv.live && sv.live[s.token] == entity != ""
    && s.first.Served? && Arrives(s.second)
  }

  /** The whole effect of one signal: at most one token goes, at most one entity's metadata changes. */
  lemma ActEffect(mode: Mode, sv: Server, s: Step, token: string, entity: string)
    ensures var after := Act(mode, sv, s).0;
            && (token in after.live <==> token in sv.live && !Revokes(s, token))
            && (token in after.live ==> after.live[token] == sv.live[token])
            && (entity in after.metadata <==> entity in sv.metadata || Flags(sv, s, entity))
            && MetaOf(after, entity) == if Flags(sv, s, entity) then Combined(mode, MetaOf(sv, entity), Flag(s.signal))
                                        else MetaOf(sv, entity)
  {
    EventTypesDiffer();
    hide Flag, Combined;
  }

  // ---------------------------------------------------------------- revocation

  ghost predicate EverRevokes(steps: seq<Step>, token: string) {
    exists i :: 0 <= i < |steps| && Revokes(steps[i], token)
  }

  /** After any run a token is live exactly if it was and no compromise signal's request has reached the server with it;
      and its entity is the one it had. */
  lemma {:induction false} LiveExactlyWhen(mode: Mode, sv: Server, steps: seq<Step>, token: string)
    ensures token in Run(mode, sv, steps).live <==> token in sv.live && !EverRevokes(steps, token)
    ensures token in Run(mode, sv, steps).live ==> Run(mode, sv, steps).live[token] == sv.live[token]
    decreases |steps|
  {
    if steps != [] {
      var front, last := steps[..|steps| - 1], steps[|steps| - 1];
      LiveExactlyWhen(mode, sv, front, token);
      hide Act, Revokes;
      ActEffect(mode, Run(mode, sv, front), last, token, "");
      assert forall i | 0 <= i < |front| :: front[i] == steps[i];
      if EverRevokes(steps, token) && !Revokes(last, token) {
        var i :| 0 <= i < |steps| && Revokes(steps[i], token);
        assert Revokes(front[i], token);
      }
      if EverRevokes(front, token) {
        var i :| 0 <= i < |front| && Revokes(front[i], token);
        assert Revokes(steps[i], token);
      }
    }
  }

  ghost predicate SucceedsIfAnswered(mode: Mode, sv: Server, s: Step) {
    s.token != "" && s.signal.eventType in {COMPROMISED, DEGRADED, RECOVERED} && s.first.Served?
    ==> Act(mode, sv, s).1 == None
  }

  /** Signals that find no valid token do nothing at all to the server. */
  lemma DeadTokenIsInert(mode: Mode, sv: Server, s: Step)
    requires s.token !in sv.live
    ensures Act(mode, sv, s).0 == sv
    ensures SucceedsIfAnswered(mode, sv, s)
  {
    EventTypesDiffer();
  }

  lemma {:induction false} NothingMoves(mode: Mode, sv: Server, steps: seq<Step>, i: nat, token: string)
    requires i <= |steps| && token !in Run(mode, sv, steps[..i]).live
    requires forall j | i <= j < |steps| :: steps[j].token == token
    ensures Run(mode, sv, steps) == Run(mode, sv, steps[..i])
    decreases |steps|
  {
    if i == |steps| {
      assert steps[..i] == steps;
    } else {
      var front, last := steps[..|steps| - 1], steps[|steps| - 1];
      assert front[..i] == steps[..i];
      NothingMoves(mode, sv, front, i, token);
      hide Act, SucceedsIfAnswered;
      DeadTokenIsInert(mode, Run(mode, sv, front), last);
    }
  }

  /** Once the server holds the token revoked, no later signals with that token change anything, whatever their requests
      meet; and each that is answered succeeds. */
  lemma RevokedForGood(mode: Mode, sv: Server, steps: seq<Step>, i: nat, token: string)
    requires i <= |steps| && token !in Run(mode, sv, steps[..i]).live
    requires forall j | i <= j < |steps| :: steps[j].token == token
    ensures Run(mode, sv, steps) == Run(mode, sv, steps[..i])
    ensures forall j | i <= j < |steps| :: SucceedsIfAnswered(mode, Run(mode, sv, steps[..j]), steps[j])
  {
    NothingMoves(mode, sv, steps, i, token);
    hide Run, Act, SucceedsIfAnswered;
    forall j | i <= j < |steps| ensures SucceedsIfAnswered(mode, Run(mode, sv, steps[..j]), steps[j]) {
      assert steps[..j][..i] == steps[..i];
      NothingMoves(mode, sv, steps[..j], i, token);
      DeadTokenIsInert(mode, Run(mode, sv, steps[..j]), steps[j]);
    }
  }

  /** A compromise signal that returns nil has got rid of the token, unless the server turned the request away with a
      status that the adapter takes for success: then, and only then, a live token is left behind. */
  lemma NilLeavesLiveExactlyWhen(mode: Mode, sv: Server, s: Step)
    requires s.signal.eventType == COMPROMISED
    ensures Act(mode, sv, s).1 == None && s.token in Act(mode, sv, s).0.live
            <==> s.token != "" && s.token in sv.live && s.first.Refused? && s.first.code in {200, 204, 403}
  {
    hide Flag;
  }

  // ---------------------------------------------------------------- flags

  ghost predicate NoFlags(mode: Mode, sv: Server, steps: seq<Step>, k: nat, entity: string) {
    forall j | k <= j < |steps| :: !Flags(Run(mode, sv, steps[..j]), steps[j], entity)
  }

  lemma FrontRuns(mode: Mode, sv: Server, steps: seq<Step>, k: nat, entity: string)
    requires steps != [] && k < |steps|
    ensures var front := steps[..|steps| - 1];
            NoFlags(mode, sv, steps, k, entity)
            <==> NoFlags(mode, sv, front, k, entity) && !Flags(Run(mode, sv, front), steps[|steps| - 1], entity)
  {
    hide Flags, Run;
    var front := steps[..|steps| - 1];
    assert forall j | 0 <= j < |front| :: front[..j] == steps[..j] && front[j] == steps[j];
  }

  /** Metadata no update has reached is as it was. */
  lemma {:induction false} Unflagged(mode: Mode, sv: Server, steps: seq<Step>, entity: string)
    requires NoFlags(mode, sv, steps, 0, entity)
    ensures MetaOf(Run(mode, sv, steps), entity) == MetaOf(sv, entity)
    decreases |steps|
  {
    if steps != [] {
      FrontRuns(mode, sv, steps, 0, entity);
      Unflagged(mode, sv, steps[..|steps| - 1], entity);
      ActEffect(mode, Run(mode, sv, steps[..|steps| - 1]), steps[|steps| - 1], "", entity);
      hide Act, Flags, NoFlags, MetaOf;
    }
  }

  ghost predicate AgreeOnSSF(m: Meta, n: Meta) {
    forall k | k in SSF :: k in m && k in n && m[k] == n[k]
  }

  lemma CombinedHas(mode: Mode, was: Meta, signal: InboundSET)
    ensures AgreeOnSSF(Combined(mode, was, Flag(signal)), Flag(signal))
  {
  }

  lemma {:induction false} LastFlagStays(mode: Mode, sv: Server, steps: seq<Step>, i: nat, entity: string)
    requires i < |steps| && Flags(Run(mode, sv, steps[..i]), steps[i], entity)
    requires NoFlags(mode, sv, steps, i + 1, entity)
    ensures AgreeOnSSF(MetaOf(Run(mode, sv, steps), entity), Flag(steps[i].signal))
    decreases |steps|
  {
    var front, last := steps[..|steps| - 1], steps[|steps| - 1];
    hide Act, Flags, NoFlags, MetaOf, Flag, AgreeOnSSF, Combined;
    ActEffect(mode, Run(mode, sv, front), last, "", entity);
    if i < |front| {
      assert front[..i] == steps[..i] && front[i] == steps[i];
      FrontRuns(mode, sv, steps, i + 1, entity);
      LastFlagStays(mode, sv, front, i, entity);
    } else {
      CombinedHas(mode, MetaOf(Run(mode, sv, front), entity), last.signal);
    }
  }

  /** A run whose flags all succeed, on one entity, by one live token. */
  ghost predicate AllFlags(steps: seq<Step>, token: string) {
    forall i | 0 <= i < |steps| ::
      && (steps[i].signal.eventType == DEGRADED || steps[i].signal.eventType == RECOVERED)
      && steps[i].token == token && steps[i].first.Served? && steps[i].second.Served?
  }

  /** The metadata say this signal: degraded with its source, or neither; and in either case its type and correlation. */
  ghost predicate Says(m: Meta, signal: InboundSET) {
    var degraded := signal.eventType == DEGRADED;
    && "ssf_status" in m && m["ssf_status"] == (if degraded then "degraded" else "")
    && "ssf_source_id" in m && m["ssf_source_id"] == (if degraded then signal.sourceID else "")
    && "ssf_event_type" in m && m["ssf_event_type"] == signal.eventType
    && "ssf_correlation_id" in m && m["ssf_correlation_id"] == signal.correlationID
  }

  lemma FlagTells(m: Meta, signal: InboundSET)
    requires AgreeOnSSF(m, Flag(signal))
    ensures Says(m, signal)
  {
    assert STATUS in SSF && SOURCE in SSF && EVENT in SSF && CORRELATION in SSF;
  }

  /** The last update to reach an entity decides its four ssf keys, alone: neither earlier signals nor failures, nor what
      the server does with the rest of the metadata, leave a trace in them. */
  lemma LastFlagWins(mode: Mode, sv: Server, steps: seq<Step>, i: nat, entity: string)
    requires i < |steps| && Flags(Run(mode, sv, steps[..i]), steps[i], entity)
    requires NoFlags(mode, sv, steps, i + 1, entity)
    ensures Says(MetaOf(Run(mode, sv, steps), entity), steps[i].signal)
  {
    hide Run, MetaOf, Flags, NoFlags, Flag, AgreeOnSSF, Says;
    LastFlagStays(mode, sv, steps, i, entity);
    FlagTells(MetaOf(Run(mode, sv, steps), entity), steps[i].signal);
  }

  lemma NeverRevoked(steps: seq<Step>, token: string)
    requires AllFlags(steps, token)
    ensures !EverRevokes(steps, token)
  {
    EventTypesDiffer();
  }

  /** After a run of successful flags the ssf keys tell the last signal: degraded with its source, or neither. */
  lemma FlagsTellLastSignal(mode: Mode, sv: Server, steps: seq<Step>, token: string)
    requires steps != [] && AllFlags(steps, token)
    requires token != "" && token in sv.live && sv.live[token] != ""
    ensures var m := MetaOf(Run(mode, sv, steps), sv.live[token]);
            var signal := steps[|steps| - 1].signal;
            Says(m, signal)
  {
    EventTypesDiffer();
    var n := |steps| - 1;
    NeverRevoked(steps[..n], token);
    LiveExactlyWhen(mode, sv, steps[..n], token);
    hide Run, MetaOf, Flag, AgreeOnSSF, Says;
    LastFlagWins(mode, sv, steps, n, sv.live[token]);
  }

  lemma FlagKeys(signal: InboundSET)
    ensures Flag(signal).Keys == SSF
  {
  }

  /** What became of the metadata under any other key. Merging servers keep it through every run; replacing servers drop
      it with the first update that reaches the entity, a clearing one included, and keep it until then. */
  lemma {:induction false} OtherKeys(mode: Mode, sv: Server, steps: seq<Step>, entity: string, key: string)
    requires key !in SSF && key in MetaOf(sv, entity)
    ensures key in MetaOf(Run(mode, sv, steps), entity) <==> mode.Merge? || NoFlags(mode, sv, steps, 0, entity)
    ensures key in MetaOf(Run(mode, sv, steps), entity) ==>
            MetaOf(Run(mode, sv, steps), entity)[key] == MetaOf(sv, entity)[key]
    decreases |steps|
  {
    if steps != [] {
      var front, last := steps[..|steps| - 1], steps[|steps| - 1];
      FrontRuns(mode, sv, steps, 0, entity);
      OtherKeys(mode, sv, front, entity, key);
      hide Act, Flags, NoFlags, MetaOf;
      ActEffect(mode, Run(mode, sv, front), last, "", entity);
      FlagKeys(last.signal);
    }
  }
}

/** The adapter in its own form. */
module VaultAdapters {
  import opened Wrappers
  import opened Signals
  import opened VaultAction
  import opened VaultProofs

  /** The entity of the step's token; "" if the token is empty or not valid, or has none. */
  function OwnEntity(sv: Server, s: Step): string {
    if s.token != "" && s.token in sv.live then sv.live[s.token] else ""
  }

  lemma FlagSaid(mode: Mode, was: Meta, signal: InboundSET)
    ensures Says(Combined(mode, was, Flag(signal)), signal)
  {
    CombinedHas(mode, was, signal);
    FlagTells(Combined(mode, was, Flag(signal)), signal);
  }

  class VaultAdapter {
    const mode: Mode
    var server: Server

    constructor (mode: Mode, server: Server)
      ensures this.mode == mode && this.server == server
    {
      this.mode, this.server := mode, server;
    }

    /** Revokes the token in the environment and no other, and never touches metadata. Nil stands for an answer that
        takes the token to be gone. */
    method RevokeSelf(token: string, a: Answer) returns (err: Option<Error>)
      modifies this
      ensures server.metadata == old(server.metadata)
      ensures server.live == if token != "" && Arrives(a) then old(server.live) - {token} else old(server.live)
      ensures err.None? <==> token != "" && (a.Served? || a.Garbled? || (a.Refused? && a.code in {200, 204, 403}))
      ensures (server, err) == VaultAction.RevokeSelf(old(server), token, a)
    {
      if token == "" { return Some(NoToken); }
      var (after, resp) := ServeRevoke(server, token, a);
      server := after;
      if resp.NoResponse? { return Some(Transport); }
      if resp.status == 403 { return None; }
      if resp.status != 204 && resp.status != 200 { return Some(Status(resp.status)); }
      return None;
    }

    /** Finds an entity only if it is the token's own; answers with none, and without error, for a token that is not
        valid or takes itself to be so. */
    method LookupEntityID(token: string, a: Answer) returns (entity: string, err: Option<Error>)
      ensures entity != "" ==> token in server.live && entity == server.live[token] && a.Served? && err.None?
      ensures err.None? && entity == "" ==> token !in server.live || server.live[token] == "" || a == Refused(403)
      ensures err.None? <==> a.Served? || a == Refused(403) || (a.Garbled? && token !in server.live)
      ensures (entity, err) == VaultAction.LookupEntityID(server, token, a)
    {
      var resp := ServeLookup(server, token, a);
      if resp.NoResponse? { return "", Some(Transport); }
      if resp.status == 403 { return "", None; }
      if resp.status != 200 { return "", Some(Status(resp.status)); }
      if resp.body.None? { return "", Some(Undecodable); }
      return resp.body.value, None;
    }

    /** Updates at most the metadata of the token's own entity, and only after a lookup that was answered and decoded. */
    method FlagEntity(s: Step, status: string) returns (err: Option<Error>)
      requires status == if s.signal.eventType == DEGRADED then "degraded" else ""
      modifies this
      ensures server.live == old(server.live)
      ensures server.metadata.Keys <= old(server.metadata.Keys) + {OwnEntity(old(server), s)}
      ensures forall e | e in old(server.metadata) && e != OwnEntity(old(server), s) ::
                e in server.metadata && server.metadata[e] == old(server.metadata)[e]
      ensures server != old(server) ==> OwnEntity(old(server), s) != "" && s.first.Served? && Arrives(s.second)
      ensures OwnEntity(old(server), s) != "" && s.first.Served? && Arrives(s.second) ==>
                MetaOf(server, OwnEntity(old(server), s))
                == Combined(mode, MetaOf(old(server), OwnEntity(old(server), s)), Flag(s.signal))
      ensures OwnEntity(old(server), s) != "" && s.first.Served? && Arrives(s.second) ==>
                Says(MetaOf(server, OwnEntity(old(server), s)), s.signal)
      ensures err.None? <==>
                && s.token != ""
                && (s.first.Served? || s.first == Refused(403) || (s.first.Garbled? && s.token !in old(server).live))
                && (s.first.Served? && OwnEntity(old(server), s) != "" ==>
                      s.second.Served? || s.second.Garbled? || (s.second.Refused? && s.second.code < 400))
      ensures (server, err) == VaultAction.FlagEntity(mode, old(server), s)
    {
      if s.token == "" { return Some(NoToken); }
      var entity, lookup := LookupEntityID(s.token, s.first);
      if lookup.Some? { return Some(Lookup(lookup.value)); }
      if entity == "" { return None; }
      var metadata := map[STATUS := status, SOURCE := s.signal.sourceID,
                          EVENT := s.signal.eventType, CORRELATION := s.signal.correlationID];
      if status == "" {
        metadata := metadata[STATUS := ""];
        metadata := metadata[SOURCE := ""];
      }
      assert metadata == Flag(s.signal);
      FlagSaid(mode, MetaOf(server, entity), s.signal);
      hide Flag, Says, Combined;
      var (after, resp) := ServeUpdate(mode, server, s.token, entity, metadata, s.second);
      server := after;
      if resp.NoResponse? { return Some(Transport); }
      if resp.status >= 400 { return Some(Status(resp.status)); }
      return None;
    }

    method Act(s: Step) returns (err: Option<Error>)
      modifies this
      ensures s.signal.eventType !in {COMPROMISED, DEGRADED, RECOVERED} ==>
                server == old(server) && err == Some(UnhandledType(s.signal.eventType))
      ensures (server, err) == VaultAction.Act(mode, old(server), s)
    {
      EventTypesDiffer();
      hide VaultAction.RevokeSelf, VaultAction.FlagEntity;
      if s.signal.eventType == COMPROMISED {
        err := RevokeSelf(s.token, s.first);
      } else if s.signal.eventType == DEGRADED {
        err := FlagEntity(s, "degraded");
      } else if s.signal.eventType == RECOVERED {
        err := FlagEntity(s, "");
      } else {
        err := Some(UnhandledType(s.signal.eventType));
      }
    }

    /** The signals the router hands over, however each request fares. */
    method ActAll(steps: seq<Step>)
      modifies this
      ensures server == Run(mode, old(server), steps)
    {
      for i := 0 to |steps|
        invariant server == Run(mode, old(server), steps[..i])
      {
        hide VaultAction.Act;
        assert steps[..i + 1][..i] == steps[..i];
        var _ := Act(steps[i]);
      }
      assert steps[..|steps|] == steps;
    }
  }
}
