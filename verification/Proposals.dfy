/**
 Connection proposals (engine/internal/application/mcp_connection_proposal_service.go and
 engine/internal/domain/mcp_connection_proposal.go): made from a discovered local endpoint, then
 resolved once. Candidate ids and the loopback test are unknown functions.
 */
module Proposals {
  import opened Text

  /** The strings the service branches on, with a constructor for every other string. */
  datatype Operation = ForCreate | ForUpdate | OtherOperation(text: string)
  datatype Action = MarkApplied | Reject | OtherAction(text: string)
  datatype Status = Pending | Applied | Rejected

  datatype Proposal = Proposal(
    id: string, workspaceId: string, operation: Operation, targetProfileId: string, resultProfileId: string,
    targetUpdatedAt: Option<nat>, candidateId: string, name: string, driver: string, host: string, port: int,
    database: string, username: string, tlsMode: string, source: string, sourceName: string, status: Status,
    createdAt: nat, updatedAt: nat)

  datatype Candidate = Candidate(id: string, driver: string, host: string, port: int, source: string, sourceName: string)

  /** The part of a connection profile a proposal looks at. */
  datatype Target = Target(name: string, driver: string, database: string, username: string, tlsMode: string, updatedAt: nat)

  datatype Env = Env(candidateId: (string, string, int) -> string, loopback: string -> bool)

  predicate EndpointOk(env: Env, driver: string, host: string, port: int, candidateId: string) {
    env.loopback(host) && 1 <= port <= 65535 && candidateId == env.candidateId(driver, host, port)
  }

  /** DiscoveredDatabase.Validate. */
  predicate CandidateValid(env: Env, c: Candidate) {
    && c.driver in ["mysql", "postgres", "redis", "sqlserver", "mongodb"]
    && c.id != "" && EndpointOk(env, c.driver, c.host, c.port, c.id)
    && c.source in ["local", "docker"]
  }

  /** The profile a proposal creates or changes is named as its operation demands. */
  predicate TargetOk(p: Proposal) {
    match p.operation
    case ForCreate => p.targetProfileId == "" && p.resultProfileId != ""
    case ForUpdate => p.targetProfileId != "" && p.targetUpdatedAt.Some? && p.resultProfileId == ""
    case OtherOperation(_) => false
  }

  predicate DetailsOk(name: string, driver: string, source: string, tlsMode: string) {
    && TrimSpace(name) != "" && driver in ["mysql", "postgres", "sqlserver"]
    && source in ["local", "docker"] && tlsMode in ["none", "prefer", "require"]
  }

  /** MCPConnectionProposal.Validate. */
  predicate Valid(env: Env, p: Proposal) {
    && p.id != "" && p.workspaceId != ""
    && TargetOk(p)
    && DetailsOk(p.name, p.driver, p.source, p.tlsMode)
    && EndpointOk(env, p.driver, p.host, p.port, p.candidateId)
  }

  /** The discovered endpoint a proposal carries. */
  function EndpointOf(p: Proposal): Candidate {
    Candidate(p.candidateId, p.driver, p.host, p.port, p.source, p.sourceName)
  }

  /** What Propose fixes for good: everything but the status and the time of the last change. */
  function Frozen(p: Proposal): Proposal {
    p.(status := Pending, updatedAt := p.createdAt)
  }

  // ------------------------------------------------------------- the specification

  /** The first candidate with the asked id that is itself valid. */
  function FindCandidate(env: Env, candidates: seq<Candidate>, id: string): (r: Option<Candidate>)
    ensures r.Some? ==> r.value in candidates && r.value.id == id && CandidateValid(env, r.value)
    ensures r.None? ==> forall c :: c in candidates && c.id == id ==> !CandidateValid(env, c)
  {
    if candidates == [] then None
    else if candidates[0].id == id && CandidateValid(env, candidates[0]) then Some(candidates[0])
    else FindCandidate(env, candidates[1..], id)
  }

  /** What the world answers while a proposal is made; discovered is None if discovery fails. */
  datatype Answers = Answers(
    discovered: Option<seq<Candidate>>, profiles: map<string, Target>,
    freshId: string, freshProfileId: string, defaultName: Candidate -> string, now: nat)

  function OrElse(a: string, b: string): string {
    if a == "" then b else a
  }

  /** The fields that depend on whether a profile is created or updated; None where Propose gives up. */
  function Targeted(input: Proposal, a: Answers, c: Candidate): Option<Proposal> {
    if input.operation.ForCreate? then
      Some(input.(targetProfileId := "", resultProfileId := a.freshProfileId,
                  name := if TrimSpace(input.name) == "" then a.defaultName(c) else input.name))
    else if input.targetProfileId == "" || input.targetProfileId !in a.profiles then None
    else
      var profile := a.profiles[input.targetProfileId];
      if profile.driver != c.driver then None
      else
        Some(input.(resultProfileId := "", targetUpdatedAt := Some(profile.updatedAt),
                    name := if TrimSpace(input.name) == "" then profile.name else input.name,
                    database := OrElse(input.database, profile.database),
                    username := OrElse(input.username, profile.username),
                    tlsMode := OrElse(input.tlsMode, profile.tlsMode)))
  }

  function Proposed(env: Env, proposals: map<string, Proposal>, input: Proposal, a: Answers): Option<Proposal> {
    if input.operation.OtherOperation? || a.discovered.None? then None
    else
      match FindCandidate(env, a.discovered.value, input.candidateId)
      case None => None
      case Some(c) =>
        match Targeted(input, a, c)
        case None => None
        case Some(t) =>
          var p := t.(id := a.freshId, workspaceId := "default", candidateId := c.id, driver := c.driver, host := c.host, port := c.port,
                      source := c.source, sourceName := c.sourceName, tlsMode := OrElse(t.tlsMode, "none"),
                      status := Pending, createdAt := a.now, updatedAt := a.now);
          if Valid(env, p) && a.freshId !in proposals then Some(p) else None
  }

  function Propose(env: Env, proposals: map<string, Proposal>, input: Proposal, a: Answers): map<string, Proposal> {
    match Proposed(env, proposals, input, a)
    case None => proposals
    case Some(p) => proposals[a.freshId := p]
  }

  function TargetStatus(action: Action): Option<Status> {
    match action
    case MarkApplied => Some(Applied)
    case Reject => Some(Rejected)
    case OtherAction(_) => None
  }

  /** Resolve: the new store, and whether it answers without an error. */
  function Resolve(proposals: map<string, Proposal>, workspaceId: string, id: string, action: Action, now: nat)
    : (map<string, Proposal>, bool)
  {
    var workspace := OrElse(workspaceId, "default");
    if id !in proposals || proposals[id].workspaceId != workspace then (proposals, false)
    else
      var p := proposals[id];
      if p.status != Pending then (proposals, TargetStatus(action) == Some(p.status))
      else
        match TargetStatus(action)
        case None => (proposals, false)
        case Some(status) => (proposals[id := p.(status := status, updatedAt := now)], true)
  }

  // ------------------------------------------------------------------ the service

  class ProposalService {
    const env: Env
    var proposals: map<string, Proposal>

    constructor (env: Env)
      ensures proposals == map[] && this.env == env
    {
      this.env := env;
      proposals := map[];
    }

    method ProposeConnection(input: Proposal, a: Answers) returns (r: Option<Proposal>)
      modifies this
      ensures r == Proposed(env, old(proposals), input, a)
      ensures proposals == Propose(env, old(proposals), input, a)
    {
      if input.operation.OtherOperation? { return None; }
      if a.discovered.None? { return None; }
      var candidate := PickCandidate(a.discovered.value, input.candidateId);
      if candidate.None? { return None; }
      var c := candidate.value;
      var target := FillTarget(input, a, c);
      if target.None? { return None; }
      var p := target.value;
      p := p.(id := a.freshId, workspaceId := "default");
      p := p.(candidateId := c.id, driver := c.driver, host := c.host, port := c.port, source := c.source, sourceName := c.sourceName);
      if p.tlsMode == "" { p := p.(tlsMode := "none"); }
      p := p.(status := Pending, createdAt := a.now, updatedAt := a.now);
      if !Valid(env, p) { return None; }
      if a.freshId in proposals { return None; }
      proposals := proposals[a.freshId := p];
      return Some(p);
    }

    /** The search loop of Propose. */
    method PickCandidate(candidates: seq<Candidate>, id: string) returns (r: Option<Candidate>)
      ensures r == FindCandidate(env, candidates, id)
    {
      assert candidates[0..] == candidates;
      for i := 0 to |candidates|
        invariant FindCandidate(env, candidates, id) == FindCandidate(env, candidates[i..], id)
      {
        assert candidates[i..][1..] == candidates[i + 1..];
        if candidates[i].id == id && CandidateValid(env, candidates[i]) { return Some(candidates[i]); }
      }
      return None;
    }

    /** The switch over the operation in the middle of Propose. */
    method FillTarget(input: Proposal, a: Answers, c: Candidate) returns (r: Option<Proposal>)
      requires !input.operation.OtherOperation?
      ensures r == Targeted(input, a, c)
    {
      var p := input.(resultProfileId := "");
      if p.operation.ForCreate? {
        p := p.(targetProfileId := "", resultProfileId := a.freshProfileId);
        if TrimSpace(p.name) == "" { p := p.(name := a.defaultName(c)); }
      } else {
        if p.targetProfileId == "" { return None; }
        if p.targetProfileId !in a.profiles { return None; }
        var profile := a.profiles[p.targetProfileId];
        if profile.driver != c.driver { return None; }
        if TrimSpace(p.name) == "" { p := p.(name := profile.name); }
        if p.database == "" { p := p.(database := profile.database); }
        if p.username == "" { p := p.(username := profile.username); }
        if p.tlsMode == "" { p := p.(tlsMode := profile.tlsMode); }
        p := p.(targetUpdatedAt := Some(profile.updatedAt));
      }
      return Some(p);
    }

    method ResolveProposal(workspaceId: string, id: string, action: Action, now: nat) returns (ok: bool)
      modifies this
      ensures (proposals, ok) == Resolve(old(proposals), workspaceId, id, action, now)
    {
      var workspace := if workspaceId == "" then "default" else workspaceId;
      if id !in proposals || proposals[id].workspaceId != workspace { return false; }
      var p := proposals[id];
      if p.status != Pending {
        return (action.MarkApplied? && p.status.Applied?) || (action.Reject? && p.status.Rejected?);
      }
      match action {
        case MarkApplied => p := p.(status := Applied);
        case Reject => p := p.(status := Rejected);
        case OtherAction(_) => return false;
      }
      proposals := proposals[id := p.(updatedAt := now)];
      return true;
    }
  }

  // ------------------------------------------------------------------ what it keeps

  /**
   The endpoint of an accepted proposal is one that discovery found and that is valid itself; an
   update keeps driver and revision of its target.
   */
  lemma ProposalComesFromDiscovery(env: Env, proposals: map<string, Proposal>, input: Proposal, a: Answers)
    requires Proposed(env, proposals, input, a).Some?
    ensures var p := Proposed(env, proposals, input, a).value;
      && Valid(env, p) && p.status == Pending && p.workspaceId == "default" && p.id == a.freshId && a.freshId !in proposals
      && a.discovered.Some?
      && (exists c :: c in a.discovered.value && CandidateValid(env, c) && c.id == input.candidateId && EndpointOf(p) == c)
      && (p.operation.ForUpdate? ==>
          && p.targetProfileId in a.profiles
          && a.profiles[p.targetProfileId].driver == p.driver
          && p.targetUpdatedAt == Some(a.profiles[p.targetProfileId].updatedAt))
      && (p.operation.ForCreate? ==> p.resultProfileId == a.freshProfileId)
  {
    var c := FindCandidate(env, a.discovered.value, input.candidateId).value;
    assert c in a.discovered.value && CandidateValid(env, c);
  }

  /** A discovered endpoint on this machine, of a kind that can be discovered. */
  predicate Local(env: Env, c: Candidate) {
    && c.driver in ["mysql", "postgres", "redis", "sqlserver", "mongodb"] && c.source in ["local", "docker"]
    && env.loopback(c.host) && 0 < c.port < 65536 && c.id != "" && c.id == env.candidateId(c.driver, c.host, c.port)
  }

  /** The endpoint taken is the first local one with the asked id, and there is one if and only if one was discovered. */
  lemma {:induction false} CandidateIsLocal(env: Env, candidates: seq<Candidate>, id: string)
    ensures match FindCandidate(env, candidates, id)
      case None => forall c | c in candidates && c.id == id :: !Local(env, c)
      case Some(c) => exists k :: 0 <= k < |candidates| && candidates[k] == c && c.id == id && Local(env, c)
                        && forall j | 0 <= j < k :: candidates[j].id != id || !Local(env, candidates[j])
  {
    if candidates != [] && !(candidates[0].id == id && CandidateValid(env, candidates[0])) {
      CandidateIsLocal(env, candidates[1..], id);
      if FindCandidate(env, candidates[1..], id).Some? {
        var c := FindCandidate(env, candidates, id).value;
        var k :| 0 <= k < |candidates[1..]| && candidates[1..][k] == c && c.id == id && Local(env, c)
          && forall j | 0 <= j < k :: candidates[1..][j].id != id || !Local(env, candidates[1..][j]);
        forall j | 0 <= j < k + 1 ensures candidates[j].id != id || !Local(env, candidates[j]) {
          if j > 0 { assert candidates[1..][j - 1] == candidates[j]; }
        }
        assert candidates[k + 1] == c;
      }
    }
  }

  /** What is proposed where the caller left a field empty: the target's value, or a default. */
  function ProposedName(input: Proposal, a: Answers, c: Candidate): string
    requires input.operation.ForUpdate? ==> input.targetProfileId in a.profiles
  {
    if TrimSpace(input.name) != "" then input.name
    else if input.operation.ForUpdate? then a.profiles[input.targetProfileId].name else a.defaultName(c)
  }

  function ProposedTls(input: Proposal, a: Answers): string
    requires input.operation.ForUpdate? ==> input.targetProfileId in a.profiles
  {
    if input.tlsMode != "" then input.tlsMode
    else if input.operation.ForUpdate? && a.profiles[input.targetProfileId].tlsMode != "" then a.profiles[input.targetProfileId].tlsMode
    else "none"
  }

  /** The profile to change is there and of the endpoint's kind. */
  predicate TargetFits(input: Proposal, a: Answers, c: Candidate) {
    input.operation.ForUpdate? ==>
      input.targetProfileId != "" && input.targetProfileId in a.profiles && a.profiles[input.targetProfileId].driver == c.driver
  }

  /**
   When a proposal is made: for a create or an update whose target fits, of a local SQL endpoint that was discovered,
   with a name and a TLS mode the profile may have, under ids that are new; and in no other case.
   */
  lemma ProposedIff(env: Env, proposals: map<string, Proposal>, input: Proposal, a: Answers)
    ensures Proposed(env, proposals, input, a).Some? <==>
      && !input.operation.OtherOperation? && a.discovered.Some?
      && var found := FindCandidate(env, a.discovered.value, input.candidateId);
         && found.Some? && found.value.driver in ["mysql", "postgres", "sqlserver"]
         && TargetFits(input, a, found.value)
         && TrimSpace(ProposedName(input, a, found.value)) != ""
         && ProposedTls(input, a) in ["none", "prefer", "require"]
         && a.freshId != "" && a.freshId !in proposals && (input.operation.ForCreate? ==> a.freshProfileId != "")
  {
    if a.discovered.Some? { CandidateIsLocal(env, a.discovered.value, input.candidateId); }
  }

  /** A field the caller gave is kept; one left empty is taken from the target of an update, or from the defaults. */
  lemma FieldsAreKept(env: Env, proposals: map<string, Proposal>, input: Proposal, a: Answers)
    requires Proposed(env, proposals, input, a).Some?
    ensures var (p, c) := (Proposed(env, proposals, input, a).value, FindCandidate(env, a.discovered.value, input.candidateId).value);
      && TargetFits(input, a, c)
      && p.name == ProposedName(input, a, c) && p.tlsMode == ProposedTls(input, a)
      && (input.database != "" || input.operation.ForCreate? ==> p.database == input.database)
      && (input.username != "" || input.operation.ForCreate? ==> p.username == input.username)
      && (input.operation.ForUpdate? ==>
          && (input.database == "" ==> p.database == a.profiles[input.targetProfileId].database)
          && (input.username == "" ==> p.username == a.profiles[input.targetProfileId].username))
      && p.operation == input.operation && p.createdAt == p.updatedAt == a.now
      && (input.operation.ForUpdate? ==> p.targetProfileId == input.targetProfileId)
  {
  }

  /** What a resolution asks for and what the store then says. */
  predicate Means(action: Action, status: Status) {
    (action == MarkApplied && status == Applied) || (action == Reject && status == Rejected)
  }

  /**
   When a resolution succeeds: for a proposal of that workspace, "default" if none is named, that is still pending
   and marked applied or rejected, or that already is what is asked for. It then is, and nothing else has changed.
   */
  lemma ResolveIff(proposals: map<string, Proposal>, workspaceId: string, id: string, action: Action, now: nat)
    ensures var (s, ok) := Resolve(proposals, workspaceId, id, action, now);
      && (ok <==>
          && id in proposals && proposals[id].workspaceId == (if workspaceId == "" then "default" else workspaceId)
          && (if proposals[id].status == Pending then action in [MarkApplied, Reject] else Means(action, proposals[id].status)))
      && (ok ==> id in s && Means(action, s[id].status) && s[id] == proposals[id].(status := s[id].status, updatedAt := s[id].updatedAt))
      && (ok && proposals[id].status == Pending ==> s[id].updatedAt == now)
      && (!ok || proposals[id].status != Pending ==> s == proposals)
      && forall other | other != id :: (other in s <==> other in proposals) && (other in s ==> s[other] == proposals[other])
  {
  }

  /** What every stored proposal is: a create of a new profile, or an update of an existing one at a known revision, at a local SQL endpoint. */
  lemma ValidIff(env: Env, p: Proposal)
    ensures Valid(env, p) <==>
      && p.id != "" && p.workspaceId != "" && TrimSpace(p.name) != ""
      && ((p.operation == ForCreate && p.targetProfileId == "" && p.resultProfileId != "")
          || (p.operation == ForUpdate && p.targetProfileId != "" && p.targetUpdatedAt != None && p.resultProfileId == ""))
      && p.driver in ["mysql", "postgres", "sqlserver"] && p.tlsMode in ["none", "prefer", "require"]
      && p.candidateId == env.candidateId(p.driver, p.host, p.port)
      && env.loopback(p.host) && 0 < p.port < 65536 && p.source in ["local", "docker"]
  {
  }

  datatype Op = ProposeOp(input: Proposal, a: Answers) | ResolveOp(workspaceId: string, id: string, action: Action, now: nat)

  function Step(env: Env, proposals: map<string, Proposal>, op: Op): map<string, Proposal> {
    match op
    case ProposeOp(input, a) => Propose(env, proposals, input, a)
    case ResolveOp(workspaceId, id, action, now) => Resolve(proposals, workspaceId, id, action, now).0
  }

  function RunOps(env: Env, proposals: map<string, Proposal>, ops: seq<Op>): map<string, Proposal>
    decreases |ops|
  {
    if ops == [] then proposals else RunOps(env, Step(env, proposals, ops[0]), ops[1..])
  }

  ghost predicate Inv(env: Env, proposals: map<string, Proposal>) {
    forall id | id in proposals :: proposals[id].id == id && Valid(env, proposals[id])
  }

  /** No proposal is lost or rewritten; a status only ever leaves pending, and a resolved proposal is final. */
  ghost predicate Follows(before: map<string, Proposal>, after: map<string, Proposal>) {
    forall id | id in before ::
      id in after && Frozen(after[id]) == Frozen(before[id]) && (before[id].status != Pending ==> after[id] == before[id])
  }

  lemma PutFollows(env: Env, proposals: map<string, Proposal>, p: Proposal)
    requires Inv(env, proposals) && Valid(env, p)
    requires p.id in proposals ==> proposals[p.id].status == Pending && Frozen(p) == Frozen(proposals[p.id])
    ensures Inv(env, proposals[p.id := p]) && Follows(proposals, proposals[p.id := p])
  {
  }

  /** The record a resolution writes. */
  function Settled(p: Proposal, status: Status, now: nat): Proposal {
    p.(status := status, updatedAt := now)
  }

  lemma SettledIsValid(env: Env, p: Proposal, status: Status, now: nat)
    ensures Valid(env, Settled(p, status, now)) == Valid(env, p) && Frozen(Settled(p, status, now)) == Frozen(p)
    ensures Settled(p, status, now).id == p.id
  {
  }

  lemma ResolveCases(proposals: map<string, Proposal>, workspaceId: string, id: string, action: Action, now: nat)
    ensures var s := Resolve(proposals, workspaceId, id, action, now).0;
      || s == proposals
      || (id in proposals && proposals[id].status == Pending && TargetStatus(action).Some?
          && s == proposals[id := Settled(proposals[id], TargetStatus(action).value, now)])
  {
  }

  lemma ResolveFollows(env: Env, proposals: map<string, Proposal>, workspaceId: string, id: string, action: Action, now: nat)
    requires Inv(env, proposals)
    ensures var s := Resolve(proposals, workspaceId, id, action, now).0; Inv(env, s) && Follows(proposals, s)
  {
    ResolveCases(proposals, workspaceId, id, action, now);
    if Resolve(proposals, workspaceId, id, action, now).0 != proposals {
      SettledIsValid(env, proposals[id], TargetStatus(action).value, now);
      PutFollows(env, proposals, Settled(proposals[id], TargetStatus(action).value, now));
    }
  }

  lemma StepFollows(env: Env, proposals: map<string, Proposal>, op: Op)
    requires Inv(env, proposals)
    ensures Inv(env, Step(env, proposals, op)) && Follows(proposals, Step(env, proposals, op))
  {
    match op
    case ProposeOp(input, a) =>
      if Proposed(env, proposals, input, a).Some? {
        ProposalComesFromDiscovery(env, proposals, input, a);
        PutFollows(env, proposals, Proposed(env, proposals, input, a).value);
      }
    case ResolveOp(workspaceId, id, action, now) =>
      ResolveFollows(env, proposals, workspaceId, id, action, now);
  }

  /** Over every run from any good store: all proposals stay valid, frozen but for their status, and final once resolved. */
  lemma {:induction false} RunsFollow(env: Env, proposals: map<string, Proposal>, ops: seq<Op>)
    requires Inv(env, proposals)
    ensures Inv(env, RunOps(env, proposals, ops)) && Follows(proposals, RunOps(env, proposals, ops))
    decreases |ops|
  {
    if ops != [] {
      StepFollows(env, proposals, ops[0]);
      RunsFollow(env, Step(env, proposals, ops[0]), ops[1..]);
    }
  }

  /** After a resolution, whatever happens since, the same action is a no-op that succeeds and any other fails. */
  lemma ResolvedIsFinal(env: Env, proposals: map<string, Proposal>, workspaceId: string, id: string, action: Action, now: nat,
                        ops: seq<Op>, action': Action, later: nat)
    requires Inv(env, proposals) && Resolve(proposals, workspaceId, id, action, now).1
    ensures var s := RunOps(env, Resolve(proposals, workspaceId, id, action, now).0, ops);
      && id in s && Means(action, s[id].status)
      && Resolve(s, workspaceId, id, action', later) == (s, action' == action)
  {
    var s0 := Resolve(proposals, workspaceId, id, action, now).0;
    ResolveFollows(env, proposals, workspaceId, id, action, now);
    ResolveSettles(proposals, workspaceId, id, action, now);
    RunsFollow(env, s0, ops);
    ResolveAgain(RunOps(env, s0, ops), workspaceId, id, action, action', later);
  }

  /** A resolution that succeeds leaves the proposal with the status it asked for. */
  lemma ResolveSettles(proposals: map<string, Proposal>, workspaceId: string, id: string, action: Action, now: nat)
    requires Resolve(proposals, workspaceId, id, action, now).1
    ensures var s := Resolve(proposals, workspaceId, id, action, now).0;
      id in s && s[id].workspaceId == OrElse(workspaceId, "default") && s[id].status != Pending && TargetStatus(action) == Some(s[id].status)
  {
  }

  lemma ResolveAgain(s: map<string, Proposal>, workspaceId: string, id: string, action: Action, action': Action, later: nat)
    requires id in s && s[id].workspaceId == OrElse(workspaceId, "default") && s[id].status != Pending
    requires TargetStatus(action) == Some(s[id].status)
    ensures Resolve(s, workspaceId, id, action', later) == (s, action' == action)
  {
  }
}
