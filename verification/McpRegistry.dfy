/**
 Tool registries (engine/internal/agent/tools.go and mcp_profiles.go): one per profile, and a shared
 one that routes each call to the profile named by its connectionId. Tools answer with a reply and
 with the statements they sent to a connector.
 */
module McpRegistry {
  import opened Text
  import QueryPolicy
  import opened McpScope

  datatype Arg = StrArg(text: string) | OtherArg
  type Args = map<string, Arg>

  /** A statement sent to a profile's connector. */
  datatype Sent = Sent(profileId: string, database: string, sql: string, readOnly: bool)
  datatype Reply = Answer(text: string) | Refusal(error: string)
  datatype Outcome = Outcome(reply: Reply, sent: seq<Sent>)

  datatype Tool = Tool(name: string, run: Args -> Outcome)
  datatype Registry = Registry(tools: map<string, Tool>, order: seq<string>)

  const EMPTY := Registry(map[], [])

  function Add(r: Registry, t: Tool): Registry {
    Registry(r.tools[t.name := t], r.order + [t.name])
  }

  function Refused(error: string): Outcome {
    Outcome(Refusal(error), [])
  }

  function Dispatch(r: Registry, name: string, args: Args): Outcome {
    if name in r.tools then r.tools[name].run(args) else Refused("unknown tool")
  }

  function StrArgOf(args: Args, key: string): string {
    if key in args && args[key].StrArg? then args[key].text else ""
  }

  // ------------------------------------------------------------ collecting rows

  const READ_QUERY_LIMIT := 200

  datatype QueryRows<T> = QueryRows(rows: seq<T>, rowCount: nat, truncated: bool)

  /** The row callback of runQueryInDatabase over everything the connector streams. */
  method CollectRows<T>(streamed: seq<T>) returns (r: QueryRows<T>)
    ensures r.rows == if |streamed| <= READ_QUERY_LIMIT then streamed else streamed[..READ_QUERY_LIMIT]
    ensures r.rowCount == |r.rows| && (r.truncated <==> r.rows != streamed)
  {
    var rows: seq<T> := [];
    var truncated := false;
    for i := 0 to |streamed|
      invariant rows == if i <= READ_QUERY_LIMIT then streamed[..i] else streamed[..READ_QUERY_LIMIT]
      invariant truncated <==> i > READ_QUERY_LIMIT
    {
      if |rows| >= READ_QUERY_LIMIT {
        truncated := true;
      } else {
        rows := rows + [streamed[i]];
      }
    }
    return QueryRows(rows, |rows|, truncated);
  }

  // --------------------------------------------------------- one profile's registry

  datatype WriteMode = Disabled | ApprovalRequired | FullAccess

  /** NormalizeMCPWriteMode. */
  function NormalizeWriteMode(mode: string): WriteMode {
    if mode == "approval_required" then ApprovalRequired else if mode == "full_access" then FullAccess else Disabled
  }

  /** write is None for a registry built without a write configuration; proposals: it has a proposal store. */
  datatype WriteConfig = WriteConfig(mode: string, proposals: bool)
  datatype Profile = Profile(
    id: string, driver: string, database: string, scope: Scope, readOnly: bool, write: Option<WriteConfig>)

  /**
   What the model leaves open: the reference patterns, the metadata and diagnostic tools in the three
   groups in which they stand between the others, the queries such a tool runs (None when its own scope
   check refuses), the connector's answer, and the answers about proposals.
   */
  datatype Library = Library(
    patterns: Patterns,
    catalog: seq<string>,
    summary: seq<string>,
    diagnostics: seq<string>,
    queriesOf: (string, Profile, Args) -> Option<seq<string>>,
    answer: Sent -> Reply,
    propose: (Profile, string) -> Reply,
    proposalStatus: (Profile, string) -> Reply)

  function TargetDatabase(p: Profile, args: Args): string {
    var selected := TrimSpace(StrArgOf(args, "database"));
    if selected != "" then selected else p.database
  }

  predicate Authorized(lib: Library, p: Profile, target: string, sql: string) {
    AllowsExact(p.scope.databases, target) && QueryAllowed(lib.patterns, p.driver, target, p.scope, sql)
  }

  /** run_select, and explain_query with its prefix. */
  function RunRead(lib: Library, p: Profile, prefix: string, args: Args): Outcome {
    var target := TargetDatabase(p, args);
    var sql := StrArgOf(args, "sql");
    if !Authorized(lib, p, target, sql) then Refused("denied")
    else
      var s := Sent(p.id, target, prefix + sql, true);
      Outcome(lib.answer(s), [s])
  }

  function RunMetadata(lib: Library, p: Profile, name: string, args: Args): Outcome {
    match lib.queriesOf(name, p, args)
    case None => Refused("denied")
    case Some(queries) =>
      Outcome(Answer(""), seq(|queries|, i requires 0 <= i < |queries| => Sent(p.id, TargetDatabase(p, args), queries[i], true)))
  }

  function RunPropose(lib: Library, p: Profile, args: Args): Outcome {
    var sql := StrArgOf(args, "sql");
    if !Authorized(lib, p, TargetDatabase(p, args), sql) then Refused("denied") else Outcome(lib.propose(p, sql), [])
  }

  function RunWrite(lib: Library, p: Profile, args: Args): Outcome {
    var target := TargetDatabase(p, args);
    var sql := StrArgOf(args, "sql");
    if !Authorized(lib, p, target, sql) then Refused("denied")
    else if QueryPolicy.ClassifyQuery(sql).readOnly then Refused("execute_write requires a write statement")
    else
      var s := Sent(p.id, target, sql, false);
      Outcome(lib.answer(s), [s])
  }

  function RunStatus(lib: Library, p: Profile, args: Args): Outcome {
    Outcome(lib.proposalStatus(p, StrArgOf(args, "proposalId")), [])
  }

  function MetadataTool(lib: Library, p: Profile, name: string): Tool {
    Tool(name, (args: Args) => RunMetadata(lib, p, name, args))
  }

  function ReadTool(lib: Library, p: Profile, name: string, prefix: string): Tool {
    Tool(name, (args: Args) => RunRead(lib, p, prefix, args))
  }

  function ProposeTool(lib: Library, p: Profile): Tool {
    Tool("propose_write", (args: Args) => RunPropose(lib, p, args))
  }

  function WriteTool(lib: Library, p: Profile): Tool {
    Tool("execute_write", (args: Args) => RunWrite(lib, p, args))
  }

  function StatusTool(lib: Library, p: Profile): Tool {
    Tool("write_proposal_status", (args: Args) => RunStatus(lib, p, args))
  }

  function AddMetadata(lib: Library, p: Profile, r: Registry, names: seq<string>): Registry
    decreases |names|
  {
    if names == [] then r else AddMetadata(lib, p, Add(r, MetadataTool(lib, p, names[0])), names[1..])
  }

  /** execute_write is registered exactly for a writable profile whose normalized mode is full_access. */
  predicate MayWrite(p: Profile) {
    p.write.Some? && NormalizeWriteMode(p.write.value.mode) == FullAccess && !p.readOnly
  }

  /** write_proposal_status is registered where proposals are stored for approval. */
  predicate TracksProposals(p: Profile) {
    p.write.Some? && p.write.value.proposals && NormalizeWriteMode(p.write.value.mode) == ApprovalRequired
  }

  function AddIf(r: Registry, condition: bool, t: Tool): Registry {
    if condition then Add(r, t) else r
  }

  /** newSQLRegistry up to its last diagnostic tool. */
  function ReadRegistry(lib: Library, p: Profile): Registry {
    var r := Add(AddMetadata(lib, p, EMPTY, lib.catalog), ReadTool(lib, p, "run_select", ""));
    var r := Add(AddMetadata(lib, p, r, lib.summary), ReadTool(lib, p, "explain_query", "EXPLAIN "));
    AddMetadata(lib, p, r, lib.diagnostics)
  }

  /** newSQLRegistry. */
  function SqlRegistry(lib: Library, p: Profile): Registry {
    var r := Add(ReadRegistry(lib, p), ProposeTool(lib, p));
    AddIf(AddIf(r, MayWrite(p), WriteTool(lib, p)), TracksProposals(p), StatusTool(lib, p))
  }

  /** A registry as the engine keeps it: a map and a list that add extends in place. */
  class ToolRegistry {
    var tools: map<string, Tool>
    var order: seq<string>

    ghost function View(): Registry
      reads this
    {
      Registry(tools, order)
    }

    /** newSQLRegistry: one tool after the other, the last two only where they may be. */
    constructor (lib: Library, p: Profile)
      ensures View() == SqlRegistry(lib, p)
    {
      tools, order := map[], [];
      new;
      AddReads(lib, p);
      AddTool(ProposeTool(lib, p));
      if MayWrite(p) { AddTool(WriteTool(lib, p)); }
      if TracksProposals(p) { AddTool(StatusTool(lib, p)); }
    }

    method AddReads(lib: Library, p: Profile)
      requires View() == EMPTY
      modifies this
      ensures View() == ReadRegistry(lib, p)
    {
      AddAll(lib, p, lib.catalog);
      AddTool(ReadTool(lib, p, "run_select", ""));
      AddAll(lib, p, lib.summary);
      AddTool(ReadTool(lib, p, "explain_query", "EXPLAIN "));
      AddAll(lib, p, lib.diagnostics);
    }

    method AddAll(lib: Library, p: Profile, names: seq<string>)
      modifies this
      ensures View() == AddMetadata(lib, p, old(View()), names)
    {
      var i := 0;
      while i < |names|
        invariant 0 <= i <= |names|
        invariant AddMetadata(lib, p, View(), names[i..]) == AddMetadata(lib, p, old(View()), names)
      {
        assert names[i..][1..] == names[i + 1..];
        AddTool(MetadataTool(lib, p, names[i]));
        i := i + 1;
      }
    }

    method AddTool(t: Tool)
      modifies this
      ensures View() == Add(old(View()), t)
    {
      tools := tools[t.name := t];
      order := order + [t.name];
    }

    method DispatchTool(name: string, args: Args) returns (r: Outcome)
      ensures r == Dispatch(View(), name, args)
    {
      if name !in tools { return Refused("unknown tool"); }
      return tools[name].run(args);
    }
  }

  predicate IsMetadata(lib: Library, name: string) {
    name in lib.catalog || name in lib.summary || name in lib.diagnostics
  }

  /** The metadata tools are none of the five tools with a body of their own. */
  predicate GoodLibrary(lib: Library) {
    forall n | n in ["run_select", "explain_query", "propose_write", "execute_write", "write_proposal_status"] ::
      !IsMetadata(lib, n)
  }

  // --------------------------------------------------------------- the shared registry

  datatype Target = Target(id: string, name: string, registry: Option<Registry>)

  predicate Usable(t: Target) {
    t.id != "" && t.registry.Some?
  }

  /** The first usable target with this id. */
  function FirstTarget(targets: seq<Target>, id: string): Option<Target> {
    if targets == [] then None
    else if Usable(targets[0]) && targets[0].id == id then Some(targets[0])
    else FirstTarget(targets[1..], id)
  }

  ghost predicate DistinctTargets(targets: seq<Target>) {
    forall i, j | 0 <= i < j < |targets| :: targets[i].id != targets[j].id
  }

  lemma {:induction false} FirstTargetSnoc(targets: seq<Target>, t: Target, id: string)
    ensures FirstTarget(targets + [t], id) ==
      if FirstTarget(targets, id).Some? then FirstTarget(targets, id) else if Usable(t) && t.id == id then Some(t) else None
  {
    if targets == [] {
      assert targets + [t] == [t] && [t][1..] == [];
    } else {
      assert (targets + [t])[1..] == targets[1..] + [t];
      FirstTargetSnoc(targets[1..], t, id);
    }
  }

  lemma {:induction false} FirstTargetFound(targets: seq<Target>, id: string)
    ensures var r := FirstTarget(targets, id); r.Some? ==> r.value in targets && Usable(r.value) && r.value.id == id
    ensures FirstTarget(targets, id).None? ==> forall t :: t in targets && t.id == id ==> !Usable(t)
  {
    if targets != [] { FirstTargetFound(targets[1..], id); }
  }

  /** uniqueMCPConnectionTargets: usable targets, the first of each id, in order. */
  method UniqueTargets(targets: seq<Target>) returns (ordered: seq<Target>)
    ensures DistinctTargets(ordered)
    ensures forall t :: t in ordered ==> Usable(t)
    ensures forall id: string :: FirstTarget(ordered, id) == FirstTarget(targets, id)
  {
    var byID: map<string, Target> := map[];
    ordered := [];
    for i := 0 to |targets|
      invariant DistinctTargets(ordered)
      invariant forall t :: t in ordered ==> Usable(t)
      invariant forall id: string :: FirstTarget(ordered, id) == FirstTarget(targets[..i], id)
      invariant forall id: string :: id in byID <==> FirstTarget(ordered, id).Some?
    {
      var target := targets[i];
      assert targets[..i + 1] == targets[..i] + [target];
      forall id: string ensures FirstTarget(targets[..i + 1], id) ==
        if FirstTarget(targets[..i], id).Some? then FirstTarget(targets[..i], id)
        else if Usable(target) && target.id == id then Some(target) else None
      {
        FirstTargetSnoc(targets[..i], target, id);
      }
      if target.id == "" || target.registry.None? || target.id in byID {
        FirstTargetFound(ordered, target.id);
      } else {
        forall id: string ensures FirstTarget(ordered + [target], id) ==
          if FirstTarget(ordered, id).Some? then FirstTarget(ordered, id) else if target.id == id then Some(target) else None
        {
          FirstTargetSnoc(ordered, target, id);
        }
        FirstTargetFound(ordered, target.id);
        byID := byID[target.id := target];
        ordered := ordered + [target];
      }
    }
    assert targets[..|targets|] == targets;
  }

  /** indexMCPConnectionTargets. */
  method IndexTargets(targets: seq<Target>) returns (byID: map<string, Target>)
    requires DistinctTargets(targets) && forall t :: t in targets ==> Usable(t)
    ensures forall id: string :: (id in byID <==> FirstTarget(targets, id).Some?)
    ensures forall id: string :: id in byID ==> Some(byID[id]) == FirstTarget(targets, id)
  {
    byID := map[];
    for i := 0 to |targets|
      invariant forall id: string :: id in byID <==> FirstTarget(targets[..i], id).Some?
      invariant forall id: string :: id in byID ==> Some(byID[id]) == FirstTarget(targets[..i], id)
    {
      assert targets[..i + 1] == targets[..i] + [targets[i]];
      forall id: string ensures FirstTarget(targets[..i + 1], id) ==
        if FirstTarget(targets[..i], id).Some? then FirstTarget(targets[..i], id)
        else if targets[i].id == id then Some(targets[i]) else None
      {
        FirstTargetSnoc(targets[..i], targets[i], id);
      }
      FirstTargetFound(targets[..i], targets[i].id);
      byID := byID[targets[i].id := targets[i]];
    }
    assert targets[..|targets|] == targets;
  }

  function WithoutConnection(args: Args): Args {
    args - {"connectionId"}
  }

  /** What a routed call means: the named profile's own dispatch, or a refusal. */
  function Routed(targets: seq<Target>, name: string, args: Args): Outcome {
    match FirstTarget(targets, StrArgOf(args, "connectionId"))
    case None => Refused("MCP connection not found or not enabled")
    case Some(t) =>
      if t.registry.None? || name !in t.registry.value.tools then Refused("tool is not enabled for selected connection")
      else Dispatch(t.registry.value, name, WithoutConnection(args))
  }

  /** The Run function of a shared tool; resolved is what the resolver answers at this call, None for an error. */
  method RunShared(resolved: Option<seq<Target>>, name: string, args: Args) returns (r: Outcome)
    ensures r == if resolved.None? then Refused("targets unavailable") else Routed(resolved.value, name, args)
  {
    if resolved.None? { return Refused("targets unavailable"); }
    var connectionID := StrArgOf(args, "connectionId");
    var targets := UniqueTargets(resolved.value);
    var byID := IndexTargets(targets);
    FirstTargetFound(resolved.value, connectionID);
    if connectionID !in byID { return Refused("MCP connection not found or not enabled"); }
    var target := byID[connectionID];
    if name !in target.registry.value.tools { return Refused("tool is not enabled for selected connection"); }
    var delegated := map k | k in args && k != "connectionId" :: args[k];
    assert delegated == WithoutConnection(args);
    return Dispatch(target.registry.value, name, delegated);
  }

  // ----------------------------------------------------------- advertising the tools

  /** names without later repetitions. */
  function FirstNames(names: seq<string>): (r: seq<string>)
    ensures forall n :: n in r <==> n in names
    ensures forall i, j :: 0 <= i < j < |r| ==> r[i] != r[j]
  {
    if names == [] then []
    else
      var init, last := names[..|names| - 1], names[|names| - 1];
      var r := FirstNames(init);
      assert names == init + [last];
      if last in r then r else r + [last]
  }

  lemma FirstNamesSnoc(names: seq<string>, n: string)
    ensures FirstNames(names + [n]) == if n in FirstNames(names) then FirstNames(names) else FirstNames(names) + [n]
  {
    var all := names + [n];
    assert all[..|all| - 1] == names;
  }

  /** The tools of every target, one registry after the other. */
  function AllNames(targets: seq<Target>): seq<string> {
    if targets == [] then []
    else AllNames(targets[..|targets| - 1]) +
         (if targets[|targets| - 1].registry.Some? then targets[|targets| - 1].registry.value.order else [])
  }

  lemma AllNamesStep(targets: seq<Target>, i: nat)
    requires i < |targets|
    ensures AllNames(targets[..i + 1]) ==
      match targets[i].registry
      case Some(r) => AllNames(targets[..i]) + r.order
      case None => AllNames(targets[..i])
  {
    assert targets[..i + 1][..i] == targets[..i];
    assert AllNames(targets[..i]) + [] == AllNames(targets[..i]);
  }

  /** Where a shared tool finds its targets: those of construction time, or the resolver's answer to this call. */
  datatype Resolver = Fixed | Answering(targets: Option<seq<Target>>)

  /** The shared registry newMultiProfileRegistry builds. */
  class SharedRegistry {
    const specTargets: seq<Target>
    var order: seq<string>

    /** The inner loop over one registry's specs; before are the names looked at so far. */
    method AddNames(ghost before: seq<string>, order: seq<string>, names0: seq<string>) returns (names: seq<string>)
      requires names0 == FirstNames(before)
      ensures names == FirstNames(before + order)
    {
      names := names0;
      assert before + order[..0] == before;
      for k := 0 to |order|
        invariant names == FirstNames(before + order[..k])
      {
        FirstNamesSnoc(before + order[..k], order[k]);
        assert before + order[..k + 1] == before + order[..k] + [order[k]];
        if order[k] !in names { names := names + [order[k]]; }
      }
      assert order[..|order|] == order;
    }

    /** The names to route: the union of the targets' tools, in order of first appearance. */
    method Advertise(targets: seq<Target>) returns (names: seq<string>)
      ensures names == FirstNames(AllNames(targets))
    {
      names := [];
      for i := 0 to |targets|
        invariant names == FirstNames(AllNames(targets[..i]))
      {
        AllNamesStep(targets, i);
        if targets[i].registry.Some? {
          names := AddNames(AllNames(targets[..i]), targets[i].registry.value.order, names);
        }
      }
      assert targets[..|targets|] == targets;
    }

    constructor (targets: seq<Target>)
      ensures DistinctTargets(specTargets) && forall id: string :: FirstTarget(specTargets, id) == FirstTarget(targets, id)
      ensures order == ["list_connections"] + FirstNames(AllNames(specTargets))
    {
      var unique := UniqueTargets(targets);
      specTargets := unique;
      order := [];
      new;
      var names := Advertise(unique);
      order := ["list_connections"] + names;
    }

    /** A call: advertised tools are routed, list_connections lists, anything else is unknown. */
    method Call(name: string, resolver: Resolver, args: Args) returns (r: Outcome)
      requires order == ["list_connections"] + FirstNames(AllNames(specTargets))
      ensures name in AllNames(specTargets) ==>
        r == match resolver
             case Fixed => Routed(specTargets, name, args)
             case Answering(None) => Refused("targets unavailable")
             case Answering(Some(targets)) => Routed(targets, name, args)
      ensures name !in AllNames(specTargets) ==>
        r.sent == [] && (r.reply.Refusal? <==> name != "list_connections" || resolver == Answering(None))
    {
      var targets := match resolver case Fixed => Some(specTargets) case Answering(t) => t;
      if name in order[1..] {
        r := RunShared(targets, name, args);
      } else if name == "list_connections" {
        r := if targets.None? then Refused("targets unavailable") else Outcome(Answer("connections"), []);
      } else {
        r := Refused("unknown tool");
      }
    }
  }

  // ------------------------------------------------------------- what one registry does

  lemma {:induction false} MetadataTools(lib: Library, p: Profile, r: Registry, names: seq<string>, name: string)
    ensures var r' := AddMetadata(lib, p, r, names);
      && (name in r'.tools <==> name in names || name in r.tools)
      && (name in names ==> r'.tools[name] == MetadataTool(lib, p, name))
      && (name !in names && name in r.tools ==> r'.tools[name] == r.tools[name])
    decreases |names|
  {
    if names != [] { MetadataTools(lib, p, Add(r, MetadataTool(lib, p, names[0])), names[1..], name); }
  }

  /** A writable profile in the mode "full_access". */
  predicate HasFullAccess(p: Profile) {
    p.write.Some? && p.write.value.mode == "full_access" && !p.readOnly
  }

  /** A profile in the mode "approval_required" whose proposals are stored. */
  predicate NeedsApproval(p: Profile) {
    p.write.Some? && p.write.value.mode == "approval_required" && p.write.value.proposals
  }

  /** The database a call asks for, the profile's own if it asks for none. */
  ghost function AskedDatabase(p: Profile, args: Args): string {
    if "database" in args && args["database"].StrArg? && !Blank(args["database"].text) then TrimSpace(args["database"].text)
    else p.database
  }

  ghost predicate InScope(lib: Library, p: Profile, database: string, sql: string) {
    Admits(p.scope.databases, database) && QueryAllowed(lib.patterns, p.driver, database, p.scope, sql)
  }

  lemma TargetIsAsked(p: Profile, args: Args)
    ensures TargetDatabase(p, args) == AskedDatabase(p, args)
    ensures MayWrite(p) == HasFullAccess(p) && TracksProposals(p) == NeedsApproval(p)
  {
    TrimEmpty(StrArgOf(args, "database"));
  }

  /** What a name means in the registry before its last three tools. */
  function ReadMeaning(lib: Library, p: Profile, name: string, args: Args): Option<Outcome> {
    if name == "run_select" then Some(RunRead(lib, p, "", args))
    else if name == "explain_query" then Some(RunRead(lib, p, "EXPLAIN ", args))
    else if IsMetadata(lib, name) then Some(RunMetadata(lib, p, name, args))
    else None
  }

  lemma ReadTools(lib: Library, p: Profile, name: string, args: Args)
    requires GoodLibrary(lib)
    ensures var r := ReadRegistry(lib, p);
      && (name in r.tools <==> ReadMeaning(lib, p, name, args).Some?)
      && (name in r.tools ==> Some(r.tools[name].run(args)) == ReadMeaning(lib, p, name, args))
  {
    var r0 := AddMetadata(lib, p, EMPTY, lib.catalog);
    var r1 := Add(r0, ReadTool(lib, p, "run_select", ""));
    var r2 := AddMetadata(lib, p, r1, lib.summary);
    var r3 := Add(r2, ReadTool(lib, p, "explain_query", "EXPLAIN "));
    MetadataTools(lib, p, EMPTY, lib.catalog, name);
    MetadataTools(lib, p, r1, lib.summary, name);
    MetadataTools(lib, p, r3, lib.diagnostics, name);
    assert !IsMetadata(lib, "run_select") && !IsMetadata(lib, "explain_query");
    assert MetadataTool(lib, p, name).run(args) == RunMetadata(lib, p, name, args);
  }

  /** Which tools a profile's registry has, and what each of them runs. */
  lemma SqlTools(lib: Library, p: Profile, name: string, args: Args)
    requires GoodLibrary(lib)
    ensures Dispatch(SqlRegistry(lib, p), name, args) ==
      if name == "propose_write" then RunPropose(lib, p, args)
      else if name == "execute_write" then (if HasFullAccess(p) then RunWrite(lib, p, args) else Refused("unknown tool"))
      else if name == "write_proposal_status" then
        (if NeedsApproval(p) then RunStatus(lib, p, args) else Refused("unknown tool"))
      else if ReadMeaning(lib, p, name, args).Some? then ReadMeaning(lib, p, name, args).value
      else Refused("unknown tool")
  {
    ReadTools(lib, p, name, args);
    TargetIsAsked(p, args);
  }

  lemma {:induction false} MetadataOrder(lib: Library, p: Profile, r: Registry, names: seq<string>)
    ensures AddMetadata(lib, p, r, names).order == r.order + names
    decreases |names|
  {
    if names == [] {
      assert r.order + names == r.order;
    } else {
      MetadataOrder(lib, p, Add(r, MetadataTool(lib, p, names[0])), names[1..]);
      assert r.order + [names[0]] + names[1..] == r.order + names;
    }
  }

  /** The order in which a profile's tools are listed; the write tools come last and exclude each other. */
  lemma ToolOrder(lib: Library, p: Profile)
    ensures SqlRegistry(lib, p).order ==
      lib.catalog + ["run_select"] + lib.summary + ["explain_query"] + lib.diagnostics + ["propose_write"] +
      (if HasFullAccess(p) then ["execute_write"] else if NeedsApproval(p) then ["write_proposal_status"] else [])
  {
    var r1 := Add(AddMetadata(lib, p, EMPTY, lib.catalog), ReadTool(lib, p, "run_select", ""));
    var r3 := Add(AddMetadata(lib, p, r1, lib.summary), ReadTool(lib, p, "explain_query", "EXPLAIN "));
    MetadataOrder(lib, p, EMPTY, lib.catalog);
    MetadataOrder(lib, p, r1, lib.summary);
    MetadataOrder(lib, p, r3, lib.diagnostics);
    assert EMPTY.order + lib.catalog == lib.catalog;
    TargetIsAsked(p, map[]);
    var o := Add(ReadRegistry(lib, p), ProposeTool(lib, p)).order;
    assert o + [] == o;
  }

  /** A statement that may write was let through by the mode, the profile, the scope and the classifier. */
  ghost predicate LegitimateWrite(lib: Library, p: Profile, s: Sent) {
    && s.profileId == p.id && HasFullAccess(p)
    && InScope(lib, p, s.database, s.sql)
    && !QueryPolicy.ClassifyQuery(s.sql).readOnly
  }

  /** A statement sent or a refusal that sends nothing. */
  ghost predicate SendsIf(o: Outcome, condition: bool, s: Sent, answer: Sent -> Reply) {
    if condition then o == Outcome(answer(s), [s]) else o.reply.Refusal? && o.sent == []
  }

  lemma InScopeIsAuthorized(lib: Library, p: Profile, database: string, sql: string)
    ensures InScope(lib, p, database, sql) == Authorized(lib, p, database, sql)
  {
  }

  lemma RunReadSends(lib: Library, p: Profile, prefix: string, args: Args)
    ensures var (db, sql) := (AskedDatabase(p, args), StrArgOf(args, "sql"));
      SendsIf(RunRead(lib, p, prefix, args), InScope(lib, p, db, sql), Sent(p.id, db, prefix + sql, true), lib.answer)
  {
    TargetIsAsked(p, args);
    InScopeIsAuthorized(lib, p, AskedDatabase(p, args), StrArgOf(args, "sql"));
  }

  lemma RunWriteSends(lib: Library, p: Profile, args: Args)
    ensures var (db, sql) := (AskedDatabase(p, args), StrArgOf(args, "sql"));
      SendsIf(RunWrite(lib, p, args), InScope(lib, p, db, sql) && !QueryPolicy.ClassifyQuery(sql).readOnly,
              Sent(p.id, db, sql, false), lib.answer)
  {
    TargetIsAsked(p, args);
    InScopeIsAuthorized(lib, p, AskedDatabase(p, args), StrArgOf(args, "sql"));
  }

  /** The reading tools send their statement once, read-only and for the asked database, exactly if it is in scope. */
  lemma ReadsStayInScope(lib: Library, p: Profile, args: Args)
    requires GoodLibrary(lib)
    ensures var (r, db, sql) := (SqlRegistry(lib, p), AskedDatabase(p, args), StrArgOf(args, "sql"));
      && SendsIf(Dispatch(r, "run_select", args), InScope(lib, p, db, sql), Sent(p.id, db, sql, true), lib.answer)
      && SendsIf(Dispatch(r, "explain_query", args), InScope(lib, p, db, sql), Sent(p.id, db, "EXPLAIN " + sql, true), lib.answer)
  {
    SqlTools(lib, p, "run_select", args);
    SqlTools(lib, p, "explain_query", args);
    RunReadSends(lib, p, "", args);
    RunReadSends(lib, p, "EXPLAIN ", args);
    assert "" + StrArgOf(args, "sql") == StrArgOf(args, "sql");
  }

  /** execute_write sends its statement once, for writing, exactly if the profile may, it is in scope and not read-only. */
  lemma WriteStaysInScope(lib: Library, p: Profile, args: Args)
    requires GoodLibrary(lib)
    ensures var (db, sql) := (AskedDatabase(p, args), StrArgOf(args, "sql"));
      SendsIf(Dispatch(SqlRegistry(lib, p), "execute_write", args),
              HasFullAccess(p) && InScope(lib, p, db, sql) && !QueryPolicy.ClassifyQuery(sql).readOnly,
              Sent(p.id, db, sql, false), lib.answer)
  {
    SqlTools(lib, p, "execute_write", args);
    RunWriteSends(lib, p, args);
  }

  /** A proposal is made exactly if its statement is in scope; neither it nor its status sends anything. */
  lemma ProposalsSendNothing(lib: Library, p: Profile, args: Args)
    requires GoodLibrary(lib)
    ensures var (db, sql) := (AskedDatabase(p, args), StrArgOf(args, "sql"));
      var (proposed, status) := (Dispatch(SqlRegistry(lib, p), "propose_write", args),
                                 Dispatch(SqlRegistry(lib, p), "write_proposal_status", args));
      && proposed.sent == [] && status.sent == []
      && (if InScope(lib, p, db, sql) then proposed.reply == lib.propose(p, sql) else proposed.reply.Refusal?)
      && (if NeedsApproval(p) then status.reply == lib.proposalStatus(p, StrArgOf(args, "proposalId")) else status.reply.Refusal?)
  {
    TargetIsAsked(p, args);
    InScopeIsAuthorized(lib, p, AskedDatabase(p, args), StrArgOf(args, "sql"));
    SqlTools(lib, p, "propose_write", args);
    SqlTools(lib, p, "write_proposal_status", args);
  }

  /** A metadata tool sends its own queries, in order, read-only and for the asked database, or refuses and sends nothing. */
  lemma MetadataDoes(lib: Library, p: Profile, name: string, args: Args)
    requires GoodLibrary(lib) && IsMetadata(lib, name)
    ensures var o := Dispatch(SqlRegistry(lib, p), name, args);
      match lib.queriesOf(name, p, args)
      case None => o.reply.Refusal? && o.sent == []
      case Some(queries) =>
        o.reply.Answer? && |o.sent| == |queries|
        && forall i :: 0 <= i < |queries| ==> o.sent[i] == Sent(p.id, AskedDatabase(p, args), queries[i], true)
  {
    TargetIsAsked(p, args);
    SqlTools(lib, p, name, args);
  }

  lemma DispatchWritesLegitimately(lib: Library, p: Profile, name: string, args: Args)
    requires GoodLibrary(lib)
    ensures forall s :: s in Dispatch(SqlRegistry(lib, p), name, args).sent && !s.readOnly ==>
      name == "execute_write" && LegitimateWrite(lib, p, s)
  {
    TargetIsAsked(p, args);
    SqlTools(lib, p, name, args);
  }

  // --------------------------------------------------------------- what routing does

  function TargetOf(lib: Library, p: Profile): Target {
    Target(p.id, p.id, Some(SqlRegistry(lib, p)))
  }

  function TargetsOf(lib: Library, profiles: seq<Profile>): (r: seq<Target>)
    ensures |r| == |profiles| && forall i :: 0 <= i < |r| ==> r[i] == TargetOf(lib, profiles[i])
  {
    seq(|profiles|, i requires 0 <= i < |profiles| => TargetOf(lib, profiles[i]))
  }

  datatype Call = Call(profiles: seq<Profile>, name: string, args: Args)

  /** Everything a run of routed calls sends; the exposed profiles may change from call to call. */
  function SentBy(lib: Library, calls: seq<Call>): seq<Sent>
    decreases |calls|
  {
    if calls == [] then []
    else Routed(TargetsOf(lib, calls[0].profiles), calls[0].name, calls[0].args).sent + SentBy(lib, calls[1..])
  }

  /** Every call of a run adds what it sends itself. */
  lemma {:induction false} SentCompose(lib: Library, before: seq<Call>, c: Call)
    ensures SentBy(lib, before + [c]) == SentBy(lib, before) + Routed(TargetsOf(lib, c.profiles), c.name, c.args).sent
    decreases |before|
  {
    var calls := before + [c];
    if before == [] {
      assert calls == [c] && calls[1..] == [];
    } else {
      assert calls[0] == before[0] && calls[1..] == before[1..] + [c];
      SentCompose(lib, before[1..], c);
      Assoc(Routed(TargetsOf(lib, before[0].profiles), before[0].name, before[0].args).sent, SentBy(lib, before[1..]),
            Routed(TargetsOf(lib, c.profiles), c.name, c.args).sent);
    }
  }

  /**
   Over every sequence of calls through the shared registry, a statement runs without the read-only
   flag only through execute_write, for an exposed profile that is writable and in full_access mode,
   inside that profile's scope, and classified as a write.
   */
  lemma {:induction false} WritesAreLegitimate(lib: Library, calls: seq<Call>, s: Sent)
    requires GoodLibrary(lib) && s in SentBy(lib, calls) && !s.readOnly
    ensures exists i, p :: 0 <= i < |calls| && calls[i].name == "execute_write" && p in calls[i].profiles && LegitimateWrite(lib, p, s)
    decreases |calls|
  {
    var c, targets := calls[0], TargetsOf(lib, calls[0].profiles);
    var id := StrArgOf(c.args, "connectionId");
    if s in Routed(targets, c.name, c.args).sent {
      FirstTargetFound(targets, id);
      var t := FirstTarget(targets, id).value;
      var k :| 0 <= k < |targets| && targets[k] == t;
      DispatchWritesLegitimately(lib, c.profiles[k], c.name, WithoutConnection(c.args));
      assert c.profiles[k] in calls[0].profiles;
    } else {
      WritesAreLegitimate(lib, calls[1..], s);
      var i, p :| 0 <= i < |calls[1..]| && calls[1..][i].name == "execute_write" && p in calls[1..][i].profiles && LegitimateWrite(lib, p, s);
      assert calls[i + 1] == calls[1..][i];
    }
  }

  /** A call reaches the first usable target with its id and nothing else: it is that target's own dispatch, or it sends nothing. */
  lemma RoutingRefinesDispatch(targets: seq<Target>, name: string, args: Args)
    ensures var id := StrArgOf(args, "connectionId");
      match FirstTarget(targets, id)
      case None => Routed(targets, name, args).reply.Refusal? && Routed(targets, name, args).sent == []
          && forall t :: t in targets && t.id == id ==> !Usable(t)
      case Some(t) =>
        && t in targets && Usable(t) && t.id == id
        && (if name in t.registry.value.tools then Routed(targets, name, args) == Dispatch(t.registry.value, name, WithoutConnection(args))
            else Routed(targets, name, args).reply.Refusal? && Routed(targets, name, args).sent == [])
  {
    FirstTargetFound(targets, StrArgOf(args, "connectionId"));
  }

  /** Targets that are unusable, or follow one with the same id, make no difference to any call. */
  lemma {:induction false} LaterTargetsDoNotMatter(targets: seq<Target>, t: Target, name: string, args: Args)
    requires !Usable(t) || FirstTarget(targets, t.id).Some? || t.id != StrArgOf(args, "connectionId")
    ensures Routed(targets + [t], name, args) == Routed(targets, name, args)
  {
    FirstTargetSnoc(targets, t, StrArgOf(args, "connectionId"));
  }

  lemma {:induction false} FirstOfProfiles(lib: Library, profiles: seq<Profile>, k: nat)
    requires k < |profiles| && profiles[k].id != "" && forall i :: 0 <= i < k ==> profiles[i].id != profiles[k].id
    ensures FirstTarget(TargetsOf(lib, profiles), profiles[k].id) == Some(TargetOf(lib, profiles[k]))
    decreases k
  {
    var targets := TargetsOf(lib, profiles);
    if k > 0 {
      FirstOfProfiles(lib, profiles[1..], k - 1);
      assert targets[1..] == TargetsOf(lib, profiles[1..]);
    }
  }

  /** execute_write goes through exactly when mode, profile, scope and classifier all say so, and then runs the statement once. */
  lemma WriteRunsIffAllowed(lib: Library, profiles: seq<Profile>, k: nat, args: Args)
    requires GoodLibrary(lib)
    requires k < |profiles| && profiles[k].id != "" && forall i :: 0 <= i < k ==> profiles[i].id != profiles[k].id
    requires StrArgOf(args, "connectionId") == profiles[k].id
    ensures var p := profiles[k];
      var s := Sent(p.id, AskedDatabase(p, args), StrArgOf(args, "sql"), false);
      var sent := Routed(TargetsOf(lib, profiles), "execute_write", args).sent;
      if LegitimateWrite(lib, p, s) then sent == [s] else sent == []
  {
    FirstOfProfiles(lib, profiles, k);
    RoutedWrite(TargetsOf(lib, profiles), lib, profiles[k], args);
    WriteSends(lib, profiles[k], args);
  }

  lemma RoutedWrite(targets: seq<Target>, lib: Library, p: Profile, args: Args)
    requires GoodLibrary(lib) && FirstTarget(targets, StrArgOf(args, "connectionId")) == Some(TargetOf(lib, p))
    ensures Routed(targets, "execute_write", args).sent == if HasFullAccess(p) then RunWrite(lib, p, WithoutConnection(args)).sent else []
  {
    SqlTools(lib, p, "execute_write", WithoutConnection(args));
  }

  lemma WriteSends(lib: Library, p: Profile, args: Args)
    ensures var s := Sent(p.id, AskedDatabase(p, args), StrArgOf(args, "sql"), false);
      (if HasFullAccess(p) then RunWrite(lib, p, WithoutConnection(args)).sent else []) == if LegitimateWrite(lib, p, s) then [s] else []
  {
    TargetIsAsked(p, args);
    OtherArgsKept(args, "sql");
    OtherArgsKept(args, "database");
  }

  lemma OtherArgsKept(args: Args, key: string)
    ensures key != "connectionId" ==> StrArgOf(WithoutConnection(args), key) == StrArgOf(args, key)
  {
  }
}
