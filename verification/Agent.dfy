/**
 The agent loop (engine/internal/agent/service.go): provider calls alternate with tool dispatches
 for at most maxSteps turns. The provider, the tools, cancellation and JSON encoding are unknown
 functions; provider and tools may depend on everything asked of them before.
 */
module Agent {
  import opened Text
  import Redaction

  datatype Role = User | Assistant | ToolRole
  type Args = map<string, string>
  datatype ToolCall = ToolCall(id: string, name: string, args: Args)
  datatype Message = Message(role: Role, text: string, toolCallId: string, toolName: string, toolArgs: Args)
  datatype Request = Request(system: string, messages: seq<Message>, tools: seq<string>)

  datatype Result =
    | QueryResult(columns: seq<string>, rows: seq<seq<string>>, rowCount: int, truncated: bool)
    | Withheld(reason: string, columns: seq<string>, rowCount: int)
    | OtherResult(json: string)
  datatype Dispatched = Done(result: Result) | Failed(error: string)

  datatype Event =
    | TextEvent(text: string)
    | ToolCallEvent(call: Option<ToolCall>)
    | ToolResultEvent(toolName: string, toolCallId: string, result: Result)
  /** What one provider call emits, and the transport error it ends with, if any. */
  datatype Turn = Turn(events: seq<Event>, error: Option<string>)

  /** Everything the loop calls out to. */
  datatype World = World(
    provider: seq<Request> -> Turn,
    selfDriving: bool,
    dispatch: seq<ToolCall> -> Dispatched,
    cancelled: nat -> bool,
    encode: Result -> string,
    encodeError: string -> string,
    specs: seq<string>)

  /** The prompt texts; the two notes follow the system prompt for the named languages. */
  datatype Prompts = Prompts(base: string, english: string, korean: string)

  datatype Settings = Settings(
    maxSteps: nat, prompts: Prompts, exposure: string, secrets: seq<string>, domain: string, language: string)

  datatype Outcome = Answered | Cancelled | ProviderError(error: string) | TooManySteps
  datatype Trace = Trace(
    requests: seq<Request>, calls: seq<ToolCall>, messages: seq<Message>, emitted: seq<Event>, outcome: Outcome)

  // ------------------------------------------------------------------ pure parts

  function SystemPrompt(c: Settings): string {
    var system := if TrimSpace(c.domain) != "" then c.prompts.base + "\n\n" + c.domain else c.prompts.base;
    if c.language == "english" then system + c.prompts.english
    else if c.language == "korean" then system + c.prompts.korean
    else system
  }

  function Scrubbed(messages: seq<Message>, secrets: seq<string>): (r: seq<Message>)
    ensures |r| == |messages|
    ensures forall i :: 0 <= i < |r| ==> r[i] == messages[i].(text := Redaction.Redacted(messages[i].text, secrets))
  {
    seq(|messages|, i requires 0 <= i < |messages| => messages[i].(text := Redaction.Redacted(messages[i].text, secrets)))
  }

  /** request: the provider request for the current messages. */
  function Assemble(c: Settings, specs: seq<string>, messages: seq<Message>): Request {
    if c.secrets == [] then Request(SystemPrompt(c), messages, specs)
    else Request(Redaction.Redacted(SystemPrompt(c), c.secrets), Scrubbed(messages, c.secrets), specs)
  }

  predicate IsDataTool(name: string) {
    name in ["run_select", "explain_query", "profile_table"]
  }

  predicate Withholds(exposure: string) {
    exposure != "" && exposure != "unrestricted"
  }

  function SanitizeForPolicy(toolName: string, result: Result, exposure: string): Result {
    if Withholds(exposure) && IsDataTool(toolName) && result.QueryResult? then
      Withheld("data-exposure policy (" + exposure + "): row values are not sent to the model", result.columns, result.rowCount)
    else result
  }

  /** The last tool call of a turn, which is the one dispatched. */
  function Pending(events: seq<Event>): Option<ToolCall> {
    if events == [] then None
    else
      var e := events[|events| - 1];
      if e.ToolCallEvent? && e.call.Some? then e.call else Pending(events[..|events| - 1])
  }

  function Payload(w: World, exposure: string, name: string, d: Dispatched): string {
    match d
    case Failed(error) => w.encodeError(error)
    case Done(result) => w.encode(SanitizeForPolicy(name, result, exposure))
  }

  function CallMessages(call: ToolCall, payload: string): seq<Message> {
    [Message(Assistant, "", call.id, call.name, call.args), Message(ToolRole, payload, call.id, call.name, map[])]
  }

  // ------------------------------------------------------------------ the run

  /** The run continued at a step, given everything recorded so far. */
  function Continue(c: Settings, w: World, step: nat, t: Trace): Trace
    decreases c.maxSteps - step
  {
    if step >= c.maxSteps then t.(outcome := TooManySteps)
    else if w.cancelled(step) then t.(outcome := Cancelled)
    else
      var t1 := Asked(c, w, t);
      var turn := w.provider(t1.requests);
      if turn.error.Some? then t1.(outcome := ProviderError(turn.error.value))
      else
        match Pending(turn.events)
        case None => t1.(outcome := Answered)
        case Some(call) => Continue(c, w, step + 1, AfterCall(c, w, t1, call))
  }

  /** One more request, and what the provider emits for it. */
  function Asked(c: Settings, w: World, t: Trace): Trace {
    var requests := t.requests + [Assemble(c, w.specs, t.messages)];
    t.(requests := requests, emitted := t.emitted + w.provider(requests).events)
  }

  function AfterCall(c: Settings, w: World, t: Trace, call: ToolCall): Trace {
    var calls := t.calls + [call];
    var d := w.dispatch(calls);
    var shown := if d.Done? then [ToolResultEvent(call.name, call.id, d.result)] else [];
    Trace(t.requests, calls, t.messages + CallMessages(call, Payload(w, c.exposure, call.name, d)), t.emitted + shown, Answered)
  }

  function Start(conversation: seq<Message>): Trace {
    Trace([], [], conversation, [], Answered)
  }

  function RunSpec(c: Settings, w: World, conversation: seq<Message>): Trace {
    if w.selfDriving then
      var requests := [Assemble(c, w.specs, conversation)];
      var turn := w.provider(requests);
      Trace(requests, [], conversation, turn.events, if turn.error.Some? then ProviderError(turn.error.value) else Answered)
    else Continue(c, w, 0, Start(conversation))
  }

  /** AgentService with its setters. */
  class AgentService {
    var maxSteps: nat
    const prompts: Prompts
    var exposure: string
    var secrets: seq<string>
    var domain: string
    var language: string

    ghost function Config(): Settings
      reads this
    {
      Settings(maxSteps, prompts, exposure, secrets, domain, language)
    }

    constructor (prompts: Prompts, maxSteps: int)
      ensures Config() == Settings(if maxSteps <= 0 then 16 else maxSteps, prompts, "", [], "", "")
    {
      this.maxSteps := if maxSteps <= 0 then 16 else maxSteps;
      this.prompts := prompts;
      exposure, secrets, domain, language := "", [], "", "";
    }

    method SetPolicy(exposure: string)
      modifies this
      ensures Config() == old(Config()).(exposure := exposure)
    {
      this.exposure := exposure;
    }

    method SetSecrets(secrets: seq<string>)
      modifies this
      ensures Config() == old(Config()).(secrets := secrets)
    {
      this.secrets := secrets;
    }

    method SetDomainContext(domain: string)
      modifies this
      ensures Config() == old(Config()).(domain := domain)
    {
      this.domain := domain;
    }

    method SetResponseLanguage(language: string)
      modifies this
      ensures Config() == old(Config()).(language := language)
    {
      this.language := language;
    }

    method AssembleRequest(messages: seq<Message>, specs: seq<string>) returns (r: Request)
      ensures r == Assemble(Config(), specs, messages)
    {
      var system := prompts.base;
      if TrimSpace(domain) != "" { system := prompts.base + "\n\n" + domain; }
      if language == "english" {
        system := system + prompts.english;
      } else if language == "korean" {
        system := system + prompts.korean;
      }
      if |secrets| == 0 { return Request(system, messages, specs); }
      var scrubbed: seq<Message> := [];
      for i := 0 to |messages|
        invariant scrubbed == Scrubbed(messages[..i], secrets)
      {
        var text := Redaction.Redact(messages[i].text, secrets);
        scrubbed := scrubbed + [messages[i].(text := text)];
      }
      assert messages[..|messages|] == messages;
      var redacted := Redaction.Redact(system, secrets);
      return Request(redacted, scrubbed, specs);
    }

    method Run(w: World, conversation: seq<Message>) returns (t: Trace)
      ensures t == RunSpec(Config(), w, conversation)
    {
      var requests: seq<Request>, calls: seq<ToolCall>, emitted: seq<Event> := [], [], [];
      var messages := conversation;
      if w.selfDriving {
        var request := AssembleRequest(messages, w.specs);
        requests := [request];
        var turn := w.provider(requests);
        return Trace(requests, calls, messages, turn.events,
          if turn.error.Some? then ProviderError(turn.error.value) else Answered);
      }
      for step := 0 to maxSteps
        invariant Continue(Config(), w, step, Trace(requests, calls, messages, emitted, Answered)) == RunSpec(Config(), w, conversation)
      {
        if w.cancelled(step) { return Trace(requests, calls, messages, emitted, Cancelled); }
        var request := AssembleRequest(messages, w.specs);
        requests := requests + [request];
        var turn := w.provider(requests);
        emitted := emitted + turn.events;
        if turn.error.Some? { return Trace(requests, calls, messages, emitted, ProviderError(turn.error.value)); }
        var pending := Pending(turn.events);
        if pending.None? { return Trace(requests, calls, messages, emitted, Answered); }
        var call := pending.value;
        calls := calls + [call];
        var d := w.dispatch(calls);
        var payload;
        match d {
          case Failed(error) =>
            payload := w.encodeError(error);
            assert emitted + [] == emitted;
          case Done(result) =>
            emitted := emitted + [ToolResultEvent(call.name, call.id, result)];
            payload := w.encode(SanitizeForPolicy(call.name, result, exposure));
        }
        messages := messages + [
          Message(Assistant, "", call.id, call.name, call.args),
          Message(ToolRole, payload, call.id, call.name, map[])];
      }
      return Trace(requests, calls, messages, emitted, TooManySteps);
    }
  }
}
