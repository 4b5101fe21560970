/** What every run of the agent loop keeps: its transcript shape, its secrets, and withheld rows. */
module AgentTheorems {
  import opened Text
  import opened Redaction
  import opened Agent

  // ------------------------------------------------------------------ transcript

  /** The call a turn asked for, after which history of requests. */
  function CallOf(w: World, requests: seq<Request>, i: nat): Option<ToolCall>
    requires i < |requests|
  {
    Pending(w.provider(requests[..i + 1]).events)
  }

  /** The messages after the first n calls. */
  function TranscriptOf(w: World, exposure: string, conversation: seq<Message>, calls: seq<ToolCall>): seq<Message>
  {
    if calls == [] then conversation
    else
      var init, call := calls[..|calls| - 1], calls[|calls| - 1];
      TranscriptOf(w, exposure, conversation, init) + CallMessages(call, Payload(w, exposure, call.name, w.dispatch(calls)))
  }

  /** Request i was assembled from the transcript of the first i calls. */
  ghost predicate RequestAt(c: Settings, w: World, conversation: seq<Message>, requests: seq<Request>, calls: seq<ToolCall>, i: nat) {
    i < |requests| && i <= |calls|
    && requests[i] == Assemble(c, w.specs, TranscriptOf(w, c.exposure, conversation, calls[..i]))
  }

  /** Turn i asked for call i. */
  ghost predicate CallAt(w: World, requests: seq<Request>, calls: seq<ToolCall>, i: nat) {
    i < |requests| && i < |calls| && CallOf(w, requests, i) == Some(calls[i])
  }

  ghost predicate Recorded(c: Settings, w: World, conversation: seq<Message>, requests: seq<Request>, calls: seq<ToolCall>,
                           messages: seq<Message>)
  {
    && |calls| <= |requests| <= |calls| + 1
    && messages == TranscriptOf(w, c.exposure, conversation, calls)
    && (forall i: nat | i < |requests| :: RequestAt(c, w, conversation, requests, calls, i))
    && (forall i: nat | i < |calls| :: CallAt(w, requests, calls, i))
  }

  ghost predicate Finished(c: Settings, w: World, conversation: seq<Message>, t: Trace) {
    && Recorded(c, w, conversation, t.requests, t.calls, t.messages)
    && |t.requests| <= c.maxSteps
    && match t.outcome
       case Answered => |t.requests| == |t.calls| + 1 && CallOf(w, t.requests, |t.calls|) == None
       case ProviderError(e) => |t.requests| == |t.calls| + 1 && w.provider(t.requests).error == Some(e)
       case Cancelled => |t.requests| == |t.calls| < c.maxSteps && w.cancelled(|t.calls|)
       case TooManySteps => |t.requests| == |t.calls| == c.maxSteps
  }

  lemma OneMoreRequest(c: Settings, w: World, conversation: seq<Message>, requests: seq<Request>, calls: seq<ToolCall>,
                       messages: seq<Message>)
    requires Recorded(c, w, conversation, requests, calls, messages) && |requests| == |calls|
    ensures Recorded(c, w, conversation, requests + [Assemble(c, w.specs, messages)], calls, messages)
  {
    var more := requests + [Assemble(c, w.specs, messages)];
    forall i: nat | i < |more| ensures RequestAt(c, w, conversation, more, calls, i) {
      if i < |requests| {
        assert RequestAt(c, w, conversation, requests, calls, i);
      } else {
        assert calls[..i] == calls;
      }
    }
    forall i: nat | i < |calls| ensures CallAt(w, more, calls, i) {
      assert CallAt(w, requests, calls, i);
      assert more[..i + 1] == requests[..i + 1];
    }
  }

  lemma OneMoreCall(c: Settings, w: World, conversation: seq<Message>, requests: seq<Request>, calls: seq<ToolCall>,
                    messages: seq<Message>, call: ToolCall)
    requires Recorded(c, w, conversation, requests, calls, messages) && |requests| == |calls| + 1
    requires Pending(w.provider(requests).events) == Some(call)
    ensures Recorded(c, w, conversation, requests, calls + [call],
      messages + CallMessages(call, Payload(w, c.exposure, call.name, w.dispatch(calls + [call]))))
  {
    var more := calls + [call];
    assert more[..|more| - 1] == calls;
    forall i: nat | i < |requests| ensures RequestAt(c, w, conversation, requests, more, i) {
      assert RequestAt(c, w, conversation, requests, calls, i);
      assert more[..i] == calls[..i];
    }
    forall i: nat | i < |more| ensures CallAt(w, requests, more, i) {
      if i < |calls| {
        assert CallAt(w, requests, calls, i);
      } else {
        assert requests[..i + 1] == requests;
      }
    }
  }

  lemma {:induction false} ContinueFinishes(c: Settings, w: World, conversation: seq<Message>, n: nat, t: Trace)
    requires n <= c.maxSteps && |t.requests| == |t.calls| == n
    requires Recorded(c, w, conversation, t.requests, t.calls, t.messages)
    ensures Finished(c, w, conversation, Continue(c, w, n, t))
    decreases c.maxSteps - n
  {
    if n < c.maxSteps && !w.cancelled(n) {
      var requests := t.requests + [Assemble(c, w.specs, t.messages)];
      var turn := w.provider(requests);
      OneMoreRequest(c, w, conversation, t.requests, t.calls, t.messages);
      assert requests[..n + 1] == requests;
      if turn.error.None? && Pending(turn.events).Some? {
        var call := Pending(turn.events).value;
        OneMoreCall(c, w, conversation, requests, t.calls, t.messages, call);
        ContinueFinishes(c, w, conversation, n + 1,
          AfterCall(c, w, t.(requests := requests, emitted := t.emitted + turn.events), call));
      }
    }
  }

  /**
   The transcript invariant of every run: request i shows the conversation and the first i
   assistant/tool pairs, turn i asked for call i, there are at most maxSteps requests, and the run
   ends in the way its counters say.
   */
  lemma RunFinishes(c: Settings, w: World, conversation: seq<Message>)
    requires !w.selfDriving
    ensures Finished(c, w, conversation, RunSpec(c, w, conversation))
  {
    ContinueFinishes(c, w, conversation, 0, Start(conversation));
  }

  /** The max-steps error means exactly maxSteps calls and maxSteps dispatches, and nothing else does. */
  lemma MaxStepsMeansMaxCalls(c: Settings, w: World, conversation: seq<Message>)
    requires !w.selfDriving
    ensures var t := RunSpec(c, w, conversation);
      t.outcome == TooManySteps <==> |t.calls| == c.maxSteps
  {
    RunFinishes(c, w, conversation);
  }

  /** Call i is recorded as an assistant message and a tool message carrying its id and name. */
  lemma {:induction false} TranscriptPairs(w: World, exposure: string, conversation: seq<Message>, calls: seq<ToolCall>)
    ensures var m := TranscriptOf(w, exposure, conversation, calls);
      && |m| == |conversation| + 2 * |calls| && conversation <= m
      && forall i :: 0 <= i < |calls| ==>
          && m[|conversation| + 2 * i] == Message(Assistant, "", calls[i].id, calls[i].name, calls[i].args)
          && m[|conversation| + 2 * i + 1].role == ToolRole
          && m[|conversation| + 2 * i + 1].toolCallId == calls[i].id
          && m[|conversation| + 2 * i + 1].toolName == calls[i].name
  {
    if calls != [] { TranscriptPairs(w, exposure, conversation, calls[..|calls| - 1]); }
  }

  // --------------------------------------------------------- which call, which prompt

  predicate IsCall(e: Event) {
    e.ToolCallEvent? && e.call.Some?
  }

  /** Event k is the last of these events to ask for a call. */
  predicate LastCallAt(events: seq<Event>, k: nat, call: ToolCall) {
    k < |events| && events[k] == ToolCallEvent(Some(call)) && forall j | k < j < |events| :: !IsCall(events[j])
  }

  ghost predicate LastCall(events: seq<Event>, call: ToolCall) {
    exists k: nat :: LastCallAt(events, k, call)
  }

  ghost predicate NoCalls(events: seq<Event>) {
    forall j | 0 <= j < |events| :: !IsCall(events[j])
  }

  lemma {:induction false} PendingIsLast(events: seq<Event>)
    ensures match Pending(events)
      case None => NoCalls(events)
      case Some(call) => LastCall(events, call)
  {
    if events != [] {
      var n := |events| - 1;
      var init := events[..n];
      if IsCall(events[n]) {
        assert events[n] == ToolCallEvent(Some(events[n].call.value));
        assert LastCallAt(events, n, events[n].call.value);
      } else {
        PendingIsLast(init);
        if Pending(init).Some? {
          var k: nat :| LastCallAt(init, k, Pending(init).value);
          forall j | k < j < |events| ensures !IsCall(events[j]) { assert j < n ==> !IsCall(init[j]); }
          assert LastCallAt(events, k, Pending(init).value);
        } else {
          forall j | 0 <= j < |events| ensures !IsCall(events[j]) { assert j < n ==> !IsCall(init[j]); }
        }
      }
    }
  }

  /** Of several calls in one turn the last is dispatched, and a run is answered only by a turn without any. */
  lemma LastCallIsDispatched(c: Settings, w: World, conversation: seq<Message>)
    requires !w.selfDriving
    ensures var t := RunSpec(c, w, conversation);
      && |t.calls| <= |t.requests|
      && (forall i | 0 <= i < |t.calls| :: LastCall(w.provider(t.requests[..i + 1]).events, t.calls[i]))
      && (t.outcome == Answered ==> t.requests != [] && NoCalls(w.provider(t.requests).events))
  {
    var t := RunSpec(c, w, conversation);
    RunFinishes(c, w, conversation);
    forall i | 0 <= i < |t.calls| ensures LastCall(w.provider(t.requests[..i + 1]).events, t.calls[i]) {
      assert CallAt(w, t.requests, t.calls, i);
      PendingIsLast(w.provider(t.requests[..i + 1]).events);
    }
    if t.outcome == Answered {
      assert t.requests[..|t.calls| + 1] == t.requests;
      PendingIsLast(w.provider(t.requests).events);
    }
  }

  /** Every request of a run without secrets carries the base prompt, a domain text that is not blank, the note of its language, and all tools. */
  lemma PromptIsComplete(c: Settings, w: World, conversation: seq<Message>, i: nat)
    requires c.secrets == [] && i < |RunSpec(c, w, conversation).requests|
    ensures var r := RunSpec(c, w, conversation).requests[i];
      && r.tools == w.specs
      && (Blank(c.domain) && c.language !in ["english", "korean"] ==> r.system == c.prompts.base)
      && (!Blank(c.domain) && c.language !in ["english", "korean"] ==> r.system == c.prompts.base + "\n\n" + c.domain)
      && (c.language == "english" ==>
          r.system == (if Blank(c.domain) then c.prompts.base else c.prompts.base + "\n\n" + c.domain) + c.prompts.english)
      && (c.language == "korean" ==>
          r.system == (if Blank(c.domain) then c.prompts.base else c.prompts.base + "\n\n" + c.domain) + c.prompts.korean)
  {
    TrimEmpty(c.domain);
    if !w.selfDriving {
      RunFinishes(c, w, conversation);
      var t := RunSpec(c, w, conversation);
      assert RequestAt(c, w, conversation, t.requests, t.calls, i);
    }
  }

  // ---------------------------------------------------------------------- secrets

  /** The secret occurs neither in the system prompt nor in the text of any message. */
  ghost predicate TextFree(r: Request, sec: string) {
    !Occurs(sec, r.system) && forall m | 0 <= m < |r.messages| :: !Occurs(sec, r.messages[m].text)
  }

  ghost predicate ArgsFree(args: Args, sec: string) {
    forall k | k in args :: !Occurs(sec, k) && !Occurs(sec, args[k])
  }

  /** The secret occurs in none of the fields redaction does not look at. */
  ghost predicate FieldsFree(m: Message, sec: string) {
    !Occurs(sec, m.toolCallId) && !Occurs(sec, m.toolName) && ArgsFree(m.toolArgs, sec)
  }

  ghost predicate AllFieldsFree(messages: seq<Message>, sec: string) {
    forall i | 0 <= i < |messages| :: FieldsFree(messages[i], sec)
  }

  ghost predicate CallFree(call: ToolCall, sec: string) {
    !Occurs(sec, call.id) && !Occurs(sec, call.name) && ArgsFree(call.args, sec)
  }

  ghost predicate SpecsFree(specs: seq<string>, sec: string) {
    forall i | 0 <= i < |specs| :: !Occurs(sec, specs[i])
  }

  /** Nothing of the request carries the secret. */
  ghost predicate RequestFree(r: Request, sec: string) {
    TextFree(r, sec) && AllFieldsFree(r.messages, sec) && SpecsFree(r.tools, sec)
  }

  lemma AssembledIsFree(c: Settings, specs: seq<string>, messages: seq<Message>, sec: string)
    requires Safe(sec) && sec in c.secrets
    ensures TextFree(Assemble(c, specs, messages), sec)
    ensures RequestFree(Assemble(c, specs, messages), sec) <==> AllFieldsFree(messages, sec) && SpecsFree(specs, sec)
  {
    var r := Assemble(c, specs, messages);
    RedactIsComplete(SystemPrompt(c), c.secrets, sec);
    forall m | 0 <= m < |messages| ensures !Occurs(sec, Redacted(messages[m].text, c.secrets)) {
      RedactIsComplete(messages[m].text, c.secrets, sec);
    }
    forall m | 0 <= m < |messages| ensures FieldsFree(r.messages[m], sec) <==> FieldsFree(messages[m], sec) {}
    if AllFieldsFree(r.messages, sec) {
      forall m | 0 <= m < |messages| ensures FieldsFree(messages[m], sec) { assert FieldsFree(r.messages[m], sec); }
    }
  }

  /** No request of any run, self-driving or not, shows a safe registered secret in its prompt or a message text. */
  lemma NoSecretIsSent(c: Settings, w: World, conversation: seq<Message>, sec: string)
    requires Safe(sec) && sec in c.secrets
    ensures var t := RunSpec(c, w, conversation);
      forall i :: 0 <= i < |t.requests| ==> TextFree(t.requests[i], sec)
  {
    var t := RunSpec(c, w, conversation);
    if w.selfDriving {
      AssembledIsFree(c, w.specs, conversation, sec);
    } else {
      RunFinishes(c, w, conversation);
      forall i: nat | i < |t.requests| ensures TextFree(t.requests[i], sec) {
        assert RequestAt(c, w, conversation, t.requests, t.calls, i);
        AssembledIsFree(c, w.specs, TranscriptOf(w, c.exposure, conversation, t.calls[..i]), sec);
      }
    }
  }

  lemma FieldsSplit(a: seq<Message>, b: seq<Message>, sec: string)
    ensures AllFieldsFree(a + b, sec) <==> AllFieldsFree(a, sec) && AllFieldsFree(b, sec)
  {
    forall i | 0 <= i < |a + b| ensures (a + b)[i] == if i < |a| then a[i] else b[i - |a|] {}
    if AllFieldsFree(a + b, sec) {
      forall i | 0 <= i < |a| ensures FieldsFree(a[i], sec) { assert FieldsFree((a + b)[i], sec); }
      forall i | 0 <= i < |b| ensures FieldsFree(b[i], sec) { assert FieldsFree((a + b)[|a| + i], sec); }
    }
  }

  lemma CallFields(call: ToolCall, payload: string, sec: string)
    ensures AllFieldsFree(CallMessages(call, payload), sec) <==> CallFree(call, sec)
  {
    var m := CallMessages(call, payload);
    assert AllFieldsFree(m, sec) ==> FieldsFree(m[0], sec);
  }

  lemma {:induction false} TranscriptFields(w: World, exposure: string, conversation: seq<Message>, calls: seq<ToolCall>, sec: string)
    ensures AllFieldsFree(TranscriptOf(w, exposure, conversation, calls), sec)
      <==> AllFieldsFree(conversation, sec) && forall j | 0 <= j < |calls| :: CallFree(calls[j], sec)
  {
    if calls != [] {
      var init, call := calls[..|calls| - 1], calls[|calls| - 1];
      var payload := Payload(w, exposure, call.name, w.dispatch(calls));
      TranscriptFields(w, exposure, conversation, init, sec);
      FieldsSplit(TranscriptOf(w, exposure, conversation, init), CallMessages(call, payload), sec);
      CallFields(call, payload, sec);
      assert forall j :: 0 <= j < |init| ==> init[j] == calls[j];
    }
  }

  /**
   What redaction leaves out, exactly: request i carries a safe registered secret if and only if the
   caller's conversation or the tool list carries it outside a text, or one of the first i tool calls
   the model made has it in its id, name or arguments.
   */
  lemma SecretsTravelInCallsOnly(c: Settings, w: World, conversation: seq<Message>, sec: string, i: nat)
    requires Safe(sec) && sec in c.secrets && !w.selfDriving
    ensures var t := RunSpec(c, w, conversation);
      i < |t.requests| ==>
        (RequestFree(t.requests[i], sec) <==>
          (&& AllFieldsFree(conversation, sec) && SpecsFree(w.specs, sec)
           && i <= |t.calls| && forall j | 0 <= j < i :: CallFree(t.calls[j], sec)))
  {
    var t := RunSpec(c, w, conversation);
    RunFinishes(c, w, conversation);
    if i < |t.requests| {
      assert RequestAt(c, w, conversation, t.requests, t.calls, i);
      var calls := t.calls[..i];
      AssembledIsFree(c, w.specs, TranscriptOf(w, c.exposure, conversation, calls), sec);
      TranscriptFields(w, c.exposure, conversation, calls, sec);
      assert forall j :: 0 <= j < i ==> calls[j] == t.calls[j];
    }
  }

  /** Such runs exist: when the first turn asks for a call that names the secret, the second request carries it. */
  lemma CallCarriesSecret(c: Settings, w: World, conversation: seq<Message>, call: ToolCall, sec: string)
    requires c.maxSteps >= 2 && Safe(sec) && sec in c.secrets
    ensures StartsWithCall(c, w, conversation, call) && !CallFree(call, sec) ==>
      var t := RunSpec(c, w, conversation);
      |t.requests| >= 2 && TextFree(t.requests[1], sec) && !RequestFree(t.requests[1], sec)
  {
    if StartsWithCall(c, w, conversation, call) && !CallFree(call, sec) {
      var payload := Payload(w, c.exposure, call.name, w.dispatch([call]));
      SecondRequest(c, w, conversation, call);
      AssembledIsFree(c, w.specs, conversation + CallMessages(call, payload), sec);
      FieldsSplit(conversation, CallMessages(call, payload), sec);
      CallFields(call, payload, sec);
    }
  }

  // -------------------------------------------------------------- withheld rows

  /** An exposure such as "metadata" or "on_request", which keeps rows from the model. */
  predicate HidesRows(exposure: string) {
    exposure != "" && exposure != "unrestricted"
  }

  /** Result sets of one of the three tools that show rows, with the same columns and row count. */
  predicate DifferInRows(name: string, a: Result, b: Result) {
    && name in ["run_select", "explain_query", "profile_table"]
    && a.QueryResult? && b.QueryResult? && a.columns == b.columns && a.rowCount == b.rowCount
  }

  predicate SameButRows(name: string, a: Dispatched, b: Dispatched) {
    a == b || (a.Done? && b.Done? && DifferInRows(name, a.result, b.result))
  }

  /** Two worlds that differ in their tools only. */
  ghost predicate AgreeOutside(v: World, w: World) {
    && v.selfDriving == w.selfDriving && v.specs == w.specs
    && (forall h :: v.provider(h) == w.provider(h))
    && (forall k :: v.cancelled(k) == w.cancelled(k))
    && (forall r :: v.encode(r) == w.encode(r))
    && (forall e :: v.encodeError(e) == w.encodeError(e))
  }

  /** Two worlds whose tools agree, for every history of calls, but for rows. */
  ghost predicate AgreeButRows(v: World, w: World) {
    && AgreeOutside(v, w)
    && (forall h: seq<ToolCall> :: h != [] ==> SameButRows(h[|h| - 1].name, v.dispatch(h), w.dispatch(h)))
  }

  /** Traces that look alike to the provider. */
  predicate SameToProvider(a: Trace, b: Trace) {
    a.requests == b.requests && a.calls == b.calls && a.messages == b.messages && a.outcome == b.outcome
  }

  lemma SamePayload(v: World, w: World, exposure: string, calls: seq<ToolCall>)
    requires AgreeButRows(v, w) && HidesRows(exposure) && calls != []
    ensures var name := calls[|calls| - 1].name;
      Payload(v, exposure, name, v.dispatch(calls)) == Payload(w, exposure, name, w.dispatch(calls))
  {
    assert SameButRows(calls[|calls| - 1].name, v.dispatch(calls), w.dispatch(calls));
  }

  lemma SameAfterCall(c: Settings, v: World, w: World, a: Trace, b: Trace, call: ToolCall)
    requires AgreeButRows(v, w) && HidesRows(c.exposure)
    requires a.requests == b.requests && a.calls == b.calls && a.messages == b.messages
    ensures SameToProvider(AfterCall(c, v, a, call), AfterCall(c, w, b, call))
  {
    SamePayload(v, w, c.exposure, a.calls + [call]);
  }

  /** The provider, cancellation and tool list of two such worlds are the same. */
  lemma SameSurroundings(v: World, w: World, h: seq<Request>, k: nat)
    requires AgreeButRows(v, w)
    ensures v.specs == w.specs && v.provider(h) == w.provider(h) && v.cancelled(k) == w.cancelled(k)
  {
  }

  lemma SameAsked(c: Settings, v: World, w: World, a: Trace, b: Trace)
    requires AgreeButRows(v, w) && SameToProvider(a, b)
    ensures SameToProvider(Asked(c, v, a), Asked(c, w, b))
    ensures v.provider(Asked(c, v, a).requests) == w.provider(Asked(c, w, b).requests)
  {
    SameSurroundings(v, w, Asked(c, w, b).requests, 0);
  }

  /** How the turn after t leaves the loop, or the call it asks for. */
  datatype TurnEnd = Ends(outcome: Outcome) | Calls(call: ToolCall)

  function EndOf(turn: Turn): TurnEnd {
    if turn.error.Some? then Ends(ProviderError(turn.error.value))
    else match Pending(turn.events) case None => Ends(Answered) case Some(call) => Calls(call)
  }

  /** One step of the loop. */
  lemma ContinueStep(c: Settings, w: World, step: nat, t: Trace)
    ensures step >= c.maxSteps ==> Continue(c, w, step, t) == t.(outcome := TooManySteps)
    ensures step < c.maxSteps && w.cancelled(step) ==> Continue(c, w, step, t) == t.(outcome := Cancelled)
    ensures step < c.maxSteps && !w.cancelled(step) ==>
      Continue(c, w, step, t) ==
        match EndOf(w.provider(Asked(c, w, t).requests))
        case Ends(outcome) => Asked(c, w, t).(outcome := outcome)
        case Calls(call) => Continue(c, w, step + 1, AfterCall(c, w, Asked(c, w, t), call))
  {
  }

  lemma SameOutcome(a: Trace, b: Trace, outcome: Outcome)
    requires SameToProvider(a, b)
    ensures SameToProvider(a.(outcome := outcome), b.(outcome := outcome))
  {
  }

  lemma {:induction false} SameContinuation(c: Settings, v: World, w: World, step: nat, a: Trace, b: Trace)
    requires AgreeButRows(v, w) && HidesRows(c.exposure) && SameToProvider(a, b)
    ensures SameToProvider(Continue(c, v, step, a), Continue(c, w, step, b))
    decreases c.maxSteps - step
  {
    SameSurroundings(v, w, [], step);
    ContinueStep(c, v, step, a);
    ContinueStep(c, w, step, b);
    if step >= c.maxSteps {
      SameOutcome(a, b, TooManySteps);
    } else if w.cancelled(step) {
      SameOutcome(a, b, Cancelled);
    } else {
      var a1, b1 := Asked(c, v, a), Asked(c, w, b);
      SameAsked(c, v, w, a, b);
      match EndOf(w.provider(b1.requests)) {
        case Ends(outcome) => SameOutcome(a1, b1, outcome);
        case Calls(call) =>
          SameAfterCall(c, v, w, a1, b1, call);
          SameContinuation(c, v, w, step + 1, AfterCall(c, v, a1, call), AfterCall(c, w, b1, call));
      }
    }
  }

  /**
   Noninterference: under "metadata", "on_request" and any other exposure but "" and "unrestricted", two runs
   whose run_select, explain_query and profile_table differ only in rows and truncation send the provider the same
   requests, dispatch the same calls and finish the same way.
   */
  lemma RowsDoNotReachProvider(c: Settings, v: World, w: World, conversation: seq<Message>)
    requires AgreeButRows(v, w) && HidesRows(c.exposure)
    ensures SameToProvider(RunSpec(c, v, conversation), RunSpec(c, w, conversation))
  {
    if v.selfDriving {
      var requests := [Assemble(c, v.specs, conversation)];
      assert v.provider(requests) == w.provider(requests);
    } else {
      SameContinuation(c, v, w, 0, Start(conversation), Start(conversation));
    }
  }

  /** The policy is what does it: without one, different results of the first call show in the second request. */
  lemma RowsReachProviderUnrestricted(c: Settings, v: World, w: World, conversation: seq<Message>, call: ToolCall)
    requires AgreeButRows(v, w) && !HidesRows(c.exposure) && c.secrets == [] && c.maxSteps >= 2
    ensures StartsWithCall(c, v, conversation, call)
      && v.dispatch([call]).Done? && w.dispatch([call]).Done?
      && v.encode(v.dispatch([call]).result) != v.encode(w.dispatch([call]).result)
      ==> DifferentSecondRequest(RunSpec(c, v, conversation), RunSpec(c, w, conversation))
  {
    if StartsWithCall(c, v, conversation, call) && v.dispatch([call]).Done? && w.dispatch([call]).Done?
       && v.encode(v.dispatch([call]).result) != v.encode(w.dispatch([call]).result)
    {
      SecondRequest(c, v, conversation, call);
      SecondRequest(c, w, conversation, call);
      var p := Payload(v, c.exposure, call.name, v.dispatch([call]));
      var q := Payload(w, c.exposure, call.name, w.dispatch([call]));
      assert (conversation + CallMessages(call, p))[|conversation| + 1].text == p;
      assert (conversation + CallMessages(call, q))[|conversation| + 1].text == q;
    }
  }

  /** The policy hides nothing else: two results are shown to the model alike exactly if they are equal or differ in withheld rows. */
  lemma ShownAlikeIff(name: string, exposure: string, a: Result, b: Result)
    requires !a.Withheld? && !b.Withheld?
    ensures SanitizeForPolicy(name, a, exposure) == SanitizeForPolicy(name, b, exposure)
      <==> a == b || (HidesRows(exposure) && DifferInRows(name, a, b))
  {
  }

  /** What the model sees of a withheld result set: its columns, its row count, and why. */
  lemma WithheldShows(name: string, exposure: string, a: Result)
    requires HidesRows(exposure) && DifferInRows(name, a, a)
    ensures SanitizeForPolicy(name, a, exposure) ==
      Withheld("data-exposure policy (" + exposure + "): row values are not sent to the model", a.columns, a.rowCount)
  {
  }

  /** Under every policy, any other difference in the result of the first call shows in the second request. */
  lemma OtherDifferencesShow(c: Settings, v: World, w: World, conversation: seq<Message>, call: ToolCall)
    requires AgreeOutside(v, w) && c.secrets == [] && c.maxSteps >= 2
    requires forall x, y :: v.encode(x) == v.encode(y) ==> x == y
    ensures StartsWithCall(c, v, conversation, call) && v.dispatch([call]).Done? && w.dispatch([call]).Done? ==>
      var (a, b) := (v.dispatch([call]).result, w.dispatch([call]).result);
      !a.Withheld? && !b.Withheld? && a != b && !(HidesRows(c.exposure) && DifferInRows(call.name, a, b))
      ==> DifferentSecondRequest(RunSpec(c, v, conversation), RunSpec(c, w, conversation))
  {
    if StartsWithCall(c, v, conversation, call) && v.dispatch([call]).Done? && w.dispatch([call]).Done? {
      var a, b := v.dispatch([call]).result, w.dispatch([call]).result;
      if !a.Withheld? && !b.Withheld? { ShownAlikeIff(call.name, c.exposure, a, b); }
      var p := Payload(v, c.exposure, call.name, v.dispatch([call]));
      var q := Payload(w, c.exposure, call.name, w.dispatch([call]));
      assert p == v.encode(SanitizeForPolicy(call.name, a, c.exposure));
      assert q == v.encode(SanitizeForPolicy(call.name, b, c.exposure));
      SecondRequest(c, v, conversation, call);
      SecondRequest(c, w, conversation, call);
      assert (conversation + CallMessages(call, p))[|conversation| + 1].text == p;
      assert (conversation + CallMessages(call, q))[|conversation| + 1].text == q;
    }
  }

  /** The first turn asks for this call, and the run is not cancelled before the second. */
  predicate StartsWithCall(c: Settings, w: World, conversation: seq<Message>, call: ToolCall) {
    !w.selfDriving && !w.cancelled(0) && !w.cancelled(1) &&
    var turn := w.provider([Assemble(c, w.specs, conversation)]);
    turn.error.None? && Pending(turn.events) == Some(call)
  }

  predicate DifferentSecondRequest(a: Trace, b: Trace) {
    |a.requests| >= 2 && |b.requests| >= 2 && a.requests[0] == b.requests[0] && a.requests[1] != b.requests[1]
  }

  lemma {:induction false} RequestsGrow(c: Settings, w: World, step: nat, t: Trace)
    ensures t.requests <= Continue(c, w, step, t).requests
    ensures step < c.maxSteps && !w.cancelled(step) ==>
      t.requests + [Assemble(c, w.specs, t.messages)] <= Continue(c, w, step, t).requests
    decreases c.maxSteps - step
  {
    if step < c.maxSteps && !w.cancelled(step) {
      var requests := t.requests + [Assemble(c, w.specs, t.messages)];
      var turn := w.provider(requests);
      if turn.error.None? && Pending(turn.events).Some? {
        RequestsGrow(c, w, step + 1,
          AfterCall(c, w, t.(requests := requests, emitted := t.emitted + turn.events), Pending(turn.events).value));
      }
    }
  }

  lemma SecondRequest(c: Settings, w: World, conversation: seq<Message>, call: ToolCall)
    requires c.maxSteps >= 2 && StartsWithCall(c, w, conversation, call)
    ensures var t := RunSpec(c, w, conversation);
      |t.requests| >= 2 && t.requests[0] == Assemble(c, w.specs, conversation) &&
      t.requests[1] == Assemble(c, w.specs, conversation + CallMessages(call, Payload(w, c.exposure, call.name, w.dispatch([call]))))
  {
    var requests := [Assemble(c, w.specs, conversation)];
    var turn := w.provider(requests);
    assert Start(conversation).requests + requests == requests && [] + [call] == [call];
    var t := AfterCall(c, w, Start(conversation).(requests := requests, emitted := [] + turn.events), call);
    assert RunSpec(c, w, conversation) == Continue(c, w, 1, t);
    RequestsGrow(c, w, 1, t);
  }
}
