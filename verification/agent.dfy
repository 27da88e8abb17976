/**
 * `ReactAgent`: the message list, the tool table and the step-bounded
 * Reason-Act loop, as a class whose methods update its fields in place.
 * Each method is proved against the value-level definitions of the
 * AgentContext and AgentLoop modules.
 */
module Agent {
  import opened Text
  import opened Results
  import opened ResponseParser
  import opened AgentContext
  import opened AgentLoop

  /** The content of the system message created by the constructor. */
  const SystemPrompt: string :=
    "You are a careful ReAct-style software engineering agent operating inside a real codebase.\n"
    + "\n"
    + "Your job: solve the user's task by iterating between (1) brief reasoning and (2) tool use.\n"
    + "You have access to tools described below; use them to inspect files, run commands, and produce a final patch/result.\n"
    + "\n"
    + "CRITICAL OUTPUT RULES (must follow exactly):\n"
    + "- Every assistant message MUST end with EXACTLY ONE function call using the provided textual protocol.\n"
    + "- The function call block MUST be the final thing in the message (no extra text after END marker).\n"
    + "- Do NOT output JSON or XML. Do NOT output multiple function calls.\n"
    + "- Do NOT include any of these markers anywhere except in the final call block: "
    + "----BEGIN_FUNCTION_CALL----, ----END_FUNCTION_CALL----, ----ARG----, ----VALUE----.\n"
    + "- Argument values may be multiline.\n"
    + "\n"
    + "HOW TO WORK:\n"
    + "- Prefer small, verifiable steps. When unsure, inspect the repo using run_bash_cmd.\n"
    + "- If a tool fails, read the error and retry with corrected arguments.\n"
    + "- Before you finish, run a simple test to verify the changes you made.\n"
    + "\n"
    + "FINISHING:\n"
    + "- Only call finish when the task is complete.\n"
    + "- When you complete, call finish(result=...) where you explain the change in a few sentences.\n"
    + "- Never call finish with an empty result.\n"

  /** The `ValueError` text for a candidate that is not callable. */
  function NotCallableText(shown: string): string
  {
    "Tool " + shown + " is not callable."
  }

  /** `add_functions(tools)` on values: register each callable in turn; the first
      non-callable stops the registration with its error, keeping what came before. */
  function RegisterAll(table: ToolTable, tools: seq<Candidate>): (ToolTable, Option<string>)
    decreases |tools|
  {
    if tools == [] then (table, None)
    else
      match tools[0]
      case NotCallable(shown) => (table, Some(NotCallableText(shown)))
      case Callable(tool) => RegisterAll(table.Register(tool), tools[1..])
  }

  /** The position of the first non-callable candidate, or `|tools|` when there is none. */
  function FirstNotCallable(tools: seq<Candidate>): (k: nat)
    ensures k <= |tools|
    ensures forall i :: 0 <= i < k ==> tools[i].Callable?
    ensures k < |tools| ==> tools[k].NotCallable?
  {
    if tools == [] || tools[0].NotCallable? then 0 else 1 + FirstNotCallable(tools[1..])
  }

  /** `add_functions` raises exactly when some candidate is not callable, naming
      the first one; the table then holds every callable before it, registered
      in order, and nothing after it. */
  lemma {:induction false} RegisterAllStops(table: ToolTable, tools: seq<Candidate>)
    ensures var k := FirstNotCallable(tools);
      var (result, err) := RegisterAll(table, tools);
      (err.Some? <==> k < |tools|)
      && (k < |tools| ==> err == Some(NotCallableText(tools[k].shown)))
      && result == RegisterAll(table, tools[..k]).0
    decreases |tools|
  {
    if tools != [] && tools[0].Callable? {
      RegisterAllStops(table.Register(tools[0].tool), tools[1..]);
      assert tools[1..][..FirstNotCallable(tools[1..])] == tools[..FirstNotCallable(tools)][1..];
    }
  }

  /** The last callable in `tools` with a given name. */
  ghost predicate LastNamed(tools: seq<Candidate>, i: int, name: string)
  {
    0 <= i < |tools| && tools[i].Callable? && tools[i].tool.name == name
    && forall j :: i < j < |tools| && tools[j].Callable? ==> tools[j].tool.name != name
  }

  /** Registering keeps the table well formed and keeps the names already there
      in their place in the order. */
  lemma {:induction false} RegisterAllKeepsOrder(table: ToolTable, tools: seq<Candidate>)
    ensures var result := RegisterAll(table, tools).0;
      (table.Valid() ==> result.Valid())
      && |table.order| <= |result.order| && result.order[..|table.order|] == table.order
    decreases |tools|
  {
    if tools != [] && tools[0].Callable? {
      var next := table.Register(tools[0].tool);
      RegisterAllKeepsOrder(next, tools[1..]);
      var result := RegisterAll(table, tools).0;
      assert result.order[..|table.order|] == result.order[..|next.order|][..|table.order|];
    }
  }

  /** After registering a list of callables, a name is registered exactly when
      it was before or some tool in the list carries it. */
  lemma {:induction false} RegisterAllNames(table: ToolTable, tools: seq<Candidate>)
    requires forall i :: 0 <= i < |tools| ==> tools[i].Callable?
    ensures var result := RegisterAll(table, tools).0;
      forall n :: n in result.byName <==> n in table.byName || exists i :: 0 <= i < |tools| && tools[i].tool.name == n
    decreases |tools|
  {
    if tools != [] {
      var rest := tools[1..];
      RegisterAllNames(table.Register(tools[0].tool), rest);
      var result := RegisterAll(table, tools).0;
      forall n
        ensures n in result.byName <==> n in table.byName || exists i :: 0 <= i < |tools| && tools[i].tool.name == n
      {
        if exists i :: 0 <= i < |rest| && rest[i].tool.name == n {
          var i :| 0 <= i < |rest| && rest[i].tool.name == n;
          assert tools[i + 1].tool.name == n;
        }
        if exists i :: 0 <= i < |tools| && tools[i].tool.name == n {
          var i :| 0 <= i < |tools| && tools[i].tool.name == n;
          if i > 0 {
            assert rest[i - 1].tool.name == n;
          }
        }
      }
    }
  }

  /** After registering a list of callables, the last tool with a name is the
      one registered under it. */
  lemma {:induction false} RegisterAllLastWins(table: ToolTable, tools: seq<Candidate>)
    requires forall i :: 0 <= i < |tools| ==> tools[i].Callable?
    ensures var result := RegisterAll(table, tools).0;
      forall n, i :: LastNamed(tools, i, n) ==> n in result.byName && result.byName[n] == tools[i].tool
    decreases |tools|
  {
    if tools != [] {
      var rest := tools[1..];
      var next := table.Register(tools[0].tool);
      RegisterAllLastWins(next, rest);
      RegisterAllKept(next, rest);
      var result := RegisterAll(table, tools).0;
      forall n, i | LastNamed(tools, i, n)
        ensures n in result.byName && result.byName[n] == tools[i].tool
      {
        if i > 0 {
          assert LastNamed(rest, i - 1, n);
        } else {
          forall j | 0 <= j < |rest| ensures rest[j].tool.name != n {
            assert tools[j + 1].tool.name != n;
          }
        }
      }
    }
  }

  /** Names no tool in the list carries keep their entry. */
  lemma {:induction false} RegisterAllKept(table: ToolTable, tools: seq<Candidate>)
    requires forall i :: 0 <= i < |tools| ==> tools[i].Callable?
    ensures var result := RegisterAll(table, tools).0;
      forall n :: n in table.byName && (forall i :: 0 <= i < |tools| ==> tools[i].tool.name != n)
        ==> n in result.byName && result.byName[n] == table.byName[n]
    decreases |tools|
  {
    if tools != [] {
      var rest := tools[1..];
      var next := table.Register(tools[0].tool);
      RegisterAllKept(next, rest);
      var result := RegisterAll(table, tools).0;
      forall n | n in table.byName && (forall i :: 0 <= i < |tools| ==> tools[i].tool.name != n)
        ensures n in result.byName && result.byName[n] == table.byName[n]
      {
        forall i | 0 <= i < |rest| ensures rest[i].tool.name != n {
          assert tools[i + 1].tool.name != n;
        }
      }
    }
  }

  class ReactAgent {
    const name: string
    /** `parser.parse`: the call a response holds, or why it holds none. */
    const parse: string -> Result<ParsedCall, ParseError>
    /** `llm.generate`: the model's response to a request. */
    const llm: seq<ChatEntry> -> string
    /** `root_message_id`: set to -1 and never used. */
    const rootMessageId: int
    /** `id_to_message` (also exposed as `messages`). */
    var messages: seq<Message>
    var currentMessageId: int
    var systemMessageId: int
    var userMessageId: int
    /** `function_map`, with its insertion order. */
    var functionMap: ToolTable

    /** What every public method keeps: ids are positions, the current id is the
        last position, and the system and user messages exist. */
    ghost predicate Valid()
      reads this
    {
      currentMessageId == |messages| - 1
      && IdsConsistent(messages)
      && 0 <= systemMessageId < |messages|
      && 0 <= userMessageId < |messages|
      && functionMap.Valid()
    }

    /** `ReactAgent(name, parser, llm)`: a system message with the prompt, an
        empty user message for the task, and `finish` registered. */
    constructor (name: string, parse: string -> Result<ParsedCall, ParseError>, llm: seq<ChatEntry> -> string)
      ensures Valid()
      ensures this.name == name && this.parse == parse && this.llm == llm
      ensures messages == [Message(SystemRole, SystemPrompt, 0), Message(UserRole, "", 1)]
      ensures systemMessageId == 0 && userMessageId == 1 && rootMessageId == -1
      ensures functionMap.byName == map["finish" := FinishTool()] && functionMap.order == ["finish"]
    {
      this.name := name;
      this.parse := parse;
      this.llm := llm;
      rootMessageId := -1;
      messages := [];
      currentMessageId := -1;
      systemMessageId := -1;
      userMessageId := -1;
      functionMap := ToolTable(map[], []);
      new;
      systemMessageId := AddMessage(SystemRole, SystemPrompt);
      assert messages == [Message(SystemRole, SystemPrompt, 0)];
      userMessageId := AddMessage(UserRole, "");
      assert messages == [Message(SystemRole, SystemPrompt, 0), Message(UserRole, "", 1)];
      assert RegisterAll(functionMap, [Callable(FinishTool())]).0 == ToolTable(map["finish" := FinishTool()], ["finish"]);
      var _ := AddFunctions([Callable(FinishTool())]);
    }

    /** `add_message(role, content)`: append a message with the next id and return that id. */
    method AddMessage(role: Role, content: string) returns (id: int)
      modifies this
      ensures id == old(currentMessageId) + 1 && currentMessageId == id
      ensures messages == old(messages) + [Message(role, content, id)]
      ensures old(Valid()) ==> Valid() && messages == Append(old(messages), role, content)
      ensures systemMessageId == old(systemMessageId) && userMessageId == old(userMessageId)
      ensures functionMap == old(functionMap)
    {
      currentMessageId := currentMessageId + 1;
      messages := messages + [Message(role, content, currentMessageId)];
      id := currentMessageId;
    }

    /** `set_message_content(message_id, content)`: `IndexError` outside
        `0..current_message_id`, otherwise only that message's content changes. */
    method SetMessageContent(id: int, content: string) returns (err: Option<string>)
      requires Valid()
      modifies this
      ensures Valid()
      ensures err.None? <==> 0 <= id <= currentMessageId
      ensures err.Some? ==> err == Some("Message id " + IntToString(id) + " is out of range.") && messages == old(messages)
      ensures err.None? ==> 0 <= id < |old(messages)| && messages == WithContent(old(messages), id, content)
      ensures currentMessageId == old(currentMessageId)
      ensures systemMessageId == old(systemMessageId) && userMessageId == old(userMessageId)
      ensures functionMap == old(functionMap)
    {
      if !(0 <= id <= currentMessageId) {
        return Some("Message id " + IntToString(id) + " is out of range.");
      }
      messages := WithContent(messages, id, content);
      err := None;
    }

    /** `message_id_to_context(message_id)` */
    function MessageToContext(id: int): string
      reads this
      requires 0 <= id < |messages|
    {
      RenderMessage(messages, functionMap, id)
    }

    /** `get_context(include_system)`: the messages rendered in id order, each
        followed by a newline, without the system message when it is not wanted. */
    method GetContext(includeSystem: bool) returns (context: string)
      requires Valid()
      ensures context == Context(messages, functionMap, systemMessageId, includeSystem)
    {
      ghost var entries := Rendered(messages, functionMap, |messages|);
      context := "";
      var i := 0;
      while i < currentMessageId + 1
        invariant 0 <= i <= |messages|
        invariant context == Joined(entries, systemMessageId, includeSystem, 0, i)
      {
        JoinedNext(entries, systemMessageId, includeSystem, i, i + 1);
        if includeSystem || i != systemMessageId {
          RenderedAt(messages, functionMap, |messages|, i);
          var rendered := MessageToContext(i);
          assert rendered == entries[i];
          context := context + rendered + "\n";
        }
        i := i + 1;
      }
      assert context == Joined(entries, systemMessageId, includeSystem, 0, |messages|);
    }

    /** `add_functions(tools)`: register each callable under its name, stopping
        with `ValueError` at the first non-callable. */
    method AddFunctions(tools: seq<Candidate>) returns (err: Option<string>)
      requires Valid()
      modifies this
      ensures Valid()
      ensures (functionMap, err) == RegisterAll(old(functionMap), tools)
      ensures messages == old(messages) && currentMessageId == old(currentMessageId)
      ensures systemMessageId == old(systemMessageId) && userMessageId == old(userMessageId)
    {
      var i := 0;
      while i < |tools|
        invariant 0 <= i <= |tools|
        invariant Valid()
        invariant RegisterAll(functionMap, tools[i..]) == RegisterAll(old(functionMap), tools)
        invariant messages == old(messages) && currentMessageId == old(currentMessageId)
        invariant systemMessageId == old(systemMessageId) && userMessageId == old(userMessageId)
      {
        match tools[i]
        case NotCallable(shown) =>
          return Some(NotCallableText(shown));
        case Callable(tool) =>
          assert tools[i..][1..] == tools[i + 1..];
          functionMap := functionMap.Register(tool);
        i := i + 1;
      }
      err := None;
    }

    /** The part of an iteration of `run` after the response is recorded: parse
        it, look the tool up, call it and record what happened; `Some(result)`
        when `run` is to return. */
    method ActOn(response: string, showArgs: map<string, string> -> string) returns (finished: Option<string>)
      requires Valid()
      modifies this
      ensures Valid()
      ensures (messages, finished) == Act(Setup(functionMap, systemMessageId, llm, parse, showArgs), old(messages), response)
      ensures functionMap == old(functionMap)
      ensures systemMessageId == old(systemMessageId) && userMessageId == old(userMessageId)
    {
      ghost var setup := Setup(functionMap, systemMessageId, llm, parse, showArgs);
      ghost var start := messages;
      assert messages == start + Numbered(|start|, []);
      finished := None;
      match parse(response)
      case Err(e) =>
        AppendNumbered(start, [], SystemRole, ParserErrorText(e));
        var _ := AddMessage(SystemRole, ParserErrorText(e));
        ActOf(setup, start, response, [(SystemRole, ParserErrorText(e))], None);
      case Ok(call) =>
        if call.name !in functionMap.byName {
          AppendNumbered(start, [], SystemRole, UnknownToolText(call.name, functionMap));
          var _ := AddMessage(SystemRole, UnknownToolText(call.name, functionMap));
          ActOf(setup, start, response, [(SystemRole, UnknownToolText(call.name, setup.table))], None);
        } else {
          finished := CallTool(call, showArgs);
          ActOf(setup, start, response, ToolReaction(setup, call).0, finished);
        }
    }

    /** Calling a registered tool: `tool(**arguments)`, a failure notice when it
        raises, then the tool message; `Some(result)` when `run` is to return. */
    method CallTool(call: ParsedCall, showArgs: map<string, string> -> string) returns (finished: Option<string>)
      requires Valid() && call.name in functionMap.byName
      modifies this
      ensures Valid() && functionMap == old(functionMap)
      ensures var (entries, finishing) := ToolReaction(Setup(functionMap, systemMessageId, llm, parse, showArgs), call);
        messages == old(messages) + Numbered(|old(messages)|, entries) && finished == finishing
      ensures systemMessageId == old(systemMessageId) && userMessageId == old(userMessageId)
    {
      ghost var start := messages;
      ghost var done: seq<(Role, string)> := [];
      assert messages == start + Numbered(|start|, done);
      finished := None;
      var tool := functionMap.byName[call.name];
      var toolOutcome := tool.invoke(call.arguments);
      var result := ResultText(toolOutcome);
      if toolOutcome.Raised? {
        var failure := ToolFailedText(call.name, tool, toolOutcome.kind, toolOutcome.detail);
        AppendNumbered(start, done, SystemRole, failure);
        var _ := AddMessage(SystemRole, failure);
        done := done + [(SystemRole, failure)];
      }
      var recorded := ToolMessageText(call.name, showArgs(call.arguments), result);
      AppendNumbered(start, done, UserRole, recorded);
      var _ := AddMessage(UserRole, recorded);
      if Contains(call.name, "finish") {
        finished := Some(result);
      }
    }

    /** One iteration of the loop in `run`: send the request built from the
        messages, record the response, then act on it. */
    method StepOnce(showArgs: map<string, string> -> string) returns (finished: Option<string>)
      requires Valid()
      modifies this
      ensures Valid()
      ensures (messages, finished) == Step(Setup(old(functionMap), old(systemMessageId), llm, parse, showArgs), old(messages))
      ensures functionMap == old(functionMap)
      ensures systemMessageId == old(systemMessageId) && userMessageId == old(userMessageId)
    {
      ghost var setup := Setup(functionMap, systemMessageId, llm, parse, showArgs);
      ghost var start := messages;
      var request := Request(messages, functionMap, systemMessageId);
      var response := llm(request);
      assert response == Response(setup, start);
      AppendNumbered(start, [], AssistantRole, response);
      assert start + Numbered(|start|, []) == start;
      var _ := AddMessage(AssistantRole, response);
      finished := ActOn(response, showArgs);
      NumberedConcat(start, [(AssistantRole, response)], Reaction(setup, response).0);
    }

    /** `run(task, max_steps)`, with `showArgs` standing for how the arguments
        dictionary is printed: it ends as the value-level `run` says, from the
        state the agent is in. */
    method Run(task: string, maxSteps: int, showArgs: map<string, string> -> string) returns (outcome: RunOutcome)
      requires Valid()
      modifies this
      ensures Valid()
      ensures (messages, outcome)
              == AgentLoop.Run(Setup(old(functionMap), old(systemMessageId), llm, parse, showArgs),
                               old(messages), old(userMessageId), task, maxSteps)
      ensures functionMap == old(functionMap)
      ensures systemMessageId == old(systemMessageId) && userMessageId == old(userMessageId)
    {
      ghost var setup := Setup(functionMap, systemMessageId, llm, parse, showArgs);
      if maxSteps <= 0 {
        return InvalidMaxSteps("max_steps must be positive");
      }
      var n := StepBudget(maxSteps);
      var _ := SetMessageContent(userMessageId, Strip(task));
      ghost var start := messages;
      ghost var target := Loop(setup, start, n);
      ghost var left: nat := n;
      var step := 0;
      while step < n
        invariant 0 <= step <= n && left == n - step
        invariant Valid() && |start| <= |messages|
        invariant functionMap == setup.table && systemMessageId == setup.systemId
        invariant userMessageId == old(userMessageId)
        invariant Loop(setup, messages, left) == target
      {
        ghost var before := messages;
        var finished := StepOnce(showArgs);
        ghost var rest: nat := left - 1;
        LoopNext(setup, before, left, rest);
        if finished.Some? {
          return Finished(finished.value);
        }
        step := step + 1;
        left := rest;
      }
      assert left == 0;
      LoopDone(setup, messages);
      outcome := LimitsExceeded("Reached " + NatToString(n) + " steps without calling finish.");
    }
  }
}
