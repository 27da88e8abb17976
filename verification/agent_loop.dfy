/**
 * The control flow of `ReactAgent.run` on values: one iteration of the
 * Reason-Act loop as a function of the message list, the bounded loop, and
 * `run` as a whole. The language model is a function of the request it is
 * sent, and a tool is a function of its keyword arguments.
 */
module AgentLoop {
  import opened Text
  import opened Results
  import opened ResponseParser
  import opened AgentContext
  import CallFormat

  /** What `run` works with besides the message list: the registered tools, the
      system message's id, the model, the parser the agent was built with, and
      how the arguments dictionary is shown in a tool message. */
  datatype Setup = Setup(
    table: ToolTable,
    systemId: nat,
    llm: seq<ChatEntry> -> string,
    parse: string -> Result<ParsedCall, ParseError>,
    showArgs: map<string, string> -> string)

  /** How `run` ends: the tool result, `LimitsExceeded`, or the `ValueError` for a non-positive step count. */
  datatype RunOutcome = Finished(result: string) | LimitsExceeded(message: string) | InvalidMaxSteps(message: string)

  const MaxStepsCap: nat := 100

  function ParserErrorText(e: ParseError): string
  {
    "ParserError: " + e.Message() + ". "
    + "You must ALWAYS end with a valid function call including function name and arguments, "
    + "following the specified template. Respond again using this exact format:\n" + ResponseFormat
  }

  function UnknownToolText(name: string, table: ToolTable): string
  {
    "Tool '" + name + "' is not registered. Valid tools: " + Join(table.order, ", ") + ". Retry with a valid tool and arguments."
  }

  function ToolFailedText(name: string, tool: Tool, kind: string, detail: string): string
  {
    "Tool '" + name + tool.signature + "' failed: " + kind + ": " + detail
    + ". Retry with corrected arguments that match the signature."
  }

  /** `tool_result`: the returned text, or `Kind: detail` when the tool raised. */
  function ResultText(outcome: ToolOutcome): string
  {
    match outcome
    case Returned(text) => text
    case Raised(kind, detail) => kind + ": " + detail
  }

  function ToolMessageText(name: string, shownArgs: string, result: string): string
  {
    name + "(args=" + shownArgs + ")\n----TOOL RESULT BEGIN----\n" + result + "\n----TOOL RESULT END----\n"
  }

  /** Messages `(role, content)` given the ids `start`, `start + 1`, ... in order. */
  function Numbered(start: nat, entries: seq<(Role, string)>): (r: seq<Message>)
    ensures |r| == |entries|
    ensures forall i :: 0 <= i < |entries| ==> r[i] == Message(entries[i].0, entries[i].1, start + i)
    decreases |entries|
  {
    if entries == [] then [] else [Message(entries[0].0, entries[0].1, start)] + Numbered(start + 1, entries[1..])
  }

  /** Appending one message extends the numbered entries by one. */
  lemma AppendNumbered(msgs: seq<Message>, entries: seq<(Role, string)>, role: Role, content: string)
    ensures Append(msgs + Numbered(|msgs|, entries), role, content) == msgs + Numbered(|msgs|, entries + [(role, content)])
  {
    var numbered := Numbered(|msgs|, entries);
    var before := msgs + numbered;
    var last := Message(role, content, |before|);
    assert Append(before, role, content) == before + [last];
    assert before + [last] == msgs + (numbered + [last]);
    assert numbered + [last] == Numbered(|msgs|, entries + [(role, content)]) by {
      NumberedSnoc(|msgs|, entries, (role, content), |before|);
    }
  }

  lemma {:induction false} NumberedSnoc(start: nat, entries: seq<(Role, string)>, e: (Role, string), at: nat)
    requires at == start + |entries|
    ensures Numbered(start, entries + [e]) == Numbered(start, entries) + [Message(e.0, e.1, at)]
    decreases |entries|
  {
    if entries != [] {
      assert (entries + [e])[1..] == entries[1..] + [e];
      NumberedSnoc(start + 1, entries[1..], e, at);
    } else {
      assert Numbered(start + 1, []) == [];
    }
  }

  /** Numbering two lists in turn is numbering their concatenation. */
  lemma NumberedConcat(msgs: seq<Message>, first: seq<(Role, string)>, second: seq<(Role, string)>)
    ensures var mid := msgs + Numbered(|msgs|, first);
      mid + Numbered(|mid|, second) == msgs + Numbered(|msgs|, first + second)
  {
    var mid := msgs + Numbered(|msgs|, first);
    var lhs := mid + Numbered(|mid|, second);
    var rhs := msgs + Numbered(|msgs|, first + second);
    assert |lhs| == |rhs|;
    forall i | 0 <= i < |lhs| ensures lhs[i] == rhs[i] {
      if i >= |msgs| {
        assert rhs[i] == Numbered(|msgs|, first + second)[i - |msgs|];
        if i < |mid| {
          assert lhs[i] == Numbered(|msgs|, first)[i - |msgs|];
        } else {
          assert lhs[i] == Numbered(|mid|, second)[i - |mid|];
        }
      }
    }
  }

  /** What acting on a response records, in order, and `Some(result)` when `run`
      returns: parse it, look the tool up, call it, log a failure, record the
      result as a "user" message. */
  function Reaction(setup: Setup, response: string): (seq<(Role, string)>, Option<string>)
  {
    match setup.parse(response)
    case Err(e) => ([(SystemRole, ParserErrorText(e))], None)
    case Ok(call) =>
      if call.name !in setup.table.byName then
        ([(SystemRole, UnknownToolText(call.name, setup.table))], None)
      else ToolReaction(setup, call)
  }

  /** What calling a registered tool records: a failure notice when it raised,
      then the tool message as a "user" message; `Some(result)` when the tool's
      name contains "finish". */
  function ToolReaction(setup: Setup, call: ParsedCall): (seq<(Role, string)>, Option<string>)
    requires call.name in setup.table.byName
  {
    var tool := setup.table.byName[call.name];
    var outcome := tool.invoke(call.arguments);
    var result := ResultText(outcome);
    var recorded := (UserRole, ToolMessageText(call.name, setup.showArgs(call.arguments), result));
    (if outcome.Raised? then [(SystemRole, ToolFailedText(call.name, tool, outcome.kind, outcome.detail)), recorded]
     else [recorded],
     if Contains(call.name, "finish") then Some(result) else None)
  }

  /** The part of an iteration after the response is recorded. */
  function Act(setup: Setup, msgs: seq<Message>, response: string): (seq<Message>, Option<string>)
  {
    var (entries, finished) := Reaction(setup, response);
    (msgs + Numbered(|msgs|, entries), finished)
  }

  /** `Act` once the reaction to the response is known. */
  lemma ActOf(setup: Setup, msgs: seq<Message>, response: string, entries: seq<(Role, string)>, finished: Option<string>)
    requires Reaction(setup, response) == (entries, finished)
    ensures Act(setup, msgs, response) == (msgs + Numbered(|msgs|, entries), finished)
  {
  }

  /** The model's answer to the request built from `msgs`. */
  function Response(setup: Setup, msgs: seq<Message>): string
    requires setup.systemId < |msgs|
  {
    setup.llm(Request(msgs, setup.table, setup.systemId))
  }

  /** One iteration of the loop in `run`: record the response, then act on it. */
  function Step(setup: Setup, msgs: seq<Message>): (r: (seq<Message>, Option<string>))
    requires setup.systemId < |msgs|
    ensures |r.0| > |msgs|
  {
    Record(setup, msgs, Response(setup, msgs))
  }

  /** Record `response` as an assistant message, then act on it. */
  function Record(setup: Setup, msgs: seq<Message>, response: string): (seq<Message>, Option<string>)
  {
    var (entries, finished) := Reaction(setup, response);
    (msgs + Numbered(|msgs|, [(AssistantRole, response)] + entries), finished)
  }

  /** One iteration, as a value: defined once the list holds the system message. */
  function StepFn(setup: Setup): Iteration
  {
    m requires setup.systemId < |m| => Step(setup, m)
  }

  /** The loop with `remaining` iterations left. */
  function Loop(setup: Setup, msgs: seq<Message>, remaining: nat): (seq<Message>, Option<string>)
    requires setup.systemId < |msgs|
  {
    StepFnClosed(setup, msgs);
    Iterate(StepFn(setup), msgs, remaining)
  }

  /** `min(max_steps, 100)` for a positive `max_steps`. */
  function StepBudget(maxSteps: int): (n: nat)
    requires maxSteps > 0
    ensures 1 <= n <= MaxStepsCap && n <= maxSteps
    ensures n == maxSteps || n == MaxStepsCap
  {
    if maxSteps < MaxStepsCap then maxSteps else MaxStepsCap
  }

  /** `ReactAgent.run(task, max_steps)`: the final message list and how it ends. */
  function Run(setup: Setup, msgs: seq<Message>, userId: int, task: string, maxSteps: int): (seq<Message>, RunOutcome)
    requires setup.systemId < |msgs| && 0 <= userId < |msgs|
  {
    if maxSteps <= 0 then (msgs, InvalidMaxSteps("max_steps must be positive"))
    else
      var n := StepBudget(maxSteps);
      var (final, finished) := Loop(setup, WithContent(msgs, userId, Strip(task)), n);
      if finished.Some? then (final, Finished(finished.value))
      else (final, LimitsExceeded("Reached " + NatToString(n) + " steps without calling finish."))
  }

  // ---------------------------------------------------------------------
  // One iteration

  /** An iteration returns exactly when the response parses, names a registered
      tool, and that name contains "finish" — also when the tool raised; it then
      returns the tool result. */
  lemma StepFinishes(setup: Setup, msgs: seq<Message>)
    requires setup.systemId < |msgs|
    ensures var response := Response(setup, msgs);
      var parsed := setup.parse(response);
      var finishing := parsed.Ok? && parsed.value.name in setup.table.byName && Contains(parsed.value.name, "finish");
      (Step(setup, msgs).1.Some? <==> finishing)
      && (finishing ==> Step(setup, msgs).1.value
                        == ResultText(setup.table.byName[parsed.value.name].invoke(parsed.value.arguments)))
  {
  }

  /** Number of messages with a given role. */
  function CountRole(msgs: seq<Message>, role: Role): (c: nat)
    ensures c <= |msgs|
  {
    if msgs == [] then 0 else CountRole(msgs[..|msgs| - 1], role) + (if msgs[|msgs| - 1].role == role then 1 else 0)
  }

  lemma {:induction false} CountRoleAppend(msgs: seq<Message>, more: seq<Message>, role: Role)
    ensures CountRole(msgs + more, role) == CountRole(msgs, role) + CountRole(more, role)
    decreases |more|
  {
    if more == [] {
      assert msgs + more == msgs;
    } else {
      var init := more[..|more| - 1];
      assert (msgs + more)[..|msgs + more| - 1] == msgs + init;
      CountRoleAppend(msgs, init, role);
    }
  }

  /** Acting on a response records one or two messages: a system message (a parse
      error, an unknown tool), or the tool message with role "user", preceded by
      a system message when the tool raised; never a "tool" or "assistant"
      message. */
  lemma ReactionShape(setup: Setup, response: string)
    ensures var entries := Reaction(setup, response).0;
      1 <= |entries| <= 2
      && (forall i :: 0 <= i < |entries| ==> entries[i].0 == SystemRole || entries[i].0 == UserRole)
      && (Reaction(setup, response).1.Some? ==> entries[|entries| - 1].0 == UserRole)
  {
  }

  /** Each iteration first records the response as an assistant message with the
      next id, then one or two more messages with the following ids; earlier
      messages are untouched, and exactly one assistant message is added. */
  lemma StepAppends(setup: Setup, msgs: seq<Message>)
    requires setup.systemId < |msgs|
    ensures var next := Step(setup, msgs).0;
      |msgs| + 2 <= |next| <= |msgs| + 3 && next[..|msgs|] == msgs
      && next[|msgs|] == Message(AssistantRole, Response(setup, msgs), |msgs|)
      && (IdsConsistent(msgs) ==> IdsConsistent(next))
      && CountRole(next, AssistantRole) == CountRole(msgs, AssistantRole) + 1
      && CountRole(next, ToolRole) == CountRole(msgs, ToolRole)
  {
    RecordAppends(setup, msgs, Response(setup, msgs));
  }

  lemma RecordAppends(setup: Setup, msgs: seq<Message>, response: string)
    ensures var next := Record(setup, msgs, response).0;
      |msgs| + 2 <= |next| <= |msgs| + 3 && next[..|msgs|] == msgs
      && next[|msgs|] == Message(AssistantRole, response, |msgs|)
      && (IdsConsistent(msgs) ==> IdsConsistent(next))
      && CountRole(next, AssistantRole) == CountRole(msgs, AssistantRole) + 1
      && CountRole(next, ToolRole) == CountRole(msgs, ToolRole)
  {
    var entries := Reaction(setup, response).0;
    ReactionShape(setup, response);
    assert Record(setup, msgs, response).0 == msgs + Numbered(|msgs|, [(AssistantRole, response)] + entries);
    NumberedAppends(msgs, response, entries);
  }

  lemma NumberedAppends(msgs: seq<Message>, response: string, entries: seq<(Role, string)>)
    requires 1 <= |entries| <= 2
    requires forall i :: 0 <= i < |entries| ==> entries[i].0 == SystemRole || entries[i].0 == UserRole
    ensures var next := msgs + Numbered(|msgs|, [(AssistantRole, response)] + entries);
      |msgs| + 2 <= |next| <= |msgs| + 3 && next[..|msgs|] == msgs
      && next[|msgs|] == Message(AssistantRole, response, |msgs|)
      && (IdsConsistent(msgs) ==> IdsConsistent(next))
      && CountRole(next, AssistantRole) == CountRole(msgs, AssistantRole) + 1
      && CountRole(next, ToolRole) == CountRole(msgs, ToolRole)
  {
    var added := Numbered(|msgs|, [(AssistantRole, response)] + entries);
    var next := msgs + added;
    assert next[..|msgs|] == msgs;
    var rest := added[1..];
    assert added == [added[0]] + rest;
    assert forall i :: 0 <= i < |rest| ==> rest[i].role == entries[i].0;
    NoRoleCount(rest, AssistantRole);
    NoRoleCount(rest, ToolRole);
    CountRoleAppend(msgs, added, AssistantRole);
    CountRoleAppend(msgs, added, ToolRole);
    CountRoleAppend([added[0]], rest, AssistantRole);
    CountRoleAppend([added[0]], rest, ToolRole);
    assert CountRole([added[0]], AssistantRole) == 1 && CountRole([added[0]], ToolRole) == 0 by {
      assert [added[0]][..0] == [];
    }
  }

  lemma {:induction false} NoRoleCount(msgs: seq<Message>, role: Role)
    requires forall i :: 0 <= i < |msgs| ==> msgs[i].role != role
    ensures CountRole(msgs, role) == 0
    decreases |msgs|
  {
    if msgs != [] {
      NoRoleCount(msgs[..|msgs| - 1], role);
    }
  }

  // ---------------------------------------------------------------------
  // Bounded iteration, for any iteration function

  /** An iteration: the next message list, and `Some(result)` when the loop returns. */
  type Iteration = seq<Message> --> (seq<Message>, Option<string>)

  /** From `msgs` on, the iteration is defined and never shrinks the list. */
  ghost predicate Closed(step: Iteration, msgs: seq<Message>)
  {
    forall m :: |msgs| <= |m| ==> step.requires(m) && |m| <= |step(m).0|
  }

  /** Run `step` at most `remaining` times, stopping at the first result. */
  function Iterate(step: Iteration, msgs: seq<Message>, remaining: nat): (seq<Message>, Option<string>)
    requires Closed(step, msgs)
    decreases remaining
  {
    if remaining == 0 then (msgs, None)
    else
      var (next, finished) := step(msgs);
      if finished.Some? then (next, finished) else Iterate(step, next, remaining - 1)
  }

  /** The message list after `k` iterations, whether or not one of them would have returned. */
  function Trace(step: Iteration, msgs: seq<Message>, k: nat): (r: seq<Message>)
    requires Closed(step, msgs)
    ensures |msgs| <= |r|
  {
    if k == 0 then msgs else step(Trace(step, msgs, k - 1)).0
  }

  /** Iteration `k` (counting from 0) returns. */
  ghost predicate FinishesAt(step: Iteration, msgs: seq<Message>, k: nat)
    requires Closed(step, msgs)
  {
    step(Trace(step, msgs, k)).1.Some?
  }

  /** An iteration with `rest + 1` left takes one step and goes on with `rest`,
      unless that step returned. */
  lemma IterateNext(step: Iteration, msgs: seq<Message>, remaining: nat, rest: nat)
    requires Closed(step, msgs) && remaining == rest + 1
    ensures Closed(step, step(msgs).0)
    ensures Iterate(step, msgs, remaining)
            == if step(msgs).1.Some? then step(msgs) else Iterate(step, step(msgs).0, rest)
  {
  }

  lemma ClosedLater(step: Iteration, msgs: seq<Message>, m: seq<Message>)
    requires Closed(step, msgs) && |msgs| <= |m|
    ensures Closed(step, m)
  {
  }

  /** When none of the first `k` iterations returns, the loop with `k + rest`
      iterations left is the loop from the list after `k` iterations with `rest` left. */
  lemma {:induction false} IterateSkip(step: Iteration, msgs: seq<Message>, k: nat, rest: nat, total: nat)
    requires Closed(step, msgs) && total == k + rest
    requires forall j :: 0 <= j < k ==> !FinishesAt(step, msgs, j)
    ensures Closed(step, Trace(step, msgs, k))
    ensures Iterate(step, msgs, total) == Iterate(step, Trace(step, msgs, k), rest)
    decreases k
  {
    ClosedLater(step, msgs, Trace(step, msgs, k));
    if k == 0 {
      assert total == rest;
    } else {
      var before := Trace(step, msgs, k - 1);
      IterateSkip(step, msgs, k - 1, rest + 1, total);
      assert !FinishesAt(step, msgs, k - 1);
      IterateNext(step, before, rest + 1, rest);
    }
  }

  /** The loop returns at its first returning iteration, with that iteration's result. */
  lemma IterateFirst(step: Iteration, msgs: seq<Message>, n: nat, k: nat)
    requires Closed(step, msgs) && k < n
    requires FinishesAt(step, msgs, k) && forall j :: 0 <= j < k ==> !FinishesAt(step, msgs, j)
    ensures Iterate(step, msgs, n) == step(Trace(step, msgs, k))
  {
    var rest: nat := n - k;
    IterateSkip(step, msgs, k, rest, n);
    IterateNext(step, Trace(step, msgs, k), rest, rest - 1);
  }

  /** A returning iteration has a first one. */
  lemma {:induction false} FirstFinish(step: Iteration, msgs: seq<Message>, k: nat)
    requires Closed(step, msgs) && FinishesAt(step, msgs, k)
    ensures exists j :: 0 <= j <= k && FinishesAt(step, msgs, j) && forall i :: 0 <= i < j ==> !FinishesAt(step, msgs, i)
    decreases k
  {
    if exists i :: 0 <= i < k && FinishesAt(step, msgs, i) {
      var i :| 0 <= i < k && FinishesAt(step, msgs, i);
      FirstFinish(step, msgs, i);
    }
  }

  /** The loop returns exactly when one of its first `n` iterations returns, and
      then at the first such iteration, with that iteration's result; otherwise
      it stops after exactly `n` iterations. */
  lemma IterateCharacterization(step: Iteration, msgs: seq<Message>, n: nat)
    requires Closed(step, msgs)
    ensures Iterate(step, msgs, n).1.None? <==> forall k :: 0 <= k < n ==> !FinishesAt(step, msgs, k)
    ensures Iterate(step, msgs, n).1.None? ==> Iterate(step, msgs, n).0 == Trace(step, msgs, n)
    ensures forall k :: (0 <= k < n && FinishesAt(step, msgs, k) && forall j :: 0 <= j < k ==> !FinishesAt(step, msgs, j))
                        ==> Iterate(step, msgs, n) == step(Trace(step, msgs, k))
  {
    if forall k :: 0 <= k < n ==> !FinishesAt(step, msgs, k) {
      IterateSkip(step, msgs, n, 0, n);
    } else {
      var k :| 0 <= k < n && FinishesAt(step, msgs, k);
      FirstFinish(step, msgs, k);
      var j :| 0 <= j <= k && FinishesAt(step, msgs, j) && forall i :: 0 <= i < j ==> !FinishesAt(step, msgs, i);
      IterateFirst(step, msgs, n, j);
    }
    forall k | 0 <= k < n && FinishesAt(step, msgs, k) && forall j :: 0 <= j < k ==> !FinishesAt(step, msgs, j)
      ensures Iterate(step, msgs, n) == step(Trace(step, msgs, k))
    {
      IterateFirst(step, msgs, n, k);
    }
  }

  /** An iteration from `m` keeps the list, adds at least two messages, exactly
      one of them an assistant message and none a "tool" message, and keeps ids
      consistent. */
  ghost predicate OneResponse(step: Iteration, m: seq<Message>)
    requires step.requires(m)
  {
    var next := step(m).0;
    |m| + 2 <= |next| && next[..|m|] == m
    && CountRole(next, AssistantRole) == CountRole(m, AssistantRole) + 1
    && CountRole(next, ToolRole) == CountRole(m, ToolRole)
    && (IdsConsistent(m) ==> IdsConsistent(next))
  }

  /** From `msgs` on, every iteration is such an iteration. */
  ghost predicate OneResponsePerStep(step: Iteration, msgs: seq<Message>)
  {
    Closed(step, msgs)
    && forall m {:trigger OneResponse(step, m)} :: |msgs| <= |m| ==> OneResponse(step, m)
  }

  /** `k` iterations add exactly `k` assistant messages and never a "tool" message. */
  lemma {:induction false} TraceCounts(step: Iteration, msgs: seq<Message>, k: nat)
    requires OneResponsePerStep(step, msgs)
    ensures var t := Trace(step, msgs, k);
      CountRole(t, AssistantRole) == CountRole(msgs, AssistantRole) + k
      && CountRole(t, ToolRole) == CountRole(msgs, ToolRole)
      && |msgs| + 2 * k <= |t| && t[..|msgs|] == msgs
      && (IdsConsistent(msgs) ==> IdsConsistent(t))
    decreases k
  {
    if k > 0 {
      var before := Trace(step, msgs, k - 1);
      TraceCounts(step, msgs, k - 1);
      assert OneResponse(step, before);
      var t := Trace(step, msgs, k);
      assert t[..|msgs|] == t[..|before|][..|msgs|];
    }
  }

  // ---------------------------------------------------------------------
  // The agent's iteration is such a step

  lemma StepFnClosed(setup: Setup, msgs: seq<Message>)
    requires setup.systemId < |msgs|
    ensures Closed(StepFn(setup), msgs)
  {
  }

  lemma StepFnCounts(setup: Setup, msgs: seq<Message>)
    requires setup.systemId < |msgs|
    ensures OneResponsePerStep(StepFn(setup), msgs)
  {
    StepFnClosed(setup, msgs);
    forall m | |msgs| <= |m|
      ensures StepFn(setup).requires(m) && OneResponse(StepFn(setup), m)
    {
      var next := Step(setup, m);
      assert StepFn(setup)(m) == next;
      StepAppends(setup, m);
    }
  }

  /** The agent's loop with `rest + 1` iterations left takes one iteration and
      goes on with `rest`, unless that iteration returned; with none left it
      stops where it is. */
  lemma LoopNext(setup: Setup, msgs: seq<Message>, remaining: nat, rest: nat)
    requires setup.systemId < |msgs| && remaining == rest + 1
    ensures var (next, finished) := Step(setup, msgs);
      Loop(setup, msgs, remaining) == if finished.Some? then (next, finished) else Loop(setup, next, rest)
  {
    StepFnClosed(setup, msgs);
    IterateNext(StepFn(setup), msgs, remaining, rest);
  }

  lemma LoopDone(setup: Setup, msgs: seq<Message>)
    requires setup.systemId < |msgs|
    ensures Loop(setup, msgs, 0) == (msgs, None)
  {
  }

  // ---------------------------------------------------------------------
  // run

  /** `run` raises `ValueError` exactly for a non-positive step count, and then
      changes nothing. */
  lemma RunRejects(setup: Setup, msgs: seq<Message>, userId: int, task: string, maxSteps: int)
    requires setup.systemId < |msgs| && 0 <= userId < |msgs|
    ensures var (final, outcome) := Run(setup, msgs, userId, task, maxSteps);
      (outcome.InvalidMaxSteps? <==> maxSteps <= 0)
      && (maxSteps <= 0 ==> final == msgs)
  {
  }

  /** For a positive step count, `run` writes the stripped task into the user
      message, leaves the other messages as they are, and runs the loop for
      `min(max_steps, 100)` iterations: it returns the loop's result when an
      iteration calls a "finish" tool, and otherwise raises `LimitsExceeded`
      naming that number, after one assistant message per iteration. */
  lemma RunCharacterization(setup: Setup, msgs: seq<Message>, userId: int, task: string, maxSteps: int)
    requires setup.systemId < |msgs| && 0 <= userId < |msgs| && maxSteps > 0
    ensures var (final, outcome) := Run(setup, msgs, userId, task, maxSteps);
      var n := StepBudget(maxSteps);
      var start := WithContent(msgs, userId, Strip(task));
      var (looped, finished) := Loop(setup, start, n);
      final == looped
      && (outcome.Finished? <==> finished.Some?)
      && (finished.Some? ==> outcome.result == finished.value)
      && (finished.None? ==>
            outcome.LimitsExceeded?
            && outcome.message == "Reached " + NatToString(n) + " steps without calling finish."
            && CountRole(final, AssistantRole) == CountRole(msgs, AssistantRole) + n)
  {
    var (final, outcome) := Run(setup, msgs, userId, task, maxSteps);
    var n := StepBudget(maxSteps);
    var start := WithContent(msgs, userId, Strip(task));
    var (looped, finished) := Loop(setup, start, n);
    assert final == looped && (outcome.Finished? <==> finished.Some?)
           && (finished.Some? ==> outcome.result == finished.value)
           && (finished.None? ==> outcome == LimitsExceeded("Reached " + NatToString(n) + " steps without calling finish."));
    assert finished.None? ==> CountRole(looped, AssistantRole) == CountRole(msgs, AssistantRole) + n by {
      LoopCharacterization(setup, start, n);
      SameRolesCount(start, msgs, AssistantRole);
    }
  }

  /** The agent's loop: it returns at the first iteration that calls a "finish"
      tool, with that iteration's result, and otherwise stops after exactly `n`
      iterations with `n` more assistant messages. */
  lemma LoopCharacterization(setup: Setup, start: seq<Message>, n: nat)
    requires setup.systemId < |start|
    ensures Closed(StepFn(setup), start)
    ensures var (final, finished) := Loop(setup, start, n);
      var step := StepFn(setup);
      (finished.None? <==> forall k :: 0 <= k < n ==> !FinishesAt(step, start, k))
      && (finished.None? ==>
            final == Trace(step, start, n)
            && CountRole(final, AssistantRole) == CountRole(start, AssistantRole) + n)
      && (forall k :: (0 <= k < n && FinishesAt(step, start, k) && forall j :: 0 <= j < k ==> !FinishesAt(step, start, j))
            ==> (final, finished) == step(Trace(step, start, k)))
  {
    var step := StepFn(setup);
    StepFnClosed(setup, start);
    IterateCharacterization(step, start, n);
    assert CountRole(Trace(step, start, n), AssistantRole) == CountRole(start, AssistantRole) + n by {
      StepFnCounts(setup, start);
      TraceCounts(step, start, n);
    }
  }

  lemma {:induction false} SameRolesCount(a: seq<Message>, b: seq<Message>, role: Role)
    requires |a| == |b| && forall i :: 0 <= i < |a| ==> a[i].role == b[i].role
    ensures CountRole(a, role) == CountRole(b, role)
    decreases |a|
  {
    if a != [] {
      SameRolesCount(a[..|a| - 1], b[..|b| - 1], role);
    }
  }

  /** A response that is a rendered `finish(result=...)` call ends the loop with that
      result, whatever thought precedes the call. */
  lemma RenderedFinishEnds(setup: Setup, msgs: seq<Message>, thought: string, result: string)
    requires setup.systemId < |msgs|
    requires setup.parse == ParseCall
    requires "finish" in setup.table.byName && setup.table.byName["finish"].invoke == FinishCall
    requires IsStripped(result) && CallFormat.Clean(result)
    requires Response(setup, msgs) == CallFormat.RenderCall(thought, "finish", [("result", result)])
    ensures Step(setup, msgs).1 == Some(result)
  {
    var response := Response(setup, msgs);
    assert setup.parse(response) == Ok(ParsedCall(Strip(thought), "finish", map["result" := result])) by {
      CallFormat.FinishRoundTrip(thought, result);
    }
    assert FinishCall(map["result" := result]) == Returned(result);
    assert Contains("finish", "finish") by {
      assert OccursAt("finish", "finish", 0);
    }
    StepFinishes(setup, msgs);
  }
}
