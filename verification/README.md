# A ReAct agent and its textual function-call protocol, in Dafny

This project models the core of a minimal Reason-Act software-engineering
agent. The agent alternates between two things. It asks a language model for
reasoning text that ends in exactly one tool call, and it executes that call.
It stops when a `finish` tool is called or when a step budget runs out.

The model covers two parts of the agent.

- **The response parser** (`response_parser.py`):
  - the four delimiter constants and the response-format template;
  - `parse`, which finds the last `----END_FUNCTION_CALL----`, then the last
    `----BEGIN_FUNCTION_CALL----` before it, strips the call block, splits it
    on `----ARG----`, and splits each argument section on the first
    `----VALUE----`. Later duplicate argument names overwrite earlier ones.
- **`ReactAgent`** (`agent.py`):
  - the append-only message list, whose ids equal list positions, and
    `set_message_content`;
  - the tool registry, a dictionary with insertion order where the last
    registration wins;
  - the mandatory `finish` tool;
  - `message_id_to_context`: the header, truncation of older `tool` messages
    above 4096 characters to 2048 + marker + 2048, and the system entry
    followed by the tool descriptions and the response format;
  - `get_context`;
  - the control flow of `run`: validating and capping `max_steps`, building
    the request, and handling the parse error, unknown tool, tool failure,
    tool message and `finish` check.

Files:

- `results.dfy`: `Option` and `Result`.
- `text.dfy`: the Python string operations the source relies on, specified
  by what they return:
  - `strip` and its whitespace set;
  - `find`, `rfind` and `rfind` with an end bound;
  - `split` on every occurrence (the single cut of `split(sep, 1)` is
    `find` plus slicing, in `ResponseParser.SectionEntry`);
  - `in` on strings;
  - decimal rendering of integers.
- `response_parser.py` in Dafny:
  - `response_parser.dfy`: the parser as functions, plus the `parse` method
    with its argument loop proved against them;
  - `call_format.dfy`: the rendering the response format prescribes, and the
    round trip through the parser.
- `agent_context.dfy`: messages, the tool table, the `finish` tool,
  `message_id_to_context`, `get_context` and the request sent to the model,
  all on values.
- `agent_loop.dfy`: one iteration of `run` and the bounded loop, as functions
  of the message list, with a generic characterisation of "iterate until
  finished".
- `agent.dfy`: the `ReactAgent` class. Its fields are updated in place, and
  each method is proved to compute exactly the value-level function for it.

Points of `agent.py`'s behaviour the model keeps:

- Every message `run` records after the assistant's response has role
  `system` or `user`; the tool message is added with role `user`.
  `AgentLoop.TraceCounts` and `AgentLoop.StepAppends` state that the number of
  `tool` messages never changes in a run. So truncation never fires for a
  message `run` records. A `tool` message added with `add_message` before
  `run` is truncated once `run` appends after it (`AgentContext.RenderStable`).
- The request is one entry per message, with the system entry repeated last.
- The context is every message.
- The parser's argument values go to the tool as they are.
- `run` returns as soon as the called tool's name contains `finish`. This
  holds even when that tool raised, in which case `run` returns the
  `Kind: detail` text.
- `max_steps` is capped at 100, and the error raised when the cap is reached
  names the capped count.

## Model

| member | source | states |
|---|---|---|
| Text.Strip | response_parser.py:60-61 | the result has no leading or trailing whitespace, is empty exactly when the input is all whitespace, and (`StripIsSlice`) is a slice of the input with only whitespace cut on either side |
| Text.RFind | response_parser.py:52-54 | -1 exactly when the end marker does not occur; otherwise an occurrence with no later one |
| Text.RFindBefore | response_parser.py:56-58 | -1 or an occurrence ending at or before the bound; every occurrence ending by the bound is at or before it |
| Text.Find | response_parser.py:78-80 | -1 exactly when the separator does not occur; otherwise its first occurrence |
| Text.Split | response_parser.py:67 | at least one part; joining the parts with the separator gives back the input; no part contains the separator |
| Text.SplitCutsAtFirst | response_parser.py:67 | every cut is at the leftmost occurrence of the separator in what remains, so with `Join` the pieces are determined even for the self-overlapping `----ARG----` |
| ResponseParser.Parse | response_parser.py:40-89 | returns the result of the parse specification; a parsed name is non-empty, stripped and free of `----ARG----` |
| ResponseParser.CollectLoop | response_parser.py:74-85 | the argument loop returns the fold of the section entries: the first error, or the map they build |
| ResponseParser.SectionEntryCases | response_parser.py:76-79 | a section is skipped exactly when it is all whitespace; it fails with the missing-separator error exactly when it is not blank and has no `----VALUE----` |
| ResponseParser.SectionEntrySplit | response_parser.py:80-85 | a section is cut at the first `----VALUE----`; the name is empty exactly when the part before it is blank; otherwise the entry is the stripped name and the stripped value |
| ResponseParser.SectionErrorKinds | response_parser.py:76-83 | a section fails only with the missing-separator or empty-name error |
| ResponseParser.CollectErrorKinds | response_parser.py:74-85 | the argument loop fails only with one of those two errors |
| ResponseParser.FoldFailsAtFirstError | response_parser.py:74-85 | the loop fails exactly when some section fails, and with the error of the first failing section |
| ResponseParser.FoldKeysAndLastWins | response_parser.py:74-85 | the keys are exactly the names of the sections; every value comes from a section with that name; the last section with a name decides its value |
| ResponseParser.ParseMissingEnd | response_parser.py:52-54 | parse fails with the missing-end error exactly when the text has no end marker |
| ResponseParser.ParseMissingBegin | response_parser.py:56-58 | parse fails with the missing-begin error exactly when there is an end marker but no begin marker ends at or before its last occurrence |
| ResponseParser.ParseUsesLastBlock | response_parser.py:52-63 | given the last end marker and the last begin marker before it, the thought is the stripped prefix and the block is the text strictly between them |
| ResponseParser.ParseIgnoresTrailingText | response_parser.py:52-61 | text after the last end marker does not change the result |
| ResponseParser.ParseEmptyBlock | response_parser.py:61-63 | parse fails with the empty-block error exactly when the text between the markers is all whitespace |
| ResponseParser.ParseBlockName | response_parser.py:67-70 | the name is the stripped text before the first `----ARG----`; parse fails with the missing-name error exactly when that text is blank |
| ResponseParser.ParseBlockError | response_parser.py:60-89 | once the markers are found, the missing-marker errors cannot occur |
| CallFormat.RoundTrip | response_parser.py:15-29 | a call rendered in the response format, with a clean name and clean arguments, parses to the stripped thought, that name and the map of its arguments |
| CallFormat.ToMapContents | response_parser.py:85 | the arguments map has exactly the rendered names as keys; the last occurrence of a name gives its value |
| CallFormat.LastCallWins | response_parser.py:52-61 | with two rendered calls in one text, the parse returns the second one's name and arguments, and the first call is part of the thought |
| CallFormat.FinishRoundTrip | response_parser.py:15-29 | a rendered `finish(result=...)` call parses to name `finish` with the single argument `result` |
| AgentContext.ToolTable.Register | agent.py:132 | the name now maps to the new tool; every other name keeps its tool; the registration order only grows; the table stays well formed |
| AgentContext.FinishCall | agent.py:134-143 | `finish` returns exactly when its only keyword argument is `result`, and then returns that argument unchanged |
| AgentContext.Truncated | agent.py:253-257 | an over-long content is shown as its first 2048 characters, a marker naming `len - 4096` dropped characters, and its last 2048 characters |
| AgentContext.ShownContent | agent.py:248-257 | the content is shown verbatim unless the message is a `tool` message that is not the last one and is longer than 4096 characters; then it is truncated |
| AgentContext.RenderStable | agent.py:249-257 | appending a message changes no earlier message's rendering, except a long last `tool` message, which then becomes truncated |
| AgentContext.RenderLayout | agent.py:239-274 | every rendering is the message's header, its shown content and a newline; only `tool` content can be shortened; the system message's content is shown whole and followed by the tools and response-format section |
| AgentContext.DescriptionsInOrder | agent.py:260-265 | the tool descriptions are one per registered name, in registration order, each the tool's name, signature and docstring |
| AgentContext.SystemListsTools | agent.py:259-272 | the section after the system message lists every registered tool exactly in registration order, joined by newlines, between its headings, followed by the response format |
| AgentContext.ContextOmitsSystem | agent.py:105-116 | the context with and without the system entry differ exactly by that entry and its newline |
| AgentContext.RequestShape | agent.py:173-176 | the request has one entry per message, each with the message's role and rendering, followed by the system entry |
| AgentContext.Append | agent.py:85-93 | appending keeps earlier messages, adds exactly one message carrying the given role and content with the next id, and keeps ids consistent |
| AgentContext.WithContent | agent.py:101-103 | only the content of the chosen message changes; roles and ids are kept |
| AgentLoop.StepBudget | agent.py:164-166 | the step budget is `max_steps` capped at 100, and is between 1 and both of those |
| AgentLoop.StepFinishes | agent.py:199-235 | an iteration returns exactly when the response parses to a registered tool whose name contains `finish`; it returns that tool's result text, also when the tool raised |
| AgentLoop.ReactionShape | agent.py:180-232 | each response adds one or two `system` or `user` messages; when the iteration returns, the last of them is the `user` tool message |
| AgentLoop.StepAppends | agent.py:170-232 | an iteration keeps the history, records the response as the next assistant message, adds two or three messages in all, keeps ids consistent, adds one assistant message and no `tool` message |
| AgentLoop.IterateCharacterization | agent.py:170-237 | a bounded loop ends without a result exactly when no iteration returns within the budget, and then it has run them all; otherwise its result is that of the first iteration that returns |
| AgentLoop.TraceCounts | agent.py:170-232 | after k iterations that do not return, the history has k more assistant messages, no more `tool` messages, at least 2k more messages and unchanged earlier entries |
| AgentLoop.LoopCharacterization | agent.py:170-237 | the agent's loop returns the first finishing iteration's result; without one it runs every iteration and records one assistant message per step |
| AgentLoop.RunRejects | agent.py:164-165 | `run` fails with the invalid-step-count error exactly when `max_steps` is not positive, and then changes nothing |
| AgentLoop.RunCharacterization | agent.py:164-237 | `run` writes the stripped task into the user message and loops for the capped budget; it returns the finishing result, or `LimitsExceeded` naming the budget after that many assistant messages |
| AgentLoop.RenderedFinishEnds | agent.py:199-235 | with the shipped parser and `finish` tool, a response ending in a rendered `finish(result=...)` call ends the run with that result |
| Agent.FirstNotCallable | agent.py:129-131 | the position of the first non-callable candidate: every candidate before it is callable |
| Agent.RegisterAllStops | agent.py:129-132 | `add_functions` raises exactly when some candidate is not callable, names the first one, and has registered the candidates before it |
| Agent.RegisterAllKeepsOrder | agent.py:129-132 | registering keeps the table well formed and only extends the registration order |
| Agent.RegisterAllNames | agent.py:129-132 | after registering callable tools, the names are the earlier ones plus theirs |
| Agent.RegisterAllLastWins | agent.py:132 | the last tool registered under a name is the one the name maps to |
| Agent.RegisterAllKept | agent.py:129-132 | a name none of the new tools uses keeps its earlier tool |
| Agent.ReactAgent.constructor | agent.py:31-74 | a new agent holds the system prompt as message 0, an empty user message as message 1, and only the `finish` tool |
| Agent.ReactAgent.AddMessage | agent.py:77-93 | the message is appended with id one past the previous one, and that id is returned |
| Agent.ReactAgent.SetMessageContent | agent.py:95-103 | an id outside `0..current_message_id` gives the out-of-range error and changes nothing; otherwise only that message's content changes |
| Agent.ReactAgent.GetContext | agent.py:105-116 | the loop returns each message's rendering and a newline in id order, skipping the system message when asked |
| Agent.ReactAgent.AddFunctions | agent.py:119-132 | the loop registers exactly what the specification function registers and reports the same error |
| Agent.ReactAgent.ActOn | agent.py:180-235 | parsing, dispatching and recording a response update the messages exactly as the iteration function says, and report whether `run` returns |
| Agent.ReactAgent.CallTool | agent.py:211-235 | calling a registered tool adds the failure notice when it raised and then the `user` tool message, exactly as the iteration function says, and reports its result text exactly when the name contains `finish` |
| Agent.ReactAgent.StepOnce | agent.py:170-235 | one pass of the loop body updates the messages exactly as one iteration of the specification does |
| Agent.ReactAgent.Run | agent.py:146-237 | `run` ends with the message list and outcome of the specification of `run`, whose properties are proved above |

## Left out

- The language model is a function from the request to the response text. The network call, retries and the `LLM` class itself are not part of this model.
- Tools are values with a name, a signature string, a docstring and a function from keyword arguments to either a returned text or a raised `Kind: detail`. Shell execution, the patch snapshot taken by a harness, `inspect.signature` and `inspect.getdoc` are not modelled. The signature and docstring are given as strings.
- `str(tool_result)` for non-text results is not modelled: tools return text.
- How the arguments dictionary is shown in the tool message (Python's `str` of a `dict`) is a parameter of the run, `showArgs`.
- `FinishCall`: the `TypeError` wording Python produces for bad keyword arguments is approximate. Only the returned/raised distinction and the returned value are exact.
- Timestamps, the debug `print` calls and the unused `system_context` / `conversation_context` locals of `run` are left out. They produce no state the loop uses.
- `root_message_id` is a constant field fixed at -1, and `name` is a constant field; neither is read by any operation. The `messages` alias of `id_to_message` is not a second field: `messages` is that one list.
- The parser is a field of the agent, a function from text to a parse result. `ResponseParser.ParseCall` is the parser the project ships, and `AgentLoop.RenderedFinishEnds` relates the two.
- The `isinstance(text, str)` check in `parse` is not modelled: inputs are typed strings.
- `SetMessageContent` rejects negative ids before any indexing, as `set_message_content` does.
- `MessageToContext`: Python's `message_id_to_context` also accepts a negative id and indexes from the end. With -1 it renders the last message but compares -1 with the last position, so a last `tool` message over 4096 characters would be truncated. The model requires `0 <= id < |messages|`, which every call in `get_context` and `run` satisfies. `MessageToContext` has no contract of its own: it is the class's view of `AgentContext.RenderMessage`, whose properties are `RenderLayout`, `SystemListsTools`, `ShownContent`, `Truncated` and `RenderStable`.
- `ParsedCall.arguments` is a map, so the insertion order of the Python dictionary is dropped. The tool message prints that dictionary, and its key order follows the order of the sections. The model's `showArgs` sees only the map, so a rendering that depends on key order is not captured. Tools receive keyword arguments, for which order does not matter.
